/** `StratifiedNumericDistribution`: learning fits the encoding pipeline, a
    regressor for the expected value, and one Normal residual distribution per
    stratum (a value of the stratifying column); sampling adds a residual draw
    to the prediction under the positivity safety nets. The scalers, the
    regressor and the Normal fit are the supplied `Fitters`; residual draws
    come from a supplied sampler. */
module Stratified {
  import opened Wrappers
  import opened Seqs
  import opened Distributions
  import opened Encoding

  /** A stratum needs more residuals than this for a dedicated fit. */
  const MinStratumSize: nat := 50

  /** Redraws of the residual after the first one. */
  const MaxRetries: nat := 10

  /** A stratum's residual distribution: the one shared "overall" object, or
      a distribution of its own. */
  datatype Entry = Shared | Owned(dist: Normal)

  function Resolve(e: Entry, overall: Normal): Normal {
    match e
    case Shared => overall
    case Owned(d) => d
  }

  datatype Config = Config(
    target: Column,
    features: seq<Column>,
    onehot: seq<Column>,
    standardization: seq<Column>,
    stratifier: Column)

  /** `max_error_std`: absent, or a distribution whose k-th draw caps the
      k-th stratum (as a fraction of that stratum's mean target). */
  datatype CapPolicy = NoCap | CapFrom(draw: nat -> real)

  /** `hidden_layer_sizes` of the MLPRegressor. */
  datatype HiddenLayers = HiddenLayers(first: nat, second: nat, third: nat)

  /** The fixed recipe (d, int(d / 2), int(d / 4)) for input width d. */
  function Architecture(d: nat): (h: HiddenLayers)
    ensures h.first == d && 2 * h.second <= d < 2 * h.second + 2 && 4 * h.third <= d < 4 * h.third + 4
  {
    HiddenLayers(d, d / 2, d / 4)
  }

  /** A trained regressor: encoded row to predicted value. */
  type Regressor = seq<real> -> real

  /** The foreign fitting procedures: sklearn's scalers and MLPRegressor, and
      scipy's Normal fit. */
  datatype Fitters = Fitters(
    fitStandardizer: (seq<Row>, seq<Column>) -> ColumnTransform,
    fitNormalizer: (seq<Row>, seq<Column>) -> ColumnTransform,
    trainRegressor: (HiddenLayers, seq<seq<real>>, seq<real>) -> Regressor,
    fitNormal: seq<real> -> Normal)

  datatype Model = Model(
    config: Config,
    pipeline: Pipeline,
    regressor: Regressor,
    overallMean: real,
    overall: Normal,
    errors: map<Value, Entry>)

  /** The table holds everything `learn` selects: the feature, target and
      stratifier columns, a numeric target, and standardization and one-hot
      columns among the features; it is not empty; the scalers receive only
      numbers; and no one-hot column mixes numbers with text. */
  predicate Learnable(data: seq<Row>, cfg: Config) {
    && |data| > 0
    && Selectable(data, cfg)
    && (forall i :: 0 <= i < |data| ==> cfg.target in data[i] && data[i][cfg.target].Num?)
    && ScalableFeatures(data, cfg)
    && UniformCategories(data, cfg)
  }

  /** Every feature and the stratifier column are there, and the explicit
      lists name feature columns. */
  predicate Selectable(data: seq<Row>, cfg: Config) {
    && (forall c :: c in cfg.standardization ==> c in cfg.features)
    && (forall c :: c in cfg.onehot ==> c in cfg.features)
    && (forall i, c :: 0 <= i < |data| && c in cfg.features ==> c in data[i])
    && (forall i :: 0 <= i < |data| ==> cfg.stratifier in data[i])
  }

  /** The cells the StandardScaler and the MinMaxScaler convert to floats
      are numbers. */
  predicate ScalableFeatures(data: seq<Row>, cfg: Config)
    requires Selectable(data, cfg)
  {
    forall i, c :: 0 <= i < |data| && c in cfg.features && (c in cfg.standardization || c !in cfg.onehot) ==>
      data[i][c].Num?
  }

  /** Every row holds the one-hot columns. */
  predicate OneHotPresent(data: seq<Row>, cfg: Config) {
    forall i, c :: 0 <= i < |data| && c in cfg.onehot ==> c in data[i]
  }

  /** Each one-hot column holds only numbers or only text, as the encoder's
      sorting of the categories needs. */
  predicate UniformCategories(data: seq<Row>, cfg: Config)
    requires OneHotPresent(data, cfg)
  {
    forall i, j, c :: 0 <= i < |data| && 0 <= j < |data| && c in cfg.onehot ==>
      data[i][c].Num? == data[j][c].Num?
  }

  /** Every row holds the feature and target columns. */
  predicate FeaturesAndTargetPresent(data: seq<Row>, cfg: Config) {
    forall i :: 0 <= i < |data| ==> cfg.target in data[i] && forall c :: c in cfg.features ==> c in data[i]
  }

  /** Every row holds a number in each of the columns. */
  predicate NumericColumns(data: seq<Row>, cols: seq<Column>) {
    forall i :: 0 <= i < |data| ==> NumericCells(cols, data[i])
  }

  /** Every listed column is a feature column. */
  predicate AmongFeatures(cols: seq<Column>, cfg: Config) {
    forall c :: c in cols ==> c in cfg.features
  }

  /** The exception `learn` raises, if any, in the order the code meets
      them: the feature and target selection (lines 191-192), the target's
      mean (205), the standard scaler (209), the min-max scaler (214), the
      one-hot encoder (219), the regressor (225-226) and the stratifier
      selection (229). A block without columns skips its scaler. */
  function LearnFailure(data: seq<Row>, cfg: Config): Option<Error> {
    var rest := RestColumns(cfg.features, cfg.standardization, cfg.onehot);
    if !FeaturesAndTargetPresent(data, cfg) then Some(MissingColumn)
    else if !(forall i :: 0 <= i < |data| ==> data[i][cfg.target].Num?) then Some(NonNumericTarget)
    else if |cfg.standardization| > 0 && !AmongFeatures(cfg.standardization, cfg) then Some(MissingColumn)
    else if |cfg.standardization| > 0 && |data| == 0 then Some(EmptyInput)
    else if !NumericColumns(data, cfg.standardization) then Some(NonNumericFeature)
    else if |rest| > 0 && |data| == 0 then Some(EmptyInput)
    else if !NumericColumns(data, rest) then Some(NonNumericFeature)
    else if |cfg.onehot| > 0 && !AmongFeatures(cfg.onehot, cfg) then Some(MissingColumn)
    else if |cfg.onehot| > 0 && |data| == 0 then Some(EmptyInput)
    else if !UniformCategories(data, cfg) then Some(MixedCategories)
    else if Architecture(TrainingWidth(data, cfg)).third == 0 then Some(EmptyHiddenLayer)
    else if |data| == 0 then Some(EmptyInput)
    else if !(forall i :: 0 <= i < |data| ==> cfg.stratifier in data[i]) then Some(MissingColumn)
    else None
  }

  /** The fitted pipeline: the rest columns derived from the two explicit
      lists, each scaler fitted on its own columns. */
  function FitPipeline(data: seq<Row>, cfg: Config, fit: Fitters): (p: Pipeline)
    requires Learnable(data, cfg)
    ensures WellFormed(p)
    ensures forall i :: 0 <= i < |data| ==> Encodable(p, data[i])
    ensures Width(p) == |cfg.standardization| + |RestColumns(cfg.features, cfg.standardization, cfg.onehot)|
                        + OneHotWidth(cfg.onehot, FitCategories(data, cfg.onehot))
  {
    var rest := RestColumns(cfg.features, cfg.standardization, cfg.onehot);
    var p := Pipeline(cfg.standardization, rest, cfg.onehot,
                      fit.fitStandardizer(data, cfg.standardization),
                      fit.fitNormalizer(data, rest),
                      FitCategories(data, cfg.onehot));
    forall i | 0 <= i < |data| ensures Encodable(p, data[i]) {
      StandardizedCellsNumeric(data, cfg, i);
      RestCellsNumeric(data, cfg, i);
      assert KnownCategories(p.onehot, p.categories, data[i]);
    }
    p
  }

  /** A training row holds numbers in the standardized columns. */
  lemma {:induction false} StandardizedCellsNumeric(data: seq<Row>, cfg: Config, i: nat)
    requires Selectable(data, cfg) && ScalableFeatures(data, cfg) && i < |data|
    ensures NumericCells(cfg.standardization, data[i])
  {
  }

  /** A training row holds numbers in the min-max columns. */
  lemma {:induction false} RestCellsNumeric(data: seq<Row>, cfg: Config, i: nat)
    requires Selectable(data, cfg) && ScalableFeatures(data, cfg) && i < |data|
    ensures NumericCells(RestColumns(cfg.features, cfg.standardization, cfg.onehot), data[i])
  {
  }

  /** The target column as numbers. */
  function Targets(data: seq<Row>, target: Column): (ys: seq<real>)
    requires forall i :: 0 <= i < |data| ==> target in data[i] && data[i][target].Num?
    ensures |ys| == |data|
    ensures forall i :: 0 <= i < |data| ==> ys[i] == data[i][target].x
  {
    seq(|data|, i requires 0 <= i < |data| => data[i][target].x)
  }

  /** The encoded training matrix. */
  function EncodeAll(p: Pipeline, data: seq<Row>): (xs: seq<seq<real>>)
    requires WellFormed(p)
    requires forall i :: 0 <= i < |data| ==> Encodable(p, data[i])
    ensures |xs| == |data|
    ensures forall i :: 0 <= i < |data| ==> xs[i] == EncodeRow(p, data[i]).value && |xs[i]| == Width(p)
  {
    seq(|data|, i requires 0 <= i < |data| => EncodeRow(p, data[i]).value)
  }

  /** Actual minus predicted, row by row. */
  function Residuals(ys: seq<real>, xs: seq<seq<real>>, reg: Regressor): (res: seq<real>)
    requires |ys| == |xs|
    ensures |res| == |ys|
    ensures forall i :: 0 <= i < |ys| ==> res[i] == ys[i] - reg(xs[i])
  {
    seq(|ys|, i requires 0 <= i < |ys| => ys[i] - reg(xs[i]))
  }

  /** The fit-or-reuse choice: a dedicated fit for a stratum with more than
      `MinStratumSize` residuals, the shared overall object otherwise. */
  function BaseEntry(residuals: seq<real>, fitNormal: seq<real> -> Normal): (e: Entry)
    ensures e.Owned? <==> |residuals| > MinStratumSize
    ensures e.Owned? ==> e.dist == fitNormal(residuals)
  {
    if |residuals| > MinStratumSize then Owned(fitNormal(residuals)) else Shared
  }

  /** The cap: an entry whose standard deviation exceeds `cap` is replaced by
      a zero-mean Normal with standard deviation `cap`; any other entry, shared
      or owned, is kept as it is. */
  function ApplyCap(e: Entry, overall: Normal, cap: real): (r: Entry)
    ensures Resolve(r, overall).std <= cap
    ensures Resolve(e, overall).std <= cap ==> r == e
    ensures Resolve(e, overall).std > cap ==> r == Owned(Normal(0.0, cap))
  {
    if Resolve(e, overall).std > cap then Owned(Normal(0.0, cap)) else e
  }

  /** The entry of the `j`-th stratum, given its residuals and targets.
      Without a cap policy the fit-or-reuse choice stands; with one, the
      entry's standard deviation is at most the drawn fraction of the
      stratum's mean target, and the entry is either the fit-or-reuse choice
      or exactly a zero-mean Normal with that cap. */
  function StratumEntry(residuals: seq<real>, targets: seq<real>, overall: Normal,
                        fitNormal: seq<real> -> Normal, cap: CapPolicy, j: nat): (e: Entry)
    requires |targets| > 0
    ensures cap.NoCap? ==> e == BaseEntry(residuals, fitNormal)
    ensures cap.CapFrom? ==> Resolve(e, overall).std <= cap.draw(j) * Mean(targets)
    ensures cap.CapFrom? ==>
              e == BaseEntry(residuals, fitNormal) || e == Owned(Normal(0.0, cap.draw(j) * Mean(targets)))
  {
    var base := BaseEntry(residuals, fitNormal);
    match cap
    case NoCap => base
    case CapFrom(draw) => ApplyCap(base, overall, draw(j) * Mean(targets))
  }

  /** The map a loop `for j: m[keys[j]] = values[j]` builds over distinct
      keys, after its first `n` iterations. */
  function Assign<K(==), V>(keys: seq<K>, values: seq<V>, n: nat): (m: map<K, V>)
    requires n <= |keys| == |values| && NoDuplicates(keys)
    ensures m.Keys == set j | 0 <= j < n :: keys[j]
    ensures forall j :: 0 <= j < n ==> m[keys[j]] == values[j]
  {
    if n == 0 then map[]
    else
      var m := Assign(keys, values, n - 1);
      assert (set j | 0 <= j < n :: keys[j]) == (set j | 0 <= j < n - 1 :: keys[j]) + {keys[n - 1]};
      m[keys[n - 1] := values[n - 1]]
  }

  /** The loop over the strata (`for pv in possible_values`): one entry per
      stratum, each decided from that stratum's own rows and its own cap draw. */
  function ErrorMap(strata: seq<Value>, residuals: seq<real>, targets: seq<real>,
                    keys: seq<Value>, overall: Normal, fitNormal: seq<real> -> Normal,
                    cap: CapPolicy): (m: map<Value, Entry>)
    requires NoDuplicates(strata)
    requires |residuals| == |keys| && |targets| == |keys|
    requires forall j :: 0 <= j < |strata| ==> strata[j] in keys
    ensures m.Keys == set j | 0 <= j < |strata| :: strata[j]
    ensures forall j :: 0 <= j < |strata| ==>
              m[strata[j]] == StratumEntry(Select(residuals, keys, strata[j]), Select(targets, keys, strata[j]),
                                           overall, fitNormal, cap, j)
  {
    var entries := seq(|strata|, j requires 0 <= j < |strata| =>
      StratumEntry(Select(residuals, keys, strata[j]), Select(targets, keys, strata[j]), overall, fitNormal, cap, j));
    Assign(strata, entries, |strata|)
  }

  /** The width of the encoded training rows. */
  function TrainingWidth(data: seq<Row>, cfg: Config): nat
    requires OneHotPresent(data, cfg)
  {
    |cfg.standardization| + |RestColumns(cfg.features, cfg.standardization, cfg.onehot)|
      + OneHotWidth(cfg.onehot, FitCategories(data, cfg.onehot))
  }

  /** The distinct keys index the same set of values as the keys. */
  lemma {:induction false} StrataCoverKeys(keys: seq<Value>, strata: seq<Value>)
    requires forall i :: 0 <= i < |keys| ==> keys[i] in strata
    requires forall j :: 0 <= j < |strata| ==> strata[j] in keys
    ensures (set j | 0 <= j < |strata| :: strata[j]) == (set i | 0 <= i < |keys| :: keys[i])
  {
    var a := set j | 0 <= j < |strata| :: strata[j];
    var b := set i | 0 <= i < |keys| :: keys[i];
    assert forall v :: v in a ==> v in b;
    assert forall v :: v in b ==> v in a by {
      forall v | v in b ensures v in a {
        var i :| 0 <= i < |keys| && keys[i] == v;
        var j := IndexOf(strata, v);
      }
    }
  }

  /** The stratifier column of the training table. */
  function StratumKeys(data: seq<Row>, cfg: Config): seq<Value>
    requires Learnable(data, cfg)
  {
    ColumnValues(data, cfg.stratifier)
  }

  /** The strata are exactly the values of the stratifier column. */
  lemma {:induction false} StrataAreStratifierValues(data: seq<Row>, cfg: Config)
    requires Learnable(data, cfg)
    ensures (set j | 0 <= j < |Distinct(StratumKeys(data, cfg))| :: Distinct(StratumKeys(data, cfg))[j]) ==
            (set i | 0 <= i < |data| :: data[i][cfg.stratifier])
  {
    var keys := StratumKeys(data, cfg);
    StrataCoverKeys(keys, Distinct(keys));
    assert (set i | 0 <= i < |keys| :: keys[i]) == (set i | 0 <= i < |data| :: data[i][cfg.stratifier]);
  }

  /** The fitted model, for a table `learn` accepts. */
  function Fit(data: seq<Row>, cfg: Config, cap: CapPolicy, fit: Fitters): (m: Model)
    requires Learnable(data, cfg)
    requires Architecture(TrainingWidth(data, cfg)).third > 0
    ensures m.config == cfg
    ensures m.pipeline == FitPipeline(data, cfg, fit)
    ensures m.errors.Keys == set i | 0 <= i < |data| :: data[i][cfg.stratifier]
    ensures m.overallMean == Mean(Targets(data, cfg.target))
    ensures m.regressor ==
            fit.trainRegressor(Architecture(Width(m.pipeline)), EncodeAll(m.pipeline, data), Targets(data, cfg.target))
    ensures m.overall == fit.fitNormal(Residuals(Targets(data, cfg.target), EncodeAll(m.pipeline, data), m.regressor))
  {
    var p := FitPipeline(data, cfg, fit);
    var xs := EncodeAll(p, data);
    var ys := Targets(data, cfg.target);
    var reg := fit.trainRegressor(Architecture(Width(p)), xs, ys);
    var res := Residuals(ys, xs, reg);
    var overall := fit.fitNormal(res);
    var keys := StratumKeys(data, cfg);
    var strata := Distinct(keys);
    StrataAreStratifierValues(data, cfg);
    Model(cfg, p, reg, Mean(ys), overall, ErrorMap(strata, res, ys, keys, overall, fit.fitNormal, cap))
  }

  /** `StratifiedNumericDistribution.learn`: fails as pandas or sklearn would
      on a table it cannot select from or fit, and when the encoded width
      leaves a hidden layer empty; the error is the first the code meets. */
  function Learn(data: seq<Row>, cfg: Config, cap: CapPolicy, fit: Fitters): (r: Result<Model>)
    ensures r.Err? <==> !Learnable(data, cfg) || Architecture(TrainingWidth(data, cfg)).third == 0
    ensures r.Err? ==> LearnFailure(data, cfg) == Some(r.error)
    ensures r.Ok? ==> WellFormed(r.value.pipeline) && r.value == Fit(data, cfg, cap, fit)
  {
    LearnFailureExact(data, cfg);
    match LearnFailure(data, cfg)
    case Some(e) => Err(e)
    case None => Ok(Fit(data, cfg, cap, fit))
  }

  /** `learn` raises nothing exactly on the tables `Fit` accepts: every
      column present, numbers where the scalers and the regressor need them,
      uniform one-hot columns, at least one row, and a non-empty third hidden
      layer. */
  lemma {:induction false} LearnFailureExact(data: seq<Row>, cfg: Config)
    ensures LearnFailure(data, cfg).None? <==>
              Learnable(data, cfg) && Architecture(TrainingWidth(data, cfg)).third > 0
  {
    if Learnable(data, cfg) && Architecture(TrainingWidth(data, cfg)).third > 0 {
      LearnableRaisesNothing(data, cfg);
    }
    if LearnFailure(data, cfg).None? {
      NothingRaisedLearnable(data, cfg);
    }
  }

  lemma {:induction false} LearnableRaisesNothing(data: seq<Row>, cfg: Config)
    requires Learnable(data, cfg) && Architecture(TrainingWidth(data, cfg)).third > 0
    ensures LearnFailure(data, cfg).None?
  {
    var rest := RestColumns(cfg.features, cfg.standardization, cfg.onehot);
    assert FeaturesAndTargetPresent(data, cfg);
    assert AmongFeatures(cfg.standardization, cfg) && AmongFeatures(cfg.onehot, cfg);
    forall i | 0 <= i < |data| ensures NumericCells(cfg.standardization, data[i]) && NumericCells(rest, data[i]) {
      StandardizedCellsNumeric(data, cfg, i);
      RestCellsNumeric(data, cfg, i);
    }
    assert NumericColumns(data, cfg.standardization) && NumericColumns(data, rest);
  }

  lemma {:induction false} NothingRaisedLearnable(data: seq<Row>, cfg: Config)
    requires LearnFailure(data, cfg).None?
    ensures Learnable(data, cfg) && Architecture(TrainingWidth(data, cfg)).third > 0
  {
    var rest := RestColumns(cfg.features, cfg.standardization, cfg.onehot);
    assert FeaturesAndTargetPresent(data, cfg) && |data| > 0;
    assert AmongFeatures(cfg.standardization, cfg) && AmongFeatures(cfg.onehot, cfg);
    assert NumericColumns(data, cfg.standardization) && NumericColumns(data, rest);
    assert Selectable(data, cfg);
    forall i, c | 0 <= i < |data| && c in cfg.features && (c in cfg.standardization || c !in cfg.onehot)
      ensures data[i][c].Num?
    {
      assert NumericCells(cfg.standardization, data[i]) && NumericCells(rest, data[i]);
      if c !in cfg.standardization {
        assert c in rest;
      }
    }
  }

  /** Column partition and shape: the min-max block holds exactly the rest
      columns, and every training row encodes to `TrainingWidth` columns in
      block order. */
  lemma {:induction false} LearnedPipeline(data: seq<Row>, cfg: Config, cap: CapPolicy, fit: Fitters)
    requires Learnable(data, cfg)
    requires Architecture(TrainingWidth(data, cfg)).third > 0
    ensures Learn(data, cfg, cap, fit).Ok?
    ensures var m := Learn(data, cfg, cap, fit).value;
            && m.pipeline.standardization == cfg.standardization
            && m.pipeline.rest == RestColumns(cfg.features, cfg.standardization, cfg.onehot)
            && m.pipeline.onehot == cfg.onehot
            && Width(m.pipeline) == TrainingWidth(data, cfg)
            && forall i :: 0 <= i < |data| ==>
                 EncodeRow(m.pipeline, data[i]).Ok? && |EncodeRow(m.pipeline, data[i]).value| == Width(m.pipeline)
  {
  }

  /** Map totality: the strata of the learned model are exactly the
      stratifier values of the training rows, so a training record never
      meets an unseen stratum. */
  lemma {:induction false} LearnedStrataTotal(data: seq<Row>, cfg: Config, cap: CapPolicy, fit: Fitters)
    requires Learnable(data, cfg)
    requires Architecture(TrainingWidth(data, cfg)).third > 0
    ensures Learn(data, cfg, cap, fit).Ok?
    ensures Learn(data, cfg, cap, fit).value.errors.Keys == set i | 0 <= i < |data| :: data[i][cfg.stratifier]
  {
  }

  /** The residuals of a model on its training rows. */
  function TrainingResiduals(m: Model, data: seq<Row>): (res: seq<real>)
    requires WellFormed(m.pipeline)
    requires forall i :: 0 <= i < |data| ==> Encodable(m.pipeline, data[i])
    requires forall i :: 0 <= i < |data| ==> m.config.target in data[i] && data[i][m.config.target].Num?
  {
    Residuals(Targets(data, m.config.target), EncodeAll(m.pipeline, data), m.regressor)
  }

  /** Each stratum's entry is decided from that stratum's own residuals and
      targets and the cap draw of its position among the strata; the overall
      distribution is the fit of all residuals, and the fallback mean is the
      mean target. */
  lemma {:induction false} LearnedEntries(data: seq<Row>, cfg: Config, cap: CapPolicy, fit: Fitters, k: Value)
    requires Learnable(data, cfg)
    requires Architecture(TrainingWidth(data, cfg)).third > 0
    requires k in StratumKeys(data, cfg)
    ensures Learn(data, cfg, cap, fit).Ok?
    ensures var m := Learn(data, cfg, cap, fit).value;
            var keys := StratumKeys(data, cfg);
            && k in m.errors
            && m.overallMean == Mean(Targets(data, cfg.target))
            && m.overall == fit.fitNormal(TrainingResiduals(m, data))
            && m.errors[k] == StratumEntry(Select(TrainingResiduals(m, data), keys, k),
                                           Select(Targets(data, cfg.target), keys, k),
                                           m.overall, fit.fitNormal, cap, IndexOf(Distinct(keys), k))
  {
    FittedEntry(data, cfg, cap, fit, k);
  }

  /** The same facts about the fitted model itself. */
  lemma {:induction false} FittedEntry(data: seq<Row>, cfg: Config, cap: CapPolicy, fit: Fitters, k: Value)
    requires Learnable(data, cfg)
    requires Architecture(TrainingWidth(data, cfg)).third > 0
    requires k in StratumKeys(data, cfg)
    ensures var m := Fit(data, cfg, cap, fit);
            var keys := StratumKeys(data, cfg);
            && k in m.errors
            && m.overall == fit.fitNormal(TrainingResiduals(m, data))
            && m.errors[k] == StratumEntry(Select(TrainingResiduals(m, data), keys, k),
                                           Select(Targets(data, cfg.target), keys, k),
                                           m.overall, fit.fitNormal, cap, IndexOf(Distinct(keys), k))
  {
    var m := Fit(data, cfg, cap, fit);
    var keys := StratumKeys(data, cfg);
    var ys := Targets(data, cfg.target);
    var res := Residuals(ys, EncodeAll(m.pipeline, data), m.regressor);
    assert TrainingResiduals(m, data) == res;
    assert m.errors == ErrorMap(Distinct(keys), res, ys, keys, m.overall, fit.fitNormal, cap);
    var j := IndexOf(Distinct(keys), k);
  }

  /** One call of `sample`: the value returned and how many residuals were
      drawn for it. */
  datatype Draw = Draw(value: real, draws: nat)

  /** The first safety net: a non-positive prediction is replaced by the
      training mean of the target. */
  function Baseline(m: Model, x: seq<real>): (b: real)
    ensures m.regressor(x) > 0.0 ==> b == m.regressor(x)
    ensures m.regressor(x) <= 0.0 ==> b == m.overallMean
  {
    var prediction := m.regressor(x);
    if prediction <= 0.0 then m.overallMean else prediction
  }

  /** The feature record can be sampled: it encodes, its stratum was seen
      in training, and that stratum's Normal has a standard deviation scipy
      accepts (a negative cap stores a negative one). */
  predicate Samplable(m: Model, features: Row)
    requires WellFormed(m.pipeline)
  {
    EncodeRow(m.pipeline, features).Ok? &&
    m.config.stratifier in features && features[m.config.stratifier] in m.errors &&
    Resolve(m.errors[features[m.config.stratifier]], m.overall).std >= 0.0
  }

  /** `StratifiedNumericDistribution.sample`. `sampler(d, k)` is the k-th
      residual drawn from `d` in this call. At most `MaxRetries + 1`
      residuals are drawn; every draw but the last left the sum non-positive,
      and the last is positive unless the retries ran out. The result is
      prediction + residual when positive, the bare prediction otherwise. */
  method Sample(m: Model, features: Row, sampler: (Normal, nat) -> real) returns (r: Result<Draw>)
    requires WellFormed(m.pipeline)
    ensures r.Err? <==> !Samplable(m, features)
    ensures r.Err? ==>
              r.error == (if EncodeRow(m.pipeline, features).Err? then EncodeRow(m.pipeline, features).error
                          else if m.config.stratifier !in features then MissingColumn
                          else if features[m.config.stratifier] !in m.errors then UnseenStratum
                          else NegativeScale)
    ensures r.Ok? ==> 1 <= r.value.draws <= MaxRetries + 1
    ensures r.Ok? ==>
              var base := Baseline(m, EncodeRow(m.pipeline, features).value);
              var d := Resolve(m.errors[features[m.config.stratifier]], m.overall);
              var last := sampler(d, r.value.draws - 1);
              && (forall k :: 0 <= k < r.value.draws - 1 ==> base + sampler(d, k) <= 0.0)
              && (r.value.draws <= MaxRetries ==> base + last > 0.0)
              && (base + last > 0.0 ==> r.value.value == base + last)
              && (base + last <= 0.0 ==> r.value.value == base)
    ensures r.Ok? ==> r.value.value > 0.0 || r.value.value == Baseline(m, EncodeRow(m.pipeline, features).value)
  {
    var encoded := EncodeRow(m.pipeline, features);
    if encoded.Err? {
      return Err(encoded.error);
    }
    var processingTime := Baseline(m, encoded.value);
    if m.config.stratifier !in features {
      return Err(MissingColumn);
    }
    if features[m.config.stratifier] !in m.errors {
      return Err(UnseenStratum);
    }
    var d := Resolve(m.errors[features[m.config.stratifier]], m.overall);
    if d.std < 0.0 {
      return Err(NegativeScale);
    }
    var error := sampler(d, 0);
    var retry := 0;
    while retry < MaxRetries && processingTime + error <= 0.0
      invariant 0 <= retry <= MaxRetries
      invariant error == sampler(d, retry)
      invariant forall k :: 0 <= k < retry ==> processingTime + sampler(d, k) <= 0.0
    {
      error := sampler(d, retry + 1);
      retry := retry + 1;
    }
    if processingTime + error > 0.0 {
      r := Ok(Draw(processingTime + error, retry + 1));
    } else {
      r := Ok(Draw(processingTime, retry + 1));
    }
  }

  /** A negative cap, from a negative draw or a stratum whose mean target is
      negative, stores a Normal with a negative standard deviation. No record
      of that stratum can then be sampled, since scipy refuses the draw. */
  lemma {:induction false} NegativeCapUnsamplable(data: seq<Row>, cfg: Config, cap: CapPolicy, fit: Fitters,
                                                  features: Row)
    requires Learnable(data, cfg)
    requires Architecture(TrainingWidth(data, cfg)).third > 0
    requires cap.CapFrom? && cfg.stratifier in features && features[cfg.stratifier] in StratumKeys(data, cfg)
    requires var keys, k := StratumKeys(data, cfg), features[cfg.stratifier];
             var targets := Select(Targets(data, cfg.target), keys, k);
             |targets| > 0 && cap.draw(IndexOf(Distinct(keys), k)) * Mean(targets) < 0.0
    ensures Learn(data, cfg, cap, fit).Ok?
    ensures var m := Learn(data, cfg, cap, fit).value;
            && m.config.stratifier in features && features[m.config.stratifier] in m.errors
            && Resolve(m.errors[features[m.config.stratifier]], m.overall).std < 0.0
    ensures WellFormed(Learn(data, cfg, cap, fit).value.pipeline)
    ensures !Samplable(Learn(data, cfg, cap, fit).value, features)
  {
    var k := features[cfg.stratifier];
    LearnedEntries(data, cfg, cap, fit, k);
    var m := Learn(data, cfg, cap, fit).value;
    var keys := StratumKeys(data, cfg);
    var targets := Select(Targets(data, cfg.target), keys, k);
    var j := IndexOf(Distinct(keys), k);
    NegativeCapEntry(Select(TrainingResiduals(m, data), keys, k), targets, m.overall, fit.fitNormal, cap, j);
  }

  /** A stratum whose cap is negative gets an entry with a negative
      standard deviation, whether it was fitted or shared. */
  lemma {:induction false} NegativeCapEntry(residuals: seq<real>, targets: seq<real>, overall: Normal,
                                            fitNormal: seq<real> -> Normal, cap: CapPolicy, j: nat)
    requires |targets| > 0 && cap.CapFrom? && cap.draw(j) * Mean(targets) < 0.0
    ensures Resolve(StratumEntry(residuals, targets, overall, fitNormal, cap, j), overall).std < 0.0
  {
  }

  /** Positivity: when every training target is positive, the fallback mean
      is positive, so every prediction baseline is, and with it every value
      `Sample` returns. */
  lemma {:induction false} PositiveTargetsPositiveBaseline(data: seq<Row>, cfg: Config, cap: CapPolicy, fit: Fitters, x: seq<real>)
    requires Learnable(data, cfg)
    requires Architecture(TrainingWidth(data, cfg)).third > 0
    requires forall i :: 0 <= i < |data| ==> data[i][cfg.target].Num? && data[i][cfg.target].x > 0.0
    ensures Learn(data, cfg, cap, fit).Ok?
    ensures Baseline(Learn(data, cfg, cap, fit).value, x) > 0.0
  {
    var m := Fit(data, cfg, cap, fit);
    PositiveTargetsPositiveMean(data, cfg);
    assert m.overallMean > 0.0;
    PositiveBaseline(m, x);
  }

  /** With a positive fallback mean, every baseline is positive. */
  lemma {:induction false} PositiveBaseline(m: Model, x: seq<real>)
    requires m.overallMean > 0.0
    ensures Baseline(m, x) > 0.0
  {
  }

  /** On an accepted table the regressor is trained once, on the encoded
      rows and the targets, with hidden layers `(d, d / 2, d / 4)` for the
      encoded width `d`, which is every training row's width; the fallback
      mean is the mean of the targets. */
  lemma {:induction false} LearnedRegressor(data: seq<Row>, cfg: Config, cap: CapPolicy, fit: Fitters)
    requires Learnable(data, cfg)
    requires Architecture(TrainingWidth(data, cfg)).third > 0
    ensures Learn(data, cfg, cap, fit).Ok?
    ensures var m := Learn(data, cfg, cap, fit).value;
            && (forall i :: 0 <= i < |data| ==>
                  |EncodeAll(m.pipeline, data)[i]| == Architecture(TrainingWidth(data, cfg)).first)
            && m.regressor == fit.trainRegressor(Architecture(TrainingWidth(data, cfg)),
                                                 EncodeAll(m.pipeline, data), Targets(data, cfg.target))
            && m.overallMean == Mean(Targets(data, cfg.target))
  {
  }

  lemma {:induction false} PositiveTargetsPositiveMean(data: seq<Row>, cfg: Config)
    requires Learnable(data, cfg)
    requires forall i :: 0 <= i < |data| ==> data[i][cfg.target].x > 0.0
    ensures Mean(Targets(data, cfg.target)) > 0.0
  {
    MeanPositive(Targets(data, cfg.target));
  }
}
