/** The feature-encoding pipeline of `StratifiedNumericDistribution`: the
    partition of the feature columns into standardized, min-max ("rest") and
    one-hot blocks, and the encoding of one row as the concatenation
    [standardized] ++ [min-max] ++ [one-hot]. The fitted scalers are opaque
    per-column transforms; the one-hot encoder is its category lists. */
module Encoding {
  import opened Wrappers
  import opened Seqs

  type Column = string

  /** One cell of a pandas table. */
  datatype Value = Num(x: real) | Text(s: string)

  /** One record: the cells of a table row, or the feature dictionary given
      to `sample`. */
  type Row = map<Column, Value>

  /** A fitted StandardScaler or MinMaxScaler, applied to one cell of the
      column it was fitted on. */
  type ColumnTransform = (Column, Value) -> real

  /** A column goes to the min-max block when it is in neither explicit list. */
  predicate IsRest(c: Column, standardization: seq<Column>, onehot: seq<Column>) {
    c !in standardization && c !in onehot
  }

  /** The "rest" columns: the feature columns in neither the standardization
      nor the one-hot list, in their original relative order. */
  function RestColumns(features: seq<Column>, standardization: seq<Column>, onehot: seq<Column>)
    : (rest: seq<Column>)
    ensures SubsequenceOf(rest, features)
    ensures forall c :: c in rest <==> c in features && IsRest(c, standardization, onehot)
    ensures forall c :: multiset(rest)[c] ==
                        if IsRest(c, standardization, onehot) then multiset(features)[c] else 0
  {
    if |features| == 0 then []
    else
      var tail := RestColumns(features[1..], standardization, onehot);
      assert features == [features[0]] + features[1..];
      if IsRest(features[0], standardization, onehot) then [features[0]] + tail else tail
  }

  /** The fitted pipeline a learned model keeps. */
  datatype Pipeline = Pipeline(
    standardization: seq<Column>,
    rest: seq<Column>,
    onehot: seq<Column>,
    standardizer: ColumnTransform,
    normalizer: ColumnTransform,
    categories: map<Column, seq<Value>>)

  /** Every one-hot column has its fitted category list, without repeats. */
  predicate WellFormed(p: Pipeline) {
    (forall c :: c in p.onehot ==> c in p.categories) &&
    (forall c :: c in p.categories ==> NoDuplicates(p.categories[c]))
  }

  /** Number of indicator columns the one-hot block produces. */
  function OneHotWidth(cols: seq<Column>, categories: map<Column, seq<Value>>): nat
    requires forall c :: c in cols ==> c in categories
  {
    if |cols| == 0 then 0 else |categories[cols[0]]| + OneHotWidth(cols[1..], categories)
  }

  /** Number of columns of an encoded row: one per standardized column, one
      per min-max column, one per category of each one-hot column. */
  function Width(p: Pipeline): nat
    requires WellFormed(p)
  {
    |p.standardization| + |p.rest| + OneHotWidth(p.onehot, p.categories)
  }

  /** The column values of the table (`data[c]`). */
  function ColumnValues(data: seq<Row>, c: Column): (vs: seq<Value>)
    requires forall i :: 0 <= i < |data| ==> c in data[i]
    ensures |vs| == |data|
    ensures forall i :: 0 <= i < |data| ==> vs[i] == data[i][c]
  {
    seq(|data|, i requires 0 <= i < |data| => data[i][c])
  }

  /** `v` is the cell of column `c` in some training row. */
  predicate SeenIn(data: seq<Row>, c: Column, v: Value) {
    exists i :: 0 <= i < |data| && c in data[i] && data[i][c] == v
  }

  /** The categories of one column: each training value once, and nothing
      that was not seen. */
  function Categories(data: seq<Row>, c: Column): (vs: seq<Value>)
    requires forall i :: 0 <= i < |data| ==> c in data[i]
    ensures NoDuplicates(vs)
    ensures forall i :: 0 <= i < |data| ==> data[i][c] in vs
    ensures forall v :: v in vs ==> SeenIn(data, c, v)
  {
    var column := ColumnValues(data, c);
    var vs := Distinct(column);
    assert forall i :: 0 <= i < |data| ==> column[i] == data[i][c];
    assert forall v :: v in vs ==> SeenIn(data, c, v) by {
      forall v | v in vs ensures SeenIn(data, c, v) {
        var i :| 0 <= i < |column| && column[i] == v;
      }
    }
    vs
  }

  /** `OneHotEncoder.fit`: for each one-hot column, the values seen in
      training, each once, and nothing that was not seen. */
  function FitCategories(data: seq<Row>, onehot: seq<Column>): (cats: map<Column, seq<Value>>)
    requires forall i, c :: 0 <= i < |data| && c in onehot ==> c in data[i]
    ensures cats.Keys == set c | c in onehot
    ensures forall c :: c in cats ==> NoDuplicates(cats[c])
    ensures forall i, c :: 0 <= i < |data| && c in onehot ==> data[i][c] in cats[c]
    ensures forall c, v :: c in cats && v in cats[c] ==> SeenIn(data, c, v)
  {
    map c | c in onehot :: Categories(data, c)
  }

  /** Every column of the block is present in the row and holds a number. */
  predicate NumericCells(cols: seq<Column>, row: Row) {
    forall c :: c in cols ==> c in row && row[c].Num?
  }

  /** The standardized or min-max block for one row. A missing column is a
      pandas KeyError; a text cell is the ValueError a scaler raises when it
      converts its input to floats. */
  function ColumnBlock(cols: seq<Column>, f: ColumnTransform, row: Row): (r: Result<seq<real>>)
    ensures r.Ok? <==> NumericCells(cols, row)
    ensures r.Err? ==> r.error == if forall c :: c in cols ==> c in row then NonNumericFeature else MissingColumn
    ensures r.Ok? ==> |r.value| == |cols|
    ensures r.Ok? ==> forall i :: 0 <= i < |cols| ==> r.value[i] == f(cols[i], row[cols[i]])
  {
    if !(forall c :: c in cols ==> c in row) then Err(MissingColumn)
    else if !(forall c :: c in cols ==> row[c].Num?) then Err(NonNumericFeature)
    else Ok(seq(|cols|, i requires 0 <= i < |cols| => f(cols[i], row[cols[i]])))
  }

  /** The indicator vector of `v` among the categories. */
  function Indicator(categories: seq<Value>, v: Value): (r: seq<real>)
    ensures |r| == |categories|
    ensures forall i :: 0 <= i < |r| ==> r[i] == 1.0 || r[i] == 0.0
    ensures forall i :: 0 <= i < |r| ==> (r[i] == 1.0 <==> categories[i] == v)
  {
    seq(|categories|, i requires 0 <= i < |categories| => if categories[i] == v then 1.0 else 0.0)
  }

  /** A known category lights exactly one indicator, at its own position. */
  lemma {:induction false} IndicatorOneHot(categories: seq<Value>, v: Value)
    requires NoDuplicates(categories) && v in categories
    ensures Indicator(categories, v)[IndexOf(categories, v)] == 1.0
    ensures forall i :: 0 <= i < |categories| && i != IndexOf(categories, v) ==>
              Indicator(categories, v)[i] == 0.0
  {
  }

  /** Every one-hot column is present in the row and holds a fitted category. */
  predicate KnownCategories(cols: seq<Column>, categories: map<Column, seq<Value>>, row: Row) {
    forall c :: c in cols ==> c in row && c in categories && row[c] in categories[c]
  }

  /** Where column `j`'s indicator vector starts in the one-hot block: after
      the vectors of the columns before it. */
  function Offset(cols: seq<Column>, categories: map<Column, seq<Value>>, j: nat): nat
    requires j <= |cols| && forall c :: c in cols ==> c in categories
  {
    OneHotWidth(cols[..j], categories)
  }

  /** Dropping the first column moves every later offset back by its width. */
  lemma {:induction false} OffsetShift(cols: seq<Column>, categories: map<Column, seq<Value>>, j: nat)
    requires 0 < j <= |cols| && forall c :: c in cols ==> c in categories
    ensures Offset(cols, categories, j) == |categories[cols[0]]| + Offset(cols[1..], categories, j - 1)
  {
    assert cols[..j][0] == cols[0] && cols[..j][1..] == cols[1..][..j - 1];
  }

  /** `OneHotEncoder.transform` of one row: the indicator vectors of its
      one-hot columns, concatenated in column order, column `j`'s vector at
      its offset. Selecting the columns comes first, so any missing column
      is a pandas KeyError before an unseen category can raise. */
  function OneHotBlock(cols: seq<Column>, categories: map<Column, seq<Value>>, row: Row)
    : (r: Result<seq<real>>)
    requires forall c :: c in cols ==> c in categories
    ensures r.Ok? <==> KnownCategories(cols, categories, row)
    ensures r.Err? ==> r.error == if forall c :: c in cols ==> c in row then UnknownCategory else MissingColumn
    ensures r.Ok? ==> |r.value| == OneHotWidth(cols, categories)
    ensures r.Ok? ==> forall j :: 0 <= j < |cols| ==>
              Offset(cols, categories, j) + |categories[cols[j]]| <= |r.value| &&
              r.value[Offset(cols, categories, j)..Offset(cols, categories, j) + |categories[cols[j]]|] ==
                Indicator(categories[cols[j]], row[cols[j]])
  {
    if !(forall c :: c in cols ==> c in row) then Err(MissingColumn)
    else Indicators(cols, categories, row)
  }

  /** The indicator vectors of columns that are all present; an unseen
      category raises. */
  function Indicators(cols: seq<Column>, categories: map<Column, seq<Value>>, row: Row)
    : (r: Result<seq<real>>)
    requires forall c :: c in cols ==> c in categories && c in row
    ensures r.Ok? <==> KnownCategories(cols, categories, row)
    ensures r.Err? ==> r.error == UnknownCategory
    ensures r.Ok? ==> |r.value| == OneHotWidth(cols, categories)
    ensures r.Ok? ==> forall j :: 0 <= j < |cols| ==>
              Offset(cols, categories, j) + |categories[cols[j]]| <= |r.value| &&
              r.value[Offset(cols, categories, j)..Offset(cols, categories, j) + |categories[cols[j]]|] ==
                Indicator(categories[cols[j]], row[cols[j]])
  {
    if |cols| == 0 then Ok([])
    else
      var c := cols[0];
      assert cols == [c] + cols[1..];
      if row[c] !in categories[c] then Err(UnknownCategory)
      else
        var tail := Indicators(cols[1..], categories, row);
        if tail.Err? then tail
        else
          var r := Indicator(categories[c], row[c]) + tail.value;
          OneHotBlockPlacement(cols, categories, row, tail.value, r);
          Ok(r)
  }

  /** Prepending the first column's indicator vector shifts every later
      column's vector by that vector's width. */
  lemma {:induction false} OneHotBlockPlacement(cols: seq<Column>, categories: map<Column, seq<Value>>, row: Row,
                             tail: seq<real>, r: seq<real>)
    requires |cols| > 0 && KnownCategories(cols, categories, row)
    requires forall j :: 0 <= j < |cols| - 1 ==>
               Offset(cols[1..], categories, j) + |categories[cols[1..][j]]| <= |tail| &&
               tail[Offset(cols[1..], categories, j)..Offset(cols[1..], categories, j) + |categories[cols[1..][j]]|] ==
                 Indicator(categories[cols[1..][j]], row[cols[1..][j]])
    requires r == Indicator(categories[cols[0]], row[cols[0]]) + tail
    ensures forall j :: 0 <= j < |cols| ==>
              Offset(cols, categories, j) + |categories[cols[j]]| <= |r| &&
              r[Offset(cols, categories, j)..Offset(cols, categories, j) + |categories[cols[j]]|] ==
                Indicator(categories[cols[j]], row[cols[j]])
  {
    var w := |categories[cols[0]]|;
    forall j | 0 <= j < |cols|
      ensures Offset(cols, categories, j) + |categories[cols[j]]| <= |r| &&
              r[Offset(cols, categories, j)..Offset(cols, categories, j) + |categories[cols[j]]|] ==
                Indicator(categories[cols[j]], row[cols[j]])
    {
      if j == 0 {
        assert cols[..0] == [];
        assert r[0..w] == Indicator(categories[cols[0]], row[cols[0]]);
      } else {
        OffsetShift(cols, categories, j);
        var a := Offset(cols[1..], categories, j - 1);
        assert cols[1..][j - 1] == cols[j];
        ShiftedSlice(Indicator(categories[cols[0]], row[cols[0]]), tail, a, |categories[cols[j]]|);
      }
    }
  }

  /** The row holds every column the pipeline reads, a number in every
      scaled column, and a fitted category in every one-hot column. */
  predicate Encodable(p: Pipeline, row: Row)
    requires WellFormed(p)
  {
    NumericCells(p.standardization, row) &&
    NumericCells(p.rest, row) &&
    KnownCategories(p.onehot, p.categories, row)
  }

  /** The encoded row: the three blocks concatenated in the fixed order
      [standardized, min-max, one-hot]; an empty column list contributes a
      zero-width block. The same function serves learning and sampling. */
  function EncodeRow(p: Pipeline, row: Row): (r: Result<seq<real>>)
    requires WellFormed(p)
    ensures r.Ok? <==> Encodable(p, row)
    ensures r.Err? ==>
              r.error == (if ColumnBlock(p.standardization, p.standardizer, row).Err? then
                            ColumnBlock(p.standardization, p.standardizer, row).error
                          else if ColumnBlock(p.rest, p.normalizer, row).Err? then
                            ColumnBlock(p.rest, p.normalizer, row).error
                          else OneHotBlock(p.onehot, p.categories, row).error)
    ensures r.Ok? ==> |r.value| == Width(p)
    ensures r.Ok? ==> forall i :: 0 <= i < |p.standardization| ==>
              r.value[i] == p.standardizer(p.standardization[i], row[p.standardization[i]])
    ensures r.Ok? ==> forall i :: 0 <= i < |p.rest| ==>
              r.value[|p.standardization| + i] == p.normalizer(p.rest[i], row[p.rest[i]])
    ensures r.Ok? ==>
              r.value[|p.standardization| + |p.rest|..] == OneHotBlock(p.onehot, p.categories, row).value
  {
    var s := ColumnBlock(p.standardization, p.standardizer, row);
    var n := ColumnBlock(p.rest, p.normalizer, row);
    var o := OneHotBlock(p.onehot, p.categories, row);
    if s.Err? then Err(s.error)
    else if n.Err? then Err(n.error)
    else if o.Err? then Err(o.error)
    else
      BlocksInOrder(p, row, s.value, n.value, o.value);
      Ok(s.value + n.value + o.value)
  }

  /** The concatenated blocks hold each column's encoding at its place. */
  lemma {:induction false} BlocksInOrder(p: Pipeline, row: Row, s: seq<real>, n: seq<real>, o: seq<real>)
    requires NumericCells(p.standardization, row) && NumericCells(p.rest, row)
    requires |s| == |p.standardization| && |n| == |p.rest|
    requires forall i :: 0 <= i < |p.standardization| ==>
               s[i] == p.standardizer(p.standardization[i], row[p.standardization[i]])
    requires forall i :: 0 <= i < |p.rest| ==> n[i] == p.normalizer(p.rest[i], row[p.rest[i]])
    ensures forall i :: 0 <= i < |p.standardization| ==>
              (s + n + o)[i] == p.standardizer(p.standardization[i], row[p.standardization[i]])
    ensures forall i :: 0 <= i < |p.rest| ==>
              (s + n + o)[|p.standardization| + i] == p.normalizer(p.rest[i], row[p.rest[i]])
    ensures (s + n + o)[|p.standardization| + |p.rest|..] == o
  {
    ThreeBlocks(s, n, o);
  }

  /** Where each block sits in a concatenation of three. */
  lemma {:induction false} ThreeBlocks(a: seq<real>, b: seq<real>, c: seq<real>)
    ensures |a + b + c| == |a| + |b| + |c|
    ensures forall i :: 0 <= i < |a| ==> (a + b + c)[i] == a[i]
    ensures forall i :: 0 <= i < |b| ==> (a + b + c)[|a| + i] == b[i]
    ensures (a + b + c)[|a| + |b|..] == c
  {
  }

  /** Shape invariance: any two rows the pipeline encodes, a training row and
      a sampled feature record alike, have the same number of columns. */
  lemma {:induction false} EncodedWidthsAgree(p: Pipeline, training: Row, features: Row)
    requires WellFormed(p)
    requires EncodeRow(p, training).Ok? && EncodeRow(p, features).Ok?
    ensures |EncodeRow(p, training).value| == |EncodeRow(p, features).value|
    ensures |EncodeRow(p, features).value| ==
            |p.standardization| + |p.rest| + OneHotWidth(p.onehot, p.categories)
  {
  }
}
