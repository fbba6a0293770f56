/** The primitive distributions of `distributions.py` whose learning is not
    a foreign numeric fit: Uniform (min/max), Categorical (stored values and
    weights, sampled as `random.choices`), and the parameters of a Normal.
    Random draws are supplied as values in [0, 1), the range of
    `random.random()`. */
module Distributions {
  import opened Wrappers
  import opened Seqs

  /** One draw of `random.random()`. */
  type UnitDraw = u: real | 0.0 <= u < 1.0

  /** `NormalDistribution` parameters; its fit and draws are scipy's. */
  datatype Normal = Normal(mu: real, std: real)

  datatype Uniform = Uniform(minimum: real, maximum: real)

  datatype Categorical<T> = Categorical(values: seq<T>, weights: seq<real>)

  /** Python `min` of a non-empty sequence. */
  function Min(s: seq<real>): (m: real)
    requires |s| > 0
    ensures m in s
    ensures forall i :: 0 <= i < |s| ==> m <= s[i]
  {
    if |s| == 1 then s[0]
    else
      var m' := Min(s[1..]);
      assert forall i :: 1 <= i < |s| ==> s[i] == s[1..][i - 1];
      if s[0] <= m' then s[0] else m'
  }

  /** Python `max` of a non-empty sequence. */
  function Max(s: seq<real>): (m: real)
    requires |s| > 0
    ensures m in s
    ensures forall i :: 0 <= i < |s| ==> s[i] <= m
  {
    if |s| == 1 then s[0]
    else
      var m' := Max(s[1..]);
      assert forall i :: 1 <= i < |s| ==> s[i] == s[1..][i - 1];
      if s[0] >= m' then s[0] else m'
  }

  /** `UniformDistribution.learn`: the observed extremes; `min` of an empty
      sequence raises. */
  function LearnUniform(values: seq<real>): (r: Result<Uniform>)
    ensures r.Err? <==> |values| == 0
    ensures r.Ok? ==> r.value.minimum in values && r.value.maximum in values
    ensures r.Ok? ==> forall i :: 0 <= i < |values| ==>
                        r.value.minimum <= values[i] <= r.value.maximum
    ensures r.Ok? ==> r.value.minimum <= r.value.maximum
  {
    if |values| == 0 then Err(EmptyInput) else Ok(Uniform(Min(values), Max(values)))
  }

  lemma {:induction false} MulNonNegative(x: real, y: real)
    requires x >= 0.0 && y >= 0.0
    ensures x * y >= 0.0
  {
  }

  /** `x = a + (b - a) * u` lies between `a` and `b` for a draw `u` in [0, 1]. */
  lemma {:induction false} Interpolation(a: real, b: real, u: real, x: real)
    requires 0.0 <= u <= 1.0
    requires x == a + (b - a) * u
    ensures a <= b ==> a <= x <= b
    ensures b <= a ==> b <= x <= a
  {
    if a <= b {
      MulNonNegative(b - a, u);
      MulNonNegative(b - a, 1.0 - u);
      assert (b - a) * (1.0 - u) == (b - a) - (b - a) * u;
    } else {
      MulNonNegative(a - b, u);
      MulNonNegative(a - b, 1.0 - u);
      assert (a - b) * u == -((b - a) * u);
      assert (a - b) * (1.0 - u) == (a - b) + (b - a) * u;
    }
  }

  /** A unit draw scales a positive total to a point strictly below it. */
  lemma {:induction false} ScaledBelow(total: real, u: UnitDraw, x: real)
    requires total > 0.0
    requires x == total * u
    ensures 0.0 <= x < total
  {
    MulNonNegative(total, u);
    assert total * (1.0 - u) > 0.0;
    assert total * (1.0 - u) == total - x;
  }

  /** `random.uniform(a, b)`, that is `a + (b - a) * random()`. */
  function UniformSample(d: Uniform, u: UnitDraw): (x: real)
    ensures d.minimum <= d.maximum ==> d.minimum <= x <= d.maximum
    ensures d.maximum <= d.minimum ==> d.maximum <= x <= d.minimum
  {
    var x := d.minimum + (d.maximum - d.minimum) * u;
    Interpolation(d.minimum, d.maximum, u, x);
    x
  }

  /** A value drawn from a learned uniform lies within the observed range. */
  lemma {:induction false} LearnedUniformSampleInRange(values: seq<real>, u: UnitDraw)
    requires |values| > 0
    ensures LearnUniform(values).Ok?
    ensures Min(values) <= UniformSample(LearnUniform(values).value, u) <= Max(values)
  {
  }

  /** `CategoricalDistribution.learn` keeps the values and their counts as
      given, unchecked. */
  function LearnCategorical<T>(values: seq<T>, counts: seq<real>): Categorical<T> {
    Categorical(values, counts)
  }

  /** The index `bisect_right(cumulative, x, 0, hi)` returns in
      `random.choices`, with `hi` the last index: the first position whose
      cumulative weight exceeds `x`, or the last position. */
  function PickIndex(ws: seq<real>, x: real, i: nat): (k: nat)
    requires i < |ws|
    requires Sum(ws[..i]) <= x < Sum(ws)
    ensures i <= k < |ws|
    ensures Sum(ws[..k]) <= x < Sum(ws[..k + 1])
    decreases |ws| - i
  {
    assert ws[..|ws|] == ws;
    if i == |ws| - 1 || Sum(ws[..i + 1]) > x then i else PickIndex(ws, x, i + 1)
  }

  /** The chosen position for draw `u`: the one whose cumulative interval
      holds `u` times the total, hence one whose weight is positive. */
  function Pick(ws: seq<real>, u: UnitDraw): (k: nat)
    requires Sum(ws) > 0.0
    ensures k < |ws| && ws[k] > 0.0
    ensures Sum(ws[..k]) <= Sum(ws) * u < Sum(ws[..k + 1])
  {
    var x := Sum(ws) * u;
    ScaledBelow(Sum(ws), u, x);
    assert ws[..0] == [];
    assert ws[..|ws|] == ws;
    var k := PickIndex(ws, x, 0);
    assert ws[..k + 1][..k] == ws[..k];
    k
  }

  /** `CategoricalDistribution.sample`, i.e. `random.choices(values,
      weights)[0]` with draw `u`. Python raises when the lengths differ, when
      there is nothing to choose from, or when the weights total zero or less;
      negative weights are outside its documented behaviour. */
  function SampleCategorical<T>(c: Categorical<T>, u: UnitDraw): (r: Result<T>)
    requires forall i :: 0 <= i < |c.weights| ==> c.weights[i] >= 0.0
    ensures r.Err? <==> |c.weights| != |c.values| || |c.values| == 0 || Sum(c.weights) <= 0.0
    ensures r.Ok? ==> exists i: nat :: DrawnAt(c, u, i) && c.values[i] == r.value
  {
    if |c.weights| != |c.values| then Err(LengthMismatch)
    else if |c.values| == 0 then Err(EmptyInput)
    else if Sum(c.weights) <= 0.0 then Err(NonPositiveTotal)
    else
      PickDrawn(c, u);
      Ok(c.values[Pick(c.weights, u)])
  }

  /** The position `Pick` chooses is the one the draw lands on. */
  lemma {:induction false} PickDrawn<T>(c: Categorical<T>, u: UnitDraw)
    requires |c.weights| == |c.values| && Sum(c.weights) > 0.0
    ensures DrawnAt(c, u, Pick(c.weights, u))
  {
    var k := Pick(c.weights, u);
  }

  /** Draw `u` lands on position `i`: `u` times the total lies in the
      cumulative interval of weight `i`, which is therefore positive. */
  predicate DrawnAt<T>(c: Categorical<T>, u: real, i: nat) {
    && i < |c.values| == |c.weights|
    && c.weights[i] > 0.0
    && Sum(c.weights[..i]) <= Sum(c.weights) * u < Sum(c.weights[..i + 1])
  }

  /** Sampling what was learned: a successful draw is one of the learned
      values, and one whose count is positive. */
  lemma {:induction false} LearnedCategoricalSamplesPositiveCount<T>(values: seq<T>, counts: seq<real>, u: UnitDraw)
    requires |values| == |counts|
    requires forall i :: 0 <= i < |counts| ==> counts[i] >= 0.0
    requires Sum(counts) > 0.0
    ensures SampleCategorical(LearnCategorical(values, counts), u).Ok?
    ensures exists i :: 0 <= i < |values| &&
              values[i] == SampleCategorical(LearnCategorical(values, counts), u).value && counts[i] > 0.0
  {
  }
}
