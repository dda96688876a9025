/** A ladder of weather contracts on one observation: what the model says each is worth, and how each settles. */
module StrikeLadder {
  import opened KellySizing
  import opened Options
  import opened Sums

  /** `threshold_op`, with `threshold_high` where it is used. */
  datatype Op = Above | AtLeast | Below | AtMost | Between(high: Option<real>) | OtherOp

  datatype Contract = Contract(threshold: real, op: Op)

  /** A cumulative distribution: nondecreasing, with values in [0, 1]. */
  ghost predicate Distribution(cdf: real -> real) {
    (forall x :: 0.0 <= cdf(x) <= 1.0) && forall x, y :: x <= y ==> cdf(x) <= cdf(y)
  }

  /** The standardised threshold; 0 when there is no spread. */
  function Z(t: real, mean: real, sigma: real): real {
    if sigma > 0.0 then (t - mean) / sigma else 0.0
  }

  /** The probability step of `estimate_model_probability`. */
  function ModelProbability(cdf: real -> real, mean: real, sigma: real, c: Contract): Option<real> {
    if c.op.Above? then Some(1.0 - cdf(Z(c.threshold, mean, sigma)))
    else if c.op.Between? && c.op.high.Some? then
      Some(cdf(Z(c.op.high.value, mean, sigma)) - cdf(Z(c.threshold, mean, sigma)))
    else None
  }

  /** Rung i of the ladder over the cut points: contiguous ranges, topped by an open "above" contract. */
  function Rung(cuts: seq<real>, i: nat): Contract
    requires i < |cuts|
  {
    if i == |cuts| - 1 then Contract(cuts[i], Above) else Contract(cuts[i], Between(Some(cuts[i + 1])))
  }

  predicate Ordered(cuts: seq<real>) { forall i :: 0 < i < |cuts| ==> cuts[i - 1] <= cuts[i] }

  /** What the model gives to the rungs from i upwards. */
  function ModelledFrom(cdf: real -> real, mean: real, sigma: real, cuts: seq<real>, i: nat): real
    requires i <= |cuts|
    decreases |cuts| - i
  {
    if i == |cuts| then 0.0
    else ModelProbability(cdf, mean, sigma, Rung(cuts, i)).value + ModelledFrom(cdf, mean, sigma, cuts, i + 1)
  }

  lemma ZMonotone(s: real, t: real, mean: real, sigma: real)
    requires s <= t
    ensures Z(s, mean, sigma) <= Z(t, mean, sigma)
  {
    if sigma > 0.0 {
      assert Z(t, mean, sigma) - Z(s, mean, sigma) == (t - s) / sigma;
    }
  }

  /** The ladder's probabilities telescope: together they give exactly the mass the model puts at or above the bottom cut. */
  lemma {:induction false} LadderTelescopes(cdf: real -> real, mean: real, sigma: real, cuts: seq<real>, i: nat)
    requires i < |cuts|
    ensures ModelledFrom(cdf, mean, sigma, cuts, i) == 1.0 - cdf(Z(cuts[i], mean, sigma))
    decreases |cuts| - i
  {
    if i < |cuts| - 1 {
      LadderTelescopes(cdf, mean, sigma, cuts, i + 1);
    } else {
      assert ModelledFrom(cdf, mean, sigma, cuts, i + 1) == 0.0;
    }
  }

  /** With ordered cuts every rung gets a probability, whatever the spread. */
  lemma RungsAreProbabilities(cdf: real -> real, mean: real, sigma: real, cuts: seq<real>, i: nat)
    requires Distribution(cdf) && Ordered(cuts) && i < |cuts|
    ensures var p := ModelProbability(cdf, mean, sigma, Rung(cuts, i)); p.Some? && 0.0 <= p.value <= 1.0
  {
    if i < |cuts| - 1 {
      assert cuts[i] <= cuts[i + 1];
      ZMonotone(cuts[i], cuts[i + 1], mean, sigma);
    }
  }

  /** With spread, a warmer forecast never makes "above" less likely. */
  lemma ForecastMovesAbove(cdf: real -> real, mean: real, mean': real, sigma: real, t: real)
    requires Distribution(cdf) && sigma > 0.0 && mean <= mean'
    ensures ModelProbability(cdf, mean, sigma, Contract(t, Above)).value <= ModelProbability(cdf, mean', sigma, Contract(t, Above)).value
  {
    ForecastShiftsThreshold(mean, mean', sigma, t);
    ZMonotone(t - (mean' - mean), t, mean, sigma);
  }

  lemma ForecastShiftsThreshold(mean: real, mean': real, sigma: real, t: real)
    ensures Z(t, mean', sigma) == Z(t - (mean' - mean), mean, sigma)
  {
  }

  /** A threshold k spreads above the forecast is worth 1 - F(k), and a range the difference of F at its two ends in spreads;
      without spread "above" is worth 1 - F(0) wherever the threshold; no other contract gets a probability. */
  lemma WorthInSpreads(cdf: real -> real, mean: real, sigma: real, k: real, h: real, op: Op)
    ensures var low, high := mean + Times(k, sigma), mean + Times(h, sigma);
            ModelProbability(cdf, mean, sigma, Contract(low, Above)) == Some(1.0 - cdf(if sigma > 0.0 then k else 0.0))
            && (sigma > 0.0 ==> ModelProbability(cdf, mean, sigma, Contract(low, Between(Some(high)))) == Some(cdf(h) - cdf(k)))
            && ((!op.Above? && !op.Between?) || op == Between(None) ==> ModelProbability(cdf, mean, sigma, Contract(low, op)) == None)
  {
    if sigma > 0.0 {
      CancelFactor(sigma, k);
      CancelFactor(sigma, h);
      assert Times(sigma, k) == Times(k, sigma) && Times(sigma, h) == Times(h, sigma);
      assert Z(mean + Times(k, sigma), mean, sigma) == k && Z(mean + Times(h, sigma), mean, sigma) == h;
    }
  }

  ghost predicate Rising(cdf: real -> real) { forall x, y :: x < y ==> cdf(x) < cdf(y) }

  /** Under a strictly rising distribution, such as the normal one, the forecast matters exactly when there is spread:
      without it every mean and every threshold give an "above" contract the same value, and any range the value 0. */
  lemma ForecastMattersExactlyWithSpread(cdf: real -> real, mean: real, mean': real, sigma: real, t: real, high: real)
    requires Rising(cdf) && mean < mean' && t < high
    ensures ModelProbability(cdf, mean, sigma, Contract(t, Above)).value < ModelProbability(cdf, mean', sigma, Contract(t, Above)).value
            <==> sigma > 0.0
    ensures ModelProbability(cdf, mean, sigma, Contract(t, Between(Some(high)))).value > 0.0 <==> sigma > 0.0
  {
    if sigma > 0.0 {
      ForecastShiftsThreshold(mean, mean', sigma, t);
      ZRises(t - (mean' - mean), t, mean, sigma);
      ZRises(t, high, mean, sigma);
    }
  }

  lemma ZRises(s: real, t: real, mean: real, sigma: real)
    requires s < t && sigma > 0.0
    ensures Z(s, mean, sigma) < Z(t, mean, sigma)
  {
    assert Z(t, mean, sigma) - Z(s, mean, sigma) == (t - s) / sigma;
  }

  // ----- settlement

  datatype Report = Report(tmax: Option<real>, tmin: Option<real>, precip: Option<real>)

  datatype Variable = TMax | TMin | Precip | OtherVariable

  function Observed(r: Report, v: Variable): Option<real> {
    match v
    case TMax => r.tmax
    case TMin => r.tmin
    case Precip => r.precip
    case OtherVariable => None
  }

  function Answer(b: bool): Option<Side> { Some(if b then Yes else No) }

  /** `_derive_nws_outcome`. */
  function Derive(r: Report, v: Variable, c: Contract): Option<Side> {
    var obs := Observed(r, v);
    if obs.None? then None
    else
      match c.op
      case Above => Answer(obs.value > c.threshold)
      case AtLeast => Answer(obs.value >= c.threshold)
      case Below => Answer(obs.value < c.threshold)
      case AtMost => Answer(obs.value <= c.threshold)
      case Between(high) => if high.Some? then Answer(c.threshold <= obs.value < high.value) else None
      case OtherOp => None
  }

  /** What one observed value answers: the five comparisons, and nothing for a range without its upper end or an unknown one. */
  predicate AnswersLike(x: real, t: real, op: Op, answer: Option<Side>) {
    match op
    case Above => answer == Some(if x > t then Yes else No)
    case AtLeast => answer == Some(if x >= t then Yes else No)
    case Below => answer == Some(if x < t then Yes else No)
    case AtMost => answer == Some(if x <= t then Yes else No)
    case Between(high) => answer == if high.None? then None else Some(if t <= x && x < high.value then Yes else No)
    case OtherOp => answer == None
  }

  /** Each kind of contract is answered from its own field of the report, and not at all when that field is missing. */
  lemma AnswersComeFromTheReport(r: Report, t: real, op: Op)
    ensures match r.tmax case Some(x) => AnswersLike(x, t, op, Derive(r, TMax, Contract(t, op)))
                         case None => Derive(r, TMax, Contract(t, op)) == None
    ensures match r.tmin case Some(x) => AnswersLike(x, t, op, Derive(r, TMin, Contract(t, op)))
                         case None => Derive(r, TMin, Contract(t, op)) == None
    ensures match r.precip case Some(x) => AnswersLike(x, t, op, Derive(r, Precip, Contract(t, op)))
                           case None => Derive(r, Precip, Contract(t, op)) == None
    ensures Derive(r, OtherVariable, Contract(t, op)) == None
  {
  }

  /** How many rungs from i upwards resolve yes. */
  function YesFrom(r: Report, v: Variable, cuts: seq<real>, i: nat): nat
    requires i <= |cuts|
    decreases |cuts| - i
  {
    if i == |cuts| then 0
    else (if Derive(r, v, Rung(cuts, i)) == Some(Yes) then 1 else 0) + YesFrom(r, v, cuts, i + 1)
  }

  /** Of an ordered ladder at most one rung resolves yes, and exactly one does unless the observation lies below the
      bottom cut or exactly on the top one. */
  lemma {:induction false} LadderPaysOnce(r: Report, v: Variable, cuts: seq<real>, i: nat)
    requires Ordered(cuts) && i < |cuts| && Observed(r, v).Some?
    ensures var x := Observed(r, v).value;
            YesFrom(r, v, cuts, i) == if x < cuts[i] || x == cuts[|cuts| - 1] then 0 else 1
    decreases |cuts| - i
  {
    if i < |cuts| - 1 {
      LadderPaysOnce(r, v, cuts, i + 1);
      CutsRise(cuts, i + 1, |cuts| - 1);
    } else {
      assert YesFrom(r, v, cuts, i + 1) == 0;
    }
  }

  lemma {:induction false} CutsRise(cuts: seq<real>, i: nat, j: nat)
    requires Ordered(cuts) && i <= j < |cuts|
    ensures cuts[i] <= cuts[j]
  {
    if i < j {
      CutsRise(cuts, i, j - 1);
      assert cuts[j - 1] <= cuts[j];
    }
  }

  /** So the model's "above" contract and its settlement part company on the boundary only: the ladder's prices leave
      nothing out at or above the bottom cut, while an observation on the top cut pays nobody. */
  lemma TopCutPaysNobody(r: Report, v: Variable, cuts: seq<real>, i: nat)
    requires Ordered(cuts) && i < |cuts| && Observed(r, v) == Some(cuts[|cuts| - 1])
    ensures Derive(r, v, Rung(cuts, i)) == Some(No)
  {
    if i < |cuts| - 1 {
      CutsRise(cuts, i + 1, |cuts| - 1);
    }
  }
}
