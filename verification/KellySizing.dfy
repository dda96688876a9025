/** How much is staked: the Kelly fraction, its half-and-capped use, and the choice of side. */
module KellySizing {
  import opened Options
  import opened Rounding
  import opened Sums

  const EDGE_THRESHOLD := 0.08
  const CONFIDENCE_THRESHOLD := 0.65
  const KELLY_FRACTION := 0.5
  const MAX_POSITION_FRACTION := 0.20

  /** `kelly_fraction_to_bet`. */
  function Kelly(p: real, m: real): real {
    if m >= 1.0 || m <= 0.0 then 0.0
    else if p - m <= 0.0 then 0.0
    else (p - m) / (1.0 - m)
  }

  /** The derivative, in f, of p * ln(1 - f + f / m) + (1 - p) * ln(1 - f): the expected growth rate of a bankroll
      that stakes the fraction f on a contract bought at m and paying 1 with probability p. */
  function MarginalGrowth(p: real, m: real, f: real): real
    requires 0.0 < m < 1.0 && 0.0 <= f < 1.0
  {
    MixPositive(m, f);
    Times(p, 1.0 - m) / (m + Times(f, 1.0 - m)) - (1.0 - p) / (1.0 - f)
  }

  lemma MixPositive(m: real, f: real)
    requires 0.0 < m < 1.0 && 0.0 <= f < 1.0
    ensures m + Times(f, 1.0 - m) > 0.0
  {
    if f > 0.0 {
      TimesPositive(f, 1.0 - m);
    }
  }

  /** a/b against c/d, for positive denominators. */
  lemma CompareFractions(a: real, b: real, c: real, d: real)
    requires b > 0.0 && d > 0.0
    ensures a / b > c / d <==> Times(a, d) > Times(c, b)
    ensures a / b == c / d <==> Times(a, d) == Times(c, b)
  {
    var x, y := a / b, c / d;
    assert a == Times(x, b) && c == Times(y, d);
    ScaleDifference(x, y, b, d);
  }

  lemma ScaleDifference(x: real, y: real, b: real, d: real)
    requires b > 0.0 && d > 0.0
    ensures x > y <==> Times(Times(x, b), d) > Times(Times(y, d), b)
    ensures x == y <==> Times(Times(x, b), d) == Times(Times(y, d), b)
  {
    TimesPositive(b, d);
    var bd := Times(b, d);
    assert Times(Times(x, b), d) - Times(Times(y, d), b) == Times(x - y, bd);
    if x > y {
      TimesPositive(x - y, bd);
    } else if x < y {
      TimesPositive(y - x, bd);
      assert Times(x - y, bd) == -Times(y - x, bd);
    }
  }

  lemma CrossTerms(p: real, m: real, f: real)
    ensures Times(Times(p, 1.0 - m), 1.0 - f) - Times(1.0 - p, m + Times(f, 1.0 - m)) == (p - m) - Times(f, 1.0 - m)
  {
  }

  /** Growth still rises at f exactly when f is below the Kelly fraction, so that fraction is the one maximum. */
  lemma KellyIsTheOptimum(p: real, m: real, f: real)
    requires 0.0 < m < 1.0 && 0.0 <= f < 1.0
    ensures MarginalGrowth(p, m, f) > 0.0 <==> f < Kelly(p, m)
    ensures p >= m ==> (MarginalGrowth(p, m, f) == 0.0 <==> f == Kelly(p, m))
  {
    MixPositive(m, f);
    CompareFractions(Times(p, 1.0 - m), m + Times(f, 1.0 - m), 1.0 - p, 1.0 - f);
    CrossTerms(p, m, f);
    CompareFractions(p - m, 1.0 - m, f, 1.0);
    if f > 0.0 {
      TimesPositive(f, 1.0 - m);
    }
  }

  /** `stake_dollars_from_kelly`: dollars, rounded down to the cent. */
  function Stake(p: real, m: real, allocation: real): real {
    var half := Kelly(p, m) * KELLY_FRACTION;
    var capped := if MAX_POSITION_FRACTION < half then MAX_POSITION_FRACTION else half;
    Truncate(Times(allocation, capped) * 100.0) as real / 100.0
  }

  lemma KellyNonNegative(p: real, m: real)
    ensures Kelly(p, m) >= 0.0
    ensures Kelly(p, m) > 0.0 <==> 0.0 < m < 1.0 && p > m
  {
    if 0.0 < m < 1.0 && p > m {
      CompareFractions(p - m, 1.0 - m, 0.0, 1.0);
    }
  }

  predicate WholeCents(dollars: real) { dollars * 100.0 == (dollars * 100.0).Floor as real }

  /** Whatever is staked is a whole number of cents, at most a fifth of the allocation,
      and its share of the allocation is strictly below the growth-optimal fraction. */
  lemma StakeNeverOverbets(p: real, m: real, allocation: real)
    requires allocation >= 0.0
    ensures 0.0 <= Stake(p, m, allocation) <= allocation / 5.0
    ensures WholeCents(Stake(p, m, allocation))
    ensures Stake(p, m, allocation) > 0.0 ==>
              0.0 < m < 1.0 && p > m && allocation > 0.0
              && Stake(p, m, allocation) / allocation < Kelly(p, m)
              && MarginalGrowth(p, m, Stake(p, m, allocation) / allocation) > 0.0
  {
    KellyNonNegative(p, m);
    var stake, k := Stake(p, m, allocation), Kelly(p, m);
    var capped := if MAX_POSITION_FRACTION < k * KELLY_FRACTION then MAX_POSITION_FRACTION else k * KELLY_FRACTION;
    var raw := Times(allocation, capped);
    RawStake(allocation, capped);
    var cents: nat := Truncate(raw * 100.0);
    assert stake * 100.0 == cents as real;
    assert stake <= raw;
    if stake > 0.0 {
      Share(stake, allocation, capped);
      KellyIsTheOptimum(p, m, stake / allocation);
    }
  }

  /** The stake is half the Kelly share, or a fifth of the allocation once that share reaches two fifths,
      less the fraction of a cent that is cut off. */
  lemma StakeIsHalfKelly(p: real, m: real, allocation: real)
    requires allocation >= 0.0
    ensures var exact := if Kelly(p, m) >= 0.4 then allocation / 5.0 else Times(allocation, Kelly(p, m)) / 2.0;
            exact - 0.01 < Stake(p, m, allocation) <= exact
  {
    KellyNonNegative(p, m);
    var k := Kelly(p, m);
    var capped := if MAX_POSITION_FRACTION < k * KELLY_FRACTION then MAX_POSITION_FRACTION else k * KELLY_FRACTION;
    RawStake(allocation, capped);
    HalfOf(allocation, k);
  }

  lemma HalfOf(allocation: real, k: real)
    ensures Times(allocation, k * 0.5) == Times(allocation, k) / 2.0
    ensures Times(allocation, 0.2) == allocation / 5.0
  {
  }

  lemma RawStake(allocation: real, capped: real)
    requires allocation >= 0.0 && 0.0 <= capped <= 0.2
    ensures 0.0 <= Times(allocation, capped) <= allocation / 5.0
    ensures Times(allocation, capped) > 0.0 ==> allocation > 0.0 && capped > 0.0
  {
    if allocation > 0.0 {
      if capped > 0.0 {
        TimesPositive(allocation, capped);
      }
      if capped < 0.2 {
        TimesPositive(allocation, 0.2 - capped);
      }
      assert Times(allocation, 0.2) == Times(allocation, capped) + Times(allocation, 0.2 - capped);
    }
  }

  lemma Share(stake: real, allocation: real, capped: real)
    requires allocation > 0.0 && 0.0 < stake <= Times(allocation, capped)
    ensures 0.0 < stake / allocation <= capped
  {
    var f := stake / allocation;
    DivideBack(stake, allocation);
    assert Times(allocation, f - capped) == stake - Times(allocation, capped);
    if f > capped {
      TimesPositive(allocation, f - capped);
    }
  }

  // ----- the decision

  datatype Side = Yes | No

  function Other(s: Side): Side { if s.Yes? then No else Yes }

  datatype Decision =
    | NoForecast
    | Decision(side: Side, modelP: real, marketP: real, edge: real, passes: bool, stake: real, cents: int, contracts: int)

  /** `evaluate_decision` once the forecast, the confidence and the remaining allocation are known.
      `passes` says that `rejection_reason` is None. */
  function Decide(forecast: Option<real>, confidence: Option<real>, market: real, allocation: real): Decision {
    if forecast.None? then NoForecast
    else
      var yes := forecast.value;
      var edgeYes, no, noImplied := yes - market, 1.0 - yes, 1.0 - market;
      var edgeNo := no - noImplied;
      var side := if edgeYes >= edgeNo then Yes else No;
      var (modelP, marketP, edge) := if side.Yes? then (yes, market, edgeYes) else (no, noImplied, edgeNo);
      var passes := edge >= EDGE_THRESHOLD && confidence.Some? && confidence.value >= CONFIDENCE_THRESHOLD;
      var stake, cents := Stake(modelP, marketP, allocation), HalfEven(marketP * 100.0);
      var contracts := if cents > 0 then Truncate(stake / (cents as real / 100.0)) else 0;
      Decision(side, modelP, marketP, edge, passes, stake, cents, contracts)
  }

  predicate Opportunity(d: Decision) {
    d.Decision? && d.passes && d.contracts >= 1 && d.stake > 0.0
  }

  /** The side is the one the model favours, and the whole edge test is |model - market| >= 8%. */
  lemma SideAndEdge(yes: real, confidence: Option<real>, market: real, allocation: real)
    ensures var d := Decide(Some(yes), confidence, market, allocation);
            (d.side.Yes? <==> yes >= market) && d.edge == Abs(yes - market) == d.modelP - d.marketP
            && (d.passes <==> Abs(yes - market) >= EDGE_THRESHOLD && confidence.Some? && confidence.value >= CONFIDENCE_THRESHOLD)
  {
  }

  /** Naming the sides the other way round changes nothing but the name of the chosen side. */
  lemma SidesAreSymmetric(yes: real, confidence: Option<real>, market: real, allocation: real)
    requires yes != market
    ensures var d := Decide(Some(yes), confidence, market, allocation);
            Decide(Some(1.0 - yes), confidence, 1.0 - market, allocation) == d.(side := Other(d.side))
  {
  }

  /** The contracts bought are as many as the stake pays for at the limit price: affordable, and one more would not be. */
  lemma ContractsFitTheStake(forecast: Option<real>, confidence: Option<real>, market: real, allocation: real)
    requires allocation >= 0.0
    ensures var d := Decide(forecast, confidence, market, allocation);
            d.Decision? && d.cents > 0 ==>
              d.contracts >= 0
              && Cost(d.contracts, d.cents) <= d.stake < Cost(d.contracts + 1, d.cents)
  {
    var d := Decide(forecast, confidence, market, allocation);
    if d.Decision? && d.cents > 0 {
      StakeNeverOverbets(d.modelP, d.marketP, allocation);
      WholeContracts(d.stake, d.cents);
    }
  }

  /** Dollars for `count` contracts at `cents` each. */
  function Cost(count: int, cents: int): real { Times(count as real, cents as real / 100.0) }

  lemma WholeContracts(stake: real, cents: int)
    requires stake >= 0.0 && cents > 0
    ensures var n := Truncate(stake / (cents as real / 100.0)); n >= 0 && Cost(n, cents) <= stake < Cost(n + 1, cents)
  {
    var price := cents as real / 100.0;
    var q := stake / price;
    CompareFractions(0.0, 1.0, stake, price);
    DivideBack(stake, price);
    assert q >= 0.0;
    var n := Truncate(q);
    if q > n as real {
      TimesPositive(price, q - n as real);
    }
    assert Times(price, q - n as real) == stake - Cost(n, cents);
    TimesPositive(price, (n + 1) as real - q);
    assert Times(price, (n + 1) as real - q) == Cost(n + 1, cents) - stake;
  }

  /** With a price in whole cents, an opportunity's limit price is a price the exchange takes, and is exactly the
      entry price recorded for the bet, which lies strictly between 0 and 1. */
  lemma OpportunityIsOrderable(forecast: Option<real>, confidence: Option<real>, yesCents: int, allocation: real)
    requires allocation >= 0.0
    requires Opportunity(Decide(forecast, confidence, yesCents as real / 100.0, allocation))
    ensures var d := Decide(forecast, confidence, yesCents as real / 100.0, allocation);
            1 <= d.cents <= 99 && d.marketP == d.cents as real / 100.0 && 0.0 < d.marketP < 1.0
            && d.cents == if d.side.Yes? then yesCents else 100 - yesCents
  {
    var d := Decide(forecast, confidence, yesCents as real / 100.0, allocation);
    var k := if d.side.Yes? then yesCents else 100 - yesCents;
    assert d.marketP == k as real / 100.0;
    HalfEvenExact(k);
    StakeNeverOverbets(d.modelP, d.marketP, allocation);
  }
}
