/** The growth theorem behind the sizing: no other fixed fraction grows a bankroll more. */
module KellyGrowth {
  import opened KellySizing
  import opened Sums

  function Power(x: real, n: nat): real { if n == 0 then 1.0 else Times(x, Power(x, n - 1)) }

  lemma {:induction false} PowerNonNegative(x: real, n: nat)
    requires x >= 0.0
    ensures Power(x, n) >= 0.0
  {
    if n > 0 {
      PowerNonNegative(x, n - 1);
      ProductNonNegative(x, Power(x, n - 1));
    }
  }

  lemma ProductNonNegative(x: real, y: real)
    requires x >= 0.0 && y >= 0.0
    ensures Times(x, y) >= 0.0
  {
  }

  lemma ProductMonotone(x: real, y: real, u: real, v: real)
    requires 0.0 <= x <= u && 0.0 <= y <= v
    ensures Times(x, y) <= Times(u, v)
  {
    ProductNonNegative(u - x, v);
    ProductNonNegative(x, v - y);
    assert Times(u, v) - Times(x, y) == Times(u - x, v) + Times(x, v - y);
  }

  lemma {:induction false} PowerMonotone(x: real, y: real, n: nat)
    requires 0.0 <= x <= y
    ensures Power(x, n) <= Power(y, n)
  {
    if n > 0 {
      PowerMonotone(x, y, n - 1);
      PowerNonNegative(x, n - 1);
      ProductMonotone(x, Power(x, n - 1), y, Power(y, n - 1));
    }
  }

  lemma {:induction false} PowerOfProduct(x: real, y: real, n: nat)
    ensures Power(Times(x, y), n) == Times(Power(x, n), Power(y, n))
  {
    if n > 0 {
      PowerOfProduct(x, y, n - 1);
      Regroup(x, y, Power(x, n - 1), Power(y, n - 1));
    }
  }

  lemma Regroup(x: real, y: real, u: real, v: real)
    ensures Times(Times(x, y), Times(u, v)) == Times(Times(x, u), Times(y, v))
  {
    calc {
      Times(Times(x, y), Times(u, v));
      (x * y) * (u * v);
      x * (y * (u * v));
      x * (u * (y * v));
      (x * u) * (y * v);
    }
  }

  lemma {:induction false} PowerOfSum(x: real, m: nat, n: nat)
    ensures Power(x, m + n) == Times(Power(x, m), Power(x, n))
  {
    if m > 0 {
      PowerOfSum(x, m - 1, n);
      Associate(x, Power(x, m - 1), Power(x, n));
    }
  }

  lemma Associate(x: real, y: real, z: real)
    ensures Times(x, Times(y, z)) == Times(Times(x, y), z)
  {
  }

  lemma {:induction false} PowerOfPower(x: real, m: nat, n: nat)
    ensures Power(Power(x, m), n) == Power(x, m * n)
  {
    if n > 0 {
      PowerOfPower(x, m, n - 1);
      PowerOfSum(x, m, m * (n - 1));
      assert m + m * (n - 1) == m * n;
    } else {
      assert m * n == 0;
    }
  }

  /** Bernoulli's inequality. */
  lemma {:induction false} Bernoulli(t: real, n: nat)
    requires t >= -1.0
    ensures 1.0 + Times(n as real, t) <= Power(1.0 + t, n)
  {
    if n > 0 {
      Bernoulli(t, n - 1);
      PowerNonNegative(1.0 + t, n - 1);
      BernoulliStep(t, (n - 1) as real, Power(1.0 + t, n - 1));
      assert (n - 1) as real + 1.0 == n as real;
    }
  }

  lemma BernoulliStep(t: real, k: real, power: real)
    requires t >= -1.0 && k >= 0.0 && 1.0 + Times(k, t) <= power
    ensures 1.0 + Times(k + 1.0, t) <= Times(1.0 + t, power)
  {
    ProductNonNegative(1.0 + t, power - (1.0 + Times(k, t)));
    SquareFacts(t);
    ProductNonNegative(k, Times(t, t));
    assert Times(1.0 + t, power) - (1.0 + Times(k + 1.0, t))
        == Times(1.0 + t, power - (1.0 + Times(k, t))) + Times(k, Times(t, t));
  }

  /** Weights a and b, moved in opposite directions in inverse proportion: the product never exceeds 1. */
  lemma BalancedProduct(a: nat, b: nat, t: real)
    requires a > 0 && b > 0 && 1.0 + Times(b as real, t) >= 0.0 && 1.0 - Times(a as real, t) >= 0.0
    ensures Times(Power(1.0 + Times(b as real, t), a), Power(1.0 - Times(a as real, t), b)) <= 1.0
  {
    hide Times;
    hide Power;
    var x, y := 1.0 + Times(b as real, t), 1.0 - Times(a as real, t);
    StepInRange(a as real, b as real, t);
    Bernoulli(t, b);
    Bernoulli(-t, a);
    Negated(a as real, t);
    PowerMonotone(x, Power(1.0 + t, b), a);
    PowerMonotone(y, Power(1.0 - t, a), b);
    PowerOfPower(1.0 + t, b, a);
    PowerOfPower(1.0 - t, a, b);
    PowerNonNegative(x, a);
    PowerNonNegative(y, b);
    ProductMonotone(Power(x, a), Power(y, b), Power(1.0 + t, a * b), Power(1.0 - t, a * b));
    PowerOfProduct(1.0 + t, 1.0 - t, a * b);
    BelowOne(t, a * b);
  }

  lemma Negated(a: real, t: real)
    ensures Times(a, -t) == -Times(a, t)
  {
  }

  lemma StepInRange(a: real, b: real, t: real)
    requires a >= 1.0 && b >= 1.0 && 1.0 + Times(b, t) >= 0.0 && 1.0 - Times(a, t) >= 0.0
    ensures -1.0 <= t <= 1.0
  {
    assert Times(a, t) == t + Times(a - 1.0, t);
    assert Times(b, t) == t - Times(b - 1.0, -t);
    if t > 1.0 {
      ProductNonNegative(a - 1.0, t);
    } else if t < -1.0 {
      ProductNonNegative(b - 1.0, -t);
    }
  }

  lemma BelowOne(t: real, n: nat)
    requires -1.0 <= t <= 1.0
    ensures Power(Times(1.0 + t, 1.0 - t), n) <= 1.0
  {
    SquareFacts(t);
    ProductNonNegative(1.0 + t, 1.0 - t);
    assert Times(1.0 + t, 1.0 - t) == 1.0 - Times(t, t);
    PowerMonotone(Times(1.0 + t, 1.0 - t), 1.0, n);
    PowerOfOne(n);
  }

  lemma {:induction false} PowerOfOne(n: nat)
    ensures Power(1.0, n) == 1.0
  {
    if n > 0 {
      PowerOfOne(n - 1);
    }
  }

  /** What one dollar becomes when the fraction f of it buys contracts at m and they pay, or do not. */
  function Won(m: real, f: real): real
    requires m > 0.0
  {
    1.0 - f + f / m
  }

  function Lost(f: real): real { 1.0 - f }

  /** A bankroll of one dollar after `wins` wins and `losses` losses, in any order, at the fixed fraction f. */
  function Bankroll(m: real, f: real, wins: nat, losses: nat): real
    requires m > 0.0
  {
    Times(Power(Won(m, f), wins), Power(Lost(f), losses))
  }

  /** The win probability that the record of wins and losses bears out. */
  function Frequency(wins: nat, losses: nat): real
    requires wins + losses > 0
  {
    wins as real / (wins + losses) as real
  }

  lemma AlwaysWins(m: real, f: real, wins: nat)
    requires 0.0 < m < 1.0 && 0.0 <= f <= 1.0 && wins > 0
    ensures Bankroll(m, f, wins, 0) <= Bankroll(m, Kelly(Frequency(wins, 0), m), wins, 0)
  {
    hide Won;
    CertainWin(m, wins);
    WonAtMostAll(m, f);
    WonNonNegative(m, f);
    PowerMonotone(Won(m, f), Won(m, 1.0), wins);
  }

  lemma CertainWin(m: real, wins: nat)
    requires 0.0 < m < 1.0 && wins > 0
    ensures Kelly(Frequency(wins, 0), m) == 1.0
  {
    assert Frequency(wins, 0) == 1.0;
  }

  lemma WonAtMostAll(m: real, f: real)
    requires 0.0 < m < 1.0 && 0.0 <= f <= 1.0
    ensures Won(m, f) <= Won(m, 1.0)
  {
    WonInM(m, f);
    WonInM(m, 1.0);
    ProductNonNegative(1.0 - m, 1.0 - f);
    assert Times(m, Won(m, f)) == 1.0 - Times(1.0 - m, 1.0 - f);
    LessByFactor(m, Won(m, f), Won(m, 1.0));
  }

  lemma WonInM(m: real, f: real)
    requires m > 0.0
    ensures Times(m, Won(m, f)) == m - Times(m, f) + f
  {
    DivideBack(f, m);
    Distribute(m, 1.0 - f, f / m);
    Distribute(m, 1.0, -f);
  }

  lemma LessByFactor(m: real, x: real, y: real)
    requires m > 0.0 && Times(m, x) <= Times(m, y)
    ensures x <= y
  {
    assert Times(m, x - y) == Times(m, x) - Times(m, y);
    if x > y {
      TimesPositive(m, x - y);
    }
  }

  lemma WonNonNegative(m: real, f: real)
    requires 0.0 < m < 1.0 && 0.0 <= f <= 1.0
    ensures Won(m, f) >= 0.0
  {
    WonInM(m, f);
    ProductNonNegative(m, 1.0 - f);
    assert Times(m, 0.0) <= Times(m, Won(m, f));
    LessByFactor(m, 0.0, Won(m, f));
  }

  lemma AlwaysLoses(m: real, f: real, losses: nat)
    requires 0.0 < m < 1.0 && 0.0 <= f <= 1.0 && losses > 0
    ensures Bankroll(m, f, 0, losses) <= Bankroll(m, Kelly(Frequency(0, losses), m), 0, losses)
  {
    assert Frequency(0, losses) == 0.0;
    PowerMonotone(Lost(f), 1.0, losses);
    PowerOfOne(losses);
  }

  lemma StandingStill(m: real, wins: nat, losses: nat)
    requires m > 0.0
    ensures Bankroll(m, 0.0, wins, losses) == 1.0
  {
    PowerOfOne(wins);
    PowerOfOne(losses);
  }

  /** A record no better than the price: whatever is staked, nothing is gained. */
  lemma NoEdge(m: real, f: real, wins: nat, losses: nat)
    requires 0.0 < m < 1.0 && 0.0 <= f <= 1.0 && wins > 0 && losses > 0 && Frequency(wins, losses) <= m
    ensures Bankroll(m, f, wins, losses) <= 1.0
  {
    var a, b := wins as real, losses as real;
    var t := f / a;
    DivideBack(f, a);
    SmallGain(m, f, a, b);
    WonNonNegative(m, f);
    BalancedProduct(wins, losses, t);
    PowerMonotone(Won(m, f), 1.0 + Times(b, t), wins);
    PowerNonNegative(Won(m, f), wins);
    PowerNonNegative(Lost(f), losses);
    ProductMonotone(Power(Won(m, f), wins), Power(Lost(f), losses), Power(1.0 + Times(b, t), wins), Power(1.0 - Times(a, t), losses));
  }

  lemma SmallGain(m: real, f: real, a: real, b: real)
    requires 0.0 < m < 1.0 && 0.0 <= f <= 1.0 && a > 0.0 && b > 0.0 && a / (a + b) <= m
    ensures Won(m, f) <= 1.0 + Times(b, f / a)
  {
    var t := f / a;
    DivideBack(f, a);
    DivideBack(a, a + b);
    ProductMonotone(a / (a + b), a + b, m, a + b);
    assert a <= Times(m, a + b);
    CompareFractions(0.0, 1.0, f, a);
    assert t >= 0.0;
    ProductMonotone(a, t, Times(m, a + b), t);
    WonInM(m, f);
    assert Times(Times(m, a + b), t) == Times(m, Times(a, t)) + Times(m, Times(b, t));
    Distribute(m, 1.0, Times(b, t));
    LessByFactor(m, Won(m, f), 1.0 + Times(b, t));
  }

  /** Winning and losing at the computed fraction multiply the bankroll by p / m and (1 - p) / (1 - m). */
  lemma KellyOutcomes(m: real, p: real)
    requires 0.0 < m < p < 1.0
    ensures var k := Kelly(p, m);
            Times(m, Won(m, k)) == p && Times(1.0 - m, Lost(k)) == 1.0 - p && Won(m, k) > 0.0 && Lost(k) > 0.0
  {
    var k := Kelly(p, m);
    DivideBack(p - m, 1.0 - m);
    WonInM(m, k);
    assert Times(1.0 - m, k) == k - Times(m, k);
    assert Times(1.0 - m, Lost(k)) == (1.0 - m) - Times(1.0 - m, k);
    assert Times(m, 0.0) == 0.0 && Times(1.0 - m, 0.0) == 0.0;
    LessByFactor(m, 0.0, Won(m, k));
    LessByFactor(1.0 - m, 0.0, Lost(k));
  }

  /** The relative outcomes of any other fraction balance: weighted by wins and losses they average 1. */
  lemma RelativeOutcomesBalance(m: real, f: real, a: real, b: real, rw: real, rl: real)
    requires 0.0 < m < 1.0 && a > 0.0 && b > 0.0 && m < a / (a + b) < 1.0
    requires var k := Kelly(a / (a + b), m); Times(Won(m, k), rw) == Won(m, f) && Times(Lost(k), rl) == Lost(f)
    ensures Times(a, rw) + Times(b, rl) == a + b
  {
    var n, p := a + b, a / (a + b);
    var k := Kelly(p, m);
    DivideBack(a, n);
    KellyOutcomes(m, p);
    assert Times(n, 1.0 - p) == b;
    ShareOf(n, m, Won(m, k), rw, Won(m, f));
    ShareOf(n, 1.0 - m, Lost(k), rl, Lost(f));
    WonInM(m, f);
    assert Times(1.0 - m, Lost(f)) == 1.0 - m - f + Times(m, f);
    Distribute(n, Times(m, Won(m, f)), Times(1.0 - m, Lost(f)));
  }

  lemma ShareOf(n: real, m: real, w: real, r: real, x: real)
    requires Times(w, r) == x
    ensures Times(Times(n, Times(m, w)), r) == Times(n, Times(m, x))
  {
    Associate(n, Times(m, w), r);
    Associate(m, w, r);
  }

  /** A record better than the price: every other fraction's bankroll is the computed one's times a balanced product. */
  lemma Edge(m: real, f: real, wins: nat, losses: nat)
    requires 0.0 < m < 1.0 && 0.0 <= f <= 1.0 && wins > 0 && losses > 0 && Frequency(wins, losses) > m
    ensures Bankroll(m, f, wins, losses) <= Bankroll(m, Kelly(Frequency(wins, losses), m), wins, losses)
  {
    var a, b, p := wins as real, losses as real, Frequency(wins, losses);
    assert (wins + losses) as real == a + b;
    CompareFractions(a, a + b, 1.0, 1.0);
    var k := Kelly(p, m);
    KellyOutcomes(m, p);
    var w, l := Won(m, k), Lost(k);
    var rw, rl := Won(m, f) / w, Lost(f) / l;
    DivideBack(Won(m, f), w);
    DivideBack(Lost(f), l);
    RelativeOutcomesBalance(m, f, a, b, rw, rl);
    WonNonNegative(m, f);
    CompareFractions(0.0, 1.0, Won(m, f), w);
    CompareFractions(0.0, 1.0, Lost(f), l);
    RelativeProduct(wins, losses, rw, rl);
    ScaledBankroll(w, l, rw, rl, wins, losses);
  }

  lemma RelativeProduct(wins: nat, losses: nat, rw: real, rl: real)
    requires wins > 0 && losses > 0 && rw >= 0.0 && rl >= 0.0
    requires Times(wins as real, rw) + Times(losses as real, rl) == wins as real + losses as real
    ensures Times(Power(rw, wins), Power(rl, losses)) <= 1.0
  {
    hide Times;
    hide Power;
    var t := Tilt(wins as real, losses as real, rw, rl);
    BalancedProduct(wins, losses, t);
  }

  lemma Tilt(a: real, b: real, rw: real, rl: real) returns (t: real)
    requires a > 0.0 && b > 0.0 && Times(a, rw) + Times(b, rl) == a + b
    ensures rw == 1.0 + Times(b, t) && rl == 1.0 - Times(a, t)
  {
    t := (rw - 1.0) / b;
    DivideBack(rw - 1.0, b);
    assert Times(a, rw) == a + Times(a, Times(b, t));
    assert Times(b, 1.0 - Times(a, t)) == b - Times(a, Times(b, t));
    LessByFactor(b, rl, 1.0 - Times(a, t));
    LessByFactor(b, 1.0 - Times(a, t), rl);
  }

  lemma ScaledBankroll(w: real, l: real, rw: real, rl: real, wins: nat, losses: nat)
    requires w > 0.0 && l > 0.0 && Times(Power(rw, wins), Power(rl, losses)) <= 1.0
    ensures Times(Power(Times(w, rw), wins), Power(Times(l, rl), losses)) <= Times(Power(w, wins), Power(l, losses))
  {
    PowerOfProduct(w, rw, wins);
    PowerOfProduct(l, rl, losses);
    Regroup(Power(w, wins), Power(rw, wins), Power(l, losses), Power(rl, losses));
    PowerNonNegative(w, wins);
    PowerNonNegative(l, losses);
    var whole, part := Times(Power(w, wins), Power(l, losses)), Times(Power(rw, wins), Power(rl, losses));
    ProductNonNegative(Power(w, wins), Power(l, losses));
    ProductNonNegative(whole, 1.0 - part);
    assert Times(whole, 1.0 - part) == whole - Times(whole, part);
  }

  /** Kelly's criterion, without logarithms: over a record in which the forecast probability comes true,
      no other fixed fraction of the bankroll ends higher than the one the program computes. */
  lemma KellyMaximisesTheBankroll(m: real, f: real, wins: nat, losses: nat)
    requires 0.0 < m < 1.0 && 0.0 <= f <= 1.0 && wins + losses > 0
    ensures Bankroll(m, f, wins, losses) <= Bankroll(m, Kelly(Frequency(wins, losses), m), wins, losses)
  {
    var p := Frequency(wins, losses);
    if losses == 0 {
      AlwaysWins(m, f, wins);
    } else if wins == 0 {
      AlwaysLoses(m, f, losses);
    } else if p <= m {
      NoEdge(m, f, wins, losses);
      StandingStill(m, wins, losses);
    } else {
      Edge(m, f, wins, losses);
    }
  }
}
