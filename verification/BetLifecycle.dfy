/** From the callback that takes a bet to the pass that settles it. */
module BetLifecycle {
  import opened KellySizing
  import opened Rounding
  import opened Sums
  import PredictionSignal
  import Settlement

  /** The row as the settlement pass reads it back. */
  function AsBet(r: PredictionSignal.Row, contract: nat): Settlement.Bet {
    Settlement.Bet(contract, r.side, r.stake, r.entry, Settlement.Booking(Settlement.Open, 0.0, 0.0))
  }

  /** Every bet the signal stores is one settlement can close: whole cents, an entry price strictly inside (0, 1),
      and so no answer of the outside world makes its settlement raise. */
  lemma StoredBetsCanBeSettled(s: PredictionSignal.State, u: PredictionSignal.Update, contract: nat, a: Settlement.Answers)
    requires PredictionSignal.Actionable(s, u)
    ensures var r := PredictionSignal.RowFor(s, u, PredictionSignal.DecisionFor(s, u));
            WholeCents(r.stake) && 0.0 < r.entry < 1.0 && Settlement.ResultFor(AsBet(r, contract), a) != Settlement.Raised
  {
    var d := PredictionSignal.DecisionFor(s, u);
    OpportunityIsOrderable(u.forecast, u.confidence, u.yesCents.value, PredictionSignal.Remaining(s, u.readOk));
    StakeNeverOverbets(d.modelP, d.marketP, PredictionSignal.Remaining(s, u.readOk));
  }

  /** What the exchange really leaves on n contracts bought at `cents` each. */
  function TrueProfit(n: int, cents: int, won: bool): real {
    (if won then n as real else 0.0) - Cost(n, cents)
  }

  /** The recorded profit of a won bet is the true one or too high, by less than one contract's gain and rounding;
      the recorded loss of a lost bet is the true one or too high, by less than one contract's price. */
  lemma RecordedAgainstTrueProfit(side: Side, stake: real, cents: int, o: Settlement.Outcome)
    requires WholeCents(stake) && stake >= 0.0 && 0 < cents < 100 && !o.Void?
    ensures var price := cents as real / 100.0;
            var n := Truncate(stake / price);
            var b := Settlement.Payout(side, stake, price, o);
            if b.status.Won? then -0.005 <= b.pnl - TrueProfit(n, cents, true) < 1.0 - price + 0.005
            else b.status.Lost? && 0.0 <= TrueProfit(n, cents, false) - b.pnl < price
  {
    if Settlement.Wins(side, o) {
      WonProfit(stake, cents);
    } else {
      LostProfit(stake, cents);
    }
  }

  lemma WonProfit(stake: real, cents: int)
    requires stake >= 0.0 && 0 < cents < 100
    ensures var price := cents as real / 100.0;
            -0.005 <= Settlement.Quantized(stake / price - stake) - TrueProfit(Truncate(stake / price), cents, true) < 1.0 - price + 0.005
  {
    var price := cents as real / 100.0;
    var q := stake / price;
    Settlement.PayoutOverstatesContracts(stake, cents);
    DivideBack(stake, price);
    ProfitGap(q, Truncate(q), price);
    WithinHalfCent(q - stake);
  }

  lemma WithinHalfCent(x: real)
    ensures x - 0.005 <= Settlement.Quantized(x) <= x + 0.005
  {
    HalfEvenIsNearest(x * 100.0, 0);
  }

  lemma LostProfit(stake: real, cents: int)
    requires WholeCents(stake) && stake >= 0.0 && 0 < cents < 100
    ensures var price := cents as real / 100.0;
            0.0 <= TrueProfit(Truncate(stake / price), cents, false) - Settlement.Quantized(-stake) < price
  {
    var price := cents as real / 100.0;
    var n := Truncate(stake / price);
    WholeContracts(stake, cents);
    var k := (stake * 100.0).Floor;
    HalfEvenExact(-k);
    assert -stake * 100.0 == (-k) as real;
    assert Cost(n + 1, cents) == Cost(n, cents) + price;
  }

  lemma ProfitGap(q: real, n: int, price: real)
    requires 0.0 < price < 1.0 && n as real <= q < (n + 1) as real
    ensures 0.0 <= (q - Times(price, q)) - (n as real - Times(n as real, price)) < 1.0 - price
  {
    var frac := q - n as real;
    assert (q - Times(price, q)) - (n as real - Times(n as real, price)) == Times(frac, 1.0 - price);
    if frac > 0.0 {
      TimesPositive(frac, 1.0 - price);
    }
    TimesPositive(1.0 - frac, 1.0 - price);
    assert Times(1.0 - frac, 1.0 - price) == (1.0 - price) - Times(frac, 1.0 - price);
  }
}
