/** What a callback bets, said of the update's own fields: when it bets at all, on which side, at which price, how much. */
module OrderTerms {
  import opened KellySizing
  import opened Options
  import opened PredictionSignal
  import opened Rounding
  import opened Sums

  /** The side the forecast favours at the quoted price, and that side's price. */
  function FavouredSide(forecast: real, yesCents: int): Side { if forecast >= yesCents as real / 100.0 then Yes else No }

  function PriceOn(side: Side, yesCents: int): int { if side == Yes then yesCents else 100 - yesCents }

  /** What is left of the day's 2000 dollars; all of it when the read fails. */
  function Left(s: State, readOk: bool): real {
    var spent := if readOk then OpenStake(s.rows, s.day) else 0.0;
    if spent <= 2000.0 then 2000.0 - spent else 0.0
  }

  function StakeOn(s: State, u: Update): real
    requires u.forecast.Some? && u.yesCents.Some?
  {
    var side := FavouredSide(u.forecast.value, u.yesCents.value);
    Stake(if side == Yes then u.forecast.value else 1.0 - u.forecast.value,
          PriceOn(side, u.yesCents.value) as real / 100.0, Left(s, u.readOk))
  }

  /** The forecast is at least eight points from the price, the confidence at least 65%, and the stake pays for a contract. */
  predicate WorthBetting(s: State, u: Update)
    requires u.yesCents.Some?
  {
    u.forecast.Some? && u.confidence.Some? && u.confidence.value >= 0.65
    && Abs(u.forecast.value - u.yesCents.value as real / 100.0) >= 0.08
    && var cents := PriceOn(FavouredSide(u.forecast.value, u.yesCents.value), u.yesCents.value);
       cents >= 1 && cents as real / 100.0 <= StakeOn(s, u)
  }

  lemma LeftIsRemaining(s: State, readOk: bool)
    ensures Left(s, readOk) == Remaining(s, readOk)
  {
  }

  lemma CostOfOne(cents: int)
    ensures Cost(0, cents) == 0.0 && Cost(1, cents) == cents as real / 100.0
  {
  }

  lemma CostRises(n: int, m: int, cents: int)
    requires cents > 0 && n <= m
    ensures Cost(n, cents) <= Cost(m, cents)
  {
    var price := cents as real / 100.0;
    assert Cost(m, cents) - Cost(n, cents) == Times((m - n) as real, price);
    if n < m {
      TimesPositive((m - n) as real, price);
    }
  }

  /** The decision in terms of the update's fields. */
  lemma DecisionTerms(forecast: real, confidence: Option<real>, yesCents: int, allocation: real)
    requires allocation >= 0.0
    ensures var d, side := Decide(Some(forecast), confidence, yesCents as real / 100.0, allocation), FavouredSide(forecast, yesCents);
            var cents := PriceOn(side, yesCents);
            d.Decision? && d.side == side && d.cents == cents && d.marketP == cents as real / 100.0
            && d.stake == Stake(if side == Yes then forecast else 1.0 - forecast, cents as real / 100.0, allocation)
            && (cents >= 1 ==> Cost(d.contracts, cents) <= d.stake < Cost(d.contracts + 1, cents))
            && (Opportunity(d) <==> confidence.Some? && confidence.value >= 0.65 && Abs(forecast - yesCents as real / 100.0) >= 0.08
                                    && cents >= 1 && cents as real / 100.0 <= d.stake)
  {
    hide Stake;
    hide Cost;
    hide Truncate;
    var d := Decide(Some(forecast), confidence, yesCents as real / 100.0, allocation);
    var cents := PriceOn(FavouredSide(forecast, yesCents), yesCents);
    assert d.marketP == cents as real / 100.0;
    HalfEvenExact(cents);
    ContractsFitTheStake(Some(forecast), confidence, yesCents as real / 100.0, allocation);
    CostOfOne(cents);
    if cents >= 1 {
      if d.contracts >= 1 {
        CostRises(1, d.contracts, cents);
      } else {
        CostRises(d.contracts + 1, 1, cents);
      }
    }
  }

  /** An order the callback may send: the update's ticker, the favoured side at its price, as many contracts as the stake buys. */
  ghost predicate OrderFits(s: State, u: Update, o: Order) {
    u.yesCents.Some? && u.forecast.Some? && o.ticker == u.ticker
    && (o.side == Yes <==> u.forecast.value >= u.yesCents.value as real / 100.0)
    && o.cents == (if o.side == Yes then u.yesCents.value else 100 - u.yesCents.value)
    && Cost(o.count, o.cents) <= StakeOn(s, u) < Cost(o.count + 1, o.cents)
  }

  /** A row the callback may store: the same bet, open, placed today. */
  ghost predicate RowFits(s: State, u: Update, r: Row) {
    u.yesCents.Some? && u.forecast.Some? && r.ticker == u.ticker
    && (r.side == Yes <==> u.forecast.value >= u.yesCents.value as real / 100.0)
    && r.entry == (if r.side == Yes then u.yesCents.value else 100 - u.yesCents.value) as real / 100.0
    && r.stake == StakeOn(s, u) && r.day == s.day && r.open
  }

  lemma ActionableMeans(s: State, u: Update)
    ensures Actionable(s, u) <==> u.yesCents.Some? && u.parsed && WorthBetting(s, u) && u.ticker !in s.processed
    ensures Actionable(s, u) ==> var d := DecisionFor(s, u); OrderFits(s, u, OrderFor(u, d)) && RowFits(s, u, RowFor(s, u, d))
    ensures u.yesCents.Some? ==> (Opportunity(DecisionFor(s, u)) <==> WorthBetting(s, u))
  {
    hide Decide;
    hide Opportunity;
    hide Cost;
    hide Stake;
    hide OpenStake;
    LeftIsRemaining(s, u.readOk);
    if u.yesCents.Some? && u.forecast.Some? {
      DecisionTerms(u.forecast.value, u.confidence, u.yesCents.value, Remaining(s, u.readOk));
    } else if u.yesCents.Some? {
      NoForecastNoBet(u.confidence, u.yesCents.value as real / 100.0, Remaining(s, u.readOk));
    }
  }

  lemma NoForecastNoBet(confidence: Option<real>, market: real, allocation: real)
    ensures !Opportunity(Decide(None, confidence, market, allocation))
  {
  }

  lemma {:induction false} RepeatIsConstant(o: Order, n: nat)
    ensures |Repeat(o, n)| == n && forall k :: 0 <= k < n ==> Repeat(o, n)[k] == o
  {
    if n > 0 {
      RepeatIsConstant(o, n - 1);
    }
  }

  /** The client sends at least one contract at one to ninety-nine cents, and nothing else. */
  lemma SentOnlyIf(o: Order)
    ensures Sendable(o) <==> o.count >= 1 && o.cents >= 1 && o.cents < 100
  {
  }

  // ----- one callback

  /** The client's loop ends at attempt k: every attempt before it is tried again, and k settles it or there is none. */
  ghost predicate EndsAt(attempts: seq<Attempt>, k: nat) {
    k <= |attempts| && (k < |attempts| ==> attempts[k] in {Delivered, Refused, ErrorAfter})
    && forall j :: 0 <= j < k ==> attempts[j] in {Throttled, LostBefore, LostAfter}
  }

  /** The attempts before the last that were lost after the exchange had taken the order. */
  function LostIn(attempts: seq<Attempt>, k: nat): nat
    requires k <= |attempts|
  {
    if k == 0 then 0 else LostIn(attempts, k - 1) + if attempts[k - 1] == LostAfter then 1 else 0
  }

  lemma {:induction false} LostInTail(attempts: seq<Attempt>, k: nat)
    requires 0 < k <= |attempts|
    ensures LostIn(attempts, k) == LostIn(attempts[1..], k - 1) + if attempts[0] == LostAfter then 1 else 0
  {
    if k > 1 {
      LostInTail(attempts, k - 1);
    }
  }

  /** An order is answered exactly when the loop ends with a delivery; the exchange has taken it once for every lost answer
      and once more when the loop ends with a delivery or with an error after the fact. */
  lemma {:induction false} AttemptsMean(attempts: seq<Attempt>, k: nat)
    requires EndsAt(attempts, k)
    ensures Answered(attempts) <==> k < |attempts| && attempts[k] == Delivered
    ensures Copies(attempts) + (if Answered(attempts) then 1 else 0)
         == LostIn(attempts, k) + if k < |attempts| && attempts[k] in {Delivered, ErrorAfter} then 1 else 0
    decreases k
  {
    if k > 0 {
      AttemptsMean(attempts[1..], k - 1);
      LostInTail(attempts, k);
    }
  }

  /** What one callback changes: nothing unless the ticker is parsed, not taken yet and worth betting on; then its orders and
      its row fit the update, a dry run orders nothing, and the ticker is taken in a dry run or once the order is answered. */
  lemma CallbackExactly(dry: bool, s: State, u: Update, k: nat)
    requires EndsAt(u.attempts, k)
    ensures var s' := Updated(dry, s, u);
            var bets := u.yesCents.Some? && u.parsed && u.ticker !in s.processed && WorthBetting(s, u);
            var answered := k < |u.attempts| && u.attempts[k] == Delivered;
            if !bets then s' == s
            else
              s.orders <= s'.orders && (forall j :: |s.orders| <= j < |s'.orders| ==> OrderFits(s, u, s'.orders[j]))
              && |s'.orders| - |s.orders|
                 == (if dry then 0 else LostIn(u.attempts, k) + if k < |u.attempts| && u.attempts[k] in {Delivered, ErrorAfter} then 1 else 0)
              && s'.processed == (if dry || answered then s.processed + {u.ticker} else s.processed)
              && s'.day == s.day
              && s.rows <= s'.rows && |s'.rows| - |s.rows| == (if (dry || answered) && u.stored then 1 else 0)
              && (|s'.rows| > |s.rows| ==> RowFits(s, u, s'.rows[|s.rows|]))
  {
    hide WorthBetting;
    hide OrderFits;
    hide RowFits;
    hide Actionable;
    hide Copies;
    hide Answered;
    ActionableMeans(s, u);
    if Actionable(s, u) {
      ActionableIsSendable(s, u);
      AttemptsMean(u.attempts, k);
      RepeatIsConstant(OrderFor(u, DecisionFor(s, u)), Copies(u.attempts) + if Answered(u.attempts) then 1 else 0);
    }
  }

  /** What the callback reports. */
  lemma ReplyExactly(dry: bool, s: State, u: Update, k: nat)
    requires EndsAt(u.attempts, k)
    ensures ReplyTo(dry, s, u)
         == if u.yesCents.None? || !u.parsed then Ignored
            else if !WorthBetting(s, u) then NoOpportunity
            else if u.ticker in s.processed then AlreadyBet
            else if dry then Taken(false)
            else if k < |u.attempts| && u.attempts[k] == Delivered then Taken(true)
            else OrderFailed
  {
    hide WorthBetting;
    hide Copies;
    hide Answered;
    ActionableMeans(s, u);
    AttemptsMean(u.attempts, k);
    if Actionable(s, u) {
      ActionableIsSendable(s, u);
    }
  }

  // ----- whole windows

  /** Some callback of the window, seen from the state before it, may send this order. */
  ghost predicate SentIn(dry: bool, s: State, us: seq<Update>, o: Order) {
    exists i :: 0 <= i < |us| && OrderFits(After(dry, s, us[..i]), us[i], o)
  }

  ghost predicate StoredIn(dry: bool, s: State, us: seq<Update>, r: Row) {
    exists i :: 0 <= i < |us| && RowFits(After(dry, s, us[..i]), us[i], r)
  }

  lemma OrderInLonger(dry: bool, s: State, us: seq<Update>, o: Order)
    requires us != [] && (SentIn(dry, s, us[..|us| - 1], o) || OrderFits(After(dry, s, us[..|us| - 1]), us[|us| - 1], o))
    ensures SentIn(dry, s, us, o)
  {
    hide OrderFits;
    var front := us[..|us| - 1];
    if SentIn(dry, s, front, o) {
      var i :| 0 <= i < |front| && OrderFits(After(dry, s, front[..i]), front[i], o);
      assert front[..i] == us[..i];
    }
  }

  lemma RowInLonger(dry: bool, s: State, us: seq<Update>, r: Row)
    requires us != [] && (StoredIn(dry, s, us[..|us| - 1], r) || RowFits(After(dry, s, us[..|us| - 1]), us[|us| - 1], r))
    ensures StoredIn(dry, s, us, r)
  {
    hide RowFits;
    var front := us[..|us| - 1];
    if StoredIn(dry, s, front, r) {
      var i :| 0 <= i < |front| && RowFits(After(dry, s, front[..i]), front[i], r);
      assert front[..i] == us[..i];
    }
  }

  lemma Attempted(attempts: seq<Attempt>) returns (k: nat)
    ensures EndsAt(attempts, k)
  {
    k := 0;
    while k < |attempts| && attempts[k] in {Throttled, LostBefore, LostAfter}
      invariant k <= |attempts| && forall j :: 0 <= j < k ==> attempts[j] in {Throttled, LostBefore, LostAfter}
    {
      k := k + 1;
    }
    if k < |attempts| {
      match attempts[k]
      case Throttled | LostBefore | LostAfter =>
      case _ =>
    }
  }

  /** In every window, live or dry, each new order and each new row is one callback's: its ticker, yes exactly when that
      update's forecast is at least its price, at that side's price. Nothing old is lost. */
  lemma {:induction false} WindowTerms(dry: bool, s: State, us: seq<Update>)
    ensures var t := After(dry, s, us);
            s.orders <= t.orders && s.rows <= t.rows
            && (forall j :: |s.orders| <= j < |t.orders| ==> SentIn(dry, s, us, t.orders[j]))
            && (forall j :: |s.rows| <= j < |t.rows| ==> StoredIn(dry, s, us, t.rows[j]))
  {
    hide OrderFits;
    hide RowFits;
    hide Updated;
    hide WorthBetting;
    hide SentIn;
    hide StoredIn;
    if us != [] {
      var n := |us| - 1;
      WindowTerms(dry, s, us[..n]);
      var t := After(dry, s, us);
      var k := Attempted(us[n].attempts);
      CallbackExactly(dry, After(dry, s, us[..n]), us[n], k);
      forall j | |s.orders| <= j < |t.orders| ensures SentIn(dry, s, us, t.orders[j]) {
        OrderInLonger(dry, s, us, t.orders[j]);
      }
      forall j | |s.rows| <= j < |t.rows| ensures StoredIn(dry, s, us, t.rows[j]) {
        RowInLonger(dry, s, us, t.rows[j]);
      }
    }
  }
}
