/** One polling window of the prediction strategy: decide, order, record, and never take a ticker twice. */
module PredictionSignal {
  import opened KellySizing
  import opened Options

  const BASE := 2000.0

  /** What becomes of one attempt of the exchange client's request loop. `LostAfter` is a transport error and
      `ErrorAfter` an error response after the exchange has taken the order; the loop repeats the first, raises on the second. */
  datatype Attempt = Delivered | Refused | Throttled | LostBefore | LostAfter | ErrorAfter

  datatype Order = Order(ticker: string, side: Side, count: int, cents: int)

  /** A `weather_bets` row. */
  datatype Row = Row(ticker: string, side: Side, stake: real, entry: real, day: int, open: bool)

  /** One callback: the payload, and what every outside call made during it answers.
      `attempts` has one entry for each try the client would make. */
  datatype Update = Update(ticker: string, yesCents: Option<int>, parsed: bool, forecast: Option<real>,
                           confidence: Option<real>, readOk: bool, attempts: seq<Attempt>, stored: bool)

  datatype Reply = Ignored | NoOpportunity | AlreadyBet | OrderFailed | Taken(betPlaced: bool)

  /** The processed tickers of the window, the bets table, the orders the exchange has taken, and CURRENT_DATE. */
  datatype State = State(processed: set<string>, rows: seq<Row>, orders: seq<Order>, day: int)

  /** `SUM(stake_usd) WHERE status = 'open' AND placed_at::date = CURRENT_DATE`. */
  function OpenStake(rows: seq<Row>, day: int): real {
    if rows == [] then 0.0
    else
      var last := rows[|rows| - 1];
      OpenStake(rows[..|rows| - 1], day) + if last.open && last.day == day then last.stake else 0.0
  }

  /** `_allocation_remaining_today`: a failed read answers the whole base. */
  function Remaining(s: State, readOk: bool): (r: real)
    ensures r >= 0.0
  {
    if !readOk then BASE
    else if BASE - OpenStake(s.rows, s.day) < 0.0 then 0.0
    else BASE - OpenStake(s.rows, s.day)
  }

  function DecisionFor(s: State, u: Update): Decision
    requires u.yesCents.Some?
  {
    Decide(u.forecast, u.confidence, u.yesCents.value as real / 100.0, Remaining(s, u.readOk))
  }

  /** How many copies of the order the exchange takes without the program hearing of it. */
  function Copies(attempts: seq<Attempt>): nat {
    if attempts == [] then 0
    else match attempts[0]
      case Delivered | Refused => 0
      case Throttled | LostBefore => Copies(attempts[1..])
      case LostAfter => 1 + Copies(attempts[1..])
      case ErrorAfter => 1
  }

  /** An attempt is answered with the order. */
  predicate Answered(attempts: seq<Attempt>) {
    attempts != [] && (attempts[0].Delivered? || (!attempts[0].Refused? && !attempts[0].ErrorAfter? && Answered(attempts[1..])))
  }

  function Repeat(o: Order, n: nat): seq<Order> { if n == 0 then [] else Repeat(o, n - 1) + [o] }

  function OrdersTaken(o: Order, attempts: seq<Attempt>): seq<Order> {
    Repeat(o, Copies(attempts) + if Answered(attempts) then 1 else 0)
  }

  /** The price and count checks the client makes before it sends anything. */
  predicate Sendable(o: Order) { o.count > 0 && 1 <= o.cents <= 99 }

  function OrderFor(u: Update, d: Decision): Order
    requires d.Decision?
  {
    Order(u.ticker, d.side, d.contracts, d.cents)
  }

  function RowFor(s: State, u: Update, d: Decision): Row
    requires d.Decision?
  {
    Row(u.ticker, d.side, d.stake, d.marketP, s.day, true)
  }

  /** The update gets as far as being taken or ordered. */
  predicate Actionable(s: State, u: Update) {
    u.yesCents.Some? && u.parsed && Opportunity(DecisionFor(s, u)) && u.ticker !in s.processed
  }

  /** The state one callback leaves. */
  function Updated(dry: bool, s: State, u: Update): State {
    if !Actionable(s, u) then s
    else
      var d := DecisionFor(s, u);
      var o := OrderFor(u, d);
      var s1 := if dry || !Sendable(o) then s else s.(orders := s.orders + OrdersTaken(o, u.attempts));
      if !dry && !(Sendable(o) && Answered(u.attempts)) then s1
      else
        s1.(processed := s.processed + {u.ticker}, rows := if u.stored then s.rows + [RowFor(s, u, d)] else s.rows)
  }

  function ReplyTo(dry: bool, s: State, u: Update): Reply {
    if u.yesCents.None? || !u.parsed then Ignored
    else if !Opportunity(DecisionFor(s, u)) then NoOpportunity
    else if u.ticker in s.processed then AlreadyBet
    else if dry then Taken(false)
    else if Sendable(OrderFor(u, DecisionFor(s, u))) && Answered(u.attempts) then Taken(true)
    else OrderFailed
  }

  class Signal {
    const dryRun: bool
    var day: int
    var processed: set<string>
    var rows: seq<Row>
    var orders: seq<Order>

    /** A new polling window: nothing processed yet, the tables as they are. */
    constructor (dryRun: bool, day: int, rows: seq<Row>, orders: seq<Order>)
      ensures this.dryRun == dryRun && Now() == State({}, rows, orders, day)
    {
      this.dryRun, this.day, this.rows, this.orders, processed := dryRun, day, rows, orders, {};
    }

    ghost function Now(): State
      reads this
    {
      State(processed, rows, orders, day)
    }

    /** The client's `place_order` with its retry loop; false stands for the exception it raises. */
    method PlaceOrder(o: Order, attempts: seq<Attempt>) returns (ok: bool)
      modifies this`orders
      ensures ok == (Sendable(o) && Answered(attempts))
      ensures orders == old(orders) + if Sendable(o) then OrdersTaken(o, attempts) else []
    {
      if o.count <= 0 || !(1 <= o.cents <= 99) {
        return false;
      }
      ghost var taken := 0;
      for i := 0 to |attempts|
        invariant Copies(attempts) == taken + Copies(attempts[i..]) && Answered(attempts) == Answered(attempts[i..])
        invariant orders == old(orders) + Repeat(o, taken)
      {
        match attempts[i] {
          case Delivered =>
            orders := orders + [o];
            return true;
          case Refused =>
            return false;
          case Throttled | LostBefore =>
          case LostAfter =>
            orders := orders + [o];
            taken := taken + 1;
          case ErrorAfter =>
            orders := orders + [o];
            return false;
        }
      }
      return false;
    }

    /** `on_market_update`. */
    method OnMarketUpdate(u: Update) returns (r: Reply)
      modifies this`processed, this`rows, this`orders
      ensures Now() == Updated(dryRun, old(Now()), u) && r == ReplyTo(dryRun, old(Now()), u)
    {
      if u.yesCents.None? || !u.parsed {
        return Ignored;
      }
      var remaining := Remaining(State(processed, rows, orders, day), u.readOk);
      var d := Decide(u.forecast, u.confidence, u.yesCents.value as real / 100.0, remaining);
      if !Opportunity(d) {
        return NoOpportunity;
      }
      if u.ticker in processed {
        return AlreadyBet;
      }
      var betPlaced := false;
      if !dryRun {
        betPlaced := PlaceOrder(Order(u.ticker, d.side, d.contracts, d.cents), u.attempts);
        if !betPlaced {
          return OrderFailed;
        }
      }
      if u.stored {
        rows := rows + [Row(u.ticker, d.side, d.stake, d.marketP, day, true)];
      }
      processed := processed + {u.ticker};
      return Taken(betPlaced);
    }
  }

  // ----- whole windows

  /** The state after the first n callbacks. */
  function After(dry: bool, s: State, us: seq<Update>): State {
    if us == [] then s else Updated(dry, After(dry, s, us[..|us| - 1]), us[|us| - 1])
  }

  function OrdersOn(orders: seq<Order>, ticker: string): nat {
    if orders == [] then 0
    else OrdersOn(orders[..|orders| - 1], ticker) + if orders[|orders| - 1].ticker == ticker then 1 else 0
  }

  /** How many copies this callback leaves at the exchange that the program never hears of. */
  function Unheard(dry: bool, s: State, u: Update, ticker: string): nat {
    if !dry && u.ticker == ticker && Actionable(s, u) then Copies(u.attempts) else 0
  }

  function UnheardIn(dry: bool, s: State, us: seq<Update>, ticker: string): nat {
    if us == [] then 0
    else
      var front := us[..|us| - 1];
      UnheardIn(dry, s, front, ticker) + Unheard(dry, After(dry, s, front), us[|us| - 1], ticker)
  }

  lemma OneOrderMore(orders: seq<Order>, o: Order, ticker: string)
    ensures OrdersOn(orders + [o], ticker) == OrdersOn(orders, ticker) + if o.ticker == ticker then 1 else 0
  {
    assert (orders + [o])[..|orders|] == orders;
  }

  lemma {:induction false} OrdersOnRepeat(orders: seq<Order>, o: Order, n: nat, ticker: string)
    ensures OrdersOn(orders + Repeat(o, n), ticker) == OrdersOn(orders, ticker) + if o.ticker == ticker then n else 0
  {
    hide OrdersOn;
    if n == 0 {
      assert orders + Repeat(o, 0) == orders;
    } else {
      OrdersOnRepeat(orders, o, n - 1, ticker);
      assert orders + Repeat(o, n) == (orders + Repeat(o, n - 1)) + [o];
      OneOrderMore(orders + Repeat(o, n - 1), o, ticker);
    }
  }

  lemma ActionableIsSendable(s: State, u: Update)
    requires Actionable(s, u)
    ensures DecisionFor(s, u).Decision? && Sendable(OrderFor(u, DecisionFor(s, u)))
  {
    OpportunityIsOrderable(u.forecast, u.confidence, u.yesCents.value, Remaining(s, u.readOk));
  }

  lemma OneCallback(s: State, u: Update, ticker: string)
    ensures var s' := Updated(false, s, u);
            s.processed <= s'.processed
            && OrdersOn(s'.orders, ticker) - OrdersOn(s.orders, ticker)
               == Unheard(false, s, u, ticker) + (if ticker in s'.processed then 1 else 0) - (if ticker in s.processed then 1 else 0)
  {
    if Actionable(s, u) {
      ActionableIsSendable(s, u);
      var o := OrderFor(u, DecisionFor(s, u));
      OrdersOnRepeat(s.orders, o, Copies(u.attempts) + if Answered(u.attempts) then 1 else 0, ticker);
    }
  }

  /** In any live window the exchange takes exactly one order for each processed ticker and none for any other,
      besides the copies whose answers were lost. So a ticker gets a second order exactly through a lost answer. */
  lemma {:induction false} OrdersAccountedFor(s: State, us: seq<Update>, ticker: string)
    requires s.processed == {}
    ensures var s' := After(false, s, us);
            OrdersOn(s'.orders, ticker)
            == OrdersOn(s.orders, ticker) + (if ticker in s'.processed then 1 else 0) + UnheardIn(false, s, us, ticker)
  {
    if us != [] {
      var front := us[..|us| - 1];
      OrdersAccountedFor(s, front, ticker);
      OneCallback(After(false, s, front), us[|us| - 1], ticker);
    }
  }

  /** The order goes out without an idempotency key, so one callback whose first answer is lost orders twice. */
  lemma LostAnswerOrdersTwice(s: State, u: Update)
    requires Actionable(s, u) && |u.attempts| >= 2 && u.attempts[0] == LostAfter && u.attempts[1] == Delivered
    ensures Updated(false, s, u).orders == s.orders + [OrderFor(u, DecisionFor(s, u)), OrderFor(u, DecisionFor(s, u))]
    ensures ReplyTo(false, s, u) == Taken(true)
  {
    ActionableIsSendable(s, u);
    var o := OrderFor(u, DecisionFor(s, u));
    assert Answered(u.attempts[1..]) && Copies(u.attempts[1..]) == 0;
    assert Repeat(o, 2) == [o, o] by {
      assert Repeat(o, 1) == [o];
    }
  }

  /** The callback with its order delivered at the first try. */
  function WithDelivery(u: Update): Update { u.(attempts := [Delivered]) }

  function AllDelivered(us: seq<Update>): (r: seq<Update>)
    ensures |r| == |us| && forall i :: 0 <= i < |us| ==> r[i] == WithDelivery(us[i])
  {
    seq(|us|, i requires 0 <= i < |us| => WithDelivery(us[i]))
  }

  lemma DryCallbackMirrorsLive(s: State, t: State, u: Update)
    requires t == s.(orders := t.orders)
    ensures var s', t' := Updated(true, s, u), Updated(false, t, WithDelivery(u)); s'.orders == s.orders && t' == s'.(orders := t'.orders)
  {
    hide Opportunity;
    hide Decide;
    if u.yesCents.Some? {
      assert DecisionFor(t, WithDelivery(u)) == DecisionFor(s, u);
      if Actionable(s, u) {
        ActionableIsSendable(s, u);
      }
    }
  }

  /** A dry window sends nothing, and otherwise leaves exactly the processed tickers, open rows and so remaining allocation
      of the live window in which every order is delivered at once. */
  lemma {:induction false} DryRunMirrorsLive(s: State, us: seq<Update>)
    ensures var dry, live := After(true, s, us), After(false, s, AllDelivered(us));
            dry.orders == s.orders && live == dry.(orders := live.orders)
            && forall readOk :: Remaining(dry, readOk) == Remaining(live, readOk)
  {
    if us != [] {
      var front, u := us[..|us| - 1], us[|us| - 1];
      DryRunMirrorsLive(s, front);
      assert AllDelivered(us)[..|us| - 1] == AllDelivered(front);
      DryCallbackMirrorsLive(After(true, s, front), After(false, s, AllDelivered(front)), u);
    }
  }
}
