/** Orders that have been accepted and not yet filled. `State.position` is the net quantity ordered; here it is split
    into what has filled, what still rests, and what was cancelled or expired before it filled. */
module RestingOrders {
  import opened Options
  import opened Killswitch
  import opened ReconcileDaemon
  import opened HaltProtocol
  import opened PositionLedger
  import opened FlattenRuns
  import Reconcile

  datatype Resting = Resting(slot: Slot, delta: int)

  datatype World = World(books: State, filled: map<Slot, int>, resting: seq<Resting>, dropped: seq<Resting>)

  /** A step of the framework, with the resting orders its cancel pass gets through to; the exchange filling an order;
      an order expiring at the end of its day. */
  datatype Move = Act(step: Step, gone: set<nat>) | Fill(k: nat) | Expire(k: nat)

  function Sum(orders: seq<Resting>, slot: Slot): int {
    if orders == [] then 0
    else Sum(orders[..|orders| - 1], slot) + if orders[|orders| - 1].slot == slot then orders[|orders| - 1].delta else 0
  }

  lemma {:induction false} SumAppends(a: seq<Resting>, b: seq<Resting>, slot: Slot)
    ensures Sum(a + b, slot) == Sum(a, slot) + Sum(b, slot)
  {
    if b == [] {
      assert a + b == a;
    } else {
      var n := |b| - 1;
      SumAppends(a, b[..n], slot);
      assert (a + b)[..|a| + n] == a + b[..n];
    }
  }

  /** The sell orders a flatten has accepted for the first n rows. */
  function FlattenOrders(trades: seq<Trade>, f: seq<FlattenOutcome>, n: nat): seq<Resting>
    requires n <= |trades|
  {
    if n == 0 then []
    else
      var t := trades[n - 1];
      FlattenOrders(trades, f, n - 1)
      + if t.open && Accepted(At(f, n - 1)) then [Resting(SlotOf(t), -(t.qty as int))] else []
  }

  /** The orders a step places on strategy accounts. */
  ghost function Placed(s: State, step: Step): seq<Resting> {
    match step
    case OpenTrade(strategy, ticker, side, qty, gatesOk, r) =>
      var t := Trade(strategy, ticker, side, qty, true);
      if ShouldRun(s, strategy, gatesOk) && !r.NotAccepted? then [Resting(SlotOf(t), Signed(t))] else []
    case ExitTrade(id, own, gatesOk, o) =>
      if id < |s.trades| && s.trades[id].open && ShouldRun(s, s.trades[id].strategy, gatesOk) && o != OrderRefused && own
      then [Resting(SlotOf(s.trades[id]), -Signed(s.trades[id]))] else []
    case _ =>
      match FlattenOf(s, step) case None => [] case Some(f) => FlattenOrders(s.trades, f, |s.trades|)
  }

  /** The broker a step's cancel pass reaches, if it makes one. */
  ghost function CancelPass(step: Step): Option<Broker> {
    match step
    case HaltCall(b, _) => if b.fault == BeforeFlags then None else Some(b)
    case CycleRun(f, dryRun, hb, b) => if hb && Diverged(f) && !dryRun && b.fault != BeforeFlags then Some(b) else None
    case _ => None
  }

  ghost predicate Cancels(step: Step, gone: set<nat>, r: Resting, k: nat) {
    k in gone && CancelPass(step).Some?
    && r.slot.account in CancelPass(step).value.accounts && r.slot.account in CancelPass(step).value.lists
  }

  /** The first n resting orders a step cancels, or leaves. */
  ghost function Chosen(orders: seq<Resting>, step: Step, gone: set<nat>, cancelled: bool, n: nat): seq<Resting>
    requires n <= |orders|
  {
    if n == 0 then []
    else Chosen(orders, step, gone, cancelled, n - 1)
         + if Cancels(step, gone, orders[n - 1], n - 1) == cancelled then [orders[n - 1]] else []
  }

  ghost function Moved(w: World, m: Move): World {
    match m
    case Act(step, gone) =>
      var n := |w.resting|;
      World(Next(w.books, step), w.filled,
            Chosen(w.resting, step, gone, false, n) + Placed(w.books, step),
            w.dropped + Chosen(w.resting, step, gone, true, n))
    case Fill(k) =>
      if k >= |w.resting| then w
      else
        var r := w.resting[k];
        w.(filled := w.filled[r.slot := NetAt(w.filled, r.slot) + r.delta], resting := w.resting[..k] + w.resting[k + 1..])
    case Expire(k) =>
      if k >= |w.resting| then w
      else w.(resting := w.resting[..k] + w.resting[k + 1..], dropped := w.dropped + [w.resting[k]])
  }

  ghost function After(w: World, ms: seq<Move>): World {
    if ms == [] then w else Moved(After(w, ms[..|ms| - 1]), ms[|ms| - 1])
  }

  // ----- nothing is lost track of

  /** Ordered is filled plus resting plus dropped, on every account. */
  ghost predicate Accounted(w: World) {
    forall slot :: AccountedOn(w, slot)
  }

  ghost predicate AccountedOn(w: World, slot: Slot) {
    NetAt(w.books.position, slot) == NetAt(w.filled, slot) + Sum(w.resting, slot) + Sum(w.dropped, slot)
  }

  lemma {:induction false} FlattenOrdersSum(trades: seq<Trade>, f: seq<FlattenOutcome>, slot: Slot, n: nat)
    requires n <= |trades|
    ensures Sum(FlattenOrders(trades, f, n), slot) == -(Sold(trades, f, slot, n) as int)
  {
    if n > 0 {
      FlattenOrdersSum(trades, f, slot, n - 1);
      var t := trades[n - 1];
      var last: seq<Resting> := if t.open && Accepted(At(f, n - 1)) then [Resting(SlotOf(t), -(t.qty as int))] else [];
      SumAppends(FlattenOrders(trades, f, n - 1), last, slot);
    }
  }

  lemma PlacedIsOrdered(s: State, step: Step, slot: Slot)
    ensures NetAt(Next(s, step).position, slot) == NetAt(s.position, slot) + Sum(Placed(s, step), slot)
  {
    hide Sum;
    hide Halt;
    hide Cycle;
    hide Opened;
    hide Exited;
    hide FlattenOf;
    hide ShouldRun;
    match step
    case OpenTrade(strategy, ticker, side, qty, gatesOk, r) =>
      EntryIsOrdered(s, Trade(strategy, ticker, side, qty, true), gatesOk, r, slot);
    case ExitTrade(_, _, _, _) => ExitIsOrdered(s, step, slot);
    case _ => FlattenIsOrdered(s, step, slot);
  }

  lemma EntryIsOrdered(s: State, t: Trade, gatesOk: bool, r: Response, slot: Slot)
    ensures var placed := if ShouldRun(s, t.strategy, gatesOk) && !r.NotAccepted? then [Resting(SlotOf(t), Signed(t))] else [];
            NetAt(Opened(s, t, gatesOk, r).position, slot) == NetAt(s.position, slot) + Sum(placed, slot)
  {
    hide EntryOutcome;
    hide ShouldRun;
    hide Sum;
    SumOfNone(slot);
    SumOfOne(Resting(SlotOf(t), Signed(t)), slot);
  }

  lemma ExitIsOrdered(s: State, step: Step, slot: Slot)
    requires step.ExitTrade?
    ensures NetAt(Next(s, step).position, slot) == NetAt(s.position, slot) + Sum(Placed(s, step), slot)
  {
    hide ShouldRun;
    hide Sum;
    SumOfNone(slot);
    if step.id < |s.trades| {
      SumOfOne(Resting(SlotOf(s.trades[step.id]), -Signed(s.trades[step.id])), slot);
    }
  }

  lemma FlattenIsOrdered(s: State, step: Step, slot: Slot)
    requires !step.OpenTrade? && !step.ExitTrade?
    ensures NetAt(Next(s, step).position, slot) == NetAt(s.position, slot) + Sum(Placed(s, step), slot)
  {
    hide Next;
    hide FlattenOf;
    HaltStepRows(s, step);
    if FlattenOf(s, step).Some? {
      var f := FlattenOf(s, step).value;
      FlattenConserves(s.position, s.trades, f, slot, |s.trades|);
      FlattenOrdersSum(s.trades, f, slot, |s.trades|);
    }
  }

  lemma {:induction false} ChosenSplits(orders: seq<Resting>, step: Step, gone: set<nat>, slot: Slot, n: nat)
    requires n <= |orders|
    ensures Sum(Chosen(orders, step, gone, false, n), slot) + Sum(Chosen(orders, step, gone, true, n), slot) == Sum(orders[..n], slot)
  {
    hide Sum;
    hide Cancels;
    if n > 0 {
      ChosenSplits(orders, step, gone, slot, n - 1);
      var c := Cancels(step, gone, orders[n - 1], n - 1);
      SumAppends(Chosen(orders, step, gone, c, n - 1), [orders[n - 1]], slot);
      assert Chosen(orders, step, gone, !c, n - 1) + [] == Chosen(orders, step, gone, !c, n - 1);
      assert orders[..n] == orders[..n - 1] + [orders[n - 1]];
      SumAppends(orders[..n - 1], [orders[n - 1]], slot);
    } else {
      SumOfNone(slot);
      assert orders[..0] == [];
    }
  }

  lemma SumAround(a: seq<Resting>, r: Resting, b: seq<Resting>, slot: Slot)
    ensures Sum((a + [r]) + b, slot) == Sum(a + b, slot) + if r.slot == slot then r.delta else 0
  {
    hide Sum;
    SumAppends(a, b, slot);
    SumAppends(a, [r], slot);
    SumAppends(a + [r], b, slot);
    SumOfOne(r, slot);
  }

  lemma {:induction false} SumWithout(orders: seq<Resting>, k: nat, slot: Slot)
    requires k < |orders|
    ensures Sum(orders, slot) == Sum(orders[..k] + orders[k + 1..], slot) + if orders[k].slot == slot then orders[k].delta else 0
  {
    hide Sum;
    SumAround(orders[..k], orders[k], orders[k + 1..], slot);
    assert orders == (orders[..k] + [orders[k]]) + orders[k + 1..];
  }

  lemma SumOfNone(slot: Slot)
    ensures Sum([], slot) == 0
  {
  }

  lemma SumOfOne(r: Resting, slot: Slot)
    ensures Sum([r], slot) == if r.slot == slot then r.delta else 0
  {
  }

  lemma MoveAccounts(w: World, m: Move, slot: Slot)
    requires AccountedOn(w, slot)
    ensures AccountedOn(Moved(w, m), slot)
  {
    hide Next;
    hide Sum;
    hide Chosen;
    hide Placed;
    match m
    case Act(step, gone) =>
      var n := |w.resting|;
      PlacedIsOrdered(w.books, step, slot);
      ChosenSplits(w.resting, step, gone, slot, n);
      assert w.resting[..n] == w.resting;
      SumAppends(Chosen(w.resting, step, gone, false, n), Placed(w.books, step), slot);
      SumAppends(w.dropped, Chosen(w.resting, step, gone, true, n), slot);
    case Fill(k) =>
      if k < |w.resting| {
        SumWithout(w.resting, k, slot);
      }
    case Expire(k) =>
      if k < |w.resting| {
        SumWithout(w.resting, k, slot);
        SumAppends(w.dropped, [w.resting[k]], slot);
        SumOfOne(w.resting[k], slot);
      }
  }

  /** Over every run of steps, fills, cancels and expiries, what was ordered is filled, resting or dropped. */
  lemma {:induction false} RunsAccount(w: World, ms: seq<Move>)
    requires Accounted(w)
    ensures Accounted(After(w, ms))
  {
    if ms != [] {
      var before := After(w, ms[..|ms| - 1]);
      RunsAccount(w, ms[..|ms| - 1]);
      forall slot ensures AccountedOn(After(w, ms), slot) {
        assert AccountedOn(before, slot);
        MoveAccounts(before, ms[|ms| - 1], slot);
      }
    }
  }

  function StepsOf(ms: seq<Move>): seq<Step> {
    if ms == [] then []
    else StepsOf(ms[..|ms| - 1]) + if ms[|ms| - 1].Act? then [ms[|ms| - 1].step] else []
  }

  /** Fills, cancels and expiries never touch the framework's own state. */
  lemma {:induction false} BooksFollowSteps(w: World, ms: seq<Move>)
    ensures After(w, ms).books == Run(w.books, StepsOf(ms))
  {
    if ms != [] {
      var front, m := ms[..|ms| - 1], ms[|ms| - 1];
      BooksFollowSteps(w, front);
      if m.Act? {
        assert StepsOf(ms)[..|StepsOf(ms)| - 1] == StepsOf(front);
      } else {
        assert StepsOf(ms) == StepsOf(front);
      }
    }
  }

  /** What the accounts really hold is what the open trades call for. */
  ghost predicate HoldingsAgree(w: World) {
    forall slot :: HoldingAgrees(w, slot)
  }

  ghost predicate HoldingAgrees(w: World, slot: Slot) {
    NetAt(w.filled, slot) == Exposure(w.books.trades, slot, |w.books.trades|)
  }

  /** Ordered but not held: the orders that rest and those that were dropped. */
  function Unfilled(w: World, slot: Slot): int { Sum(w.resting, slot) + Sum(w.dropped, slot) }

  /** Over clean runs the holdings agree with the trades exactly when, on every account and ticker,
      what rests and what was dropped cancel out: the other way the books come apart. */
  lemma HoldingsAgreeExactly(w: World, ms: seq<Move>)
    requires BooksAgree(w.books) && PositiveQuantities(w.books.trades) && w.filled == w.books.position && w.resting == w.dropped == []
    requires AllPossible(StepsOf(ms)) && CleanThroughout(w.books, StepsOf(ms))
    ensures HoldingsAgree(After(w, ms)) <==> forall slot :: Unfilled(After(w, ms), slot) == 0
  {
    hide CleanThroughout;
    hide After;
    var t := After(w, ms);
    FreshAccounts(w);
    RunsAccount(w, ms);
    BooksFollowSteps(w, ms);
    BooksAgreeThroughoutExactly(w.books, StepsOf(ms));
    forall slot ensures HoldingAgrees(t, slot) <==> Unfilled(t, slot) == 0 {
      assert AccountedOn(t, slot);
    }
  }

  lemma FreshAccounts(w: World)
    requires w.filled == w.books.position && w.resting == w.dropped == []
    ensures Accounted(w)
  {
    forall slot ensures AccountedOn(w, slot) {
    }
  }

  // ----- after a halt has closed every trade

  ghost predicate NoUnhalts(ms: seq<Move>) {
    forall k :: 0 <= k < |ms| && ms[k].Act? ==> !Unhalts(ms[k].step)
  }

  lemma {:induction false} NoFlattenOrders(trades: seq<Trade>, f: seq<FlattenOutcome>, n: nat)
    requires n <= |trades| && forall i :: 0 <= i < |trades| ==> !trades[i].open
    ensures FlattenOrders(trades, f, n) == []
  {
    if n > 0 {
      NoFlattenOrders(trades, f, n - 1);
    }
  }

  lemma QuietPlacesNothing(s: State, step: Step)
    requires Quiet(s)
    ensures Placed(s, step) == []
  {
    hide FlattenOf;
    if FlattenOf(s, step).Some? {
      NoFlattenOrders(s.trades, FlattenOf(s, step).value, |s.trades|);
    }
  }

  /** Once no trade is open and the system is halted, nothing is ordered again: what was resting fills, keeps resting
      or is dropped, and a dropped flatten is never repeated, so its quantity stays on the account. */
  lemma {:induction false} DroppedFlattensAreNotRepeated(w: World, ms: seq<Move>, slot: Slot)
    requires Quiet(w.books) && NoUnhalts(ms)
    ensures var t := After(w, ms);
            Quiet(t.books) && t.books.trades == w.books.trades && w.dropped <= t.dropped
            && NetAt(t.filled, slot) + Sum(t.resting, slot) + Sum(t.dropped, slot)
               == NetAt(w.filled, slot) + Sum(w.resting, slot) + Sum(w.dropped, slot)
  {
    if ms != [] {
      var before, m := After(w, ms[..|ms| - 1]), ms[|ms| - 1];
      DroppedFlattensAreNotRepeated(w, ms[..|ms| - 1], slot);
      QuietMove(before, m, slot);
    }
  }

  lemma QuietMove(w: World, m: Move, slot: Slot)
    requires Quiet(w.books) && (m.Act? ==> !Unhalts(m.step))
    ensures var t := Moved(w, m);
            Quiet(t.books) && t.books.trades == w.books.trades && w.dropped <= t.dropped
            && NetAt(t.filled, slot) + Sum(t.resting, slot) + Sum(t.dropped, slot)
               == NetAt(w.filled, slot) + Sum(w.resting, slot) + Sum(w.dropped, slot)
  {
    hide Next;
    hide Sum;
    hide Chosen;
    match m
    case Act(step, gone) => QuietAct(w, step, gone, slot);
    case Fill(k) =>
      if k < |w.resting| {
        SumWithout(w.resting, k, slot);
      }
    case Expire(k) =>
      if k < |w.resting| {
        SumWithout(w.resting, k, slot);
        SumAppends(w.dropped, [w.resting[k]], slot);
        SumOfOne(w.resting[k], slot);
      }
  }

  lemma QuietAct(w: World, step: Step, gone: set<nat>, slot: Slot)
    requires Quiet(w.books) && !Unhalts(step)
    ensures var t := Moved(w, Act(step, gone));
            Quiet(t.books) && t.books.trades == w.books.trades && w.dropped <= t.dropped && t.filled == w.filled
            && Sum(t.resting, slot) + Sum(t.dropped, slot) == Sum(w.resting, slot) + Sum(w.dropped, slot)
  {
    hide Next;
    hide Sum;
    hide Chosen;
    var n := |w.resting|;
    QuietStep(w.books, step);
    QuietPlacesNothing(w.books, step);
    ChosenSplits(w.resting, step, gone, slot, n);
    assert w.resting[..n] == w.resting;
    assert Chosen(w.resting, step, gone, false, n) + [] == Chosen(w.resting, step, gone, false, n);
    SumAppends(w.dropped, Chosen(w.resting, step, gone, true, n), slot);
  }

  /** The default account and every strategy account, as `list_positions` reports them: filled quantities only. */
  function AsHeld(w: World): State { w.books.(position := w.filled) }

  lemma NoOpenTradesNoEntries(pg: Reconcile.Source, trades: seq<Trade>, t: string)
    requires ReadsTrades(pg, trades) && forall i :: 0 <= i < |trades| ==> !trades[i].open
    ensures t !in pg
  {
  }

  /** While a halted system's flatten order rests, its rows are closed and its position is still held: a truthful cycle
      diverges, halts again and cancels the order. The position stays, and by the result above no later move sells it. */
  lemma DaemonCancelsItsOwnFlatten(w: World, k: nat, accounts: seq<string>, f: Fetch, b: Broker)
    requires Quiet(w.books) && k < |w.resting| && NetAt(w.filled, w.resting[k].slot) != 0
    requires f.Fetched? && ReadsBroker(f.alpaca, AsHeld(w), accounts) && ReadsTrades(f.pg, w.books.trades)
    requires b.fault == NoFault && w.resting[k].slot.account in accounts
    requires w.resting[k].slot.account in b.accounts && w.resting[k].slot.account in b.lists
    ensures var t := Moved(w, Act(CycleRun(f, false, true, b), {k}));
            t.dropped == w.dropped + [w.resting[k]] && t.resting == w.resting[..k] + w.resting[k + 1..]
            && t.filled == w.filled && t.books.trades == w.books.trades && Quiet(t.books)
  {
    var slot, step := w.resting[k].slot, CycleRun(f, false, true, b);
    NoOpenTradesNoEntries(f.pg, w.books.trades, slot.ticker);
    assert Slot(slot.account, slot.ticker) == slot && slot.ticker in f.alpaca;
    Reconcile.AgreementIsThreePairs(f.alpaca, f.pg, f.nj);
    assert !Reconcile.TickerAgrees(slot.ticker, f.alpaca, f.pg);
    QuietStep(w.books, step);
    QuietPlacesNothing(w.books, step);
    OneChosen(w.resting, step, k, |w.resting|);
    assert w.resting[..|w.resting|] == w.resting;
  }

  lemma {:induction false} NoneChosen(orders: seq<Resting>, step: Step, k: nat, n: nat)
    requires n <= k < |orders|
    ensures Chosen(orders, step, {k}, true, n) == [] && Chosen(orders, step, {k}, false, n) == orders[..n]
  {
    hide Cancels;
    if n > 0 {
      NoneChosen(orders, step, k, n - 1);
      OnlyThis(step, k, orders[n - 1], n - 1);
    }
  }

  lemma {:induction false} OneChosen(orders: seq<Resting>, step: Step, k: nat, n: nat)
    requires k < n <= |orders| && Cancels(step, {k}, orders[k], k)
    ensures Chosen(orders, step, {k}, true, n) == [orders[k]]
    ensures Chosen(orders, step, {k}, false, n) == orders[..k] + orders[k + 1..n]
  {
    hide Cancels;
    if n == k + 1 {
      NoneChosen(orders, step, k, k);
      assert orders[k + 1..n] == [];
    } else {
      OneChosen(orders, step, k, n - 1);
      OnlyThis(step, k, orders[n - 1], n - 1);
      assert orders[k + 1..n] == orders[k + 1..n - 1] + [orders[n - 1]];
    }
  }

  lemma OnlyThis(step: Step, k: nat, r: Resting, j: nat)
    ensures j != k ==> !Cancels(step, {k}, r, j)
  {
  }
}
