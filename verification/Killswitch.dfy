/** The emergency halt: strategy statuses, order cancellation, position flattening, operator SMS, and reset. */
module Killswitch {
  import opened Options

  const SYSTEM := "system"
  /** `list_orders(status="open", limit=500)`. */
  const ORDER_PAGE := 500

  datatype Status = Active | Paused | Halted | Errored

  datatype Side = Long | Short

  /** A row of `paper_trades`; the table is a sequence, the row id its index. */
  datatype Trade = Trade(strategy: string, ticker: string, side: Side, qty: nat, open: bool)

  /** A ticker on a strategy's own broker account. */
  datatype Slot = Slot(account: string, ticker: string)

  datatype Sms = HaltSms | ResetSms

  datatype Event = HaltEvent(flattening: bool, cancelled: nat, flattened: nat, failed: nat) | ResetEvent

  /** The database tables and broker accounts the killswitch touches. `position` and `legacy` (the default account) are
      net quantities ordered, which is what an account holds once its orders have filled. */
  datatype State = State(
    strategies: map<string, Status>,
    trades: seq<Trade>,
    position: map<Slot, int>,
    legacy: map<string, int>,
    openOrders: map<string, seq<string>>,
    sms: seq<Sms>,
    events: seq<Event>)

  /** What happens to one flatten attempt: no client for the strategy, order refused, an exception after the order
      was accepted (fill lookup or bookkeeping), or success. */
  datatype FlattenOutcome = NoClient | Refused | LostAfterSubmit | Closed

  /** Where a database exception leaves `halt`, if anywhere. */
  datatype HaltFault = NoFault | BeforeFlags | BeforeFlatten | BeforeLog

  /** The environment of one halt: which accounts exist and list their orders, which cancels succeed,
      how each trade's flatten goes, and whether the SMS goes out. */
  datatype Broker = Broker(accounts: seq<string>, lists: set<string>, cancels: set<string>,
                           flatten: seq<FlattenOutcome>, fault: HaltFault, smsOk: bool)

  /** The outcome of trade i's attempt; a trade with none listed has no client. */
  function At(f: seq<FlattenOutcome>, i: nat): FlattenOutcome {
    if i < |f| then f[i] else NoClient
  }

  // ----- reading the state

  predicate SystemHalted(strategies: map<string, Status>) {
    SYSTEM in strategies && strategies[SYSTEM] == Halted
  }

  function NetAt(position: map<Slot, int>, slot: Slot): int {
    if slot in position then position[slot] else 0
  }

  function SlotOf(t: Trade): Slot { Slot(t.strategy, t.ticker) }

  /** What a trade contributes to its account's net position. */
  function Signed(t: Trade): int { if t.side.Long? then t.qty else -(t.qty as int) }

  function Accepted(o: FlattenOutcome): bool { o.LostAfterSubmit? || o.Closed? }

  predicate Distinct(accounts: seq<string>) { forall i, j :: 0 <= i < j < |accounts| ==> accounts[i] != accounts[j] }

  // ----- the steps of a halt, on states

  function AllHalted(strategies: map<string, Status>): map<string, Status> {
    map id | id in strategies :: Halted
  }

  function Rearmed(strategies: map<string, Status>): map<string, Status> {
    map id | id in strategies :: if strategies[id] == Halted then Active else strategies[id]
  }

  /** The orders of one account left open: those whose cancel failed, and those beyond the first page. */
  function Uncancelled(orders: seq<string>, cancels: set<string>): seq<string> {
    if |orders| <= ORDER_PAGE then Failing(orders, cancels)
    else Failing(orders[..ORDER_PAGE], cancels) + orders[ORDER_PAGE..]
  }

  function Failing(orders: seq<string>, cancels: set<string>): (left: seq<string>)
    ensures |left| <= |orders|
  {
    var n := |orders|;
    if n == 0 then []
    else Failing(orders[..n - 1], cancels) + if orders[n - 1] in cancels then [] else [orders[n - 1]]
  }

  function OrdersOf(openOrders: map<string, seq<string>>, account: string): seq<string> {
    if account in openOrders then openOrders[account] else []
  }

  function CancelOn(openOrders: map<string, seq<string>>, account: string, b: Broker): map<string, seq<string>> {
    if account in b.lists then openOrders[account := Uncancelled(OrdersOf(openOrders, account), b.cancels)] else openOrders
  }

  function CancelUpTo(openOrders: map<string, seq<string>>, b: Broker, n: nat): map<string, seq<string>>
    requires n <= |b.accounts|
  {
    if n == 0 then openOrders else CancelOn(CancelUpTo(openOrders, b, n - 1), b.accounts[n - 1], b)
  }

  /** The trades after a flatten: those whose attempt succeeded are closed. */
  function FlattenedTrades(trades: seq<Trade>, f: seq<FlattenOutcome>): (r: seq<Trade>)
    ensures |r| == |trades|
  {
    seq(|trades|, i requires 0 <= i < |trades| =>
      if trades[i].open && At(f, i) == Closed then trades[i].(open := false) else trades[i])
  }

  /** The positions after flattening the first n rows: every accepted order sells the trade's quantity
      on the trade's own account, whatever the trade's side. */
  function SoldPositions(position: map<Slot, int>, trades: seq<Trade>, f: seq<FlattenOutcome>, n: nat): map<Slot, int>
    requires n <= |trades|
  {
    if n == 0 then position
    else
      var p, t := SoldPositions(position, trades, f, n - 1), trades[n - 1];
      if t.open && Accepted(At(f, n - 1)) then p[SlotOf(t) := NetAt(p, SlotOf(t)) - t.qty] else p
  }

  function Flattened(s: State, f: seq<FlattenOutcome>): State {
    s.(trades := FlattenedTrades(s.trades, f), position := SoldPositions(s.position, s.trades, f, |s.trades|))
  }

  /** `halt`, and whether it returned normally. */
  function Halt(s: State, b: Broker, close: bool): (State, bool) {
    if b.fault == BeforeFlags then (s, false)
    else
      var first := !SystemHalted(s.strategies);
      var s1 := s.(strategies := AllHalted(s.strategies), openOrders := CancelUpTo(s.openOrders, b, |b.accounts|));
      if close && b.fault == BeforeFlatten then (s1, false)
      else
        var s2 := if close then Flattened(s1, b.flatten) else s1;
        if b.fault == BeforeLog then (s2, false)
        else
          var s3 := s2.(events := s2.events + [HaltRecord(s, b, close)]);
          (if first && b.smsOk then s3.(sms := s3.sms + [HaltSms]) else s3, true)
  }

  /** The counts written to `circuit_breaker_log`. */
  function HaltRecord(s: State, b: Broker, close: bool): Event {
    var closed := if close then ClosedIds(s.trades, b.flatten, |s.trades|) else [];
    var failed := if close then FailedIds(s.trades, b.flatten, |s.trades|) else [];
    HaltEvent(close, CancelledCount(s.openOrders, b, |b.accounts|), |closed|,
              CancelFailures(s.openOrders, b, |b.accounts|) + |failed|)
  }

  function ClosedIds(trades: seq<Trade>, f: seq<FlattenOutcome>, n: nat): seq<int>
    requires n <= |trades|
  {
    if n == 0 then []
    else ClosedIds(trades, f, n - 1) + if trades[n - 1].open && At(f, n - 1) == Closed then [n - 1] else []
  }

  function FailedIds(trades: seq<Trade>, f: seq<FlattenOutcome>, n: nat): seq<int>
    requires n <= |trades|
  {
    if n == 0 then []
    else FailedIds(trades, f, n - 1) + if trades[n - 1].open && At(f, n - 1) != Closed then [n - 1] else []
  }

  function Page(orders: seq<string>): seq<string> {
    if |orders| <= ORDER_PAGE then orders else orders[..ORDER_PAGE]
  }

  function CancelledCount(openOrders: map<string, seq<string>>, b: Broker, n: nat): nat
    requires n <= |b.accounts|
  {
    if n == 0 then 0
    else
      var page := Page(OrdersOf(CancelUpTo(openOrders, b, n - 1), b.accounts[n - 1]));
      CancelledCount(openOrders, b, n - 1)
      + if b.accounts[n - 1] in b.lists then |page| - |Failing(page, b.cancels)| else 0
  }

  function CancelFailures(openOrders: map<string, seq<string>>, b: Broker, n: nat): nat
    requires n <= |b.accounts|
  {
    if n == 0 then 0
    else
      var page := Page(OrdersOf(CancelUpTo(openOrders, b, n - 1), b.accounts[n - 1]));
      CancelFailures(openOrders, b, n - 1) + if b.accounts[n - 1] in b.lists then |Failing(page, b.cancels)| else 1
  }

  datatype ResetFault = ResetOk | BeforeUpdate | AfterUpdate

  /** `reset`: unconfirmed and not-halted calls do nothing; a database failure after the update loses the SMS,
      and an SMS that fails is only logged. */
  function Reset(s: State, confirmed: bool, fault: ResetFault, smsOk: bool): (State, bool) {
    if !confirmed || !SystemHalted(s.strategies) || fault == BeforeUpdate then (s, false)
    else
      var s1 := s.(strategies := Rearmed(s.strategies));
      if fault == AfterUpdate then (s1, false)
      else (s1.(events := s1.events + [ResetEvent], sms := if smsOk then s1.sms + [ResetSms] else s1.sms), true)
  }

  // ----- the program itself: each method refines its step

  class Framework {
    var strategies: map<string, Status>
    var trades: seq<Trade>
    var position: map<Slot, int>
    var legacy: map<string, int>
    var openOrders: map<string, seq<string>>
    var sms: seq<Sms>
    var events: seq<Event>

    constructor (s: State)
      ensures View() == s
    {
      strategies, trades, position, legacy := s.strategies, s.trades, s.position, s.legacy;
      openOrders, sms, events := s.openOrders, s.sms, s.events;
    }

    function View(): State
      reads this
    {
      State(strategies, trades, position, legacy, openOrders, sms, events)
    }

    /** `_cancel_on`: one account. */
    method CancelOnAccount(account: string, b: Broker) returns (cancelled: nat, failed: nat)
      modifies this`openOrders
      ensures openOrders == CancelOn(old(openOrders), account, b)
      ensures var page := Page(OrdersOf(old(openOrders), account));
              if account in b.lists then cancelled == |page| - |Failing(page, b.cancels)| && failed == |Failing(page, b.cancels)|
              else cancelled == 0 && failed == 1
    {
      if account !in b.lists {
        return 0, 1;
      }
      var all := if account in openOrders then openOrders[account] else [];
      var page := if |all| <= ORDER_PAGE then all else all[..ORDER_PAGE];
      var left: seq<string> := [];
      assert page[..0] == [];
      for j := 0 to |page|
        invariant left == Failing(page[..j], b.cancels)
      {
        assert page[..j + 1][..j] == page[..j];
        if page[j] !in b.cancels {
          left := left + [page[j]];
        }
      }
      assert page[..|page|] == page;
      assert |all| <= ORDER_PAGE ==> left + all[|page|..] == left;
      openOrders := openOrders[account := left + all[|page|..]];
      cancelled, failed := |page| - |left|, |left|;
    }

    /** `cancel_all_open_orders`: the default account and each strategy account. */
    method CancelAllOpenOrders(b: Broker) returns (cancelled: nat, failed: nat)
      modifies this`openOrders
      ensures openOrders == CancelUpTo(old(openOrders), b, |b.accounts|)
      ensures cancelled == CancelledCount(old(openOrders), b, |b.accounts|)
      ensures failed == CancelFailures(old(openOrders), b, |b.accounts|)
    {
      cancelled, failed := 0, 0;
      for i := 0 to |b.accounts|
        invariant openOrders == CancelUpTo(old(openOrders), b, i)
        invariant cancelled == CancelledCount(old(openOrders), b, i)
        invariant failed == CancelFailures(old(openOrders), b, i)
      {
        var c, f := CancelOnAccount(b.accounts[i], b);
        cancelled, failed := cancelled + c, failed + f;
      }
    }

    /** `flatten_all_positions`. The default account is outside its frame. */
    method FlattenAllPositions(f: seq<FlattenOutcome>) returns (closed: seq<int>, failed: seq<int>)
      modifies this`trades, this`position
      ensures trades == FlattenedTrades(old(trades), f)
      ensures position == SoldPositions(old(position), old(trades), f, |old(trades)|)
      ensures closed == ClosedIds(old(trades), f, |old(trades)|) && failed == FailedIds(old(trades), f, |old(trades)|)
    {
      closed, failed := [], [];
      ghost var before := trades;
      for i := 0 to |trades|
        invariant |trades| == |before| && trades[i..] == before[i..]
        invariant trades[..i] == FlattenedTrades(before, f)[..i]
        invariant position == SoldPositions(old(position), before, f, i)
        invariant closed == ClosedIds(before, f, i) && failed == FailedIds(before, f, i)
      {
        var t, o := trades[i], At(f, i);
        assert t == before[i..][0];
        if t.open {
          if o.LostAfterSubmit? || o.Closed? {
            position := position[SlotOf(t) := NetAt(position, SlotOf(t)) - t.qty];
          }
          if o.Closed? {
            trades := trades[i := t.(open := false)];
            closed := closed + [i];
          } else {
            failed := failed + [i];
          }
        }
        assert trades[i + 1..] == before[i + 1..];
        assert trades[i] == FlattenedTrades(before, f)[i];
      }
    }

    /** `send_sms`: a failure is logged and swallowed. The log keeps what went out. */
    method SendSms(kind: Sms, smsOk: bool)
      modifies this`sms
      ensures sms == if smsOk then old(sms) + [kind] else old(sms)
    {
      if smsOk {
        sms := sms + [kind];
      }
    }

    /** `halt`; None is an exception that reaches the caller. */
    method EngageHalt(b: Broker, close: bool) returns (firstHalt: Option<bool>)
      modifies this
      ensures View() == Halt(old(View()), b, close).0
      ensures firstHalt == if Halt(old(View()), b, close).1 then Some(!SystemHalted(old(strategies))) else None
    {
      hide CancelUpTo;
      hide FlattenedTrades;
      hide SoldPositions;
      hide CancelledCount;
      hide CancelFailures;
      hide ClosedIds;
      hide FailedIds;
      hide AllHalted;
      if b.fault == BeforeFlags {
        return None;
      }
      var first := !(SYSTEM in strategies && strategies[SYSTEM] == Halted);
      strategies := AllHalted(strategies);
      var cancelled, failedCancels := CancelAllOpenOrders(b);
      var closed: seq<int>, failed: seq<int> := [], [];
      if close {
        if b.fault == BeforeFlatten {
          return None;
        }
        closed, failed := FlattenAllPositions(b.flatten);
      }
      if b.fault == BeforeLog {
        return None;
      }
      events := events + [HaltEvent(close, cancelled, |closed|, failedCancels + |failed|)];
      if first {
        SendSms(HaltSms, b.smsOk);
      }
      return Some(first);
    }

    /** `reset`. */
    method ResetHalt(confirmed: bool, fault: ResetFault, smsOk: bool) returns (done: bool)
      modifies this
      ensures View() == Reset(old(View()), confirmed, fault, smsOk).0
      ensures done == Reset(old(View()), confirmed, fault, smsOk).1
    {
      if !confirmed || !(SYSTEM in strategies && strategies[SYSTEM] == Halted) || fault == BeforeUpdate {
        return false;
      }
      strategies := Rearmed(strategies);
      if fault == AfterUpdate {
        return false;
      }
      events := events + [ResetEvent];
      SendSms(ResetSms, smsOk);
      return true;
    }
  }

  // ----- what one flatten does

  /** The quantity sold on a slot by the accepted orders of the first n rows. */
  function Sold(trades: seq<Trade>, f: seq<FlattenOutcome>, slot: Slot, n: nat): nat
    requires n <= |trades|
  {
    if n == 0 then 0
    else Sold(trades, f, slot, n - 1)
         + if trades[n - 1].open && Accepted(At(f, n - 1)) && SlotOf(trades[n - 1]) == slot then trades[n - 1].qty else 0
  }

  /** Conservation: each account's net position falls by exactly the quantities of the orders accepted on it. */
  lemma {:induction false} FlattenConserves(position: map<Slot, int>, trades: seq<Trade>, f: seq<FlattenOutcome>, slot: Slot, n: nat)
    requires n <= |trades|
    ensures NetAt(SoldPositions(position, trades, f, n), slot) == NetAt(position, slot) - Sold(trades, f, slot, n)
  {
    if n > 0 {
      FlattenConserves(position, trades, f, slot, n - 1);
    }
  }

  lemma {:induction false} ClosedIdsExact(trades: seq<Trade>, f: seq<FlattenOutcome>, n: nat)
    requires n <= |trades|
    ensures forall i :: i in ClosedIds(trades, f, n) <==> 0 <= i < n && trades[i].open && At(f, i) == Closed
    ensures Increasing(ClosedIds(trades, f, n))
  {
    if n > 0 {
      ClosedIdsExact(trades, f, n - 1);
      AppendedId(ClosedIds(trades, f, n - 1), n - 1);
    }
  }

  lemma {:induction false} FailedIdsExact(trades: seq<Trade>, f: seq<FlattenOutcome>, n: nat)
    requires n <= |trades|
    ensures forall i :: i in FailedIds(trades, f, n) <==> 0 <= i < n && trades[i].open && At(f, i) != Closed
    ensures Increasing(FailedIds(trades, f, n))
  {
    if n > 0 {
      FailedIdsExact(trades, f, n - 1);
      AppendedId(FailedIds(trades, f, n - 1), n - 1);
    }
  }

  lemma AppendedId(ids: seq<int>, x: int)
    requires Increasing(ids) && forall i :: i in ids ==> i < x
    ensures Increasing(ids + [x]) && forall i :: i in ids + [x] <==> i in ids || i == x
  {
    assert forall k :: 0 <= k < |ids| ==> ids[k] in ids;
  }

  ghost predicate Increasing(ids: seq<int>) {
    forall i, j :: 0 <= i < j < |ids| ==> ids[i] < ids[j]
  }

  /** Every open trade is reported once: closed (and then its row is closed) or failed (and its row untouched). */
  lemma ReportsPartitionOpenTrades(trades: seq<Trade>, f: seq<FlattenOutcome>)
    ensures var closed, failed := ClosedIds(trades, f, |trades|), FailedIds(trades, f, |trades|);
            Increasing(closed) && Increasing(failed)
            && (forall i :: 0 <= i < |trades| ==> (trades[i].open <==> i in closed || i in failed))
            && (forall i :: i in closed ==> 0 <= i < |trades| && i !in failed && !FlattenedTrades(trades, f)[i].open)
            && (forall i :: i in failed ==> 0 <= i < |trades| && FlattenedTrades(trades, f)[i] == trades[i])
  {
    ClosedIdsExact(trades, f, |trades|);
    FailedIdsExact(trades, f, |trades|);
  }

  lemma {:induction false} FailingIsFilter(orders: seq<string>, cancels: set<string>)
    ensures forall o :: o in Failing(orders, cancels) <==> o in orders && o !in cancels
  {
    var n := |orders|;
    if n > 0 {
      FailingIsFilter(orders[..n - 1], cancels);
      assert orders == orders[..n - 1] + [orders[n - 1]];
    }
  }

  /** All of an account's orders are gone after its cancel pass exactly when there is at most one page of them
      and every cancel goes through. */
  lemma UncancelledNone(orders: seq<string>, cancels: set<string>)
    ensures Uncancelled(orders, cancels) == [] <==> |orders| <= ORDER_PAGE && forall o :: o in orders ==> o in cancels
  {
    FailingIsFilter(orders, cancels);
    if |orders| <= ORDER_PAGE {
      var left := Failing(orders, cancels);
      if left != [] {
        assert left[0] in left;
      }
    } else {
      assert |Uncancelled(orders, cancels)| >= |orders[ORDER_PAGE..]|;
    }
  }

  /** After a halt's cancel pass an account has no open orders exactly when it had none, or it listed its orders,
      had no more than one page of them, and every cancel went through. */
  lemma {:induction false} CancelPassClears(openOrders: map<string, seq<string>>, b: Broker, n: nat, a: string)
    requires n <= |b.accounts| && Distinct(b.accounts)
    ensures var before, after := OrdersOf(openOrders, a), OrdersOf(CancelUpTo(openOrders, b, n), a);
            if a in b.accounts[..n] then
              after == [] <==> before == [] || (a in b.lists && |before| <= ORDER_PAGE && forall o :: o in before ==> o in b.cancels)
            else after == before
  {
    if n > 0 {
      CancelPassClears(openOrders, b, n - 1, a);
      var last := b.accounts[n - 1];
      assert b.accounts[..n] == b.accounts[..n - 1] + [last];
      UncancelledNone(OrdersOf(openOrders, last), b.cancels);
    }
  }

  /** Halting and then resetting gives the strategies table back exactly when every strategy was active:
      a paused, errored or individually halted strategy comes back armed. */
  lemma HaltResetRestoresExactlyAllActive(strategies: map<string, Status>)
    ensures Rearmed(AllHalted(strategies)) == strategies <==> forall id :: id in strategies ==> strategies[id] == Active
  {
    var r := Rearmed(AllHalted(strategies));
    assert r.Keys == strategies.Keys;
    if exists id :: id in strategies && strategies[id] != Active {
      var id :| id in strategies && strategies[id] != Active;
      assert r[id] != strategies[id];
    }
  }
}
