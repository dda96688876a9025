/** What a halt and a reset do, said of the tables themselves: every row, every account, every order, and the counts
    written to the log. */
module HaltEffects {
  import opened Killswitch

  /** From the status update on, a halt leaves every row of the strategies table halted, whatever fails after it;
      before the update it has changed nothing. */
  lemma HaltHaltsEveryRow(s: State, b: Broker, close: bool)
    ensures b.fault == BeforeFlags ==> Halt(s, b, close) == (s, false)
    ensures b.fault != BeforeFlags ==>
              var st := Halt(s, b, close).0.strategies; st.Keys == s.strategies.Keys && forall id :: id in st ==> st[id] == Halted
  {
    hide CancelUpTo;
    hide FlattenedTrades;
    hide SoldPositions;
    hide HaltRecord;
  }

  /** A row is closed exactly when it was open, the halt got as far as flattening, and its attempt succeeded; nothing else of
      any row changes, no row comes or goes, and the default account is not touched. */
  lemma HaltClosesExactly(s: State, b: Broker, close: bool)
    ensures var s' := Halt(s, b, close).0;
            s'.legacy == s.legacy && |s'.trades| == |s.trades|
            && forall i :: 0 <= i < |s.trades| ==>
                 s'.trades[i] == s.trades[i].(open := s.trades[i].open && !(close && (b.fault == NoFault || b.fault == BeforeLog)
                                                                           && i < |b.flatten| && b.flatten[i] == Closed))
  {
    hide CancelUpTo;
    hide SoldPositions;
    hide HaltRecord;
    hide AllHalted;
  }

  /** A halt returns normally exactly when no database step it comes to fails; then, and only then, it adds one event,
      and its SMS if the system was not halted before and the SMS goes out. */
  lemma HaltReturnsExactlyWhen(s: State, b: Broker, close: bool)
    ensures var (s', done) := Halt(s, b, close);
            (done <==> b.fault == NoFault || (b.fault == BeforeFlatten && !close))
            && s'.events == s.events + (if done then [HaltRecord(s, b, close)] else [])
            && s'.sms == s.sms + if done && b.smsOk && !(SYSTEM in s.strategies && s.strategies[SYSTEM] == Halted) then [HaltSms] else []
  {
    hide CancelUpTo;
    hide FlattenedTrades;
    hide SoldPositions;
    hide HaltRecord;
    hide AllHalted;
    assert s.sms + [] == s.sms && s.events + [] == s.events;
  }

  // ----- the cancel pass

  lemma {:induction false} AccountAfterPass(openOrders: map<string, seq<string>>, b: Broker, n: nat, a: string)
    requires n <= |b.accounts| && Distinct(b.accounts)
    ensures OrdersOf(CancelUpTo(openOrders, b, n), a)
         == if a in b.accounts[..n] && a in b.lists then Uncancelled(OrdersOf(openOrders, a), b.cancels) else OrdersOf(openOrders, a)
  {
    hide Uncancelled;
    if n > 0 {
      AccountAfterPass(openOrders, b, n - 1, a);
      AccountAfterPass(openOrders, b, n - 1, b.accounts[n - 1]);
      assert b.accounts[..n] == b.accounts[..n - 1] + [b.accounts[n - 1]];
    }
  }

  /** A halt that reaches its cancel pass leaves an order open exactly when its account was not visited or not listed,
      or it lies beyond the first 500, or its cancel did not go through. */
  lemma OrderLeftExactlyWhen(s: State, b: Broker, close: bool, a: string, o: string)
    requires b.fault != BeforeFlags && Distinct(b.accounts)
    ensures var before, after := OrdersOf(s.openOrders, a), OrdersOf(Halt(s, b, close).0.openOrders, a);
            o in after <==> exists k :: 0 <= k < |before| && before[k] == o
                                        && (a !in b.accounts || a !in b.lists || k >= 500 || o !in b.cancels)
  {
    hide AllHalted;
    hide FlattenedTrades;
    hide SoldPositions;
    hide HaltRecord;
    var before := OrdersOf(s.openOrders, a);
    assert Halt(s, b, close).0.openOrders == CancelUpTo(s.openOrders, b, |b.accounts|);
    AccountAfterPass(s.openOrders, b, |b.accounts|, a);
    assert b.accounts[..|b.accounts|] == b.accounts;
    if |before| <= ORDER_PAGE {
      FailingIsFilter(before, b.cancels);
    } else {
      FailingIsFilter(before[..ORDER_PAGE], b.cancels);
      BeyondPage(before, o);
    }
  }

  lemma BeyondPage(orders: seq<string>, o: string)
    requires |orders| > ORDER_PAGE
    ensures o in orders[ORDER_PAGE..] <==> exists k :: ORDER_PAGE <= k < |orders| && orders[k] == o
    ensures o in orders[..ORDER_PAGE] <==> exists k :: 0 <= k < ORDER_PAGE && orders[k] == o
  {
    if k :| ORDER_PAGE <= k < |orders| && orders[k] == o {
      assert orders[ORDER_PAGE..][k - ORDER_PAGE] == o;
    }
    if k :| 0 <= k < ORDER_PAGE && orders[k] == o {
      assert orders[..ORDER_PAGE][k] == o;
    }
  }

  /** The orders that are gone from the first n accounts. */
  function Gone(before: map<string, seq<string>>, after: map<string, seq<string>>, accounts: seq<string>, n: nat): int
    requires n <= |accounts|
  {
    if n == 0 then 0
    else Gone(before, after, accounts, n - 1) + |OrdersOf(before, accounts[n - 1])| - |OrdersOf(after, accounts[n - 1])|
  }

  /** What the first n accounts leave undone: one for an account that is not listed, and the orders left of the first page
      of one that is. */
  function Undone(before: map<string, seq<string>>, after: map<string, seq<string>>, b: Broker, n: nat): int
    requires n <= |b.accounts|
  {
    if n == 0 then 0
    else
      var all, left := |OrdersOf(before, b.accounts[n - 1])|, |OrdersOf(after, b.accounts[n - 1])|;
      Undone(before, after, b, n - 1) + if b.accounts[n - 1] !in b.lists then 1 else if all <= 500 then left else left - (all - 500)
  }

  lemma {:induction false} CountsAddUp(openOrders: map<string, seq<string>>, b: Broker, after: map<string, seq<string>>, n: nat)
    requires n <= |b.accounts| && Distinct(b.accounts) && after == CancelUpTo(openOrders, b, |b.accounts|)
    ensures CancelledCount(openOrders, b, n) == Gone(openOrders, after, b.accounts, n)
    ensures CancelFailures(openOrders, b, n) == Undone(openOrders, after, b, n)
  {
    hide CancelUpTo;
    hide Failing;
    hide Uncancelled;
    hide Page;
    hide OrdersOf;
    if n > 0 {
      CountsAddUp(openOrders, b, after, n - 1);
      var a := b.accounts[n - 1];
      AccountAfterPass(openOrders, b, |b.accounts|, a);
      AccountAfterPass(openOrders, b, n - 1, a);
      assert b.accounts[..|b.accounts|] == b.accounts;
      NotEarlier(b.accounts, n - 1);
      PageCounts(OrdersOf(openOrders, a), b.cancels);
    }
  }

  lemma PageCounts(orders: seq<string>, cancels: set<string>)
    ensures var page, left := Page(orders), |Uncancelled(orders, cancels)|;
            |page| - |Failing(page, cancels)| == |orders| - left
            && |Failing(page, cancels)| == if |orders| <= 500 then left else left - (|orders| - 500)
  {
    hide Failing;
  }

  lemma NotEarlier(accounts: seq<string>, n: nat)
    requires n < |accounts| && Distinct(accounts)
    ensures accounts[n] !in accounts[..n]
  {
  }

  function OpenRows(trades: seq<Trade>, n: nat): nat
    requires n <= |trades|
  {
    if n == 0 then 0 else OpenRows(trades, n - 1) + if trades[n - 1].open then 1 else 0
  }

  lemma {:induction false} IdsCount(trades: seq<Trade>, f: seq<FlattenOutcome>, n: nat)
    requires n <= |trades|
    ensures |ClosedIds(trades, f, n)| == OpenRows(trades, n) - OpenRows(FlattenedTrades(trades, f), n)
    ensures |FailedIds(trades, f, n)| == OpenRows(FlattenedTrades(trades, f), n)
  {
    if n > 0 {
      IdsCount(trades, f, n - 1);
    }
  }

  /** The event of a halt that returns tells the truth: whether it was to flatten, the orders gone from the accounts, the rows
      closed, and as failures what the cancel pass left undone and the rows still open. */
  lemma LoggedCountsAreTrue(s: State, b: Broker, close: bool)
    requires Halt(s, b, close).1 && Distinct(b.accounts)
    ensures var s', n, m := Halt(s, b, close).0, |s.trades|, |b.accounts|;
            |s'.trades| == n && |s'.events| == |s.events| + 1
            && var e := s'.events[|s.events|];
               e.HaltEvent? && e.flattening == close
               && e.cancelled == Gone(s.openOrders, s'.openOrders, b.accounts, m)
               && e.flattened == OpenRows(s.trades, n) - OpenRows(s'.trades, n)
               && e.failed == Undone(s.openOrders, s'.openOrders, b, m) + if close then OpenRows(s'.trades, n) else 0
  {
    hide CancelUpTo;
    hide CancelledCount;
    hide CancelFailures;
    hide AllHalted;
    hide SoldPositions;
    HaltReturnsExactlyWhen(s, b, close);
    CountsAddUp(s.openOrders, b, CancelUpTo(s.openOrders, b, |b.accounts|), |b.accounts|);
    IdsCount(s.trades, b.flatten, |s.trades|);
  }

  // ----- reset

  /** A reset that takes effect arms exactly the halted rows and leaves every other row, trade, position and order alone;
      any other changes nothing. It reports success exactly when it wrote its event, and its SMS goes out with it. */
  lemma ResetArmsExactlyHalted(s: State, confirmed: bool, fault: ResetFault, smsOk: bool)
    ensures var (s', done) := Reset(s, confirmed, fault, smsOk);
            var effective := confirmed && SYSTEM in s.strategies && s.strategies[SYSTEM] == Halted && fault != BeforeUpdate;
            (!effective ==> s' == s && !done)
            && (effective ==>
                  s'.strategies.Keys == s.strategies.Keys
                  && (forall id :: id in s.strategies ==>
                        s'.strategies[id] == if s.strategies[id] == Halted then Active else s.strategies[id])
                  && (done <==> fault == ResetOk)
                  && s' == s.(strategies := s'.strategies, events := s.events + (if done then [ResetEvent] else []),
                              sms := s.sms + if done && smsOk then [ResetSms] else []))
  {
    assert s.sms + [] == s.sms && s.events + [] == s.events;
  }
}
