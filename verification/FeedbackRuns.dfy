/** The halt feeding on its own losses: an attempt lost after its order was accepted makes the next truthful cycle
    diverge, halt and sell the same trade again. */
module FeedbackRuns {
  import opened Killswitch
  import opened Options
  import opened ReconcileDaemon
  import opened HaltProtocol
  import opened PositionLedger
  import opened FlattenRuns
  import Reconcile

  lemma {:induction false} LegacyKept(s: State, steps: seq<Step>)
    requires NoTrading(steps)
    ensures Run(s, steps).legacy == s.legacy
  {
    hide Halt;
    hide Cycle;
    var n := |steps|;
    if n > 0 {
      LegacyKept(s, steps[..n - 1]);
      StepKeepsLegacy(Run(s, steps[..n - 1]), steps[n - 1]);
    }
  }

  lemma StepKeepsLegacy(s: State, step: Step)
    requires !step.OpenTrade? && !step.ExitTrade?
    ensures Next(s, step).legacy == s.legacy
  {
    hide SoldPositions;
    hide FlattenedTrades;
    hide CancelUpTo;
    hide HaltRecord;
    hide AllHalted;
    hide Rearmed;
  }

  predicate LongOnly(trades: seq<Trade>, t: string) {
    forall i :: 0 <= i < |trades| ==> !OpenShort(trades[i], t)
  }

  /** Between halts and cycles an account stays short of its booked trades by exactly its lost attempts. */
  lemma {:induction false} ShortOfLosses(s: State, steps: seq<Step>, slot: Slot, n: nat)
    requires NoTrading(steps) && LongOnly(s.trades, slot.ticker) && n <= |s.trades|
    ensures |Run(s, steps).trades| == |s.trades|
    ensures Exposure(s.trades, slot, n) - SoldOver(s, steps, slot, n)
         == Exposure(Run(s, steps).trades, slot, n) - LostOver(s, steps, slot, n)
  {
    hide Product;
    hide Run;
    hide TimesSold;
    hide Attempts;
    LengthKept(s, steps);
    if n > 0 {
      ShortOfLosses(s, steps, slot, n - 1);
      SoldOnceAndOncePerLoss(s, steps, n - 1);
      RowKept(s, steps, n - 1);
      if s.trades[n - 1].open {
        OneSaleMore(s.trades[n - 1].qty, Attempts(s, steps, n - 1, LostAfterSubmit));
      } else {
        ClosedRowUntouched(s, steps, n - 1);
        OneSaleMore(s.trades[n - 1].qty, 0);
      }
    }
  }

  /** What the first k accounts' trades in a ticker lost. */
  ghost function LostOn(s: State, steps: seq<Step>, accounts: seq<string>, t: string, k: nat): nat
    requires k <= |accounts|
  {
    if k == 0 then 0 else LostOn(s, steps, accounts, t, k - 1) + LostOver(s, steps, Slot(accounts[k - 1], t), |s.trades|)
  }

  lemma {:induction false} BrokerShortOfLosses(s: State, steps: seq<Step>, accounts: seq<string>, t: string, k: nat)
    requires NoTrading(steps) && BooksAgree(s) && LongOnly(s.trades, t) && k <= |accounts|
    ensures var r := Run(s, steps);
            BrokerQty(r, accounts, t, k) == AccountsExposure(accounts, r.trades, t, |r.trades|, k) - LostOn(s, steps, accounts, t, k)
  {
    hide Run;
    hide SoldOver;
    hide LostOver;
    hide Exposure;
    if k == 0 {
      LegacyKept(s, steps);
    } else {
      BrokerShortOfLosses(s, steps, accounts, t, k - 1);
      AccountShortOfLosses(s, steps, Slot(accounts[k - 1], t));
    }
  }

  lemma AccountShortOfLosses(s: State, steps: seq<Step>, slot: Slot)
    requires NoTrading(steps) && BooksAgree(s) && LongOnly(s.trades, slot.ticker)
    ensures var r := Run(s, steps);
            NetAt(r.position, slot) == Exposure(r.trades, slot, |r.trades|) - LostOver(s, steps, slot, |s.trades|)
  {
    hide Run;
    hide SoldOver;
    hide LostOver;
    hide Exposure;
    RunConserves(s, steps, slot);
    ShortOfLosses(s, steps, slot, |s.trades|);
  }

  ghost predicate WasLost(s: State, steps: seq<Step>, i: nat) { Attempts(s, steps, i, LostAfterSubmit) > 0 }

  lemma SomethingLost(qty: nat, times: nat)
    requires qty > 0
    ensures Product(qty, times) > 0 <==> times > 0
  {
  }

  lemma {:induction false} LostOverPositive(s: State, steps: seq<Step>, slot: Slot, n: nat)
    requires PositiveQuantities(s.trades) && n <= |s.trades|
    ensures LostOver(s, steps, slot, n) > 0 <==> exists i: nat :: i < n && SlotOf(s.trades[i]) == slot && WasLost(s, steps, i)
  {
    hide Product;
    hide Attempts;
    if n > 0 {
      LostOverPositive(s, steps, slot, n - 1);
      SomethingLost(s.trades[n - 1].qty, Attempts(s, steps, n - 1, LostAfterSubmit));
    }
  }

  lemma {:induction false} LostOnPositive(s: State, steps: seq<Step>, accounts: seq<string>, t: string, k: nat)
    requires PositiveQuantities(s.trades) && k <= |accounts|
    ensures LostOn(s, steps, accounts, t, k) > 0
            <==> exists i: nat :: i < |s.trades| && s.trades[i].ticker == t && s.trades[i].strategy in accounts[..k] && WasLost(s, steps, i)
  {
    hide LostOver;
    hide WasLost;
    if k > 0 {
      LostOnPositive(s, steps, accounts, t, k - 1);
      LostOverPositive(s, steps, Slot(accounts[k - 1], t), |s.trades|);
      assert accounts[..k] == accounts[..k - 1] + [accounts[k - 1]];
    }
  }

  lemma {:induction false} NothingHeld(s: State, accounts: seq<string>, t: string, k: nat)
    requires k <= |accounts| && LegacyAt(s.legacy, t) == 0 && forall a :: a in accounts ==> NetAt(s.position, Slot(a, t)) == 0
    ensures BrokerQty(s, accounts, t, k) == 0
  {
    if k > 0 {
      NothingHeld(s, accounts, t, k - 1);
    }
  }

  /** The accounts cover all the trades, the ticker has no short one, and the sources read what the run has left. */
  ghost predicate ReadAfter(s: State, steps: seq<Step>, accounts: seq<string>, alpaca: Reconcile.Source, pg: Reconcile.Source, t: string) {
    BooksAgree(s) && PositiveQuantities(s.trades) && LongOnly(s.trades, t) && NoTrading(steps)
    && Distinct(accounts) && (forall i :: 0 <= i < |s.trades| ==> s.trades[i].strategy in accounts)
    && ReadsBroker(alpaca, Run(s, steps), accounts) && ReadsTrades(pg, Run(s, steps).trades)
  }

  lemma RowsAfter(s: State, steps: seq<Step>, accounts: seq<string>, t: string)
    requires NoTrading(steps) && PositiveQuantities(s.trades) && LongOnly(s.trades, t)
    requires forall i :: 0 <= i < |s.trades| ==> s.trades[i].strategy in accounts
    ensures var trades := Run(s, steps).trades;
            PositiveQuantities(trades) && LongOnly(trades, t) && forall i :: 0 <= i < |trades| ==> trades[i].strategy in accounts
  {
    hide Run;
    hide Attempts;
    LengthKept(s, steps);
    forall i | 0 <= i < |s.trades|
      ensures var row := Run(s, steps).trades[i]; row.qty > 0 && !OpenShort(row, t) && row.strategy in accounts
    {
      RowKept(s, steps, i);
      assert !OpenShort(s.trades[i], t);
    }
  }

  lemma LongBooked(trades: seq<Trade>, accounts: seq<string>, t: string)
    requires PositiveQuantities(trades) && LongOnly(trades, t) && Distinct(accounts)
    requires forall i :: 0 <= i < |trades| ==> trades[i].strategy in accounts
    ensures AccountsExposure(accounts, trades, t, |trades|, |accounts|) == BookedQty(trades, t, |trades|)
    ensures BookedQty(trades, t, |trades|) > 0 <==> exists i :: 0 <= i < |trades| && OpenIn(trades[i], t)
  {
    AccountsCoverTicker(accounts, trades, t, |trades|);
    BookedLessExposureIsTwiceShort(trades, t, |trades|);
  }

  lemma LossIsReported(s: State, steps: seq<Step>, accounts: seq<string>, alpaca: Reconcile.Source, pg: Reconcile.Source, t: string)
    requires ReadAfter(s, steps, accounts, alpaca, pg, t) && LostOn(s, steps, accounts, t, |accounts|) > 0
    ensures Reconcile.PairReports(t, alpaca, pg)
  {
    hide Run;
    hide LostOn;
    hide BooksAgree;
    hide AccountsExposure;
    hide BookedQty;
    hide BrokerQty;
    var r := Run(s, steps);
    BrokerShortOfLosses(s, steps, accounts, t, |accounts|);
    RowsAfter(s, steps, accounts, t);
    LongBooked(r.trades, accounts, t);
    if t !in alpaca && t !in pg {
      NothingHeld(r, accounts, t, |accounts|);
    }
  }

  lemma {:induction false} NoLossNoGap(s: State, steps: seq<Step>, accounts: seq<string>, t: string, k: nat, i: nat)
    requires i < k <= |accounts| && LostOn(s, steps, accounts, t, k) == 0
    ensures LostOver(s, steps, Slot(accounts[i], t), |s.trades|) == 0
  {
    hide LostOver;
    if i < k - 1 {
      NoLossNoGap(s, steps, accounts, t, k - 1, i);
    }
  }

  lemma NoLossNoReport(s: State, steps: seq<Step>, accounts: seq<string>, alpaca: Reconcile.Source, pg: Reconcile.Source, t: string)
    requires ReadAfter(s, steps, accounts, alpaca, pg, t) && LostOn(s, steps, accounts, t, |accounts|) == 0
    ensures !Reconcile.PairReports(t, alpaca, pg)
  {
    hide Run;
    hide LostOn;
    hide LostOver;
    hide Exposure;
    var r := Run(s, steps);
    forall a | a in accounts ensures NetAt(r.position, Slot(a, t)) == Exposure(r.trades, Slot(a, t), |r.trades|) {
      var i :| 0 <= i < |accounts| && accounts[i] == a;
      NoLossNoGap(s, steps, accounts, t, |accounts|, i);
      AccountShortOfLosses(s, steps, Slot(a, t));
    }
    LegacyKept(s, steps);
    RowsAfter(s, steps, accounts, t);
    AgreeingBooksReportExactlyShorts(r, accounts, alpaca, pg, t);
  }

  /** From agreeing books and after any halts and cycles: the broker and the database, read truthfully, disagree on a
      long-only ticker exactly when one of its trades has had an attempt lost after its order was accepted. */
  lemma ReportedExactlyAfterLoss(s: State, steps: seq<Step>, accounts: seq<string>, alpaca: Reconcile.Source, pg: Reconcile.Source, t: string)
    requires ReadAfter(s, steps, accounts, alpaca, pg, t)
    ensures Reconcile.PairReports(t, alpaca, pg) <==> exists i: nat :: i < |s.trades| && s.trades[i].ticker == t && WasLost(s, steps, i)
  {
    hide Run;
    hide ReadAfter;
    hide LostOn;
    hide WasLost;
    LostOnCovers(s, steps, accounts, alpaca, pg, t);
    if LostOn(s, steps, accounts, t, |accounts|) > 0 {
      LossIsReported(s, steps, accounts, alpaca, pg, t);
    } else {
      NoLossNoReport(s, steps, accounts, alpaca, pg, t);
    }
  }

  lemma LostOnCovers(s: State, steps: seq<Step>, accounts: seq<string>, alpaca: Reconcile.Source, pg: Reconcile.Source, t: string)
    requires ReadAfter(s, steps, accounts, alpaca, pg, t)
    ensures LostOn(s, steps, accounts, t, |accounts|) > 0
            <==> exists i: nat :: i < |s.trades| && s.trades[i].ticker == t && WasLost(s, steps, i)
  {
    hide WasLost;
    hide LostOn;
    LostOnPositive(s, steps, accounts, t, |accounts|);
    assert accounts[..|accounts|] == accounts;
  }

  // ----- the loop

  /** A live cycle that reads both books truthfully, reaches its flatten if it halts, and loses trade i after its order. */
  ghost predicate LosingCycle(r: State, step: Step, accounts: seq<string>, i: nat) {
    step.CycleRun? && !step.dryRun && step.heartbeatOk && step.fetch.Fetched?
    && ReadsBroker(step.fetch.alpaca, r, accounts) && ReadsTrades(step.fetch.pg, r.trades)
    && Flattens(step.broker, true) && At(step.broker.flatten, i) == LostAfterSubmit
  }

  /** A halt that loses trade i after its order, and then nothing but such cycles. */
  ghost predicate LosingRun(s: State, steps: seq<Step>, accounts: seq<string>, i: nat) {
    var n := |steps|;
    if n == 0 then false
    else if n == 1 then
      steps[0].HaltCall? && Flattens(steps[0].broker, steps[0].close) && At(steps[0].broker.flatten, i) == LostAfterSubmit
    else LosingRun(s, steps[..n - 1], accounts, i) && LosingCycle(Run(s, steps[..n - 1]), steps[n - 1], accounts, i)
  }

  /** From agreeing books every cycle after a lost attempt diverges, halts again and sells the trade once more:
      a run of n such steps sells it n times over. */
  lemma {:induction false} EveryCycleSellsAgain(s: State, steps: seq<Step>, accounts: seq<string>, i: nat)
    requires BooksAgree(s) && PositiveQuantities(s.trades) && Distinct(accounts)
    requires forall j :: 0 <= j < |s.trades| ==> s.trades[j].strategy in accounts
    requires i < |s.trades| && s.trades[i].open && LongOnly(s.trades, s.trades[i].ticker) && LosingRun(s, steps, accounts, i)
    ensures NoTrading(steps) && TimesSold(s, steps, i) == |steps| == Attempts(s, steps, i, LostAfterSubmit)
  {
    var n := |steps|;
    if n == 1 {
      FirstSale(s, steps, i);
    } else {
      var front, last := steps[..n - 1], steps[n - 1];
      EveryCycleSellsAgain(s, front, accounts, i);
      SaleAgain(s, steps, accounts, i);
    }
  }

  lemma FirstSale(s: State, steps: seq<Step>, i: nat)
    requires |steps| == 1 && i < |s.trades| && s.trades[i].open
    requires steps[0].HaltCall? && Flattens(steps[0].broker, steps[0].close) && At(steps[0].broker.flatten, i) == LostAfterSubmit
    ensures NoTrading(steps) && TimesSold(s, steps, i) == 1 == Attempts(s, steps, i, LostAfterSubmit)
  {
    assert steps[..0] == [] && Run(s, []) == s;
    assert AttemptOn(s, steps[0], i) == Some(LostAfterSubmit);
    assert TimesSold(s, [], i) == 0 && Attempts(s, [], i, LostAfterSubmit) == 0;
  }

  lemma SaleAgain(s: State, steps: seq<Step>, accounts: seq<string>, i: nat)
    requires BooksAgree(s) && PositiveQuantities(s.trades) && Distinct(accounts)
    requires forall j :: 0 <= j < |s.trades| ==> s.trades[j].strategy in accounts
    requires i < |s.trades| && s.trades[i].open && LongOnly(s.trades, s.trades[i].ticker)
    requires |steps| > 1 && NoTrading(steps[..|steps| - 1])
    requires var front := steps[..|steps| - 1];
             TimesSold(s, front, i) == |front| == Attempts(s, front, i, LostAfterSubmit)
             && LosingCycle(Run(s, front), steps[|steps| - 1], accounts, i)
    ensures NoTrading(steps) && TimesSold(s, steps, i) == |steps| == Attempts(s, steps, i, LostAfterSubmit)
  {
    hide Run;
    hide BooksAgree;
    hide ReadsBroker;
    hide ReadsTrades;
    var front, last := steps[..|steps| - 1], steps[|steps| - 1];
    SoldOnceAndOncePerLoss(s, front, i);
    RowKept(s, front, i);
    ReportedExactlyAfterLoss(s, front, accounts, last.fetch.alpaca, last.fetch.pg, s.trades[i].ticker);
    assert WasLost(s, front, i);
    ReportDiverges(last.fetch, s.trades[i].ticker);
    hide Diverged;
    assert AttemptOn(Run(s, front), last, i) == Some(LostAfterSubmit);
    forall k | 0 <= k < |steps| ensures !steps[k].OpenTrade? && !steps[k].ExitTrade? {
      if k < |front| {
        assert steps[k] == front[k];
      }
    }
  }

  // ----- and such runs exist, of every length

  /** One running strategy with one open long trade, and books that agree. */
  function OneTrade(a: string, t: string, qty: nat): State {
    State(map[SYSTEM := Active, a := Active], [Trade(a, t, Long, qty, true)], map[Slot(a, t) := qty], map[], map[], [], [])
  }

  function Held(t: string, qty: int): Reconcile.Source { if qty == 0 then map[] else map[t := Reconcile.Holding(qty, 1.0)] }

  function LosingBroker(a: string): Broker { Broker([a], {a}, {}, [LostAfterSubmit], NoFault, true) }

  /** A losing halt and n - 1 cycles, each reading what the steps before it have left. */
  function LosingSteps(a: string, t: string, qty: nat, n: nat): (steps: seq<Step>)
    ensures |steps| == n
  {
    if n == 0 then []
    else if n == 1 then [HaltCall(LosingBroker(a), true)]
    else
      var read := Fetched(Held(t, qty - Product(qty, n - 1)), Held(t, qty), Held(t, qty));
      LosingSteps(a, t, qty, n - 1) + [CycleRun(read, false, true, LosingBroker(a))]
  }

  /** What n sales of the one trade leave: the row as it was, and the account n - 1 times short. */
  lemma AfterSales(a: string, t: string, qty: nat, steps: seq<Step>)
    requires qty > 0 && NoTrading(steps)
    requires var n := |steps|;
             TimesSold(OneTrade(a, t, qty), steps, 0) == n == Attempts(OneTrade(a, t, qty), steps, 0, LostAfterSubmit)
    ensures var s, r := OneTrade(a, t, qty), Run(OneTrade(a, t, qty), steps);
            r.trades == s.trades && r.legacy == map[]
            && forall slot :: NetAt(r.position, slot) == if slot == Slot(a, t) then qty - Product(qty, |steps|) else 0
  {
    hide Run;
    hide TimesSold;
    hide Attempts;
    hide Product;
    var s := OneTrade(a, t, qty);
    SoldOnceAndOncePerLoss(s, steps, 0);
    RowKept(s, steps, 0);
    LegacyKept(s, steps);
    forall slot ensures NetAt(Run(s, steps).position, slot) == if slot == Slot(a, t) then qty - Product(qty, |steps|) else 0 {
      RunConserves(s, steps, slot);
      assert SoldOver(s, steps, slot, 0) == 0;
    }
  }

  lemma OneTradeReadings(a: string, t: string, qty: nat, r: State, left: int)
    requires qty > 0 && r.trades == OneTrade(a, t, qty).trades && r.legacy == map[]
    requires forall slot :: NetAt(r.position, slot) == if slot == Slot(a, t) then left else 0
    ensures ReadsBroker(Held(t, left), r, [a]) && ReadsTrades(Held(t, qty), r.trades)
  {
    forall t'
      ensures t' in Held(t, left) <==> LegacyAt(r.legacy, t') != 0 || exists b :: b in [a] && NetAt(r.position, Slot(b, t')) != 0
      ensures t' in Held(t, left) ==> Held(t, left)[t'].qty == BrokerQty(r, [a], t', 1)
    {
      assert a in [a] && BrokerQty(r, [a], t', 0) == 0;
    }
    forall t'
      ensures t' in Held(t, qty) <==> exists i :: 0 <= i < |r.trades| && OpenIn(r.trades[i], t')
      ensures t' in Held(t, qty) ==> Held(t, qty)[t'].qty == BookedQty(r.trades, t', 1)
    {
      assert OpenIn(r.trades[0], t') <==> t' == t;
      assert BookedQty(r.trades, t', 0) == 0;
    }
  }

  lemma OneTradeAgrees(a: string, t: string, qty: nat)
    requires qty > 0
    ensures var s := OneTrade(a, t, qty); BooksAgree(s) && PositiveQuantities(s.trades) && LongOnly(s.trades, t)
  {
    var s := OneTrade(a, t, qty);
    forall slot ensures NetAt(s.position, slot) == Exposure(s.trades, slot, 1) {
      assert Exposure(s.trades, slot, 0) == 0;
    }
  }

  /** For every n a run of one halt and n - 1 truthful cycles sells the one trade n times. */
  lemma {:induction false} SellsAnyNumberOfTimes(a: string, t: string, qty: nat, n: nat)
    requires qty > 0 && n > 0
    ensures var s, steps := OneTrade(a, t, qty), LosingSteps(a, t, qty, n);
            LosingRun(s, steps, [a], 0) && TimesSold(s, steps, 0) == n
            && Run(s, steps).trades == s.trades && NetAt(Run(s, steps).position, Slot(a, t)) == qty - Product(qty, n)
  {
    hide Run;
    hide TimesSold;
    hide Attempts;
    hide BooksAgree;
    hide ReadsBroker;
    hide ReadsTrades;
    hide Product;
    var s, steps := OneTrade(a, t, qty), LosingSteps(a, t, qty, n);
    OneTradeAgrees(a, t, qty);
    if n > 1 {
      var front := LosingSteps(a, t, qty, n - 1);
      SellsAnyNumberOfTimes(a, t, qty, n - 1);
      EveryCycleSellsAgain(s, front, [a], 0);
      AfterSales(a, t, qty, front);
      OneTradeReadings(a, t, qty, Run(s, front), qty - Product(qty, n - 1));
      assert steps[..n - 1] == front;
      assert LosingCycle(Run(s, front), steps[n - 1], [a], 0);
    }
    EveryCycleSellsAgain(s, steps, [a], 0);
    AfterSales(a, t, qty, steps);
  }
}
