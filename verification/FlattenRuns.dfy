/** Flattening over whole runs: how often each trade is sold, and what that leaves on its account. */
module FlattenRuns {
  import opened Options
  import opened Killswitch
  import opened ReconcileDaemon
  import opened HaltProtocol
  import opened PositionLedger
  import Reconcile

  /** The outcomes of the flatten a step makes in state s, if it makes one. */
  ghost function FlattenOf(s: State, step: Step): Option<seq<FlattenOutcome>> {
    match step
    case HaltCall(b, close) => if Flattens(b, close) then Some(b.flatten) else None
    case CycleRun(f, dryRun, hb, b) => if hb && Diverged(f) && !dryRun && Flattens(b, true) then Some(b.flatten) else None
    case _ => None
  }

  /** The flatten's attempt on row i; none on a row that is closed or not there. */
  ghost function AttemptOn(s: State, step: Step, i: nat): Option<FlattenOutcome> {
    if i < |s.trades| && s.trades[i].open && FlattenOf(s, step).Some? then Some(At(FlattenOf(s, step).value, i)) else None
  }

  /** How many of the run's attempts on row i come out as `o`. */
  ghost function Attempts(s: State, steps: seq<Step>, i: nat, o: FlattenOutcome): nat {
    var n := |steps|;
    if n == 0 then 0
    else Attempts(s, steps[..n - 1], i, o) + if AttemptOn(Run(s, steps[..n - 1]), steps[n - 1], i) == Some(o) then 1 else 0
  }

  /** How many flatten orders the broker accepts for row i. */
  ghost function TimesSold(s: State, steps: seq<Step>, i: nat): nat {
    var n := |steps|;
    if n == 0 then 0
    else
      var a := AttemptOn(Run(s, steps[..n - 1]), steps[n - 1], i);
      TimesSold(s, steps[..n - 1], i) + if a.Some? && Accepted(a.value) then 1 else 0
  }

  lemma HaltRows(s: State, b: Broker, close: bool)
    ensures var s' := Halt(s, b, close).0;
            s'.trades == (if Flattens(b, close) then FlattenedTrades(s.trades, b.flatten) else s.trades)
            && s'.position == (if Flattens(b, close) then SoldPositions(s.position, s.trades, b.flatten, |s.trades|) else s.position)
  {
    hide SoldPositions;
    hide FlattenedTrades;
    hide CancelUpTo;
    hide HaltRecord;
    hide AllHalted;
  }

  /** Unless a strategy trades, rows and positions change only by a flatten. */
  lemma HaltStepRows(s: State, step: Step)
    requires !step.OpenTrade? && !step.ExitTrade?
    ensures Next(s, step).trades == if FlattenOf(s, step).Some? then FlattenedTrades(s.trades, FlattenOf(s, step).value) else s.trades
    ensures Next(s, step).position
         == if FlattenOf(s, step).Some? then SoldPositions(s.position, s.trades, FlattenOf(s, step).value, |s.trades|) else s.position
  {
    hide Halt;
    hide SoldPositions;
    hide FlattenedTrades;
    hide Rearmed;
    hide Reconcile.AllAgree;
    match step
    case HaltCall(b, close) => HaltRows(s, b, close);
    case CycleRun(_, _, _, b) => HaltRows(s, b, true);
    case _ =>
  }

  /** Rows are never removed, and a closed row stays closed. */
  lemma RowsStay(s: State, step: Step, i: nat)
    requires i < |s.trades|
    ensures i < |Next(s, step).trades|
    ensures Next(s, step).trades[i] == s.trades[i] || Next(s, step).trades[i] == s.trades[i].(open := false)
  {
    hide Halt;
    hide Cycle;
    hide FlattenOf;
    hide Reset;
    if !step.OpenTrade? && !step.ExitTrade? {
      HaltStepRows(s, step);
    }
  }

  lemma ClosingAttempt(s: State, step: Step, i: nat)
    requires AttemptOn(s, step, i) == Some(Closed)
    ensures i < |Next(s, step).trades| && !Next(s, step).trades[i].open
  {
    hide Next;
    HaltStepRows(s, step);
  }

  /** The documented idempotence over any run, with strategies trading in between: a trade is sold once if a flatten
      closes it, and once more for every attempt that was lost after its order was accepted; once closed, never again. */
  lemma {:induction false} SoldOnceAndOncePerLoss(s: State, steps: seq<Step>, i: nat)
    ensures TimesSold(s, steps, i) == Attempts(s, steps, i, Closed) + Attempts(s, steps, i, LostAfterSubmit)
    ensures Attempts(s, steps, i, Closed) <= 1
    ensures Attempts(s, steps, i, Closed) == 1 ==> i < |Run(s, steps).trades| && !Run(s, steps).trades[i].open
  {
    var n := |steps|;
    if n > 0 {
      var before := Run(s, steps[..n - 1]);
      SoldOnceAndOncePerLoss(s, steps[..n - 1], i);
      if i < |before.trades| {
        RowsStay(before, steps[n - 1], i);
      }
      if AttemptOn(before, steps[n - 1], i) == Some(Closed) {
        ClosingAttempt(before, steps[n - 1], i);
      }
    }
  }

  // ----- runs in which no strategy trades

  ghost predicate NoTrading(steps: seq<Step>) {
    forall k :: 0 <= k < |steps| ==> !steps[k].OpenTrade? && !steps[k].ExitTrade?
  }

  lemma {:induction false} RowKept(s: State, steps: seq<Step>, i: nat)
    requires NoTrading(steps) && i < |s.trades|
    ensures var t := Run(s, steps).trades;
            |t| == |s.trades| && t[i] == s.trades[i].(open := s.trades[i].open && Attempts(s, steps, i, Closed) == 0)
  {
    var n := |steps|;
    if n > 0 {
      RowKept(s, steps[..n - 1], i);
      HaltStepRows(Run(s, steps[..n - 1]), steps[n - 1]);
    }
  }

  function Product(qty: nat, times: nat): nat { qty * times }

  /** The quantity the run sells on a slot, trade by trade. */
  ghost function SoldOver(s: State, steps: seq<Step>, slot: Slot, n: nat): int
    requires n <= |s.trades|
  {
    if n == 0 then 0
    else SoldOver(s, steps, slot, n - 1)
         + if SlotOf(s.trades[n - 1]) == slot then Product(s.trades[n - 1].qty, TimesSold(s, steps, n - 1)) else 0
  }

  lemma OneSaleMore(qty: nat, times: nat)
    ensures Product(qty, 0) == 0 && Product(qty, times + 1) == Product(qty, times) + qty
  {
  }

  lemma {:induction false} SoldStep(s: State, steps: seq<Step>, slot: Slot, n: nat)
    requires NoTrading(steps) && |steps| > 0 && n <= |s.trades|
    ensures var k := |steps| - 1;
            var before := Run(s, steps[..k]);
            |before.trades| == |s.trades|
            && SoldOver(s, steps, slot, n)
               == SoldOver(s, steps[..k], slot, n)
                  + match FlattenOf(before, steps[k]) case None => 0 case Some(f) => Sold(before.trades, f, slot, n)
  {
    hide Product;
    hide Run;
    hide FlattenOf;
    var k := |steps| - 1;
    if n == 0 {
      LengthKept(s, steps[..k]);
    } else {
      SoldStep(s, steps, slot, n - 1);
      RowKept(s, steps[..k], n - 1);
      OneSaleMore(s.trades[n - 1].qty, TimesSold(s, steps[..k], n - 1));
    }
  }

  lemma {:induction false} LengthKept(s: State, steps: seq<Step>)
    requires NoTrading(steps)
    ensures |Run(s, steps).trades| == |s.trades|
  {
    var n := |steps|;
    if n > 0 {
      LengthKept(s, steps[..n - 1]);
      HaltStepRows(Run(s, steps[..n - 1]), steps[n - 1]);
    }
  }

  /** Over any number of halts and cycles, an account's net quantity falls by each trade's quantity
      times the number of times it was sold. */
  lemma {:induction false} RunConserves(s: State, steps: seq<Step>, slot: Slot)
    requires NoTrading(steps)
    ensures NetAt(Run(s, steps).position, slot) == NetAt(s.position, slot) - SoldOver(s, steps, slot, |s.trades|)
  {
    var n := |steps|;
    if n == 0 {
      NothingSold(s, slot, |s.trades|);
    } else {
      var before := Run(s, steps[..n - 1]);
      RunConserves(s, steps[..n - 1], slot);
      SoldStep(s, steps, slot, |s.trades|);
      HaltStepRows(before, steps[n - 1]);
      if FlattenOf(before, steps[n - 1]).Some? {
        FlattenConserves(before.position, before.trades, FlattenOf(before, steps[n - 1]).value, slot, |before.trades|);
      }
    }
  }

  lemma {:induction false} NothingSold(s: State, slot: Slot, n: nat)
    requires n <= |s.trades|
    ensures SoldOver(s, [], slot, n) == 0
  {
    if n > 0 {
      NothingSold(s, slot, n - 1);
      OneSaleMore(s.trades[n - 1].qty, 0);
      assert TimesSold(s, [], n - 1) == 0;
    }
  }

  /** The quantity oversold on a slot: each trade once for every lost attempt on it. */
  ghost function LostOver(s: State, steps: seq<Step>, slot: Slot, n: nat): nat
    requires n <= |s.trades|
  {
    if n == 0 then 0
    else LostOver(s, steps, slot, n - 1)
         + if SlotOf(s.trades[n - 1]) == slot then Product(s.trades[n - 1].qty, Attempts(s, steps, n - 1, LostAfterSubmit)) else 0
  }

  lemma {:induction false} ClosedRowUntouched(s: State, steps: seq<Step>, i: nat)
    requires i < |s.trades| && !s.trades[i].open
    ensures i < |Run(s, steps).trades| && !Run(s, steps).trades[i].open
    ensures TimesSold(s, steps, i) == 0 && Attempts(s, steps, i, LostAfterSubmit) == 0
  {
    var n := |steps|;
    if n > 0 {
      ClosedRowUntouched(s, steps[..n - 1], i);
      RowsStay(Run(s, steps[..n - 1]), steps[n - 1], i);
    }
  }

  lemma {:induction false} ExposureLessSales(s: State, steps: seq<Step>, slot: Slot, n: nat)
    requires NoTrading(steps) && n <= |s.trades|
    requires |Run(s, steps).trades| == |s.trades| && forall i :: 0 <= i < |s.trades| ==> !Run(s, steps).trades[i].open
    ensures Exposure(s.trades, slot, n) - SoldOver(s, steps, slot, n)
         == -2 * SlotShortQty(s.trades, slot, n) - LostOver(s, steps, slot, n)
  {
    hide Product;
    hide Run;
    hide TimesSold;
    hide Attempts;
    if n > 0 {
      ExposureLessSales(s, steps, slot, n - 1);
      SoldOnceAndOncePerLoss(s, steps, n - 1);
      RowKept(s, steps, n - 1);
      if s.trades[n - 1].open {
        OneSaleMore(s.trades[n - 1].qty, Attempts(s, steps, n - 1, LostAfterSubmit));
      } else {
        ClosedRowUntouched(s, steps, n - 1);
        OneSaleMore(s.trades[n - 1].qty, 0);
      }
    }
  }

  /** From agreeing books, halts and cycles that between them close every trade leave each account short of its lost
      attempts' quantities and of twice its short trades, whatever the order and number of attempts. */
  lemma AccountAfterHalts(s: State, steps: seq<Step>, slot: Slot)
    requires NoTrading(steps) && BooksAgree(s)
    requires forall i :: 0 <= i < |Run(s, steps).trades| ==> !Run(s, steps).trades[i].open
    ensures NetAt(Run(s, steps).position, slot)
         == -2 * SlotShortQty(s.trades, slot, |s.trades|) - LostOver(s, steps, slot, |s.trades|)
  {
    LengthKept(s, steps);
    RunConserves(s, steps, slot);
    ExposureLessSales(s, steps, slot, |s.trades|);
  }
}
