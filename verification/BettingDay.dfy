/** The daily allocation over whole runs of callbacks, settlements, new windows and midnights. */
module BettingDay {
  import opened KellySizing
  import KellyGrowth
  import opened Options
  import opened PredictionSignal
  import opened Rounding
  import opened Sums

  datatype Step = Callback(u: Update) | Settle(i: nat) | NewWindow | Midnight

  function Next(dry: bool, s: State, st: Step): State {
    match st
    case Callback(u) => Updated(dry, s, u)
    case Settle(i) => if i < |s.rows| then s.(rows := s.rows[i := s.rows[i].(open := false)]) else s
    case NewWindow => s.(processed := {})
    case Midnight => s.(day := s.day + 1)
  }

  function Ran(dry: bool, s: State, steps: seq<Step>): State {
    if steps == [] then s else Next(dry, Ran(dry, s, steps[..|steps| - 1]), steps[|steps| - 1])
  }

  ghost predicate Dated(rows: seq<Row>, day: int) {
    forall i :: 0 <= i < |rows| ==> rows[i].stake >= 0.0 && rows[i].day <= day
  }

  /** The stake of a row the callback stores; 0 when it stores none. */
  function Drawn(dry: bool, s: State, u: Update): real {
    if Actionable(s, u) && u.stored && (dry || Answered(u.attempts)) then DecisionFor(s, u).stake else 0.0
  }

  lemma AppendedStake(rows: seq<Row>, r: Row, day: int)
    ensures OpenStake(rows + [r], day) == OpenStake(rows, day) + if r.open && r.day == day then r.stake else 0.0
  {
    assert (rows + [r])[..|rows|] == rows;
  }

  /** A callback adds what it drew to today's open stake, and that is at most a fifth of what it read as remaining. */
  lemma CallbackDraws(dry: bool, s: State, u: Update)
    ensures var s' := Updated(dry, s, u);
            OpenStake(s'.rows, s'.day) == OpenStake(s.rows, s.day) + Drawn(dry, s, u)
            && 0.0 <= Drawn(dry, s, u) <= Remaining(s, u.readOk) / 5.0
            && s'.day == s.day && (Dated(s.rows, s.day) ==> Dated(s'.rows, s'.day))
  {
    if Actionable(s, u) {
      ActionableIsSendable(s, u);
      var d := DecisionFor(s, u);
      AppendedStake(s.rows, RowFor(s, u, d), s.day);
      StakeNeverOverbets(d.modelP, d.marketP, Remaining(s, u.readOk));
    }
  }

  /** What the callback would decide if its read of the day's stakes failed and answered the whole base. */
  function UnreadDecision(u: Update): Decision
    requires u.yesCents.Some?
  {
    Decide(u.forecast, u.confidence, u.yesCents.value as real / 100.0, BASE)
  }

  /** The read fails, the bet goes ahead on a ticker not yet taken, its order is answered (or this is a dry run), its row
      is stored, and the stake sized on the whole base is more than is really left. */
  predicate WouldOverdraw(dry: bool, s: State, u: Update) {
    !u.readOk && u.yesCents.Some? && u.parsed && u.ticker !in s.processed && Opportunity(UnreadDecision(u))
    && u.stored && (dry || Answered(u.attempts))
    && UnreadDecision(u).stake > BASE - OpenStake(s.rows, s.day)
  }

  /** While the day is within the base, a callback takes it beyond exactly when the condition above holds before it. */
  lemma OverdrawsExactlyWhen(dry: bool, s: State, u: Update)
    requires OpenStake(s.rows, s.day) <= BASE
    ensures var s' := Updated(dry, s, u); OpenStake(s'.rows, s'.day) > BASE <==> WouldOverdraw(dry, s, u)
  {
    CallbackDraws(dry, s, u);
  }

  /** Four fifths of the base committed or less: no callback overdraws, even with its read failed. */
  lemma FourFifthsIsSafe(dry: bool, s: State, u: Update)
    requires OpenStake(s.rows, s.day) <= BASE * 4.0 / 5.0
    ensures var s' := Updated(dry, s, u); OpenStake(s'.rows, s'.day) <= BASE
  {
    CallbackDraws(dry, s, u);
  }

  function Name(i: nat): string { if i == 0 then "" else Name(i - 1) + "x" }

  lemma {:induction false} NameLength(i: nat)
    ensures |Name(i)| == i
  {
    if i > 0 {
      NameLength(i - 1);
    }
  }

  /** A certain winner at 50 cents, decided on a failed read. */
  function Unread(i: nat): Update {
    Update(Name(i), Some(50), true, Some(1.0), Some(1.0), false, [Delivered], true)
  }

  lemma UnreadBet(s: State, i: nat)
    requires Name(i) !in s.processed
    ensures Updated(false, s, Unread(i)).processed == s.processed + {Name(i)}
    ensures Updated(false, s, Unread(i)).rows == s.rows + [Row(Name(i), Yes, 400.0, 0.5, s.day, true)]
    ensures Updated(false, s, Unread(i)).day == s.day
  {
    assert Times(2000.0, 0.2) == 400.0;
    assert Stake(1.0, 0.5, 2000.0) == 400.0;
    assert HalfEven(50.0) == 50;
  }

  function UnreadSpree(n: nat): seq<Update> { if n == 0 then [] else UnreadSpree(n - 1) + [Unread(n - 1)] }

  /** n failed reads can put 400 n dollars on record in one window: the sixth bet takes the day beyond the base. */
  lemma {:induction false} UnreadBetsOverdraw(n: nat, day: int)
    ensures var t := After(false, State({}, [], [], day), UnreadSpree(n));
            t.day == day && OpenStake(t.rows, day) == 400.0 * n as real && forall x :: x in t.processed ==> |x| < n
  {
    hide Updated;
    hide Unread;
    hide Name;
    if n > 0 {
      UnreadBetsOverdraw(n - 1, day);
      var all := UnreadSpree(n);
      assert all[..|all| - 1] == UnreadSpree(n - 1);
      NameLength(n - 1);
      var t := After(false, State({}, [], [], day), UnreadSpree(n - 1));
      UnreadBet(t, n - 1);
      AppendedStake(t.rows, Row(Name(n - 1), Yes, 400.0, 0.5, day, true), day);
    }
  }

  /** Settling an open bet of today gives its stake back to the day; settling any other changes nothing. */
  lemma {:induction false} SettledStake(rows: seq<Row>, i: nat, day: int)
    requires i < |rows|
    ensures OpenStake(rows[i := rows[i].(open := false)], day)
         == OpenStake(rows, day) - if rows[i].open && rows[i].day == day then rows[i].stake else 0.0
  {
    var n := |rows|;
    var after := rows[i := rows[i].(open := false)];
    if i < n - 1 {
      SettledStake(rows[..n - 1], i, day);
      assert after[..n - 1] == rows[..n - 1][i := rows[..n - 1][i].(open := false)];
    } else {
      assert after[..n - 1] == rows[..n - 1];
    }
  }

  lemma {:induction false} NothingYet(rows: seq<Row>, day: int)
    requires forall i :: 0 <= i < |rows| ==> rows[i].day < day
    ensures OpenStake(rows, day) == 0.0
  {
    if rows != [] {
      NothingYet(rows[..|rows| - 1], day);
    }
  }

  /** Today's failed reads: the count starts again at midnight. */
  function FailedReads(steps: seq<Step>): nat {
    if steps == [] then 0
    else
      var front := FailedReads(steps[..|steps| - 1]);
      match steps[|steps| - 1]
      case Callback(u) => if u.readOk then front else front + 1
      case Midnight => 0
      case _ => front
  }

  /** Over every run of callbacks, settlements, windows and midnights, today's open stake is at most the base
      and a fifth of it for each of today's failed reads. */
  lemma {:induction false} OpenStakeBound(dry: bool, s: State, steps: seq<Step>)
    requires OpenStake(s.rows, s.day) <= BASE && Dated(s.rows, s.day)
    ensures var t := Ran(dry, s, steps);
            Dated(t.rows, t.day) && OpenStake(t.rows, t.day) <= BASE + BASE / 5.0 * FailedReads(steps) as real
  {
    if steps != [] {
      var n := |steps|;
      OpenStakeBound(dry, s, steps[..n - 1]);
      BoundedStep(dry, Ran(dry, s, steps[..n - 1]), steps[n - 1], FailedReads(steps[..n - 1]));
    }
  }

  lemma BoundedStep(dry: bool, t: State, step: Step, failed: nat)
    requires OpenStake(t.rows, t.day) <= BASE + BASE / 5.0 * failed as real && Dated(t.rows, t.day)
    ensures var t' := Next(dry, t, step);
            Dated(t'.rows, t'.day)
            && OpenStake(t'.rows, t'.day)
               <= BASE + BASE / 5.0 * (if step.Midnight? then 0 else if step.Callback? && !step.u.readOk then failed + 1 else failed) as real
  {
    match step
    case Callback(u) => CallbackDraws(dry, t, u);
    case Settle(i) =>
      if i < |t.rows| {
        SettledStake(t.rows, i, t.day);
      }
    case NewWindow =>
    case Midnight =>
      NothingYet(t.rows, t.day + 1);
  }

  ghost predicate WithinBaseThroughout(dry: bool, s: State, steps: seq<Step>) {
    var t := Ran(dry, s, steps);
    OpenStake(t.rows, t.day) <= BASE && (steps != [] ==> WithinBaseThroughout(dry, s, steps[..|steps| - 1]))
  }

  /** No callback of the run overdraws, as seen from the state before it. */
  ghost predicate NeverOverdraws(dry: bool, s: State, steps: seq<Step>) {
    var n := |steps|;
    n > 0 ==> NeverOverdraws(dry, s, steps[..n - 1])
              && (steps[n - 1].Callback? ==> !WouldOverdraw(dry, Ran(dry, s, steps[..n - 1]), steps[n - 1].u))
  }

  /** Over whole runs: the day stays within the base throughout exactly when no callback meets the overdraw condition. */
  lemma {:induction false} WithinBaseExactlyWhen(dry: bool, s: State, steps: seq<Step>)
    requires OpenStake(s.rows, s.day) <= BASE && Dated(s.rows, s.day)
    ensures WithinBaseThroughout(dry, s, steps) <==> NeverOverdraws(dry, s, steps)
  {
    hide WouldOverdraw;
    hide Updated;
    var n := |steps|;
    if n > 0 {
      WithinBaseExactlyWhen(dry, s, steps[..n - 1]);
      OpenStakeBound(dry, s, steps[..n - 1]);
      var t := Ran(dry, s, steps[..n - 1]);
      if OpenStake(t.rows, t.day) <= BASE {
        match steps[n - 1]
        case Callback(u) => OverdrawsExactlyWhen(dry, t, u);
        case _ => BoundedStep(dry, t, steps[n - 1], 0);
      }
    }
  }

  lemma RemainingAfterCallback(dry: bool, s: State, u: Update)
    ensures var s' := Updated(dry, s, u);
            s'.day == s.day
            && (s'.rows == s.rows
                || (|s'.rows| == |s.rows| + 1
                    && Remaining(s', true) >= if u.readOk then 0.8 * Remaining(s, true) else Remaining(s, true) - BASE / 5.0))
  {
    CallbackDraws(dry, s, u);
  }

  lemma PowerStep(r: real, n: nat)
    requires r >= 0.0
    ensures Times(r, KellyGrowth.Power(0.8, 0)) == r
    ensures Times(r, KellyGrowth.Power(0.8, n + 1)) == 0.8 * Times(r, KellyGrowth.Power(0.8, n))
    ensures Times(r, KellyGrowth.Power(0.8, n)) >= 0.0
  {
    KellyGrowth.PowerNonNegative(0.8, n);
    KellyGrowth.ProductNonNegative(r, KellyGrowth.Power(0.8, n));
  }

  function UnreadIn(us: seq<Update>): nat {
    if us == [] then 0 else UnreadIn(us[..|us| - 1]) + if us[|us| - 1].readOk then 0 else 1
  }

  /** Each stored bet leaves at least four fifths of what was left, and each failed read costs at most a fifth of the base;
      so with good reads betting alone never exhausts the allocation. */
  lemma {:induction false} AllocationDecaysGeometrically(dry: bool, s: State, us: seq<Update>)
    ensures var t := After(dry, s, us);
            |t.rows| >= |s.rows| && t.day == s.day
            && Remaining(t, true) >= Times(Remaining(s, true), KellyGrowth.Power(0.8, |t.rows| - |s.rows|)) - BASE / 5.0 * UnreadIn(us) as real
            && (Remaining(s, true) > 0.0 && UnreadIn(us) == 0 ==> Remaining(t, true) > 0.0)
  {
    hide Updated;
    hide Times;
    PowerStep(Remaining(s, true), 0);
    if us != [] {
      var front, u := us[..|us| - 1], us[|us| - 1];
      AllocationDecaysGeometrically(dry, s, front);
      var t := After(dry, s, front);
      RemainingAfterCallback(dry, t, u);
      PowerStep(Remaining(s, true), |t.rows| - |s.rows|);
    }
  }

  // ----- the money at the exchange

  function Cash(orders: seq<Order>): real {
    if orders == [] then 0.0
    else Cash(orders[..|orders| - 1]) + Cost(orders[|orders| - 1].count, orders[|orders| - 1].cents)
  }

  lemma OneMore(n: nat, c: real)
    ensures Times(0 as real, c) == 0.0
    ensures Times((n + 1) as real, c) == Times(n as real, c) + c
  {
  }

  lemma CashOfOneMore(orders: seq<Order>, o: Order)
    ensures Cash(orders + [o]) == Cash(orders) + Cost(o.count, o.cents)
  {
    hide Cost;
    assert (orders + [o])[..|orders|] == orders;
  }

  lemma {:induction false} CashOfRepeat(orders: seq<Order>, o: Order, n: nat)
    ensures Cash(orders + Repeat(o, n)) == Cash(orders) + Times(n as real, Cost(o.count, o.cents))
  {
    hide Times;
    hide Cost;
    hide Cash;
    if n == 0 {
      assert orders + Repeat(o, 0) == orders;
      OneMore(0, Cost(o.count, o.cents));
    } else {
      CashOfRepeat(orders, o, n - 1);
      assert orders + Repeat(o, n) == (orders + Repeat(o, n - 1)) + [o];
      CashOfOneMore(orders + Repeat(o, n - 1), o);
      OneMore(n - 1, Cost(o.count, o.cents));
    }
  }

  /** The orders of one callback that no stored row stands for. */
  function Unrecorded(s: State, u: Update): nat {
    if Actionable(s, u) then Copies(u.attempts) + if Answered(u.attempts) && !u.stored then 1 else 0 else 0
  }

  function UnrecordedCash(s: State, u: Update): real
  {
    if Actionable(s, u) then Times(Unrecorded(s, u) as real, Cost(DecisionFor(s, u).contracts, DecisionFor(s, u).cents)) else 0.0
  }

  function UnrecordedCashIn(s: State, us: seq<Update>): real {
    if us == [] then 0.0
    else UnrecordedCashIn(s, us[..|us| - 1]) + UnrecordedCash(After(false, s, us[..|us| - 1]), us[|us| - 1])
  }

  lemma CallbackSpends(s: State, u: Update)
    ensures Cash(Updated(false, s, u).orders) <= Cash(s.orders) + Drawn(false, s, u) + UnrecordedCash(s, u)
  {
    hide Times;
    hide Cost;
    hide Stake;
    hide Remaining;
    if Actionable(s, u) {
      ActionableIsSendable(s, u);
      var d := DecisionFor(s, u);
      var o, sent := OrderFor(u, d), Copies(u.attempts) + if Answered(u.attempts) then 1 else 0;
      assert Updated(false, s, u).orders == s.orders + Repeat(o, sent);
      CashOfRepeat(s.orders, o, sent);
      ContractsFitTheStake(u.forecast, u.confidence, u.yesCents.value as real / 100.0, Remaining(s, u.readOk));
      OneMore(Copies(u.attempts), Cost(o.count, o.cents));
    }
  }

  /** Money committed at the exchange never outgrows the stakes on record by more than the orders that have no row:
      lost answers and failed inserts. */
  lemma {:induction false} CashIsBackedByStakes(s: State, us: seq<Update>)
    ensures var t := After(false, s, us);
            t.day == s.day
            && Cash(t.orders) - Cash(s.orders) <= OpenStake(t.rows, t.day) - OpenStake(s.rows, s.day) + UnrecordedCashIn(s, us)
  {
    if us != [] {
      var front, u := us[..|us| - 1], us[|us| - 1];
      CashIsBackedByStakes(s, front);
      CallbackDraws(false, After(false, s, front), u);
      CallbackSpends(After(false, s, front), u);
    }
  }

  lemma {:induction false} ReadDayWithinBase(dry: bool, s: State, us: seq<Update>)
    requires OpenStake(s.rows, s.day) <= BASE && forall k :: 0 <= k < |us| ==> us[k].readOk
    ensures var t := After(dry, s, us); OpenStake(t.rows, t.day) <= BASE
  {
    if us != [] {
      ReadDayWithinBase(dry, s, us[..|us| - 1]);
      OverdrawsExactlyWhen(dry, After(dry, s, us[..|us| - 1]), us[|us| - 1]);
    }
  }

  /** With no answer lost, every insert good and every read good, a fresh day commits at most the base. */
  lemma RecordedDayStaysWithinBase(s: State, us: seq<Update>)
    requires OpenStake(s.rows, s.day) == 0.0
    requires forall k :: 0 <= k < |us| ==> us[k].readOk && us[k].stored && Copies(us[k].attempts) == 0
    ensures Cash(After(false, s, us).orders) - Cash(s.orders) <= BASE
  {
    CashIsBackedByStakes(s, us);
    ReadDayWithinBase(false, s, us);
    NothingUnrecorded(s, us);
  }

  lemma {:induction false} NothingUnrecorded(s: State, us: seq<Update>)
    requires forall k :: 0 <= k < |us| ==> us[k].stored && Copies(us[k].attempts) == 0
    ensures UnrecordedCashIn(s, us) == 0.0
  {
    if us != [] {
      NothingUnrecorded(s, us[..|us| - 1]);
      var t, u := After(false, s, us[..|us| - 1]), us[|us| - 1];
      assert Unrecorded(t, u) == 0;
    }
  }

  // ----- without rows there is no bound

  /** A certain winner at 50 cents on its own ticker, ordered but not stored. */
  function Unstored(i: nat): Update {
    Update(Name(i), Some(50), true, Some(1.0), Some(1.0), true, [Delivered], false)
  }

  function Spree(n: nat): seq<Update> { if n == 0 then [] else Spree(n - 1) + [Unstored(n - 1)] }

  lemma UnstoredBet(s: State, i: nat)
    requires s.rows == [] && Name(i) !in s.processed
    ensures Updated(false, s, Unstored(i)) == s.(processed := s.processed + {Name(i)}, orders := s.orders + [Order(Name(i), Yes, 800, 50)])
  {
    assert Times(2000.0, 0.2) == 400.0;
    assert Stake(1.0, 0.5, 2000.0) == 400.0;
    assert HalfEven(50.0) == 50;
    var o := Order(Name(i), Yes, 800, 50);
    assert Repeat(o, 1) == [o];
  }

  /** When inserts fail, n bets commit n times $400: six already exceed the base, in one window and with every read good. */
  lemma {:induction false} UnstoredBetsOverspend(n: nat, day: int)
    ensures var t := After(false, State({}, [], [], day), Spree(n));
            t.rows == [] && Cash(t.orders) == 400.0 * n as real && forall x :: x in t.processed ==> |x| < n
  {
    hide Updated;
    hide Unstored;
    hide Name;
    if n > 0 {
      UnstoredBetsOverspend(n - 1, day);
      var all := Spree(n);
      assert all[..|all| - 1] == Spree(n - 1);
      NameLength(n - 1);
      var t := After(false, State({}, [], [], day), Spree(n - 1));
      UnstoredBet(t, n - 1);
      CashOfOneMore(t.orders, Order(Name(n - 1), Yes, 800, 50));
      assert Cost(800, 50) == 400.0;
    }
  }
}
