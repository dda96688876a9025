/** Bets placed and bets settled, interleaved: whole lives of the bets table, with new bets arriving between passes. */
module LifecycleRuns {
  import opened BetLifecycle
  import opened KellySizing
  import opened Options
  import BettingDay
  import PredictionSignal
  import Settlement
  import SettlementRuns

  /** The signal's view of the tables and the settlement's, kept row for row. */
  datatype Life = Life(s: PredictionSignal.State, ledger: Settlement.Ledger)

  datatype Event =
    | Callback(u: PredictionSignal.Update, contract: nat)
    | Settling(p: SettlementRuns.Pass)
    | NewWindow
    | Midnight

  /** The signal's rows once the bets have been settled as they are. */
  function Refreshed(rows: seq<PredictionSignal.Row>, bets: seq<Settlement.Bet>): (r: seq<PredictionSignal.Row>)
    requires |rows| == |bets|
    ensures |r| == |rows| && forall i :: 0 <= i < |rows| ==> r[i] == rows[i].(open := Settlement.IsOpen(bets[i]))
  {
    seq(|rows|, i requires 0 <= i < |rows| => rows[i].(open := Settlement.IsOpen(bets[i])))
  }

  /** A pass lists open bets of the table as it stands. */
  ghost predicate Possible(l: Life, e: Event) {
    e.Settling? ==> SettlementRuns.Runnable(l.ledger, e.p) && |l.s.rows| == |l.ledger.bets|
  }

  ghost function Lived(dry: bool, l: Life, e: Event): Life
    requires Possible(l, e)
  {
    match e
    case Callback(u, contract) =>
      var s' := PredictionSignal.Updated(dry, l.s, u);
      if |s'.rows| == |l.s.rows| + 1
      then Life(s', l.ledger.(bets := l.ledger.bets + [AsBet(s'.rows[|l.s.rows|], contract)])) else Life(s', l.ledger)
    case Settling(p) =>
      var ledger' := SettlementRuns.After(l.ledger, p);
      Life(l.s.(rows := Refreshed(l.s.rows, ledger'.bets)), ledger')
    case NewWindow => l.(s := l.s.(processed := {}))
    case Midnight => l.(s := l.s.(day := l.s.day + 1))
  }

  /** The row and the bet are the same, and settlement can close it. */
  ghost predicate InStep(r: PredictionSignal.Row, b: Settlement.Bet) {
    r.side == b.side && r.stake == b.stake && r.entry == b.entry && r.open == Settlement.IsOpen(b)
    && WholeCents(b.stake) && b.stake >= 0.0 && 0.0 < b.entry < 1.0 && SettlementRuns.Booked(b)
  }

  ghost predicate Sound(l: Life) {
    |l.s.rows| == |l.ledger.bets| && BettingDay.Dated(l.s.rows, l.s.day)
    && forall i :: 0 <= i < |l.s.rows| ==> InStep(l.s.rows[i], l.ledger.bets[i])
  }

  ghost predicate Within(l: Life, failed: nat) {
    PredictionSignal.OpenStake(l.s.rows, l.s.day) <= PredictionSignal.BASE + PredictionSignal.BASE / 5.0 * failed as real
  }

  lemma CallbackKeeps(dry: bool, l: Life, u: PredictionSignal.Update, contract: nat, failed: nat)
    requires Sound(l) && Within(l, failed)
    ensures var l' := Lived(dry, l, Callback(u, contract)); Sound(l') && Within(l', if u.readOk then failed else failed + 1)
  {
    var l' := Lived(dry, l, Callback(u, contract));
    BettingDay.BoundedStep(dry, l.s, BettingDay.Callback(u), failed);
    if PredictionSignal.Actionable(l.s, u) {
      var d := PredictionSignal.DecisionFor(l.s, u);
      StoredBetsCanBeSettled(l.s, u, contract, Settlement.Answers(None, None, true, true));
      StakeNeverOverbets(d.modelP, d.marketP, PredictionSignal.Remaining(l.s, u.readOk));
    }
    forall i | 0 <= i < |l'.s.rows| ensures InStep(l'.s.rows[i], l'.ledger.bets[i]) {
      if i < |l.s.rows| {
        assert InStep(l.s.rows[i], l.ledger.bets[i]);
      }
    }
  }

  lemma {:induction false} ClosingLowers(rows: seq<PredictionSignal.Row>, rows': seq<PredictionSignal.Row>, day: int)
    requires |rows| == |rows'|
    requires forall i :: 0 <= i < |rows| ==> rows[i].stake >= 0.0 && (rows'[i] == rows[i] || rows'[i] == rows[i].(open := false))
    ensures PredictionSignal.OpenStake(rows', day) <= PredictionSignal.OpenStake(rows, day)
  {
    if rows != [] {
      ClosingLowers(rows[..|rows| - 1], rows'[..|rows| - 1], day);
    }
  }

  /** One bet through one pass: the same bet, still settleable, never reopened. */
  lemma BetThroughPass(ledger: Settlement.Ledger, p: SettlementRuns.Pass, i: nat, r: PredictionSignal.Row)
    requires SettlementRuns.Runnable(ledger, p) && i < |ledger.bets| && InStep(r, ledger.bets[i])
    ensures var b' := SettlementRuns.After(ledger, p).bets[i];
            InStep(r.(open := Settlement.IsOpen(b')), b') && (Settlement.IsOpen(b') ==> r.open)
  {
    if i in p.due {
      var k :| 0 <= k < |p.due| && p.due[k] == i;
      SettlementRuns.ListedBet(ledger, p, |p.due|, k);
    } else {
      SettlementRuns.UnlistedBet(ledger, p, i);
    }
  }

  lemma SettlingKeeps(dry: bool, l: Life, p: SettlementRuns.Pass, failed: nat)
    requires Sound(l) && Within(l, failed) && Possible(l, Settling(p))
    ensures var l' := Lived(dry, l, Settling(p)); Sound(l') && Within(l', failed)
  {
    hide SettlementRuns.After;
    var l' := Lived(dry, l, Settling(p));
    var rows, rows' := l.s.rows, l'.s.rows;
    forall i | 0 <= i < |rows| ensures InStep(rows'[i], l'.ledger.bets[i]) && (rows'[i] == rows[i] || rows'[i] == rows[i].(open := false)) {
      assert InStep(rows[i], l.ledger.bets[i]);
      BetThroughPass(l.ledger, p, i, rows[i]);
    }
    ClosingLowers(rows, rows', l.s.day);
    assert BettingDay.Dated(rows', l.s.day);
  }

  /** Today's failed reads. */
  function Failed(events: seq<Event>): nat {
    if events == [] then 0
    else
      var front := Failed(events[..|events| - 1]);
      match events[|events| - 1]
      case Callback(u, _) => if u.readOk then front else front + 1
      case Midnight => 0
      case _ => front
  }

  /** The lives there are, as the states passed through. */
  ghost predicate IsLife(dry: bool, ls: seq<Life>, events: seq<Event>) {
    |ls| == |events| + 1 && forall k :: 0 <= k < |events| ==> LifeStep(dry, ls[k], events[k], ls[k + 1])
  }

  ghost predicate LifeStep(dry: bool, l: Life, e: Event, l': Life) { Possible(l, e) && l' == Lived(dry, l, e) }

  /** From empty tables, whatever the order of callbacks, passes, windows and midnights: the two views of the table stay
      in step and every bet stays settleable; today's open stake is at most the base and a fifth of it for each of
      today's failed reads; and the books balance to within a cent for every odd tie. */
  lemma {:induction false} LifecycleHolds(dry: bool, ls: seq<Life>, events: seq<Event>, k: nat)
    requires IsLife(dry, ls, events) && k < |ls| && ls[0].s.rows == [] && ls[0].ledger.bets == []
    ensures Sound(ls[k]) && Within(ls[k], Failed(events[..k]))
    ensures var bets := ls[k].ledger.bets;
            -0.01 * SettlementRuns.OddTies(bets, |bets|) as real <= SettlementRuns.TotalGap(bets, |bets|)
            <= 0.01 * SettlementRuns.OddTies(bets, |bets|) as real
  {
    if k > 0 {
      LifecycleHolds(dry, ls, events, k - 1);
      assert LifeStep(dry, ls[k - 1], events[k - 1], ls[k]);
      assert events[..k][..k - 1] == events[..k - 1];
      EventKeeps(dry, ls[k - 1], events[k - 1], Failed(events[..k - 1]));
    }
    SoundBooksBalance(ls[k]);
  }

  lemma EventKeeps(dry: bool, l: Life, e: Event, failed: nat)
    requires Sound(l) && Within(l, failed) && Possible(l, e)
    ensures var l' := Lived(dry, l, e);
            Sound(l') && Within(l', if e.Midnight? then 0 else if e.Callback? && !e.u.readOk then failed + 1 else failed)
  {
    match e
    case Callback(u, contract) => CallbackKeeps(dry, l, u, contract, failed);
    case Settling(p) => SettlingKeeps(dry, l, p, failed);
    case NewWindow =>
    case Midnight => BettingDay.NothingYet(l.s.rows, l.s.day + 1);
  }

  lemma SoundBooksBalance(l: Life)
    requires Sound(l)
    ensures var bets := l.ledger.bets;
            -0.01 * SettlementRuns.OddTies(bets, |bets|) as real <= SettlementRuns.TotalGap(bets, |bets|)
            <= 0.01 * SettlementRuns.OddTies(bets, |bets|) as real
  {
    forall i | 0 <= i < |l.ledger.bets|
      ensures SettlementRuns.Booked(l.ledger.bets[i]) && WholeCents(l.ledger.bets[i].stake)
    {
      assert InStep(l.s.rows[i], l.ledger.bets[i]);
    }
    SettlementRuns.BooksBalance(l.ledger.bets, |l.ledger.bets|);
  }

  /** So no pass of such a life ever meets a bet it cannot settle. */
  lemma NoPassRaises(dry: bool, ls: seq<Life>, events: seq<Event>, k: nat, i: nat, a: Settlement.Answers)
    requires IsLife(dry, ls, events) && k < |ls| && ls[0].s.rows == [] && ls[0].ledger.bets == [] && i < |ls[k].ledger.bets|
    ensures Settlement.ResultFor(ls[k].ledger.bets[i], a) != Settlement.Raised
  {
    LifecycleHolds(dry, ls, events, k);
    assert InStep(ls[k].s.rows[i], ls[k].ledger.bets[i]);
  }
}
