/** What settlement keeps over whole runs: closed bets are final, resolutions are first-wins, every alert is accounted for,
    and the books balance to the cent. */
module SettlementRuns {
  import opened KellySizing
  import opened Settlement

  datatype Pass = Pass(due: seq<nat>, answers: seq<Answers>)

  ghost predicate Runnable(l: Ledger, p: Pass) { |p.due| == |p.answers| && Snapshot(l.bets, p.due) }

  function After(l: Ledger, p: Pass): (l': Ledger)
    requires |p.due| == |p.answers| && forall k :: 0 <= k < |p.due| ==> p.due[k] < |l.bets|
    ensures |l'.bets| == |l.bets|
  {
    Passed(l, p.due, p.answers, |p.due|)
  }

  /** The runs there are: every pass works on a snapshot of the table the passes before it left. */
  ghost predicate IsRun(ls: seq<Ledger>, ps: seq<Pass>) {
    |ls| == |ps| + 1
    && forall k :: 0 <= k < |ps| ==> RunStep(ls[k], ps[k], ls[k + 1])
  }

  ghost predicate RunStep(l: Ledger, p: Pass, l': Ledger) { Runnable(l, p) && l' == After(l, p) }

  // ----- one pass

  /** Every bet of the list is settled, pending or skipped by an exception; and the settled ones are those that closed
      and those whose update was lost. */
  lemma {:induction false} SummaryAddsUp(bets: seq<Bet>, due: seq<nat>, answers: seq<Answers>, n: nat)
    requires n <= |due| == |answers| && forall k :: 0 <= k < |due| ==> due[k] < |bets|
    ensures Count(bets, due, answers, n, SettledTally) + Count(bets, due, answers, n, PendingTally) + Count(bets, due, answers, n, RaisedTally) == n
    ensures Count(bets, due, answers, n, SettledTally)
         == Count(bets, due, answers, n, ClosedTally) + Count(bets, due, answers, n, UnwrittenTally)
  {
    if n > 0 {
      SummaryAddsUp(bets, due, answers, n - 1);
    }
  }

  /** A listed bet closes exactly when the exchange has settled, the note can be written and the update goes through;
      its booking is then the payout, and nothing else of it changes. Every other bet is left alone. */
  lemma ClosesExactlyWhen(l: Ledger, p: Pass, k: nat)
    requires Runnable(l, p) && k < |p.due|
    ensures var b, b', a := l.bets[p.due[k]], After(l, p).bets[p.due[k]], p.answers[k];
            (!IsOpen(b') <==> a.exchange.Some? && !NoteDividesByZero(b, a) && a.betWritten)
            && (IsOpen(b') ==> b' == b)
            && (!IsOpen(b') ==> b' == b.(booking := Payout(b.side, b.stake, b.entry, a.exchange.value)))
  {
    ListedBet(l, p, |p.due|, k);
  }

  lemma {:induction false} ListedBet(l: Ledger, p: Pass, n: nat, k: nat)
    requires Runnable(l, p) && k < n <= |p.due|
    ensures var i := p.due[k];
            Passed(l, p.due, p.answers, n).bets[i] == NewBet(l.bets[i], p.answers[k])
  {
    if k == n - 1 {
      StillAsRead(l, p.due, p.answers, k, k);
    } else {
      ListedBet(l, p, n - 1, k);
    }
  }

  function NewBet(b: Bet, a: Answers): Bet {
    if ResultFor(b, a).Settled? && a.betWritten then b.(booking := ResultFor(b, a).booking) else b
  }

  lemma UnlistedBet(l: Ledger, p: Pass, i: nat)
    requires Runnable(l, p) && i < |l.bets| && forall k :: 0 <= k < |p.due| ==> p.due[k] != i
    ensures After(l, p).bets[i] == l.bets[i]
  {
    NotYetTouched(l, p.due, p.answers, |p.due|, i);
  }

  // ----- runs

  /** Once closed, a bet never changes again, whatever later passes are told. */
  lemma {:induction false} ClosedBetsAreFinal(ls: seq<Ledger>, ps: seq<Pass>, j: nat, k: nat, i: nat)
    requires IsRun(ls, ps) && j <= k < |ls| && i < |ls[j].bets| && !IsOpen(ls[j].bets[i])
    ensures i < |ls[k].bets| && ls[k].bets[i] == ls[j].bets[i]
  {
    if j < k {
      ClosedBetsAreFinal(ls, ps, j, k - 1, i);
      assert RunStep(ls[k - 1], ps[k - 1], ls[k]);
      UnlistedBet(ls[k - 1], ps[k - 1], i);
    }
  }

  lemma {:induction false} ResolutionKept(l: Ledger, p: Pass, n: nat, c: nat)
    requires n <= |p.due| && Runnable(l, p) && c < |l.contracts| && l.contracts[c].Resolved?
    ensures var cs := Passed(l, p.due, p.answers, n).contracts; c < |cs| && cs[c] == l.contracts[c]
  {
    if n > 0 {
      ResolutionKept(l, p, n - 1, c);
    }
  }

  /** The first recorded resolution of a contract stands. */
  lemma {:induction false} FirstResolutionStands(ls: seq<Ledger>, ps: seq<Pass>, j: nat, k: nat, c: nat)
    requires IsRun(ls, ps) && j <= k < |ls| && c < |ls[j].contracts| && ls[j].contracts[c].Resolved?
    ensures c < |ls[k].contracts| && ls[k].contracts[c] == ls[j].contracts[c]
  {
    if j < k {
      FirstResolutionStands(ls, ps, j, k - 1, c);
      assert RunStep(ls[k - 1], ps[k - 1], ls[k]);
      ResolutionKept(ls[k - 1], ps[k - 1], |ps[k - 1].due|, c);
    }
  }

  /** The answers the run's j-th pass gets about bet i, when it lists it. */
  ghost predicate Listed(p: Pass, i: nat, k: nat) { k < |p.due| == |p.answers| && p.due[k] == i }

  /** A bet recorded at entry price zero stays open for ever, unless some pass finds the weather report in disagreement. */
  lemma {:induction false} ZeroEntryNeverCloses(ls: seq<Ledger>, ps: seq<Pass>, j: nat, i: nat)
    requires IsRun(ls, ps) && j < |ls| && i < |ls[0].bets| && IsOpen(ls[0].bets[i]) && ls[0].bets[i].entry == 0.0
    requires forall m: nat, k: nat :: m < j && Listed(ps[m], i, k) ==> !Discrepancy(ps[m].answers[k])
    ensures i < |ls[j].bets| && ls[j].bets[i] == ls[0].bets[i]
  {
    if j > 0 {
      ZeroEntryNeverCloses(ls, ps, j - 1, i);
      assert RunStep(ls[j - 1], ps[j - 1], ls[j]);
      if i in ps[j - 1].due {
        var k :| 0 <= k < |ps[j - 1].due| && ps[j - 1].due[k] == i;
        assert Listed(ps[j - 1], i, k);
        ListedBet(ls[j - 1], ps[j - 1], |ps[j - 1].due|, k);
      } else {
        UnlistedBet(ls[j - 1], ps[j - 1], i);
      }
    }
  }

  // ----- alerts

  function AlertsOn(alerts: seq<nat>, i: nat): nat {
    if alerts == [] then 0
    else AlertsOn(alerts[..|alerts| - 1], i) + if alerts[|alerts| - 1] == i then 1 else 0
  }

  /** Alerts raised about bet i by results whose update was then lost. */
  function Repeats(bets: seq<Bet>, p: Pass, n: nat, i: nat): nat
    requires n <= |p.due| == |p.answers| && forall k :: 0 <= k < |p.due| ==> p.due[k] < |bets|
  {
    if n == 0 then 0
    else Repeats(bets, p, n - 1, i)
         + if p.due[n - 1] == i && Alerting(ResultFor(bets[i], p.answers[n - 1])) && !p.answers[n - 1].betWritten then 1 else 0
  }

  ghost function RepeatsIn(ls: seq<Ledger>, ps: seq<Pass>, j: nat, i: nat): nat
    requires IsRun(ls, ps) && j <= |ps|
  {
    if j == 0 then 0
    else
      assert RunStep(ls[j - 1], ps[j - 1], ls[j]);
      RepeatsIn(ls, ps, j - 1, i) + Repeats(ls[j - 1].bets, ps[j - 1], |ps[j - 1].due|, i)
  }

  function Decided(b: Bet): nat { if b.booking.status.Won? || b.booking.status.Lost? then 1 else 0 }

  /** One bet of a pass: what it adds to the alerts on i is a repeat, or goes with i being decided. */
  lemma AlertStep(l: Ledger, p: Pass, n: nat, i: nat)
    requires Runnable(l, p) && n < |p.due| && i < |l.bets| && l.bets[i].entry > 0.0
    ensures var before, after := Passed(l, p.due, p.answers, n), Passed(l, p.due, p.answers, n + 1);
            AlertsOn(after.alerts, i) - AlertsOn(before.alerts, i)
            == Repeats(l.bets, p, n + 1, i) - Repeats(l.bets, p, n, i) + Decided(after.bets[i]) - Decided(before.bets[i])
  {
    var before, after := Passed(l, p.due, p.answers, n), Passed(l, p.due, p.answers, n + 1);
    StillAsRead(l, p.due, p.answers, n, n);
    if after.alerts != before.alerts {
      assert after.alerts[..|after.alerts| - 1] == before.alerts;
    }
  }

  lemma {:induction false} AlertsOfPass(l: Ledger, p: Pass, n: nat, i: nat)
    requires Runnable(l, p) && n <= |p.due| && i < |l.bets| && l.bets[i].entry > 0.0
    ensures var after := Passed(l, p.due, p.answers, n);
            AlertsOn(after.alerts, i) - AlertsOn(l.alerts, i) == Repeats(l.bets, p, n, i) + Decided(after.bets[i]) - Decided(l.bets[i])
  {
    if n > 0 {
      AlertsOfPass(l, p, n - 1, i);
      AlertStep(l, p, n - 1, i);
    }
  }

  lemma {:induction false} BetKept(ls: seq<Ledger>, ps: seq<Pass>, j: nat, i: nat)
    requires IsRun(ls, ps) && j < |ls| && i < |ls[0].bets|
    ensures i < |ls[j].bets| && ls[j].bets[i].(booking := ls[0].bets[i].booking) == ls[0].bets[i]
  {
    if j > 0 {
      BetKept(ls, ps, j - 1, i);
      assert RunStep(ls[j - 1], ps[j - 1], ls[j]);
      if i in ps[j - 1].due {
        var k :| 0 <= k < |ps[j - 1].due| && ps[j - 1].due[k] == i;
        ListedBet(ls[j - 1], ps[j - 1], |ps[j - 1].due|, k);
      } else {
        UnlistedBet(ls[j - 1], ps[j - 1], i);
      }
    }
  }

  /** Over any run a bet that starts open is alerted once when it is won or lost, and once more for every settlement
      whose table update was lost; so it is alerted twice exactly through a lost update. */
  lemma {:induction false} AlertsAccountedFor(ls: seq<Ledger>, ps: seq<Pass>, j: nat, i: nat)
    requires IsRun(ls, ps) && j < |ls| && i < |ls[0].bets| && ls[0].bets[i].entry > 0.0
    ensures i < |ls[j].bets|
    ensures AlertsOn(ls[j].alerts, i) - AlertsOn(ls[0].alerts, i)
         == RepeatsIn(ls, ps, j, i) + Decided(ls[j].bets[i]) - Decided(ls[0].bets[i])
  {
    if j > 0 {
      AlertsAccountedFor(ls, ps, j - 1, i);
      BetKept(ls, ps, j - 1, i);
      assert RunStep(ls[j - 1], ps[j - 1], ls[j]);
      AlertsOfPass(ls[j - 1], ps[j - 1], |ps[j - 1].due|, i);
    }
  }

  // ----- the books

  /** A closed bet holds the payout of some outcome. */
  ghost predicate Booked(b: Bet) {
    IsOpen(b) || exists o :: b.booking == Payout(b.side, b.stake, b.entry, o)
  }

  function TotalGap(bets: seq<Bet>, n: nat): real
    requires n <= |bets|
  {
    if n == 0 then 0.0 else TotalGap(bets, n - 1) + if IsOpen(bets[n - 1]) then 0.0 else Gap(bets[n - 1].stake, bets[n - 1].booking)
  }

  function OddTies(bets: seq<Bet>, n: nat): nat
    requires n <= |bets|
  {
    if n == 0 then 0
    else OddTies(bets, n - 1)
         + if bets[n - 1].booking.status.Won? && bets[n - 1].entry > 0.0 && OddTie(bets[n - 1].stake, bets[n - 1].entry) then 1 else 0
  }

  /** Summed over the table, recorded profit equals recorded payouts less stakes to within a cent for every odd tie. */
  lemma {:induction false} BooksBalance(bets: seq<Bet>, n: nat)
    requires n <= |bets| && forall i :: 0 <= i < |bets| ==> Booked(bets[i]) && WholeCents(bets[i].stake)
    ensures -0.01 * OddTies(bets, n) as real <= TotalGap(bets, n) <= 0.01 * OddTies(bets, n) as real
  {
    if n > 0 {
      BooksBalance(bets, n - 1);
      var b := bets[n - 1];
      assert Booked(b);
      if !IsOpen(b) {
        var o :| b.booking == Payout(b.side, b.stake, b.entry, o);
        RoundingGap(b.side, b.stake, b.entry, o);
      }
    }
  }

  lemma {:induction false} BookedOverRuns(ls: seq<Ledger>, ps: seq<Pass>, j: nat)
    requires IsRun(ls, ps) && j < |ls| && forall i :: 0 <= i < |ls[0].bets| ==> Booked(ls[0].bets[i]) && WholeCents(ls[0].bets[i].stake)
    ensures |ls[j].bets| == |ls[0].bets|
    ensures forall i :: 0 <= i < |ls[j].bets| ==> Booked(ls[j].bets[i]) && WholeCents(ls[j].bets[i].stake)
  {
    if j > 0 {
      BookedOverRuns(ls, ps, j - 1);
      var l, p := ls[j - 1], ps[j - 1];
      assert RunStep(l, p, ls[j]);
      forall i | 0 <= i < |ls[j].bets| ensures Booked(ls[j].bets[i]) && WholeCents(ls[j].bets[i].stake) {
        assert Booked(l.bets[i]);
        if i in p.due {
          var k :| 0 <= k < |p.due| && p.due[k] == i;
          ListedBet(l, p, |p.due|, k);
        } else {
          UnlistedBet(l, p, i);
        }
      }
    }
  }

  /** In every run from an unsettled table of whole-cent stakes the books balance that way after every pass. */
  lemma BooksBalanceThroughout(ls: seq<Ledger>, ps: seq<Pass>, j: nat)
    requires IsRun(ls, ps) && j < |ls|
    requires forall i :: 0 <= i < |ls[0].bets| ==> IsOpen(ls[0].bets[i]) && WholeCents(ls[0].bets[i].stake)
    ensures var bets := ls[j].bets;
            -0.01 * OddTies(bets, |bets|) as real <= TotalGap(bets, |bets|) <= 0.01 * OddTies(bets, |bets|) as real
  {
    BookedOverRuns(ls, ps, j);
    BooksBalance(ls[j].bets, |ls[j].bets|);
  }
}
