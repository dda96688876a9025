/** One reconciliation cycle (`run_once`): fetch, compare, and halt on any divergence. */
module ReconcileDaemon {
  import opened Killswitch
  import Reconcile

  /** What the three fetches return together. */
  datatype Fetch = FetchFailed | Fetched(alpaca: Reconcile.Source, pg: Reconcile.Source, nj: Reconcile.Source)

  /** The status a cycle returns; Raised is an exception from writing the heartbeat row. */
  datatype CycleStatus = CycleOk | CycleError | MismatchDryRun | HaltFailed | CycleHalted | Raised

  ghost predicate Diverged(f: Fetch) {
    f.Fetched? && !Reconcile.AllAgree(f.alpaca, f.pg, f.nj)
  }

  /** A presence or quantity the first pair reports is a divergence, whatever the third source says. */
  lemma ReportDiverges(f: Fetch, t: string)
    requires f.Fetched? && Reconcile.PairReports(t, f.alpaca, f.pg)
    ensures Diverged(f)
  {
    Reconcile.AgreementIsThreePairs(f.alpaca, f.pg, f.nj);
    assert !Reconcile.TickerAgrees(t, f.alpaca, f.pg);
  }

  /** The cycle on states. `heartbeatOk` is whether the heartbeat row can be written. */
  ghost function Cycle(s: State, f: Fetch, dryRun: bool, heartbeatOk: bool, b: Broker): (State, CycleStatus) {
    if f.FetchFailed? then (s, CycleError)
    else if !heartbeatOk then (s, Raised)
    else if !Diverged(f) then (s, CycleOk)
    else if dryRun then (s, MismatchDryRun)
    else
      var (s', done) := Halt(s, b, true);
      (s', if done then CycleHalted else HaltFailed)
  }

  method RunOnce(framework: Framework, f: Fetch, dryRun: bool, heartbeatOk: bool, b: Broker) returns (status: CycleStatus)
    modifies framework
    ensures framework.View() == Cycle(old(framework.View()), f, dryRun, heartbeatOk, b).0
    ensures status == Cycle(old(framework.View()), f, dryRun, heartbeatOk, b).1
  {
    if f.FetchFailed? {
      return CycleError;
    }
    var mismatches := Reconcile.CompareThreeSources(f.alpaca, f.pg, f.nj);
    if !heartbeatOk {
      return Raised;
    }
    if mismatches == [] {
      return CycleOk;
    }
    if dryRun {
      return MismatchDryRun;
    }
    var first := framework.EngageHalt(b, true);
    return if first.Some? then CycleHalted else HaltFailed;
  }

  /** A cycle halts a running system exactly when it fetched a divergence, was not a dry run, could write its heartbeat,
      and the halt got as far as the status update. A `halt_failed` cycle may therefore still have halted;
      a heartbeat that cannot be written suppresses the halt. */
  lemma CycleHaltsExactlyWhen(s: State, f: Fetch, dryRun: bool, heartbeatOk: bool, b: Broker)
    requires SYSTEM in s.strategies && !SystemHalted(s.strategies)
    ensures SystemHalted(Cycle(s, f, dryRun, heartbeatOk, b).0.strategies)
            <==> Diverged(f) && !dryRun && heartbeatOk && b.fault != BeforeFlags
  {
  }

  /** Ok, error, dry-run and raising cycles change nothing at all; a cycle that reports "halted" leaves the system halted. */
  lemma CycleStatusTellsTheState(s: State, f: Fetch, dryRun: bool, heartbeatOk: bool, b: Broker)
    requires SYSTEM in s.strategies
    ensures var (s', status) := Cycle(s, f, dryRun, heartbeatOk, b);
            (status.CycleOk? || status.CycleError? || status.MismatchDryRun? || status.Raised? ==> s' == s)
            && (status.CycleHalted? ==> SystemHalted(s'.strategies))
            && (status.CycleOk? ==> Reconcile.AllAgree(f.alpaca, f.pg, f.nj))
  {
  }

  /** Which status a cycle reports: each test in turn, and of the cycles that halt those that met no failed database step
      report it. */
  lemma CycleReportsExactly(s: State, f: Fetch, dryRun: bool, heartbeatOk: bool, b: Broker)
    ensures var (s', status) := Cycle(s, f, dryRun, heartbeatOk, b);
            (status == CycleError <==> f == FetchFailed)
            && (status == Raised <==> f != FetchFailed && !heartbeatOk)
            && (status == CycleOk <==> f.Fetched? && heartbeatOk && Reconcile.AllAgree(f.alpaca, f.pg, f.nj))
            && (status == MismatchDryRun <==> f.Fetched? && heartbeatOk && !Reconcile.AllAgree(f.alpaca, f.pg, f.nj) && dryRun)
            && (status == CycleHalted ==> b.fault == NoFault)
            && (status == HaltFailed ==> b.fault != NoFault)
            && (status == CycleHalted || status == HaltFailed ==> s' == Halt(s, b, true).0)
  {
    hide Reconcile.AllAgree;
  }
}
