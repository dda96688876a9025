/** Whole runs of the trading framework: strategies opening and leaving trades, breakers, reconciliation cycles,
    halts and resets, one step at a time and with every broker call free to fail. */
module HaltProtocol {
  import opened Killswitch
  import opened Options
  import opened ReconcileDaemon
  import Reconcile

  /** An order on the way into or out of a trade: refused, an exception after it was accepted, or fully booked. */
  datatype OrderOutcome = OrderRefused | LostAfterOrder | Booked

  /** What `place_order` gets back: the response's average fill price and limit price, the limit price its caller asked for,
      and whether the database takes the new row, price aside. */
  datatype Response = NotAccepted | Response(filled: Option<real>, limit: Option<real>, asked: Option<real>, insertOk: bool)

  /** The entry price recorded for the order: zero when no price is there. */
  function EntryPrice(r: Response): real
    requires r.Response?
  {
    var first := if r.filled.Some? then r.filled.value else if r.limit.Some? then r.limit.value else 0.0;
    if first != 0.0 then first else if r.asked.Some? then r.asked.value else 0.0
  }

  /** The price is still positive in the column's four decimals. */
  predicate Recordable(price: real) { price >= 0.00005 }

  /** The table's check constraint refuses an entry price that is not positive, after the order has been accepted. */
  function EntryOutcome(r: Response): OrderOutcome {
    if r.NotAccepted? then OrderRefused
    else if r.insertOk && Recordable(EntryPrice(r)) then Booked
    else LostAfterOrder
  }

  predicate RecordablePrices(r: Response)
    requires r.Response?
  {
    (r.filled.Some? ==> Recordable(r.filled.value)) && (r.limit.Some? ==> Recordable(r.limit.value))
    && (r.asked.Some? ==> Recordable(r.asked.value))
  }

  /** An accepted entry whose row the database would take is lost exactly when no price is there; a market order, sent
      without a limit price, exactly when its response carries no fill yet. */
  lemma EntryLostExactlyWhen(r: Response)
    requires r.Response? && r.insertOk && RecordablePrices(r)
    ensures EntryOutcome(r) == LostAfterOrder <==> r.filled.None? && r.limit.None? && r.asked.None?
    ensures r.limit.None? && r.asked.None? ==> (EntryOutcome(r) == LostAfterOrder <==> r.filled.None?)
  {
  }

  /** "Still positive": at least one ten-thousandth once rounded half up to four decimals. */
  lemma RecordableMeans(price: real)
    ensures Recordable(price) <==> (price * 10000.0 + 0.5).Floor >= 1
  {
  }

  /** The price recorded is the fill's, else the response's limit, else the one asked for; a zero counts as none. */
  lemma PriceRecorded(r: Response)
    requires r.Response?
    ensures r.filled.Some? && r.filled.value != 0.0 ==> EntryPrice(r) == r.filled.value
    ensures r.filled.None? && r.limit.Some? && r.limit.value != 0.0 ==> EntryPrice(r) == r.limit.value
    ensures r.filled.None? && r.limit.None? ==> EntryPrice(r) == if r.asked.Some? then r.asked.value else 0.0
  {
  }

  datatype Step =
    | OpenTrade(strategy: string, ticker: string, side: Side, qty: nat, gatesOk: bool, response: Response)
    | ExitTrade(id: nat, onOwnAccount: bool, gatesOk: bool, outcome: OrderOutcome)
    | HaltCall(broker: Broker, close: bool)
    | ResetCall(confirmed: bool, resetFault: ResetFault, smsOk: bool)
    | CycleRun(fetch: Fetch, dryRun: bool, heartbeatOk: bool, broker: Broker)
    | BreakerTrip(strategy: string, to: Status, systemWide: bool)
    | StrategyStatus(strategy: string, to: Status)

  /** Trades have a positive quantity, as the table's check constraint demands. Every other step is possible:
      status updates and breakers may name any row, the system row included. */
  predicate Possible(step: Step) { step.OpenTrade? ==> step.qty > 0 }

  /** `should_run`, with the rules-file, breaker and market-hours gates folded into `gatesOk`. */
  predicate ShouldRun(s: State, strategy: string, gatesOk: bool) {
    SYSTEM in s.strategies && !SystemHalted(s.strategies)
    && strategy in s.strategies && s.strategies[strategy] == Active && gatesOk
  }

  function SetStatus(strategies: map<string, Status>, id: string, to: Status): map<string, Status> {
    if id in strategies then strategies[id := to] else strategies
  }

  function LegacyAt(legacy: map<string, int>, t: string): int {
    if t in legacy then legacy[t] else 0
  }

  /** `place_order`: gate, order on the strategy's own account, then the trade row. */
  function Opened(s: State, t: Trade, gatesOk: bool, r: Response): State {
    if !ShouldRun(s, t.strategy, gatesOk) || r.NotAccepted? then s
    else
      var s1 := s.(position := s.position[SlotOf(t) := NetAt(s.position, SlotOf(t)) + Signed(t)]);
      if EntryOutcome(r).LostAfterOrder? then s1 else s1.(trades := s1.trades + [t])
  }

  /** A strategy leaving one of its open trades: the reverse order goes to its own account or, as most strategies do,
      to the default account; then the row is closed. */
  function Exited(s: State, id: nat, onOwn: bool, gatesOk: bool, o: OrderOutcome): State {
    if id >= |s.trades| || !s.trades[id].open || !ShouldRun(s, s.trades[id].strategy, gatesOk) || o.OrderRefused? then s
    else
      var t := s.trades[id];
      var s1 := if onOwn then s.(position := s.position[SlotOf(t) := NetAt(s.position, SlotOf(t)) - Signed(t)])
                else s.(legacy := s.legacy[t.ticker := LegacyAt(s.legacy, t.ticker) - Signed(t)]);
      if o.LostAfterOrder? then s1 else s1.(trades := s1.trades[id := t.(open := false)])
  }

  ghost function Next(s: State, step: Step): State {
    match step
    case OpenTrade(strategy, ticker, side, qty, gatesOk, r) => Opened(s, Trade(strategy, ticker, side, qty, true), gatesOk, r)
    case ExitTrade(id, own, gatesOk, o) => Exited(s, id, own, gatesOk, o)
    case HaltCall(b, close) => Halt(s, b, close).0
    case ResetCall(confirmed, fault, smsOk) => Reset(s, confirmed, fault, smsOk).0
    case CycleRun(f, dryRun, hb, b) => Cycle(s, f, dryRun, hb, b).0
    case BreakerTrip(strategy, to, systemWide) =>
      var st := SetStatus(s.strategies, strategy, to);
      s.(strategies := if systemWide then SetStatus(st, SYSTEM, Halted) else st)
    case StrategyStatus(strategy, to) => s.(strategies := SetStatus(s.strategies, strategy, to))
  }

  ghost function Run(s: State, steps: seq<Step>): State {
    if |steps| == 0 then s else Next(Run(s, steps[..|steps| - 1]), steps[|steps| - 1])
  }

  ghost predicate AllPossible(steps: seq<Step>) {
    forall i :: 0 <= i < |steps| ==> Possible(steps[i])
  }

  // ----- the halt is sticky

  /** A confirmed reset that reaches its update, or a status update or breaker that puts the system row itself
      into another state than halted; the latter two ask for no confirmation. */
  predicate Unhalts(step: Step) {
    match step
    case ResetCall(confirmed, fault, _) => confirmed && fault != BeforeUpdate
    case StrategyStatus(strategy, to) => strategy == SYSTEM && to != Halted
    case BreakerTrip(strategy, to, systemWide) => strategy == SYSTEM && to != Halted && !systemWide
    case _ => false
  }

  /** The step is a killswitch halt, direct or from a cycle, that returned normally, and its SMS could be sent. */
  ghost predicate AnnouncedHalt(s: State, step: Step) {
    match step
    case HaltCall(b, close) => Halt(s, b, close).1 && b.smsOk
    case CycleRun(f, dryRun, hb, b) => Cycle(s, f, dryRun, hb, b).1 == CycleHalted && b.smsOk
    case _ => false
  }

  ghost predicate Halted'(s: State) { SystemHalted(s.strategies) }

  /** These are the only steps that take the system row out of the halted state. */
  lemma UnhaltsExactlyWhen(s: State, step: Step)
    requires Halted'(s)
    ensures !Halted'(Next(s, step)) <==> Unhalts(step)
    ensures SYSTEM in Next(s, step).strategies
  {
  }

  /** Over any run without such a step, halted stays halted. */
  lemma {:induction false} HaltIsSticky(s: State, steps: seq<Step>)
    requires Halted'(s) && forall i :: 0 <= i < |steps| ==> !Unhalts(steps[i])
    ensures Halted'(Run(s, steps))
  {
    var n := |steps|;
    if n > 0 {
      HaltIsSticky(s, steps[..n - 1]);
      UnhaltsExactlyWhen(Run(s, steps[..n - 1]), steps[n - 1]);
    }
  }

  // ----- one SMS per halted stretch

  function CountSms(log: seq<Sms>, kind: Sms): nat {
    if |log| == 0 then 0 else CountSms(log[..|log| - 1], kind) + if log[|log| - 1] == kind then 1 else 0
  }

  /** The number of maximal halted stretches that begin during the run. */
  ghost function StretchesBegun(s: State, steps: seq<Step>): nat {
    var n := |steps|;
    if n == 0 then 0
    else
      var before := Run(s, steps[..n - 1]);
      StretchesBegun(s, steps[..n - 1]) + if !Halted'(before) && Halted'(Next(before, steps[n - 1])) then 1 else 0
  }

  /** A stretch begun by a breaker or status update, by a halt that raised after setting the flags,
      or by one whose SMS failed. No later halt of the stretch sends its SMS either. */
  ghost predicate SilentStart(s: State, step: Step) {
    !Halted'(s) && Halted'(Next(s, step)) && !AnnouncedHalt(s, step)
  }

  ghost function SilentStarts(s: State, steps: seq<Step>): nat {
    var n := |steps|;
    if n == 0 then 0
    else SilentStarts(s, steps[..n - 1]) + if SilentStart(Run(s, steps[..n - 1]), steps[n - 1]) then 1 else 0
  }

  lemma SystemRowStays(s: State, step: Step)
    requires SYSTEM in s.strategies
    ensures SYSTEM in Next(s, step).strategies
  {
    match step
    case HaltCall(b, close) => HaltKeepsRows(s, b, close);
    case CycleRun(_, _, _, b) => HaltKeepsRows(s, b, true);
    case _ =>
  }

  lemma HaltKeepsRows(s: State, b: Broker, close: bool)
    ensures Halt(s, b, close).0.strategies.Keys == s.strategies.Keys
  {
  }

  lemma LoggedSms(log: seq<Sms>, k: Sms, kind: Sms)
    ensures CountSms(log + [k], kind) == CountSms(log, kind) + if k == kind then 1 else 0
  {
    assert (log + [k])[..|log|] == log;
  }

  lemma HaltSmsStep(s: State, b: Broker, close: bool)
    requires SYSTEM in s.strategies
    ensures var (s', done) := Halt(s, b, close);
            (Halted'(s') <==> Halted'(s) || b.fault != BeforeFlags)
            && (done ==> b.fault != BeforeFlags)
            && CountSms(s'.sms, HaltSms) == CountSms(s.sms, HaltSms) + if done && b.smsOk && !Halted'(s) then 1 else 0
  {
    LoggedSms(s.sms, HaltSms, HaltSms);
  }

  lemma TradingSendsNoSms(s: State, step: Step)
    requires step.OpenTrade? || step.ExitTrade?
    ensures Next(s, step).strategies == s.strategies && Next(s, step).sms == s.sms
  {
    hide Halt;
    hide Cycle;
    hide Reset;
    hide EntryOutcome;
    hide ShouldRun;
  }

  lemma StepSms(s: State, step: Step)
    requires SYSTEM in s.strategies
    ensures CountSms(Next(s, step).sms, HaltSms)
         == CountSms(s.sms, HaltSms) + if !Halted'(s) && Halted'(Next(s, step)) && !SilentStart(s, step) then 1 else 0
  {
    hide Halt;
    hide Opened;
    hide Exited;
    hide Reconcile.AllAgree;
    match step
    case HaltCall(b, close) => HaltSmsStep(s, b, close);
    case CycleRun(_, _, _, b) => HaltSmsStep(s, b, true);
    case ResetCall(_, _, _) => LoggedSms(s.sms, ResetSms, HaltSms);
    case OpenTrade(_, _, _, _, _, _) => TradingSendsNoSms(s, step);
    case ExitTrade(_, _, _, _) => TradingSendsNoSms(s, step);
    case _ =>
  }

  /** SMS halts sent are the halted stretches begun, less those that began silently. */
  lemma {:induction false} OneSmsPerStretch(s: State, steps: seq<Step>)
    requires SYSTEM in s.strategies
    ensures SYSTEM in Run(s, steps).strategies
    ensures CountSms(Run(s, steps).sms, HaltSms)
         == CountSms(s.sms, HaltSms) + StretchesBegun(s, steps) - SilentStarts(s, steps)
  {
    var n := |steps|;
    if n > 0 {
      var front := steps[..n - 1];
      OneSmsPerStretch(s, front);
      SystemRowStays(Run(s, front), steps[n - 1]);
      StepSms(Run(s, front), steps[n - 1]);
    }
  }

  /** Step i of the run begins a stretch silently. */
  ghost predicate SilentAt(s: State, steps: seq<Step>, i: nat) {
    i < |steps| && SilentStart(Run(s, steps[..i]), steps[i])
  }

  lemma SilentAtPrefix(s: State, steps: seq<Step>, i: nat)
    requires |steps| > 0
    ensures var n := |steps|;
            SilentAt(s, steps, i) <==>
              SilentAt(s, steps[..n - 1], i) || (i == n - 1 && SilentStart(Run(s, steps[..n - 1]), steps[n - 1]))
  {
    var n := |steps|;
    if i < n - 1 {
      assert steps[..n - 1][..i] == steps[..i];
    }
  }

  lemma {:induction false} NoSilentStarts(s: State, steps: seq<Step>)
    ensures SilentStarts(s, steps) > 0 <==> exists i :: SilentAt(s, steps, i)
  {
    var n := |steps|;
    if n > 0 {
      var front := steps[..n - 1];
      NoSilentStarts(s, front);
      SilentAtPrefix(s, steps, n - 1);
      if i :| SilentAt(s, front, i) {
        SilentAtPrefix(s, steps, i);
      }
      if i :| SilentAt(s, steps, i) {
        SilentAtPrefix(s, steps, i);
      }
    }
  }

  /** The documented "one SMS per contiguous halted state", exactly: a run sends one for every halted stretch it begins
      if and only if none of them begins silently. */
  lemma OneSmsExactlyWhen(s: State, steps: seq<Step>)
    requires SYSTEM in s.strategies
    ensures CountSms(Run(s, steps).sms, HaltSms) == CountSms(s.sms, HaltSms) + StretchesBegun(s, steps)
            <==> !exists i :: SilentAt(s, steps, i)
  {
    OneSmsPerStretch(s, steps);
    NoSilentStarts(s, steps);
  }

  // ----- a completed halt is quiet

  ghost predicate Quiet(s: State) {
    Halted'(s) && forall i :: 0 <= i < |s.trades| ==> !s.trades[i].open
  }

  lemma NothingOpenNothingSold(s: State, f: seq<FlattenOutcome>, n: nat)
    requires n <= |s.trades| && forall i :: 0 <= i < |s.trades| ==> !s.trades[i].open
    ensures SoldPositions(s.position, s.trades, f, n) == s.position && FlattenedTrades(s.trades, f) == s.trades
  {
  }

  lemma QuietStep(s: State, step: Step)
    requires Quiet(s) && !Unhalts(step)
    ensures var s' := Next(s, step);
            Quiet(s') && s'.trades == s.trades && s'.position == s.position && s'.legacy == s.legacy
  {
    UnhaltsExactlyWhen(s, step);
    match step
    case HaltCall(b, _) => NothingOpenNothingSold(s, b.flatten, |s.trades|);
    case CycleRun(_, _, _, b) => NothingOpenNothingSold(s, b.flatten, |s.trades|);
    case _ =>
  }

  /** Once a halt has closed every trade, no run without such a step orders or reopens anything,
      whatever strategies, cycles, breakers and further halts do. */
  lemma {:induction false} QuietUntilReset(s: State, steps: seq<Step>)
    requires Quiet(s) && forall i :: 0 <= i < |steps| ==> !Unhalts(steps[i])
    ensures var s' := Run(s, steps);
            Quiet(s') && s'.trades == s.trades && s'.position == s.position && s'.legacy == s.legacy
  {
    var n := |steps|;
    if n > 0 {
      QuietUntilReset(s, steps[..n - 1]);
      QuietStep(Run(s, steps[..n - 1]), steps[n - 1]);
    }
  }

  /** A completed halt that flattens, with every attempt succeeding, is quiet. */
  lemma FullHaltIsQuiet(s: State, b: Broker)
    requires SYSTEM in s.strategies && Halt(s, b, true).1
    ensures Quiet(Halt(s, b, true).0) <==> forall i :: 0 <= i < |s.trades| && s.trades[i].open ==> At(b.flatten, i) == Closed
  {
    var s' := Halt(s, b, true).0;
    assert s'.trades == FlattenedTrades(s.trades, b.flatten);
    if exists i :: 0 <= i < |s.trades| && s.trades[i].open && At(b.flatten, i) != Closed {
      var i :| 0 <= i < |s.trades| && s.trades[i].open && At(b.flatten, i) != Closed;
      assert s'.trades[i].open;
    }
  }
}
