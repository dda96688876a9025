/** Settling open bets: the payout arithmetic with its two roundings, and the passes over the bets table. */
module Settlement {
  import opened KellySizing
  import opened Options
  import opened Rounding
  import opened Sums

  datatype Outcome = ForYes | ForNo | Void

  datatype Status = Open | Won | Lost | Voided

  datatype Booking = Booking(status: Status, payout: real, pnl: real)

  /** `quantize(Decimal("0.01"))`, in dollars. */
  function Quantized(x: real): real { HalfEven(x * 100.0) as real / 100.0 }

  predicate Wins(side: Side, o: Outcome) { (side.Yes? && o.ForYes?) || (side.No? && o.ForNo?) }

  /** `_compute_payout`. */
  function Payout(side: Side, stake: real, entry: real, o: Outcome): Booking {
    if o.Void? || entry <= 0.0 then Booking(Voided, stake, 0.0)
    else if Wins(side, o) then Booking(Won, Quantized(stake / entry), Quantized(stake / entry - stake))
    else Booking(Lost, 0.0, Quantized(-stake))
  }

  /** The won amount falls on a half cent, and the stake is an odd number of cents. */
  predicate OddTie(stake: real, entry: real)
    requires entry > 0.0
  {
    Tie(stake / entry * 100.0) && (stake * 100.0).Floor % 2 != 0
  }

  /** How far the recorded profit is from recorded payout less stake. */
  function Gap(stake: real, b: Booking): real { b.pnl - (b.payout - stake) }

  /** The two roundings agree except on an odd tie, where they part by exactly one cent. */
  lemma RoundingGap(side: Side, stake: real, entry: real, o: Outcome)
    requires WholeCents(stake)
    ensures var b := Payout(side, stake, entry, o);
            Gap(stake, b) == 0.0 || (b.status.Won? && (Gap(stake, b) == 0.01 || Gap(stake, b) == -0.01))
    ensures var b := Payout(side, stake, entry, o);
            Gap(stake, b) != 0.0 <==> b.status.Won? && OddTie(stake, entry)
  {
    var k := (stake * 100.0).Floor;
    if !o.Void? && entry > 0.0 {
      if Wins(side, o) {
        HalfEvenShift(stake / entry * 100.0, k);
        assert (stake / entry - stake) * 100.0 == stake / entry * 100.0 - k as real;
      } else {
        HalfEvenExact(-k);
        assert -stake * 100.0 == (-k) as real;
      }
    }
  }

  /** Opposite bets at the same terms: a void market refunds both; otherwise exactly one wins, and is paid a dollar per
      contract to within half a cent, and the other loses its stake. */
  lemma OppositeBets(stake: real, entry: real, o: Outcome)
    requires WholeCents(stake) && entry > 0.0
    ensures var y, n := Payout(Yes, stake, entry, o), Payout(No, stake, entry, o);
            if o.Void? then y == n == Booking(Voided, stake, 0.0)
            else
              var (winner, loser) := if o.ForYes? then (y, n) else (n, y);
              winner.status.Won? && Abs(winner.payout - stake / entry) <= 0.005
              && loser == Booking(Lost, 0.0, -stake)
  {
    RoundingGap(Yes, stake, entry, o);
    RoundingGap(No, stake, entry, o);
    HalfEvenIsNearest(stake / entry * 100.0, 0);
  }

  /** The payout is computed from stake / entry, not from the contracts bought: for a bet placed at a limit in whole
      cents it claims less than one contract too many, and none exactly when the contracts use up the stake. */
  lemma PayoutOverstatesContracts(stake: real, cents: int)
    requires stake >= 0.0 && cents > 0
    ensures var n := Truncate(stake / (cents as real / 100.0));
            var claimed := stake / (cents as real / 100.0);
            n as real <= claimed < (n + 1) as real && (claimed == n as real <==> Cost(n, cents) == stake)
  {
    var price := cents as real / 100.0;
    WholeContracts(stake, cents);
    CompareFractions(0.0, 1.0, stake, price);
    DivideBack(stake, price);
    var n := Truncate(stake / price);
    CancelFactor(price, n as real);
    assert Cost(n, cents) == Times(price, n as real);
  }

  // ----- one bet, and the passes over the table

  /** A `weather_bets` row; `booking` is written when it is settled. */
  datatype Bet = Bet(contract: nat, side: Side, stake: real, entry: real, booking: Booking)

  predicate IsOpen(b: Bet) { b.booking.status.Open? }

  /** The resolution columns of a `prediction_contracts` row. */
  datatype Resolution = Unresolved | Resolved(outcome: Option<bool>)

  /** What the outside answers while one bet is settled: the exchange, the outcome derived from the weather report
      (`StrikeLadder.Derive`), and whether each of the two table updates goes through. Both updates' failures are swallowed. */
  datatype Answers = Answers(exchange: Option<Outcome>, report: Option<Side>, betWritten: bool, contractWritten: bool)

  datatype Ledger = Ledger(bets: seq<Bet>, contracts: seq<Resolution>, alerts: seq<nat>)

  /** `Raised` is the exception `settle_all_open_bets` logs and skips. */
  datatype Result = Pending | Raised | Settled(booking: Booking, discrepancy: bool)

  predicate Discrepancy(a: Answers) {
    a.exchange.Some? && a.report.Some? && !a.exchange.value.Void? && !Wins(a.report.value, a.exchange.value)
  }

  /** The note that quotes stake / entry is built only when there is no discrepancy note. */
  predicate NoteDividesByZero(b: Bet, a: Answers) { b.entry == 0.0 && !Discrepancy(a) }

  function ResultFor(b: Bet, a: Answers): Result {
    if a.exchange.None? then Pending
    else if NoteDividesByZero(b, a) then Raised
    else Settled(Payout(b.side, b.stake, b.entry, a.exchange.value), Discrepancy(a))
  }

  function OutcomeColumn(o: Outcome): Option<bool> {
    match o
    case ForYes => Some(true)
    case ForNo => Some(false)
    case Void => None
  }

  predicate Alerting(r: Result) { r.Settled? && (r.discrepancy || r.booking.status.Won? || r.booking.status.Lost?) }

  /** The tables and alerts after one bet. */
  function Step(l: Ledger, i: nat, a: Answers): Ledger
    requires i < |l.bets|
  {
    var b := l.bets[i];
    var r := ResultFor(b, a);
    if !r.Settled? then l
    else
      var bets := if a.betWritten then l.bets[i := b.(booking := r.booking)] else l.bets;
      var contracts := if a.contractWritten && b.contract < |l.contracts| && l.contracts[b.contract].Unresolved?
                       then l.contracts[b.contract := Resolved(OutcomeColumn(a.exchange.value))] else l.contracts;
      Ledger(bets, contracts, l.alerts + if Alerting(r) then [i] else [])
  }

  /** What `_settleable_bets` may return: distinct open bets. An empty list is also what a failed read gives. */
  ghost predicate Snapshot(bets: seq<Bet>, due: seq<nat>) {
    (forall k :: 0 <= k < |due| ==> due[k] < |bets| && IsOpen(bets[due[k]]))
    && forall j, k :: 0 <= j < k < |due| ==> due[j] != due[k]
  }

  /** The tables after the first n bets of the list. */
  function Passed(l: Ledger, due: seq<nat>, answers: seq<Answers>, n: nat): (l': Ledger)
    requires n <= |due| == |answers| && forall k :: 0 <= k < |due| ==> due[k] < |l.bets|
    ensures |l'.bets| == |l.bets|
  {
    if n == 0 then l else Step(Passed(l, due, answers, n - 1), due[n - 1], answers[n - 1])
  }

  datatype Summary = Summary(checked: nat, settled: nat, pending: nat, discrepancies: nat)

  class Desk {
    var bets: seq<Bet>
    var contracts: seq<Resolution>
    var alerts: seq<nat>

    ghost function Now(): Ledger
      reads this
    {
      Ledger(bets, contracts, alerts)
    }

    /** `settle_one_bet`. */
    method SettleOne(i: nat, a: Answers) returns (r: Result)
      requires i < |bets|
      modifies this
      ensures Now() == Step(old(Now()), i, a) && r == ResultFor(old(bets[i]), a)
    {
      if a.exchange.None? {
        return Pending;
      }
      var b, o := bets[i], a.exchange.value;
      var discrepancy := a.report.Some? && !Wins(a.report.value, o) && !o.Void?;
      var booking := Payout(b.side, b.stake, b.entry, o);
      if !discrepancy && b.entry == 0.0 {
        return Raised;
      }
      r := Settled(booking, discrepancy);
      if a.betWritten {
        bets := bets[i := b.(booking := booking)];
      }
      if a.contractWritten && b.contract < |contracts| && contracts[b.contract].Unresolved? {
        contracts := contracts[b.contract := Resolved(OutcomeColumn(o))];
      }
      if discrepancy {
        alerts := alerts + [i];
      } else if booking.status.Won? || booking.status.Lost? {
        alerts := alerts + [i];
      }
    }

    /** `settle_all_open_bets` over the rows its query returned. */
    method SettleAll(due: seq<nat>, answers: seq<Answers>) returns (s: Summary)
      requires |due| == |answers| && Snapshot(bets, due)
      modifies this
      ensures Now() == Passed(old(Now()), due, answers, |due|)
      ensures s.checked == |due| && s.settled == Count(old(bets), due, answers, |due|, SettledTally)
      ensures s.pending == Count(old(bets), due, answers, |due|, PendingTally)
      ensures s.discrepancies == Count(old(bets), due, answers, |due|, DiscrepancyTally)
    {
      var settled, pending, discrepancies := 0, 0, 0;
      for k := 0 to |due|
        invariant Now() == Passed(old(Now()), due, answers, k)
        invariant settled == Count(old(bets), due, answers, k, SettledTally)
        invariant pending == Count(old(bets), due, answers, k, PendingTally)
        invariant discrepancies == Count(old(bets), due, answers, k, DiscrepancyTally)
      {
        StillAsRead(old(Now()), due, answers, k, k);
        var r := SettleOne(due[k], answers[k]);
        match r {
          case Raised =>
          case Pending =>
            pending := pending + 1;
          case Settled(booking, discrepancy) =>
            settled := settled + 1;
            if discrepancy {
              discrepancies := discrepancies + 1;
            }
        }
      }
      return Summary(|due|, settled, pending, discrepancies);
    }
  }

  datatype Tally = SettledTally | PendingTally | DiscrepancyTally | RaisedTally | ClosedTally | UnwrittenTally

  predicate Tallied(b: Bet, a: Answers, t: Tally) {
    var r := ResultFor(b, a);
    match t
    case SettledTally => r.Settled?
    case PendingTally => r.Pending?
    case DiscrepancyTally => r.Settled? && r.discrepancy
    case RaisedTally => r.Raised?
    case ClosedTally => r.Settled? && a.betWritten
    case UnwrittenTally => r.Settled? && !a.betWritten
  }

  /** How many of the first n bets of the list belong to the tally. */
  function Count(bets: seq<Bet>, due: seq<nat>, answers: seq<Answers>, n: nat, t: Tally): nat
    requires n <= |due| == |answers| && forall k :: 0 <= k < |due| ==> due[k] < |bets|
  {
    if n == 0 then 0
    else Count(bets, due, answers, n - 1, t) + if Tallied(bets[due[n - 1]], answers[n - 1], t) then 1 else 0
  }

  /** A bet not among the first n of the list is as it was. */
  lemma {:induction false} NotYetTouched(l: Ledger, due: seq<nat>, answers: seq<Answers>, n: nat, i: nat)
    requires n <= |due| == |answers| && (forall k :: 0 <= k < |due| ==> due[k] < |l.bets|) && i < |l.bets|
    requires forall k :: 0 <= k < n ==> due[k] != i
    ensures Passed(l, due, answers, n).bets[i] == l.bets[i]
  {
    if n > 0 {
      NotYetTouched(l, due, answers, n - 1, i);
    }
  }

  lemma StillAsRead(l: Ledger, due: seq<nat>, answers: seq<Answers>, n: nat, k: nat)
    requires |due| == |answers| && Snapshot(l.bets, due) && n <= k < |due|
    ensures Passed(l, due, answers, n).bets[due[k]] == l.bets[due[k]]
  {
    NotYetTouched(l, due, answers, n, due[k]);
  }

  // ----- what settling one bet does, said of the answers themselves

  /** The exchange has decided, and the weather report says the opposite. */
  predicate Disagree(a: Answers) {
    (a.exchange == Some(ForYes) && a.report == Some(No)) || (a.exchange == Some(ForNo) && a.report == Some(Yes))
  }

  /** A void market or a bet without a positive entry price is refunded; otherwise the bet wins exactly when its side is the
      exchange's, and a lost one costs its stake. */
  lemma PayoutCases(side: Side, stake: real, entry: real, o: Outcome)
    requires WholeCents(stake)
    ensures var b := Payout(side, stake, entry, o);
            if o == Void || entry <= 0.0 then b == Booking(Voided, stake, 0.0)
            else if (side == Yes && o == ForYes) || (side == No && o == ForNo) then b.status == Won
            else b == Booking(Lost, 0.0, -stake)
  {
    if !o.Void? && entry > 0.0 && !Wins(side, o) {
      RoundingGap(side, stake, entry, o);
    }
  }

  /** The result: pending until the exchange has decided; an exception for an entry price of zero unless the two disagree;
      else the payout, with the disagreement flagged. */
  lemma ResultExactly(b: Bet, a: Answers)
    ensures ResultFor(b, a)
         == if a.exchange.None? then Pending
            else if b.entry == 0.0 && !Disagree(a) then Raised
            else Settled(Payout(b.side, b.stake, b.entry, a.exchange.value), Disagree(a))
  {
  }

  /** What each counter of a pass counts. */
  lemma TalliesExactly(b: Bet, a: Answers)
    ensures Tallied(b, a, PendingTally) <==> a.exchange.None?
    ensures Tallied(b, a, RaisedTally) <==> a.exchange.Some? && b.entry == 0.0 && !Disagree(a)
    ensures Tallied(b, a, SettledTally) <==> a.exchange.Some? && (b.entry != 0.0 || Disagree(a))
    ensures Tallied(b, a, DiscrepancyTally) <==> Disagree(a)
    ensures Tallied(b, a, ClosedTally) <==> a.exchange.Some? && (b.entry != 0.0 || Disagree(a)) && a.betWritten
    ensures Tallied(b, a, UnwrittenTally) <==> a.exchange.Some? && (b.entry != 0.0 || Disagree(a)) && !a.betWritten
  {
  }

  /** The tables after a settled bet: its own row if the update goes through; its contract's resolution if that update goes
      through and it had none, yes, no or empty as the exchange decided; an alert if the two disagree or the bet was won or
      lost. Nothing else, and nothing at all for a bet that is pending or raises. */
  lemma StepExactly(l: Ledger, i: nat, a: Answers)
    requires i < |l.bets|
    ensures var l', b, r := Step(l, i, a), l.bets[i], ResultFor(l.bets[i], a);
            if !r.Settled? then l' == l
            else
              |l'.bets| == |l.bets| && |l'.contracts| == |l.contracts|
              && (forall j :: 0 <= j < |l.bets| ==>
                    l'.bets[j] == if j == i && a.betWritten then b.(booking := Payout(b.side, b.stake, b.entry, a.exchange.value)) else l.bets[j])
              && (forall c :: 0 <= c < |l.contracts| ==>
                    l'.contracts[c] == if c == b.contract && a.contractWritten && l.contracts[c] == Unresolved then
                                         (match a.exchange.value
                                          case ForYes => Resolved(Some(true))
                                          case ForNo => Resolved(Some(false))
                                          case Void => Resolved(None))
                                       else l.contracts[c])
              && l'.alerts == l.alerts + if Disagree(a) || (a.exchange != Some(Void) && b.entry > 0.0) then [i] else []
  {
    assert l.alerts + [] == l.alerts;
  }
}
