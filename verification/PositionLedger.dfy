/** Broker positions against booked trades: when the two stay in agreement over a run,
    and what reconciliation and the flatten make of short trades. */
module PositionLedger {
  import opened Killswitch
  import opened ReconcileDaemon
  import opened HaltProtocol
  import Reconcile

  /** The net position the first n rows of the trades table call for on a slot. */
  function Exposure(trades: seq<Trade>, slot: Slot, n: nat): int
    requires n <= |trades|
  {
    if n == 0 then 0
    else Exposure(trades, slot, n - 1)
         + if trades[n - 1].open && SlotOf(trades[n - 1]) == slot then Signed(trades[n - 1]) else 0
  }

  /** Every strategy account holds exactly its open trades, and the default account holds nothing. */
  ghost predicate BooksAgree(s: State) {
    (forall slot :: NetAt(s.position, slot) == Exposure(s.trades, slot, |s.trades|))
    && forall t :: LegacyAt(s.legacy, t) == 0
  }

  ghost predicate PositiveQuantities(trades: seq<Trade>) {
    forall i :: 0 <= i < |trades| ==> trades[i].qty > 0
  }

  lemma {:induction false} ExposurePrefix(trades: seq<Trade>, trades': seq<Trade>, slot: Slot, n: nat)
    requires n <= |trades| && n <= |trades'| && forall i :: 0 <= i < n ==> trades[i] == trades'[i]
    ensures Exposure(trades, slot, n) == Exposure(trades', slot, n)
  {
    if n > 0 {
      ExposurePrefix(trades, trades', slot, n - 1);
    }
  }

  lemma ExposureAppend(trades: seq<Trade>, t: Trade, slot: Slot)
    requires t.open
    ensures Exposure(trades + [t], slot, |trades| + 1)
         == Exposure(trades, slot, |trades|) + if SlotOf(t) == slot then Signed(t) else 0
  {
    ExposurePrefix(trades, trades + [t], slot, |trades|);
  }

  /** Closing row i takes its contribution out. */
  lemma {:induction false} ExposureClose(trades: seq<Trade>, i: nat, slot: Slot, n: nat)
    requires i < n <= |trades| && trades[i].open
    ensures Exposure(trades[i := trades[i].(open := false)], slot, n)
         == Exposure(trades, slot, n) - if SlotOf(trades[i]) == slot then Signed(trades[i]) else 0
  {
    var trades' := trades[i := trades[i].(open := false)];
    if i == n - 1 {
      ExposurePrefix(trades, trades', slot, n - 1);
    } else {
      ExposureClose(trades, i, slot, n - 1);
    }
  }

  /** How far a flatten pushes a slot's broker position away from its booked exposure: the full quantity of every order
      that was accepted but not booked, and twice the quantity of every short trade it "closed" by selling. */
  function Drift(trades: seq<Trade>, f: seq<FlattenOutcome>, slot: Slot, n: nat): nat
    requires n <= |trades|
  {
    if n == 0 then 0
    else
      var t := trades[n - 1];
      Drift(trades, f, slot, n - 1)
      + if !t.open || SlotOf(t) != slot then 0
        else if At(f, n - 1) == LostAfterSubmit then t.qty
        else if At(f, n - 1) == Closed && t.side.Short? then 2 * t.qty
        else 0
  }

  lemma {:induction false} FlattenDrift(trades: seq<Trade>, f: seq<FlattenOutcome>, slot: Slot, n: nat)
    requires n <= |trades|
    ensures Exposure(trades, slot, n) - Sold(trades, f, slot, n)
         == Exposure(FlattenedTrades(trades, f), slot, n) - Drift(trades, f, slot, n)
  {
    if n > 0 {
      FlattenDrift(trades, f, slot, n - 1);
    }
  }

  /** The attempt on trade i leaves its account and its row consistent: nothing was sold, or a long trade was sold and booked. */
  predicate CleanAttempt(t: Trade, o: FlattenOutcome) {
    !t.open || !Accepted(o) || (o == Closed && t.side.Long?)
  }

  lemma {:induction false} DriftZeroExactly(trades: seq<Trade>, f: seq<FlattenOutcome>, slot: Slot, n: nat)
    requires n <= |trades| && PositiveQuantities(trades)
    ensures Drift(trades, f, slot, n) == 0
            <==> forall i :: 0 <= i < n && SlotOf(trades[i]) == slot ==> CleanAttempt(trades[i], At(f, i))
  {
    if n > 0 {
      DriftZeroExactly(trades, f, slot, n - 1);
    }
  }

  /** A flatten keeps the books in agreement exactly when every attempt is clean. */
  lemma FlattenKeepsBooksExactly(s: State, f: seq<FlattenOutcome>)
    requires BooksAgree(s) && PositiveQuantities(s.trades)
    ensures BooksAgree(Flattened(s, f)) <==> forall i :: 0 <= i < |s.trades| ==> CleanAttempt(s.trades[i], At(f, i))
  {
    var s', n := Flattened(s, f), |s.trades|;
    forall slot
      ensures NetAt(s'.position, slot) == Exposure(s'.trades, slot, n) - Drift(s.trades, f, slot, n)
      ensures Drift(s.trades, f, slot, n) == 0
              <==> forall i :: 0 <= i < n && SlotOf(s.trades[i]) == slot ==> CleanAttempt(s.trades[i], At(f, i))
    {
      FlattenConserves(s.position, s.trades, f, slot, n);
      FlattenDrift(s.trades, f, slot, n);
      DriftZeroExactly(s.trades, f, slot, n);
    }
    if i :| 0 <= i < n && !CleanAttempt(s.trades[i], At(f, i)) {
      assert Drift(s.trades, f, SlotOf(s.trades[i]), n) != 0;
    }
  }

  /** The halt gets as far as flattening. */
  predicate Flattens(b: Broker, close: bool) {
    close && b.fault != BeforeFlags && b.fault != BeforeFlatten
  }

  ghost predicate CleanFlatten(s: State, b: Broker, close: bool) {
    Flattens(b, close) ==> forall i :: 0 <= i < |s.trades| ==> CleanAttempt(s.trades[i], At(b.flatten, i))
  }

  /** The entry is refused, or its response carries a price and the database takes the row. */
  predicate CleanResponse(r: Response) { r.NotAccepted? || (r.insertOk && Recordable(EntryPrice(r))) }

  /** The step books every order it places, exits through the trade's own account, and flattens no short trade. */
  ghost predicate CleanStep(s: State, step: Step) {
    match step
    case OpenTrade(strategy, _, _, _, gatesOk, r) => ShouldRun(s, strategy, gatesOk) ==> CleanResponse(r)
    case ExitTrade(id, own, gatesOk, o) =>
      id < |s.trades| && s.trades[id].open && ShouldRun(s, s.trades[id].strategy, gatesOk) ==>
        o == OrderRefused || (o == Booked && own)
    case HaltCall(b, close) => CleanFlatten(s, b, close)
    case CycleRun(f, dryRun, hb, b) => Diverged(f) && !dryRun && hb ==> CleanFlatten(s, b, true)
    case _ => true
  }

  lemma HaltKeepsBooksExactly(s: State, b: Broker, close: bool)
    requires BooksAgree(s) && PositiveQuantities(s.trades)
    ensures BooksAgree(Halt(s, b, close).0) <==> CleanFlatten(s, b, close)
    ensures PositiveQuantities(Halt(s, b, close).0.trades)
  {
    hide SoldPositions;
    hide CancelUpTo;
    hide HaltRecord;
    hide AllHalted;
    hide Exposure;
    hide CleanAttempt;
    var s' := Halt(s, b, close).0;
    if Flattens(b, close) {
      FlattenKeepsBooksExactly(s, b.flatten);
      var fl := Flattened(s, b.flatten);
      assert s'.trades == fl.trades && s'.position == fl.position && s'.legacy == s.legacy;
      assert BooksAgree(s') <==> BooksAgree(fl);
    } else {
      assert s'.trades == s.trades && s'.position == s.position && s'.legacy == s.legacy;
    }
  }

  lemma OpenKeepsBooksExactly(s: State, t: Trade, gatesOk: bool, r: Response)
    requires BooksAgree(s) && t.open && t.qty > 0
    ensures BooksAgree(Opened(s, t, gatesOk, r)) <==> (ShouldRun(s, t.strategy, gatesOk) ==> CleanResponse(r))
  {
    var s', o := Opened(s, t, gatesOk, r), EntryOutcome(r);
    if ShouldRun(s, t.strategy, gatesOk) {
      if o == Booked {
        forall slot ensures NetAt(s'.position, slot) == Exposure(s'.trades, slot, |s'.trades|) {
          ExposureAppend(s.trades, t, slot);
        }
      } else if o == LostAfterOrder {
        assert NetAt(s'.position, SlotOf(t)) != Exposure(s'.trades, SlotOf(t), |s'.trades|);
      }
    }
  }

  lemma ExitKeepsBooksExactly(s: State, id: nat, own: bool, gatesOk: bool, o: OrderOutcome)
    requires BooksAgree(s) && PositiveQuantities(s.trades)
    ensures BooksAgree(Exited(s, id, own, gatesOk, o)) <==> CleanStep(s, ExitTrade(id, own, gatesOk, o))
  {
    var s' := Exited(s, id, own, gatesOk, o);
    if id < |s.trades| && s.trades[id].open && ShouldRun(s, s.trades[id].strategy, gatesOk) && o != OrderRefused {
      var t := s.trades[id];
      if !own {
        assert LegacyAt(s'.legacy, t.ticker) == -Signed(t) != 0;
      } else if o == LostAfterOrder {
        assert NetAt(s'.position, SlotOf(t)) != Exposure(s'.trades, SlotOf(t), |s'.trades|);
      } else {
        forall slot ensures NetAt(s'.position, slot) == Exposure(s'.trades, slot, |s'.trades|) {
          ExposureClose(s.trades, id, slot, |s.trades|);
        }
      }
    }
  }

  /** An accepted entry whose row the database would take moves the account in any case; the trade is booked, and agreeing
      books go on agreeing, exactly when the response or the caller has a price. A market order sent without a limit
      price and not filled when it is submitted is held and never booked. */
  lemma EntryBookedExactlyWhenPriced(s: State, t: Trade, r: Response)
    requires BooksAgree(s) && t.open && t.qty > 0 && ShouldRun(s, t.strategy, true)
    requires r.Response? && r.insertOk && RecordablePrices(r)
    ensures var s', priced := Opened(s, t, true, r), r.filled.Some? || r.limit.Some? || r.asked.Some?;
            NetAt(s'.position, SlotOf(t)) == NetAt(s.position, SlotOf(t)) + Signed(t)
            && s'.trades == (if priced then s.trades + [t] else s.trades) && (BooksAgree(s') <==> priced)
  {
    EntryLostExactlyWhen(r);
    OpenKeepsBooksExactly(s, t, true, r);
  }

  /** From agreeing books, one step of any kind keeps them in agreement exactly when it is clean. */
  lemma StepKeepsBooksExactly(s: State, step: Step)
    requires BooksAgree(s) && PositiveQuantities(s.trades) && Possible(step)
    ensures BooksAgree(Next(s, step)) <==> CleanStep(s, step)
    ensures PositiveQuantities(Next(s, step).trades)
  {
    hide Halt;
    hide Exposure;
    hide CleanFlatten;
    hide EntryPrice;
    match step
    case OpenTrade(strategy, ticker, side, qty, gatesOk, r) =>
      OpenKeepsBooksExactly(s, Trade(strategy, ticker, side, qty, true), gatesOk, r);
    case ExitTrade(id, own, gatesOk, o) => ExitKeepsBooksExactly(s, id, own, gatesOk, o);
    case HaltCall(b, close) => HaltKeepsBooksExactly(s, b, close);
    case CycleRun(f, dryRun, hb, b) => HaltKeepsBooksExactly(s, b, true);
    case ResetCall(_, _, _) =>
      var s' := Next(s, step);
      assert s'.trades == s.trades && s'.position == s.position && s'.legacy == s.legacy;
    case BreakerTrip(_, _, _) =>
      var s' := Next(s, step);
      assert s'.trades == s.trades && s'.position == s.position && s'.legacy == s.legacy;
    case StrategyStatus(_, _) =>
      var s' := Next(s, step);
      assert s'.trades == s.trades && s'.position == s.position && s'.legacy == s.legacy;
  }

  ghost predicate BooksAgreeThroughout(s: State, steps: seq<Step>) {
    BooksAgree(Run(s, steps)) && (|steps| > 0 ==> BooksAgreeThroughout(s, steps[..|steps| - 1]))
  }

  ghost predicate CleanThroughout(s: State, steps: seq<Step>) {
    var n := |steps|;
    n > 0 ==> CleanThroughout(s, steps[..n - 1]) && CleanStep(Run(s, steps[..n - 1]), steps[n - 1])
  }

  /** Over whole runs: the books agree after every step exactly when every step is clean. */
  lemma {:induction false} BooksAgreeThroughoutExactly(s: State, steps: seq<Step>)
    requires BooksAgree(s) && PositiveQuantities(s.trades) && AllPossible(steps)
    ensures BooksAgreeThroughout(s, steps) <==> CleanThroughout(s, steps)
    ensures BooksAgreeThroughout(s, steps) ==> PositiveQuantities(Run(s, steps).trades)
  {
    var n := |steps|;
    if n > 0 {
      var front := steps[..n - 1];
      BooksAgreeThroughoutExactly(s, front);
      if BooksAgreeThroughout(s, front) {
        StepKeepsBooksExactly(Run(s, front), steps[n - 1]);
      }
    }
  }

  // ----- short trades: reconciliation miscounts them and the flatten doubles them

  /** The unsigned quantity `fetch_pg_state` adds up for a ticker: its query does not read the side. */
  function BookedQty(trades: seq<Trade>, t: string, n: nat): nat
    requires n <= |trades|
  {
    if n == 0 then 0
    else BookedQty(trades, t, n - 1) + if trades[n - 1].open && trades[n - 1].ticker == t then trades[n - 1].qty else 0
  }

  function TickerExposure(trades: seq<Trade>, t: string, n: nat): int
    requires n <= |trades|
  {
    if n == 0 then 0
    else TickerExposure(trades, t, n - 1)
         + if trades[n - 1].open && trades[n - 1].ticker == t then Signed(trades[n - 1]) else 0
  }

  function ShortQty(trades: seq<Trade>, t: string, n: nat): nat
    requires n <= |trades|
  {
    if n == 0 then 0
    else ShortQty(trades, t, n - 1)
         + if trades[n - 1].open && trades[n - 1].ticker == t && trades[n - 1].side.Short? then trades[n - 1].qty else 0
  }

  lemma {:induction false} BookedLessExposureIsTwiceShort(trades: seq<Trade>, t: string, n: nat)
    requires n <= |trades| && PositiveQuantities(trades)
    ensures BookedQty(trades, t, n) - TickerExposure(trades, t, n) == 2 * ShortQty(trades, t, n)
    ensures ShortQty(trades, t, n) > 0 <==> exists i :: 0 <= i < n && OpenShort(trades[i], t)
    ensures BookedQty(trades, t, n) > 0 <==> exists i :: 0 <= i < n && OpenIn(trades[i], t)
  {
    if n > 0 {
      BookedLessExposureIsTwiceShort(trades, t, n - 1);
    }
  }

  predicate OpenIn(t: Trade, ticker: string) { t.open && t.ticker == ticker }

  predicate OpenShort(t: Trade, ticker: string) { OpenIn(t, ticker) && t.side.Short? }

  /** The exposure of the first k accounts, added up. */
  function AccountsExposure(accounts: seq<string>, trades: seq<Trade>, t: string, n: nat, k: nat): int
    requires n <= |trades| && k <= |accounts|
  {
    if k == 0 then 0
    else AccountsExposure(accounts, trades, t, n, k - 1) + Exposure(trades, Slot(accounts[k - 1], t), n)
  }

  lemma {:induction false} OneMoreRow(accounts: seq<string>, trades: seq<Trade>, t: string, n: nat, k: nat)
    requires 0 < n <= |trades| && k <= |accounts| && Distinct(accounts)
    ensures var row := trades[n - 1];
            AccountsExposure(accounts, trades, t, n, k) == AccountsExposure(accounts, trades, t, n - 1, k)
              + if row.open && row.ticker == t && row.strategy in accounts[..k] then Signed(row) else 0
  {
    if k > 0 {
      OneMoreRow(accounts, trades, t, n, k - 1);
      assert accounts[..k] == accounts[..k - 1] + [accounts[k - 1]];
    }
  }

  lemma {:induction false} AccountsCoverTicker(accounts: seq<string>, trades: seq<Trade>, t: string, n: nat)
    requires n <= |trades| && Distinct(accounts) && forall i :: 0 <= i < |trades| ==> trades[i].strategy in accounts
    ensures AccountsExposure(accounts, trades, t, n, |accounts|) == TickerExposure(trades, t, n)
  {
    if n > 0 {
      AccountsCoverTicker(accounts, trades, t, n - 1);
      OneMoreRow(accounts, trades, t, n, |accounts|);
      assert accounts[..|accounts|] == accounts;
    } else {
      NoRows(accounts, trades, t, |accounts|);
    }
  }

  lemma {:induction false} NoRows(accounts: seq<string>, trades: seq<Trade>, t: string, k: nat)
    requires k <= |accounts|
    ensures AccountsExposure(accounts, trades, t, 0, k) == 0
  {
    if k > 0 {
      NoRows(accounts, trades, t, k - 1);
    }
  }

  /** The broker's net position in a ticker over the default account and the first k strategy accounts. */
  function BrokerQty(s: State, accounts: seq<string>, t: string, k: nat): int
    requires k <= |accounts|
  {
    if k == 0 then LegacyAt(s.legacy, t) else BrokerQty(s, accounts, t, k - 1) + NetAt(s.position, Slot(accounts[k - 1], t))
  }

  /** The Alpaca source reads the broker: tickers with a position on some account, with the summed quantity. */
  ghost predicate ReadsBroker(source: Reconcile.Source, s: State, accounts: seq<string>) {
    forall t :: (t in source <==> LegacyAt(s.legacy, t) != 0 || exists a :: a in accounts && NetAt(s.position, Slot(a, t)) != 0)
                && (t in source ==> source[t].qty == BrokerQty(s, accounts, t, |accounts|))
  }

  /** The database source reads the open trades: one entry per ticker, quantities added up whatever the side. */
  ghost predicate ReadsTrades(source: Reconcile.Source, trades: seq<Trade>) {
    forall t :: (t in source <==> exists i :: 0 <= i < |trades| && OpenIn(trades[i], t))
                && (t in source ==> source[t].qty == BookedQty(trades, t, |trades|))
  }

  /** In this ticker the default account holds nothing and the listed accounts exactly their open trades. */
  ghost predicate AgreesOn(s: State, accounts: seq<string>, t: string) {
    LegacyAt(s.legacy, t) == 0
    && forall a :: a in accounts ==> NetAt(s.position, Slot(a, t)) == Exposure(s.trades, Slot(a, t), |s.trades|)
  }

  lemma {:induction false} AgreeingBrokerQty(s: State, accounts: seq<string>, t: string, k: nat)
    requires AgreesOn(s, accounts, t) && k <= |accounts|
    ensures BrokerQty(s, accounts, t, k) == AccountsExposure(accounts, s.trades, t, |s.trades|, k)
  {
    if k > 0 {
      AgreeingBrokerQty(s, accounts, t, k - 1);
    }
  }

  lemma {:induction false} LongExposure(trades: seq<Trade>, slot: Slot, n: nat)
    requires n <= |trades| && PositiveQuantities(trades) && forall i :: 0 <= i < n ==> !OpenShort(trades[i], slot.ticker)
    ensures Exposure(trades, slot, n) >= 0
    ensures Exposure(trades, slot, n) > 0 <==> exists i :: 0 <= i < n && trades[i].open && SlotOf(trades[i]) == slot
  {
    if n > 0 {
      LongExposure(trades, slot, n - 1);
    }
  }

  /** With books in perfect agreement on a ticker, the broker and the database sources disagree on it
      exactly when it has an open short trade. */
  lemma AgreeingBooksReportExactlyShorts(s: State, accounts: seq<string>, alpaca: Reconcile.Source, pg: Reconcile.Source, t: string)
    requires AgreesOn(s, accounts, t) && PositiveQuantities(s.trades) && Distinct(accounts)
    requires forall i :: 0 <= i < |s.trades| ==> s.trades[i].strategy in accounts
    requires ReadsBroker(alpaca, s, accounts) && ReadsTrades(pg, s.trades)
    ensures Reconcile.PairReports(t, alpaca, pg) <==> exists i :: 0 <= i < |s.trades| && OpenShort(s.trades[i], t)
  {
    var n := |s.trades|;
    AgreeingBrokerQty(s, accounts, t, |accounts|);
    AccountsCoverTicker(accounts, s.trades, t, n);
    BookedLessExposureIsTwiceShort(s.trades, t, n);
    if i :| 0 <= i < n && OpenShort(s.trades[i], t) {
      assert OpenIn(s.trades[i], t);
    } else {
      LongPresence(s, accounts, t);
    }
  }

  /** Without short trades in the ticker, some account holds it exactly when some open trade does. */
  lemma LongPresence(s: State, accounts: seq<string>, t: string)
    requires AgreesOn(s, accounts, t) && PositiveQuantities(s.trades)
    requires forall i :: 0 <= i < |s.trades| ==> s.trades[i].strategy in accounts && !OpenShort(s.trades[i], t)
    ensures (exists a :: a in accounts && NetAt(s.position, Slot(a, t)) != 0)
            <==> exists i :: 0 <= i < |s.trades| && OpenIn(s.trades[i], t)
  {
    var n := |s.trades|;
    if i :| 0 <= i < n && OpenIn(s.trades[i], t) {
      LongExposure(s.trades, SlotOf(s.trades[i]), n);
    }
    if a :| a in accounts && NetAt(s.position, Slot(a, t)) != 0 {
      LongExposure(s.trades, Slot(a, t), n);
      var i :| 0 <= i < n && s.trades[i].open && SlotOf(s.trades[i]) == Slot(a, t);
      assert OpenIn(s.trades[i], t);
    }
  }

  /** The quantity of a slot's open short trades. */
  function SlotShortQty(trades: seq<Trade>, slot: Slot, n: nat): nat
    requires n <= |trades|
  {
    if n == 0 then 0
    else SlotShortQty(trades, slot, n - 1)
         + if trades[n - 1].open && SlotOf(trades[n - 1]) == slot && trades[n - 1].side.Short? then trades[n - 1].qty else 0
  }

  lemma {:induction false} AllClosedDrift(trades: seq<Trade>, f: seq<FlattenOutcome>, slot: Slot, n: nat)
    requires n <= |trades| && forall i :: 0 <= i < |trades| && trades[i].open ==> At(f, i) == Closed
    ensures Drift(trades, f, slot, n) == 2 * SlotShortQty(trades, slot, n)
    ensures Exposure(FlattenedTrades(trades, f), slot, n) == 0
  {
    if n > 0 {
      AllClosedDrift(trades, f, slot, n - 1);
    }
  }

  /** From agreeing books, a flatten in which every order is accepted and booked leaves every account flat
      exactly when it held no short trade: each short position is doubled instead of bought back. */
  lemma FlattenDoublesShorts(s: State, f: seq<FlattenOutcome>, slot: Slot)
    requires BooksAgree(s) && forall i :: 0 <= i < |s.trades| && s.trades[i].open ==> At(f, i) == Closed
    ensures NetAt(Flattened(s, f).position, slot) == -2 * SlotShortQty(s.trades, slot, |s.trades|)
  {
    var n := |s.trades|;
    FlattenConserves(s.position, s.trades, f, slot, n);
    FlattenDrift(s.trades, f, slot, n);
    AllClosedDrift(s.trades, f, slot, n);
  }

  /** A truthful fetch of agreeing books diverges as soon as one open trade is short. */
  lemma ShortMakesDivergence(s: State, accounts: seq<string>, f: Fetch, t: string)
    requires BooksAgree(s) && PositiveQuantities(s.trades) && Distinct(accounts)
    requires forall j :: 0 <= j < |s.trades| ==> s.trades[j].strategy in accounts
    requires exists i :: 0 <= i < |s.trades| && OpenShort(s.trades[i], t)
    requires f.Fetched? && ReadsBroker(f.alpaca, s, accounts) && ReadsTrades(f.pg, s.trades)
    ensures Diverged(f)
  {
    AgreeingBooksReportExactlyShorts(s, accounts, f.alpaca, f.pg, t);
    Reconcile.AgreementIsThreePairs(f.alpaca, f.pg, f.nj);
    assert !Reconcile.TickerAgrees(t, f.alpaca, f.pg);
  }

  lemma FullHaltDoublesShorts(s: State, b: Broker, slot: Slot)
    requires SYSTEM in s.strategies && BooksAgree(s) && b.fault == NoFault
    requires forall j :: 0 <= j < |s.trades| && s.trades[j].open ==> At(b.flatten, j) == Closed
    ensures NetAt(Halt(s, b, true).0.position, slot) == -2 * SlotShortQty(s.trades, slot, |s.trades|)
  {
    FlattenDoublesShorts(s, b.flatten, slot);
    assert Halt(s, b, true).0.position == Flattened(s, b.flatten).position;
  }

  /** End to end: books that agree, one open short trade, and a reconciliation cycle that reads both sides truthfully and
      meets no failure at all. The cycle halts the system, closes every trade in the database, and doubles every short. */
  lemma ReconciliationDoublesShorts(s: State, accounts: seq<string>, f: Fetch, b: Broker, t: string)
    requires SYSTEM in s.strategies && BooksAgree(s) && PositiveQuantities(s.trades) && Distinct(accounts)
    requires forall j :: 0 <= j < |s.trades| ==> s.trades[j].strategy in accounts
    requires exists i :: 0 <= i < |s.trades| && OpenShort(s.trades[i], t)
    requires f.Fetched? && ReadsBroker(f.alpaca, s, accounts) && ReadsTrades(f.pg, s.trades)
    requires b.fault == NoFault && forall j :: 0 <= j < |s.trades| && s.trades[j].open ==> At(b.flatten, j) == Closed
    ensures Cycle(s, f, false, true, b).1 == CycleHalted && Quiet(Cycle(s, f, false, true, b).0)
    ensures forall slot :: NetAt(Cycle(s, f, false, true, b).0.position, slot) == -2 * SlotShortQty(s.trades, slot, |s.trades|)
  {
    ShortMakesDivergence(s, accounts, f, t);
    FullHaltIsQuiet(s, b);
    forall slot
      ensures NetAt(Halt(s, b, true).0.position, slot) == -2 * SlotShortQty(s.trades, slot, |s.trades|)
    {
      FullHaltDoublesShorts(s, b, slot);
    }
  }
}
