/** An account that cannot be listed is skipped by the broker fold; what that does to a reconciliation cycle. */
module UnreachableAccounts {
  import opened Killswitch
  import opened ReconcileDaemon
  import opened HaltProtocol
  import opened PositionLedger
  import opened SourceReadings
  import Positions
  import Reconcile

  /** The first k accounts' names and listings, without those whose listing failed. */
  function Answering(names: seq<string>, listings: seq<Positions.Listing>, k: nat): (r: (seq<string>, seq<Positions.Listing>))
    requires k <= |names| == |listings|
    ensures |r.0| == |r.1| <= k
    ensures forall i :: 0 <= i < |r.1| ==> r.1[i].Listing?
  {
    if k == 0 then ([], [])
    else
      var r := Answering(names, listings, k - 1);
      if listings[k - 1].Listing? then (r.0 + [names[k - 1]], r.1 + [listings[k - 1]]) else r
  }

  lemma {:induction false} AnsweringListed(names: seq<string>, listings: seq<Positions.Listing>, k: nat, n: string)
    requires k <= |names| == |listings| && Distinct(names)
    ensures var r := Answering(names, listings, k);
            Distinct(r.0) && (n in r.0 <==> exists i :: 0 <= i < k && names[i] == n && listings[i].Listing?)
    ensures forall i :: 0 <= i < |Answering(names, listings, k).0| ==> Answering(names, listings, k).0[i] in names[..k]
  {
    if k > 0 {
      AnsweringListed(names, listings, k - 1, n);
      assert names[..k] == names[..k - 1] + [names[k - 1]];
    }
  }

  lemma {:induction false} SkippedAccountsAddNothing(legacy: Positions.Listing, names: seq<string>, listings: seq<Positions.Listing>, k: nat)
    requires k <= |names| == |listings|
    ensures var r, first := Answering(names, listings, k), [Positions.Account("default", legacy)];
            Positions.Reachable(first + Listings(names, listings, k)) == Positions.Reachable(first + Listings(r.0, r.1, |r.0|))
  {
    var first := [Positions.Account("default", legacy)];
    if k > 0 {
      SkippedAccountsAddNothing(legacy, names, listings, k - 1);
      var r0 := Answering(names, listings, k - 1);
      var r := Answering(names, listings, k);
      var front := first + Listings(names, listings, k - 1);
      var last := Positions.Account(names[k - 1], listings[k - 1]);
      assert first + Listings(names, listings, k) == front + [last];
      assert (front + [last])[..|front|] == front;
      if last.listing.Listing? {
        ListingsPrefix(r.0, r.1, r0.0, r0.1, |r0.0|);
        var front' := first + Listings(r0.0, r0.1, |r0.0|);
        assert first + Listings(r.0, r.1, |r.0|) == front' + [last];
        assert (front' + [last])[..|front'|] == front';
      }
    }
  }

  lemma {:induction false} ListingsPrefix(names: seq<string>, listings: seq<Positions.Listing>, names': seq<string>, listings': seq<Positions.Listing>, k: nat)
    requires |names| == |listings| && |names'| == |listings'| && k <= |names'| && names' <= names && listings' <= listings
    ensures Listings(names, listings, k) == Listings(names', listings', k)
  {
    if k > 0 {
      ListingsPrefix(names, listings, names', listings', k - 1);
    }
  }

  /** The quantity of a ticker's open trades on accounts outside the list. */
  function OutsideQty(trades: seq<Trade>, accounts: seq<string>, t: string, n: nat): nat
    requires n <= |trades|
  {
    if n == 0 then 0
    else OutsideQty(trades, accounts, t, n - 1)
         + if OpenIn(trades[n - 1], t) && trades[n - 1].strategy !in accounts then trades[n - 1].qty else 0
  }

  lemma {:induction false} InsideAndOutside(trades: seq<Trade>, accounts: seq<string>, t: string, n: nat)
    requires n <= |trades| && Distinct(accounts) && PositiveQuantities(trades)
    requires forall i :: 0 <= i < |trades| ==> !OpenShort(trades[i], t)
    ensures AccountsExposure(accounts, trades, t, n, |accounts|) + OutsideQty(trades, accounts, t, n) == BookedQty(trades, t, n)
    ensures OutsideQty(trades, accounts, t, n) > 0
            <==> exists i :: 0 <= i < n && OpenIn(trades[i], t) && trades[i].strategy !in accounts
  {
    if n > 0 {
      InsideAndOutside(trades, accounts, t, n - 1);
      OneMoreRow(accounts, trades, t, n, |accounts|);
      assert accounts[..|accounts|] == accounts;
      assert !OpenShort(trades[n - 1], t);
    } else {
      NoRows(accounts, trades, t, |accounts|);
    }
  }

  /** Some listed account holds a long-only ticker exactly when some open trade of a listed account does. */
  lemma ListedPresence(s: State, accounts: seq<string>, t: string)
    requires BooksAgree(s) && PositiveQuantities(s.trades)
    requires forall i :: 0 <= i < |s.trades| ==> !OpenShort(s.trades[i], t)
    ensures (exists a :: a in accounts && NetAt(s.position, Slot(a, t)) != 0)
            <==> exists i :: 0 <= i < |s.trades| && OpenIn(s.trades[i], t) && s.trades[i].strategy in accounts
  {
    var n := |s.trades|;
    if i :| 0 <= i < n && OpenIn(s.trades[i], t) && s.trades[i].strategy in accounts {
      LongExposure(s.trades, SlotOf(s.trades[i]), n);
    }
    if a :| a in accounts && NetAt(s.position, Slot(a, t)) != 0 {
      LongExposure(s.trades, Slot(a, t), n);
      var i :| 0 <= i < n && s.trades[i].open && SlotOf(s.trades[i]) == Slot(a, t);
      assert OpenIn(s.trades[i], t);
    }
  }

  /** With books in perfect agreement and no short trade in the ticker, the broker source read from some of the accounts
      disagrees with the database exactly when an open trade in the ticker belongs to an account that was not read. */
  lemma ReportedExactlyWhenUnread(s: State, accounts: seq<string>, alpaca: Reconcile.Source, pg: Reconcile.Source, t: string)
    requires BooksAgree(s) && PositiveQuantities(s.trades) && Distinct(accounts)
    requires forall i :: 0 <= i < |s.trades| ==> !OpenShort(s.trades[i], t)
    requires ReadsBroker(alpaca, s, accounts) && ReadsTrades(pg, s.trades)
    ensures Reconcile.PairReports(t, alpaca, pg)
            <==> exists i :: 0 <= i < |s.trades| && OpenIn(s.trades[i], t) && s.trades[i].strategy !in accounts
  {
    AgreeingBrokerQty(s, accounts, t, |accounts|);
    InsideAndOutside(s.trades, accounts, t, |s.trades|);
    ListedPresence(s, accounts, t);
  }

  ghost predicate Truthful(s: State, name: string, listing: Positions.Listing) {
    forall t :: Lists(listing, t, NetAt(s.position, Slot(name, t)))
  }

  /** Every account that answers answers truthfully. */
  ghost predicate TruthfulWhereListed(s: State, names: seq<string>, listings: seq<Positions.Listing>)
    requires |names| == |listings|
  {
    forall j :: 0 <= j < |names| && listings[j].Listing? ==> Truthful(s, names[j], listings[j])
  }

  lemma {:induction false} AnsweringTruthful(s: State, names: seq<string>, listings: seq<Positions.Listing>, k: nat)
    requires k <= |names| == |listings| && TruthfulWhereListed(s, names, listings)
    ensures var r := Answering(names, listings, k); TruthfulWhereListed(s, r.0, r.1)
  {
    hide Truthful;
    if k > 0 {
      AnsweringTruthful(s, names, listings, k - 1);
    }
  }

  /** The broker fold over listings of which some failed reads the broker on the accounts that answered. */
  lemma FoldReadsAnswering(s: State, names: seq<string>, legacy: Positions.Listing, listings: seq<Positions.Listing>, out: map<string, Positions.Entry>)
    requires |names| == |listings| && TruthfulWhereListed(s, names, listings) && forall t :: Lists(legacy, t, LegacyAt(s.legacy, t))
    requires Positions.Summarises(out, Positions.Reachable([Positions.Account("default", legacy)] + Listings(names, listings, |names|)))
    ensures ReadsBroker(Reconcile.AsSource(out), s, Answering(names, listings, |names|).0)
  {
    hide Positions.Summarises;
    hide ReadsBroker;
    hide Lists;
    var r := Answering(names, listings, |names|);
    SkippedAccountsAddNothing(legacy, names, listings, |names|);
    AnsweringTruthful(s, names, listings, |names|);
    forall j, t | 0 <= j < |r.0| ensures Lists(r.1[j], t, NetAt(s.position, Slot(r.0[j], t))) {
      assert Truthful(s, r.0[j], r.1[j]);
    }
    BrokerFoldReadsBroker(out, s, legacy, r.0, r.1);
  }

  /** One account that does not answer is enough to halt: books in agreement, only long trades in the ticker, every other
      listing truthful, and the cycle diverges as soon as the silent account's strategy has an open trade. */
  lemma SilentAccountHalts(s: State, names: seq<string>, legacy: Positions.Listing, listings: seq<Positions.Listing>,
                           out: map<string, Positions.Entry>, f: Fetch, i: nat, b: Broker)
    requires SYSTEM in s.strategies && BooksAgree(s) && PositiveQuantities(s.trades) && Distinct(names) && |names| == |listings|
    requires TruthfulWhereListed(s, names, listings) && forall t :: Lists(legacy, t, LegacyAt(s.legacy, t))
    requires Positions.Summarises(out, Positions.Reachable([Positions.Account("default", legacy)] + Listings(names, listings, |names|)))
    requires f.Fetched? && f.alpaca == Reconcile.AsSource(out) && ReadsTrades(f.pg, s.trades)
    requires i < |s.trades| && s.trades[i].open && forall j :: 0 <= j < |s.trades| ==> !OpenShort(s.trades[j], s.trades[i].ticker)
    requires forall j :: 0 <= j < |names| && names[j] == s.trades[i].strategy ==> listings[j].ListError?
    requires b.fault == NoFault
    ensures Halted'(Cycle(s, f, false, true, b).0)
  {
    SilentAccountDiverges(s, names, legacy, listings, out, f, i);
    hide Diverged;
    hide BooksAgree;
  }

  lemma SilentAccountDiverges(s: State, names: seq<string>, legacy: Positions.Listing, listings: seq<Positions.Listing>,
                              out: map<string, Positions.Entry>, f: Fetch, i: nat)
    requires BooksAgree(s) && PositiveQuantities(s.trades) && Distinct(names) && |names| == |listings|
    requires TruthfulWhereListed(s, names, listings) && forall t :: Lists(legacy, t, LegacyAt(s.legacy, t))
    requires Positions.Summarises(out, Positions.Reachable([Positions.Account("default", legacy)] + Listings(names, listings, |names|)))
    requires f.Fetched? && f.alpaca == Reconcile.AsSource(out) && ReadsTrades(f.pg, s.trades)
    requires i < |s.trades| && s.trades[i].open && forall j :: 0 <= j < |s.trades| ==> !OpenShort(s.trades[j], s.trades[i].ticker)
    requires forall j :: 0 <= j < |names| && names[j] == s.trades[i].strategy ==> listings[j].ListError?
    ensures Diverged(f)
  {
    hide Positions.Summarises;
    hide ReadsBroker;
    hide ReadsTrades;
    hide BooksAgree;
    hide Lists;
    var accounts, t := Answering(names, listings, |names|).0, s.trades[i].ticker;
    AnsweringListed(names, listings, |names|, s.trades[i].strategy);
    FoldReadsAnswering(s, names, legacy, listings, out);
    assert OpenIn(s.trades[i], t);
    ReportedExactlyWhenUnread(s, accounts, f.alpaca, f.pg, t);
    ReportDiverges(f, t);
  }
}
