/** The fetches of the daemon read what they should: the database fold adds up open trades without regard to side,
    and the broker fold adds up the accounts' net positions. */
module SourceReadings {
  import opened Killswitch
  import opened PositionLedger
  import HaltProtocol
  import Positions
  import Reconcile

  /** The rows `fetch_pg_state` selects: ticker, quantity and entry price of every open trade, but not its side. */
  function OpenLots(trades: seq<Trade>, prices: seq<real>, n: nat): seq<Positions.Lot>
    requires n <= |trades| == |prices|
  {
    if n == 0 then []
    else OpenLots(trades, prices, n - 1)
         + if trades[n - 1].open then [Positions.Lot(trades[n - 1].ticker, trades[n - 1].qty, prices[n - 1])] else []
  }

  lemma {:induction false} OpenLotsOf(trades: seq<Trade>, prices: seq<real>, t: string, n: nat)
    requires n <= |trades| == |prices| && PositiveQuantities(trades)
    ensures var ls := Positions.LotsOf(OpenLots(trades, prices, n), t);
            Positions.TotalQty(ls) == BookedQty(trades, t, n) && (ls != [] <==> BookedQty(trades, t, n) > 0)
  {
    hide Positions.LotsOf;
    hide Positions.TotalQty;
    Positions.NoLots(t);
    if n > 0 {
      OpenLotsOf(trades, prices, t, n - 1);
      var front, row := OpenLots(trades, prices, n - 1), trades[n - 1];
      var fs := Positions.LotsOf(front, t);
      if row.open {
        var l := Positions.Lot(row.ticker, row.qty, prices[n - 1]);
        assert OpenLots(trades, prices, n) == front + [l];
        Positions.LotAppended(front, l, t);
        Positions.LotAppended(fs, l, t);
        assert fs + [] == fs;
      } else {
        assert OpenLots(trades, prices, n) == front;
      }
    }
  }

  /** A database fold over the open trades is exactly what the ledger's results call reading the trades. */
  lemma DatabaseFoldReadsTrades(out: map<string, Positions.Entry>, trades: seq<Trade>, prices: seq<real>)
    requires |trades| == |prices| && PositiveQuantities(trades)
    requires Positions.Summarises(out, OpenLots(trades, prices, |trades|))
    ensures ReadsTrades(Reconcile.AsSource(out), trades)
  {
    var source := Reconcile.AsSource(out);
    forall t
      ensures (t in source <==> exists i :: 0 <= i < |trades| && OpenIn(trades[i], t))
      ensures t in source ==> source[t].qty == BookedQty(trades, t, |trades|)
    {
      OpenLotsOf(trades, prices, t, |trades|);
      BookedLessExposureIsTwiceShort(trades, t, |trades|);
      assert t in source <==> t in out;
    }
  }

  /** The table's check constraint keeps quantities positive, so no running total of the open trades comes back to zero
      and the database fetch never divides by one: it always reads the trades. */
  lemma DatabaseFetchReadsTrades(trades: seq<Trade>, prices: seq<real>, ids: seq<string>)
    requires |trades| == |prices| && PositiveQuantities(trades) && |ids| == |OpenLots(trades, prices, |trades|)|
    ensures var fold := Positions.PgFold(OpenLots(trades, prices, |trades|), ids);
            fold.Some? && ReadsTrades(Reconcile.AsSource(fold.value), trades)
  {
    var lots := OpenLots(trades, prices, |trades|);
    OpenLotsPositive(trades, prices, |trades|);
    Positions.PositiveRowsFold(lots, ids);
    Positions.PgFoldKeepsCost(lots, ids);
    DatabaseFoldReadsTrades(Positions.PgFold(lots, ids).value, trades, prices);
  }

  lemma {:induction false} OpenLotsPositive(trades: seq<Trade>, prices: seq<real>, n: nat)
    requires n <= |trades| == |prices| && PositiveQuantities(trades)
    ensures Positions.PositiveRows(OpenLots(trades, prices, n))
  {
    if n > 0 {
      OpenLotsPositive(trades, prices, n - 1);
    }
  }

  /** The account's listing is truthful: one lot for each ticker it holds, with the net quantity. */
  ghost predicate Lists(listing: Positions.Listing, t: string, net: int) {
    listing.Listing?
    && var ls := Positions.LotsOf(listing.lots, t);
       if net == 0 then ls == [] else |ls| == 1 && ls[0].qty == net
  }

  function Listings(names: seq<string>, listings: seq<Positions.Listing>, k: nat): (r: seq<Positions.Account>)
    requires k <= |names| == |listings|
    ensures |r| == k
  {
    if k == 0 then [] else Listings(names, listings, k - 1) + [Positions.Account(names[k - 1], listings[k - 1])]
  }

  /** The default account or one of the first k strategy accounts has a position in the ticker. */
  predicate HeldSomewhere(s: State, names: seq<string>, t: string, k: nat)
    requires k <= |names|
  {
    if k == 0 then HaltProtocol.LegacyAt(s.legacy, t) != 0
    else HeldSomewhere(s, names, t, k - 1) || NetAt(s.position, Slot(names[k - 1], t)) != 0
  }

  lemma {:induction false} HeldSomewhereMeans(s: State, names: seq<string>, t: string, k: nat)
    requires k <= |names|
    ensures HeldSomewhere(s, names, t, k)
            <==> HaltProtocol.LegacyAt(s.legacy, t) != 0 || exists a :: a in names[..k] && NetAt(s.position, Slot(a, t)) != 0
  {
    if k > 0 {
      HeldSomewhereMeans(s, names, t, k - 1);
      assert names[..k] == names[..k - 1] + [names[k - 1]];
    }
  }

  lemma {:induction false} BrokerLots(s: State, legacy: Positions.Listing, names: seq<string>, listings: seq<Positions.Listing>, t: string, k: nat)
    requires k <= |names| == |listings|
    requires Lists(legacy, t, HaltProtocol.LegacyAt(s.legacy, t))
    requires forall i :: 0 <= i < |names| ==> Lists(listings[i], t, NetAt(s.position, Slot(names[i], t)))
    ensures var ls := Positions.LotsOf(Positions.Reachable([Positions.Account("default", legacy)] + Listings(names, listings, k)), t);
            Positions.TotalQty(ls) == BrokerQty(s, names, t, k) && (ls != [] <==> HeldSomewhere(s, names, t, k))
  {
    hide Positions.LotsOf;
    hide Positions.TotalQty;
    hide Positions.Reachable;
    var first := [Positions.Account("default", legacy)];
    if k == 0 {
      assert first + [] == first;
      ReachableAppended([], first[0]);
      assert [] + first == first && [] + legacy.lots == legacy.lots;
      SingleLotTotal(Positions.LotsOf(legacy.lots, t));
    } else {
      BrokerLots(s, legacy, names, listings, t, k - 1);
      var front := first + Listings(names, listings, k - 1);
      ReachableAppended(front, Positions.Account(names[k - 1], listings[k - 1]));
      assert first + Listings(names, listings, k) == front + [Positions.Account(names[k - 1], listings[k - 1])];
      Positions.LotsAppend(Positions.Reachable(front), listings[k - 1].lots, t);
      Positions.TotalsAppend(Positions.Reachable(front), listings[k - 1].lots, t);
      SingleLotTotal(Positions.LotsOf(listings[k - 1].lots, t));
    }
  }

  lemma ReachableAppended(front: seq<Positions.Account>, a: Positions.Account)
    requires a.listing.Listing?
    ensures Positions.Reachable(front + [a]) == Positions.Reachable(front) + a.listing.lots
    ensures Positions.Reachable([]) == []
  {
    assert (front + [a])[..|front|] == front;
  }

  lemma SingleLotTotal(ls: seq<Positions.Lot>)
    requires |ls| <= 1
    ensures Positions.TotalQty(ls) == if ls == [] then 0 else ls[0].qty
  {
    if |ls| == 1 {
      assert ls[..0] == [];
    }
  }

  /** A broker fold over truthful listings is exactly what the ledger's results call reading the broker. */
  lemma BrokerFoldReadsBroker(out: map<string, Positions.Entry>, s: State, legacy: Positions.Listing, names: seq<string>, listings: seq<Positions.Listing>)
    requires |names| == |listings|
    requires forall t :: Lists(legacy, t, HaltProtocol.LegacyAt(s.legacy, t))
    requires forall i, t :: 0 <= i < |names| ==> Lists(listings[i], t, NetAt(s.position, Slot(names[i], t)))
    requires Positions.Summarises(out, Positions.Reachable([Positions.Account("default", legacy)] + Listings(names, listings, |names|)))
    ensures ReadsBroker(Reconcile.AsSource(out), s, names)
  {
    var source := Reconcile.AsSource(out);
    forall t
      ensures t in source <==> HaltProtocol.LegacyAt(s.legacy, t) != 0 || exists a :: a in names && NetAt(s.position, Slot(a, t)) != 0
      ensures t in source ==> source[t].qty == BrokerQty(s, names, t, |names|)
    {
      BrokerLots(s, legacy, names, listings, t, |names|);
      HeldSomewhereMeans(s, names, t, |names|);
      assert names[..|names|] == names;
      assert t in source <==> t in out;
    }
  }
}
