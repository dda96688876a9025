/** Folding broker lots and open trades into one entry per ticker (`_merge`, `fetch_pg_state`). */
module Positions {
  import opened Options
  import opened Sums

  datatype Lot = Lot(ticker: string, qty: int, price: real)

  /** One entry of a source's state; `owners` are the accounts (or trade ids) it was merged from. */
  datatype Entry = Entry(qty: int, avg: real, owners: seq<string>)

  datatype Fetched = Fetched(state: map<string, Entry>) | FetchError

  function LotCost(l: Lot): real { Times(l.qty as real, l.price) }

  function TotalQty(lots: seq<Lot>): int {
    if |lots| == 0 then 0 else TotalQty(lots[..|lots| - 1]) + lots[|lots| - 1].qty
  }

  function TotalCost(lots: seq<Lot>): real {
    if |lots| == 0 then 0.0 else TotalCost(lots[..|lots| - 1]) + LotCost(lots[|lots| - 1])
  }

  /** The lots of one ticker, in order. */
  function LotsOf(lots: seq<Lot>, t: string): seq<Lot> {
    if |lots| == 0 then []
    else
      var front, last := LotsOf(lots[..|lots| - 1], t), lots[|lots| - 1];
      if last.ticker == t then front + [last] else front
  }

  /** `_merge` on one entry: a total of zero keeps the previous average price. */
  function MergedEntry(prev: Entry, l: Lot, owner: string): Entry {
    var total := prev.qty + l.qty;
    var weighted := if total == 0 then prev.avg
                    else (Times(prev.qty as real, prev.avg) + LotCost(l)) / (total as real);
    Entry(total, weighted, prev.owners + [owner])
  }

  function Merged(out: map<string, Entry>, l: Lot, owner: string): map<string, Entry> {
    if l.ticker in out then out[l.ticker := MergedEntry(out[l.ticker], l, owner)]
    else out[l.ticker := Entry(l.qty, l.price, [owner])]
  }

  /** Every ticker with a lot has an entry with the exact total quantity, and the entry's average price times
      that quantity is the cost of the lots since the running total was last zero. */
  ghost predicate Summarises(out: map<string, Entry>, lots: seq<Lot>) {
    forall t :: (t in out <==> LotsOf(lots, t) != [])
                && (t in out ==> EntryFor(out[t], LotsOf(lots, t)))
  }

  ghost predicate EntryFor(e: Entry, ls: seq<Lot>) {
    e.qty == TotalQty(ls) && Times(e.qty as real, e.avg) == TotalCost(ls[LastZero(ls)..])
  }

  /** The length of the longest prefix whose quantities cancel out. */
  function LastZero(ls: seq<Lot>): (k: nat)
    ensures k <= |ls|
  {
    if |ls| == 0 || TotalQty(ls) == 0 then |ls| else LastZero(ls[..|ls| - 1])
  }

  lemma MergeKeepsSummary(out: map<string, Entry>, lots: seq<Lot>, l: Lot, owner: string)
    requires Summarises(out, lots)
    ensures Summarises(Merged(out, l, owner), lots + [l])
  {
    hide LotsOf;
    hide EntryFor;
    var out', lots' := Merged(out, l, owner), lots + [l];
    forall t
      ensures (t in out' <==> LotsOf(lots', t) != []) && (t in out' ==> EntryFor(out'[t], LotsOf(lots', t)))
    {
      LotAppended(lots, l, t);
      var ls := LotsOf(lots, t);
      if t != l.ticker {
        assert ls + [] == ls;
      } else if t in out {
        MergedEntryFor(out[t], ls, l, owner);
      } else {
        assert [] + [l] == [l];
        FirstLot(l, owner);
      }
    }
  }

  lemma LotAppended(front: seq<Lot>, l: Lot, t: string)
    ensures LotsOf(front + [l], t) == LotsOf(front, t) + if l.ticker == t then [l] else []
    ensures TotalQty(front + [l]) == TotalQty(front) + l.qty
    ensures TotalCost(front + [l]) == TotalCost(front) + LotCost(l)
  {
    assert (front + [l])[..|front|] == front;
  }

  lemma FirstLot(l: Lot, owner: string)
    ensures EntryFor(Entry(l.qty, l.price, [owner]), [l])
  {
    var ls := [l];
    assert ls[..0] == [] && TotalQty(ls) == l.qty && TotalCost(ls) == LotCost(l);
    if l.qty == 0 {
      assert ls[1..] == [];
    } else {
      assert LastZero(ls) == 0 && ls[0..] == ls;
    }
  }

  lemma MergedEntryFor(e: Entry, ls: seq<Lot>, l: Lot, owner: string)
    requires EntryFor(e, ls)
    ensures EntryFor(MergedEntry(e, l, owner), ls + [l])
  {
    var ls' := ls + [l];
    assert ls'[..|ls|] == ls;
    var k, total := LastZero(ls), e.qty + l.qty;
    if total == 0 {
      assert ls'[|ls'|..] == [];
    } else {
      assert LastZero(ls') == k;
      assert ls'[k..][..|ls'| - k - 1] == ls[k..] && ls'[k..][|ls'| - k - 1] == l;
      DivideBack(Times(e.qty as real, e.avg) + LotCost(l), total as real);
    }
  }

  /** An Alpaca account's answer to `list_positions`. */
  datatype Listing = Listing(lots: seq<Lot>) | ListError

  datatype Account = Account(name: string, listing: Listing)

  /** All lots of the accounts that answered, in the order they are visited. */
  function Reachable(accounts: seq<Account>): seq<Lot> {
    if |accounts| == 0 then []
    else
      var last := accounts[|accounts| - 1];
      Reachable(accounts[..|accounts| - 1]) + if last.listing.Listing? then last.listing.lots else []
  }

  /** The names of the accounts the reachable lots come from, lot by lot. */
  function ReachableOwners(accounts: seq<Account>): (owners: seq<string>)
    ensures |owners| == |Reachable(accounts)|
  {
    if |accounts| == 0 then []
    else
      var last := accounts[|accounts| - 1];
      ReachableOwners(accounts[..|accounts| - 1]) + if last.listing.Listing? then seq(|last.listing.lots|, i => last.name) else []
  }

  /** The owners of one ticker's lots, in order. */
  function OwnersOf(lots: seq<Lot>, owners: seq<string>, t: string): seq<string>
    requires |lots| == |owners|
  {
    if |lots| == 0 then []
    else
      var n := |lots| - 1;
      OwnersOf(lots[..n], owners[..n], t) + if lots[n].ticker == t then [owners[n]] else []
  }

  /** Every entry names the owners of its ticker's lots, one for each lot, in order. */
  ghost predicate Owned(out: map<string, Entry>, lots: seq<Lot>, owners: seq<string>) {
    |lots| == |owners| && forall t :: t in out ==> out[t].owners == OwnersOf(lots, owners, t)
  }

  lemma {:induction false} NoLotsNoOwners(lots: seq<Lot>, owners: seq<string>, t: string)
    requires |lots| == |owners| && LotsOf(lots, t) == []
    ensures OwnersOf(lots, owners, t) == []
  {
    if |lots| > 0 {
      NoLotsNoOwners(lots[..|lots| - 1], owners[..|lots| - 1], t);
    }
  }

  lemma MergeKeepsOwners(out: map<string, Entry>, lots: seq<Lot>, owners: seq<string>, l: Lot, owner: string)
    requires Owned(out, lots, owners) && Summarises(out, lots)
    ensures Owned(Merged(out, l, owner), lots + [l], owners + [owner])
  {
    hide LotsOf;
    hide EntryFor;
    assert (lots + [l])[..|lots|] == lots && (owners + [owner])[..|lots|] == owners;
    forall t | t in Merged(out, l, owner)
      ensures Merged(out, l, owner)[t].owners == OwnersOf(lots + [l], owners + [owner], t)
    {
      if t !in out {
        NoLotsNoOwners(lots, owners, t);
      }
    }
  }

  lemma {:induction false} MergeAllKeepsOwners(out: map<string, Entry>, before: seq<Lot>, owners: seq<string>, lots: seq<Lot>, owner: string)
    requires Owned(out, before, owners) && Summarises(out, before)
    ensures Owned(MergedAll(out, lots, owner), before + lots, owners + seq(|lots|, i => owner))
  {
    hide Owned;
    hide Summarises;
    hide Merged;
    var n := |lots|;
    if n == 0 {
      assert before + lots == before && owners + seq(|lots|, i => owner) == owners;
    } else {
      var front := lots[..n - 1];
      MergeAllKeepsOwners(out, before, owners, front, owner);
      MergeAllKeepsSummary(out, before, front, owner);
      MergeKeepsOwners(MergedAll(out, front, owner), before + front, owners + seq(|front|, i => owner), lots[n - 1], owner);
      assert before + front + [lots[n - 1]] == before + lots;
      assert owners + seq(|front|, i => owner) + [owner] == owners + seq(|lots|, i => owner);
    }
  }

  /** A total that comes back to zero keeps the average it had. */
  lemma ZeroTotalKeepsAverage(out: map<string, Entry>, l: Lot, owner: string)
    requires l.ticker in out && out[l.ticker].qty + l.qty == 0
    ensures var e := Merged(out, l, owner)[l.ticker]; e.qty == 0 && e.avg == out[l.ticker].avg
  {
  }

  /** The dictionary `fetch_alpaca_state` builds up. */
  class PositionBook {
    var out: map<string, Entry>

    constructor ()
      ensures out == map[]
    {
      out := map[];
    }

    /** `_merge`. */
    method Merge(l: Lot, owner: string)
      modifies this
      ensures out == Merged(old(out), l, owner)
    {
      if l.ticker in out {
        var prev := out[l.ticker];
        var total := prev.qty + l.qty;
        var weighted: real;
        if total == 0 {
          weighted := prev.avg;
        } else {
          weighted := (Times(prev.qty as real, prev.avg) + Times(l.qty as real, l.price)) / (total as real);
        }
        out := out[l.ticker := Entry(total, weighted, prev.owners + [owner])];
      } else {
        out := out[l.ticker := Entry(l.qty, l.price, [owner])];
      }
    }

    method MergeAll(lots: seq<Lot>, owner: string)
      modifies this
      ensures out == MergedAll(old(out), lots, owner)
    {
      for i := 0 to |lots|
        invariant out == MergedAll(old(out), lots[..i], owner)
      {
        assert lots[..i + 1][..i] == lots[..i];
        Merge(lots[i], owner);
      }
      assert lots[..|lots|] == lots;
    }
  }

  function MergedAll(out: map<string, Entry>, lots: seq<Lot>, owner: string): map<string, Entry> {
    var n := |lots|;
    if n == 0 then out else Merged(MergedAll(out, lots[..n - 1], owner), lots[n - 1], owner)
  }

  lemma {:induction false} MergeAllKeepsSummary(out: map<string, Entry>, before: seq<Lot>, lots: seq<Lot>, owner: string)
    requires Summarises(out, before)
    ensures Summarises(MergedAll(out, lots, owner), before + lots)
  {
    var n := |lots|;
    if n == 0 {
      assert before + lots == before;
    } else {
      MergeAllKeepsSummary(out, before, lots[..n - 1], owner);
      MergeKeepsSummary(MergedAll(out, lots[..n - 1], owner), before + lots[..n - 1], lots[n - 1], owner);
      assert before + lots[..n - 1] + [lots[n - 1]] == before + lots;
    }
  }

  /** The dictionary reads the accounts that answered: quantities, costs and owners. */
  ghost predicate Reads(out: map<string, Entry>, accounts: seq<Account>) {
    Summarises(out, Reachable(accounts)) && Owned(out, Reachable(accounts), ReachableOwners(accounts))
  }

  lemma AccountMerged(out: map<string, Entry>, accounts: seq<Account>, a: Account)
    requires Reads(out, accounts)
    ensures Reads(if a.listing.Listing? then MergedAll(out, a.listing.lots, a.name) else out, accounts + [a])
    ensures Reachable(accounts + [a]) == Reachable(accounts) + if a.listing.Listing? then a.listing.lots else []
  {
    hide Summarises;
    hide Owned;
    hide MergedAll;
    assert (accounts + [a])[..|accounts|] == accounts;
    assert Reachable(accounts) + [] == Reachable(accounts) && ReachableOwners(accounts) + [] == ReachableOwners(accounts);
    if a.listing.Listing? {
      MergeAllKeepsSummary(out, Reachable(accounts), a.listing.lots, a.name);
      MergeAllKeepsOwners(out, Reachable(accounts), ReachableOwners(accounts), a.listing.lots, a.name);
    }
  }

  lemma NothingRead()
    ensures Reads(map[], []) && Reachable([]) == []
  {
  }

  /** `fetch_alpaca_state`: the default account, then every strategy account; accounts that fail are skipped.
      `probeOk` is whether the default account answers the last-resort `get_account` call. */
  method FetchAlpacaState(default: Listing, strategies: seq<Account>, probeOk: bool) returns (r: Fetched)
    ensures var all := [Account("default", default)] + strategies;
            (r.FetchError? <==> !probeOk && Reachable(all) == [] && forall i :: 0 <= i < |strategies| ==> strategies[i].listing.ListError?)
            && (r.Fetched? ==> Reads(r.state, all))
  {
    hide Reachable;
    hide Reads;
    hide MergedAll;
    var book := new PositionBook();
    var first := [Account("default", default)];
    var seenAny, strategyOk := false, false;
    NothingRead();
    AccountMerged(map[], [], first[0]);
    assert [] + first == first;
    if default.Listing? {
      seenAny := default.lots != [];
      book.MergeAll(default.lots, "default");
    }
    assert first + strategies[..0] == first;
    for i := 0 to |strategies|
      invariant Reads(book.out, first + strategies[..i])
      invariant seenAny <==> Reachable(first + strategies[..i]) != []
      invariant strategyOk <==> exists j :: 0 <= j < i && strategies[j].listing.Listing?
    {
      var a := strategies[i];
      AccountMerged(book.out, first + strategies[..i], a);
      assert first + strategies[..i + 1] == first + strategies[..i] + [a];
      if a.listing.Listing? {
        strategyOk := true;
        seenAny := seenAny || a.listing.lots != [];
        book.MergeAll(a.listing.lots, a.name);
      }
    }
    assert strategies[..|strategies|] == strategies;
    if !strategyOk && !seenAny && !probeOk {
      return FetchError;
    }
    r := Fetched(book.out);
  }

  /** A merge that `fetch_pg_state` cannot make: the ticker is already there and the new total is zero,
      so the weighted average divides by zero. */
  ghost predicate DividesByZeroAt(rows: seq<Lot>, i: nat) {
    i < |rows| && LotsOf(rows[..i], rows[i].ticker) != [] && TotalQty(LotsOf(rows[..i + 1], rows[i].ticker)) == 0
  }

  /** The fold over the open trades; None once an average has divided by zero. */
  function PgFold(rows: seq<Lot>, ids: seq<string>): Option<map<string, Entry>>
    requires |ids| == |rows|
  {
    var n := |rows|;
    if n == 0 then Some(map[])
    else
      var rest := PgFold(rows[..n - 1], ids[..n - 1]);
      var l := rows[n - 1];
      if rest.None? || (l.ticker in rest.value && rest.value[l.ticker].qty + l.qty == 0) then None
      else Some(Merged(rest.value, l, ids[n - 1]))
  }

  /** `fetch_pg_state` over the open trades' (ticker, qty, entry price), `ids` naming the trades. */
  method FetchPgState(rows: seq<Lot>, ids: seq<string>) returns (r: Fetched)
    requires |ids| == |rows|
    ensures PgFold(rows, ids) == if r.Fetched? then Some(r.state) else None
  {
    var out: map<string, Entry> := map[];
    for i := 0 to |rows|
      invariant PgFold(rows[..i], ids[..i]) == Some(out)
    {
      assert rows[..i + 1][..i] == rows[..i] && ids[..i + 1][..i] == ids[..i];
      var l := rows[i];
      if l.ticker in out {
        var prev := out[l.ticker];
        var total := prev.qty + l.qty;
        if total == 0 {
          PgFoldStaysNone(rows, ids, i + 1);
          return FetchError;
        }
        var weighted := (Times(prev.qty as real, prev.avg) + Times(l.qty as real, l.price)) / (total as real);
        out := out[l.ticker := Entry(total, weighted, prev.owners + [ids[i]])];
      } else {
        out := out[l.ticker := Entry(l.qty, l.price, [ids[i]])];
      }
    }
    assert rows[..|rows|] == rows && ids[..|ids|] == ids;
    r := Fetched(out);
  }

  lemma {:induction false} PgFoldStaysNone(rows: seq<Lot>, ids: seq<string>, i: nat)
    requires |ids| == |rows| && i <= |rows| && PgFold(rows[..i], ids[..i]).None?
    ensures PgFold(rows, ids).None?
  {
    var n := |rows|;
    if i == n {
      assert rows[..i] == rows && ids[..i] == ids;
    } else {
      assert rows[..n - 1][..i] == rows[..i] && ids[..n - 1][..i] == ids[..i];
      PgFoldStaysNone(rows[..n - 1], ids[..n - 1], i);
    }
  }

  /** Each entry's average times its quantity is the whole cost of the ticker's lots. */
  ghost predicate KeepsCost(out: map<string, Entry>, lots: seq<Lot>) {
    forall t :: t in out ==> Times(out[t].qty as real, out[t].avg) == TotalCost(LotsOf(lots, t))
  }

  lemma MergeKeepsCost(out: map<string, Entry>, lots: seq<Lot>, l: Lot, owner: string)
    requires Summarises(out, lots) && KeepsCost(out, lots)
    requires l.ticker in out ==> out[l.ticker].qty + l.qty != 0
    ensures KeepsCost(Merged(out, l, owner), lots + [l])
  {
    hide LotsOf;
    hide TotalCost;
    hide EntryFor;
    var out', lots' := Merged(out, l, owner), lots + [l];
    forall t | t in out'
      ensures Times(out'[t].qty as real, out'[t].avg) == TotalCost(LotsOf(lots', t))
    {
      var ls := LotsOf(lots, t);
      LotAppended(lots, l, t);
      if t != l.ticker {
        assert ls + [] == ls;
      } else {
        LotAppended(ls, l, t);
        if t in out {
          DivideBack(Times(out[t].qty as real, out[t].avg) + LotCost(l), (out[t].qty + l.qty) as real);
        } else {
          assert ls == [];
          NoLots(t);
        }
      }
    }
  }

  lemma NoLots(t: string)
    ensures LotsOf([], t) == [] && TotalQty([]) == 0 && TotalCost([]) == 0.0
  {
  }

  /** An open-trade fold that succeeds has lost no cost at all. */
  lemma {:induction false} PgFoldKeepsCost(rows: seq<Lot>, ids: seq<string>)
    requires |ids| == |rows| && PgFold(rows, ids).Some?
    ensures Summarises(PgFold(rows, ids).value, rows) && KeepsCost(PgFold(rows, ids).value, rows)
  {
    var n := |rows|;
    if n > 0 {
      var front, last := rows[..n - 1], rows[n - 1];
      PgFoldKeepsCost(front, ids[..n - 1]);
      var rest := PgFold(front, ids[..n - 1]).value;
      MergeKeepsSummary(rest, front, last, ids[n - 1]);
      MergeKeepsCost(rest, front, last, ids[n - 1]);
      assert front + [last] == rows;
    }
  }

  /** And each entry names its trades, in the order of the rows. */
  lemma {:induction false} PgFoldKeepsOwners(rows: seq<Lot>, ids: seq<string>)
    requires |ids| == |rows| && PgFold(rows, ids).Some?
    ensures Owned(PgFold(rows, ids).value, rows, ids)
  {
    hide Owned;
    hide Merged;
    var n := |rows|;
    if n == 0 {
      NothingOwned();
    } else {
      var front := rows[..n - 1];
      PgFoldKeepsOwners(front, ids[..n - 1]);
      PgFoldKeepsCost(front, ids[..n - 1]);
      MergeKeepsOwners(PgFold(front, ids[..n - 1]).value, front, ids[..n - 1], rows[n - 1], ids[n - 1]);
      assert front + [rows[n - 1]] == rows && ids[..n - 1] + [ids[n - 1]] == ids;
    }
  }

  lemma NothingOwned()
    ensures Owned(map[], [], [])
  {
  }

  /** The open-trade fold fails exactly when some row brings its ticker's total back to zero. */
  lemma {:induction false} PgFoldFailsExactlyOnZero(rows: seq<Lot>, ids: seq<string>)
    requires |ids| == |rows|
    ensures PgFold(rows, ids).None? <==> exists i :: DividesByZeroAt(rows, i)
  {
    var n := |rows|;
    if n > 0 {
      var front := rows[..n - 1];
      PgFoldFailsExactlyOnZero(front, ids[..n - 1]);
      forall i: nat | i < n - 1 ensures DividesByZeroAt(front, i) <==> DividesByZeroAt(rows, i) {
        assert front[..i] == rows[..i] && front[..i + 1] == rows[..i + 1];
      }
      if PgFold(front, ids[..n - 1]).Some? {
        PgFoldKeepsCost(front, ids[..n - 1]);
        ZeroTotalIsDivision(PgFold(front, ids[..n - 1]).value, rows, n - 1);
      } else {
        var i :| DividesByZeroAt(front, i);
        assert DividesByZeroAt(rows, i);
      }
    }
  }

  predicate PositiveRows(rows: seq<Lot>) { forall i :: 0 <= i < |rows| ==> rows[i].qty > 0 }

  lemma {:induction false} PositiveTotal(rows: seq<Lot>, t: string)
    requires PositiveRows(rows)
    ensures TotalQty(LotsOf(rows, t)) >= 0 && (TotalQty(LotsOf(rows, t)) == 0 <==> LotsOf(rows, t) == [])
  {
    if |rows| > 0 {
      PositiveTotal(rows[..|rows| - 1], t);
    }
  }

  lemma PositiveRowDoesNotDivide(rows: seq<Lot>, i: nat)
    requires PositiveRows(rows)
    ensures !DividesByZeroAt(rows, i)
  {
    hide LotsOf;
    hide TotalQty;
    if i < |rows| {
      PositiveTotal(rows[..i + 1], rows[i].ticker);
      LastLot(rows, i);
    }
  }

  lemma LastLot(rows: seq<Lot>, i: nat)
    requires i < |rows|
    ensures LotsOf(rows[..i + 1], rows[i].ticker) != []
  {
    assert rows[..i + 1][..i] == rows[..i];
  }

  /** Rows with positive quantities, which are the only ones the table can hold, never make the fold fail. */
  lemma PositiveRowsFold(rows: seq<Lot>, ids: seq<string>)
    requires |ids| == |rows| && PositiveRows(rows)
    ensures PgFold(rows, ids).Some?
  {
    hide PgFold;
    hide DividesByZeroAt;
    hide PositiveRows;
    PgFoldFailsExactlyOnZero(rows, ids);
    if i: nat :| DividesByZeroAt(rows, i) {
      PositiveRowDoesNotDivide(rows, i);
    }
  }

  lemma ZeroTotalIsDivision(out: map<string, Entry>, rows: seq<Lot>, i: nat)
    requires i < |rows| && Summarises(out, rows[..i])
    ensures DividesByZeroAt(rows, i) <==> rows[i].ticker in out && out[rows[i].ticker].qty + rows[i].qty == 0
  {
    var t := rows[i].ticker;
    assert rows[..i + 1][..i] == rows[..i];
    assert LotsOf(rows[..i + 1], t)[..|LotsOf(rows[..i], t)|] == LotsOf(rows[..i], t);
  }

  /** The Alpaca merge keeps a ticker's full cost exactly when the lots up to the last zero total cost nothing. */
  lemma CostKeptExactlyWhen(out: map<string, Entry>, lots: seq<Lot>, t: string)
    requires Summarises(out, lots) && t in out
    ensures var ls := LotsOf(lots, t);
            Times(out[t].qty as real, out[t].avg) == TotalCost(ls) <==> TotalCost(ls[..LastZero(ls)]) == 0.0
  {
    var ls := LotsOf(lots, t);
    CostSplits(ls, LastZero(ls));
  }

  lemma {:induction false} CostSplits(ls: seq<Lot>, k: nat)
    requires k <= |ls|
    ensures TotalCost(ls) == TotalCost(ls[..k]) + TotalCost(ls[k..])
    ensures TotalQty(ls) == TotalQty(ls[..k]) + TotalQty(ls[k..])
  {
    var n := |ls|;
    if k == n {
      assert ls[..k] == ls && ls[k..] == [];
    } else {
      CostSplits(ls[..n - 1], k);
      assert ls[..n - 1][..k] == ls[..k] && ls[..n - 1][k..] == ls[k..][..n - k - 1];
    }
  }

  /** Long 10 at 100, short 10 at 120, long 10 at 130: the reported average forgets the first two lots. */
  lemma ZeroCrossingForgetsCost()
    ensures var lots := [Lot("AAPL", 10, 100.0), Lot("AAPL", -10, 120.0), Lot("AAPL", 10, 130.0)];
            var out := Merged(Merged(Merged(map[], lots[0], "a"), lots[1], "b"), lots[2], "c");
            out["AAPL"].qty == 10 && out["AAPL"].avg == 130.0 && TotalCost(lots) == 1100.0
  {
    var lots := [Lot("AAPL", 10, 100.0), Lot("AAPL", -10, 120.0), Lot("AAPL", 10, 130.0)];
    assert lots[..2][..1] == [lots[0]] && lots[..2] == [lots[0], lots[1]] && lots[..1][..0] == [];
    assert TotalCost(lots[..1]) == 1000.0;
    assert TotalCost(lots[..2]) == -200.0;
  }

  // ----- lots of one sign: only the totals matter

  ghost predicate OneSign(ls: seq<Lot>) {
    (forall i :: 0 <= i < |ls| ==> ls[i].qty > 0) || (forall i :: 0 <= i < |ls| ==> ls[i].qty < 0)
  }

  lemma {:induction false} OneSignTotal(ls: seq<Lot>)
    requires OneSign(ls)
    ensures TotalQty(ls) == 0 <==> ls == []
    ensures |ls| > 0 ==> (TotalQty(ls) > 0 <==> ls[0].qty > 0)
    ensures LastZero(ls) == 0
  {
    var n := |ls|;
    if n > 1 {
      OneSignTotal(ls[..n - 1]);
    } else if n == 1 {
      assert TotalQty(ls[..0]) == 0;
    }
  }

  /** Lots of one sign: the entry carries the total quantity and the total cost. */
  lemma OneSignEntry(out: map<string, Entry>, lots: seq<Lot>, t: string)
    requires Summarises(out, lots) && OneSign(LotsOf(lots, t))
    ensures t in out <==> TotalQty(LotsOf(lots, t)) != 0
    ensures t in out ==> out[t].qty == TotalQty(LotsOf(lots, t))
                         && Times(out[t].qty as real, out[t].avg) == TotalCost(LotsOf(lots, t))
  {
    var ls := LotsOf(lots, t);
    OneSignTotal(ls);
    assert ls[0..] == ls;
  }

  /** Reordering rows or accounts changes no total. */
  lemma {:induction false} TotalsIgnoreOrder(lots: seq<Lot>, lots': seq<Lot>, t: string)
    requires multiset(lots) == multiset(lots')
    ensures TotalQty(LotsOf(lots, t)) == TotalQty(LotsOf(lots', t))
    ensures TotalCost(LotsOf(lots, t)) == TotalCost(LotsOf(lots', t))
    decreases |lots|
  {
    var n := |lots|;
    assert |multiset(lots)| == |multiset(lots')|;
    if n > 0 {
      var front, last := lots[..n - 1], lots[n - 1];
      assert last in multiset(lots');
      var i :| 0 <= i < n && lots'[i] == last;
      var x, y := lots'[..i], lots'[i + 1..];
      assert lots == front + [last] && lots' == x + [last] + y;
      SameWithoutOne(front, x, y, last);
      TotalsIgnoreOrder(front, x + y, t);
      TotalsAppend(x, y, t);
      TotalsAppend(x + [last], y, t);
      TotalsAppend(x, [last], t);
      TotalsAppend(front, [last], t);
    }
  }

  lemma SameWithoutOne(a: seq<Lot>, x: seq<Lot>, y: seq<Lot>, l: Lot)
    requires multiset(a + [l]) == multiset(x + [l] + y)
    ensures multiset(a) == multiset(x + y)
  {
    assert multiset(a) == multiset(a + [l]) - multiset{l};
    assert multiset(x + y) == multiset(x + [l] + y) - multiset{l} by {
      assert multiset(x + [l] + y) == multiset(x) + multiset{l} + multiset(y);
      assert multiset(x + y) == multiset(x) + multiset(y);
    }
  }

  lemma TotalsAppend(a: seq<Lot>, b: seq<Lot>, t: string)
    ensures TotalQty(LotsOf(a + b, t)) == TotalQty(LotsOf(a, t)) + TotalQty(LotsOf(b, t))
    ensures TotalCost(LotsOf(a + b, t)) == TotalCost(LotsOf(a, t)) + TotalCost(LotsOf(b, t))
  {
    LotsAppend(a, b, t);
    var x, y := LotsOf(a, t), LotsOf(b, t);
    CostSplits(x + y, |x|);
    assert (x + y)[..|x|] == x && (x + y)[|x|..] == y;
  }

  lemma {:induction false} LotsAppend(a: seq<Lot>, b: seq<Lot>, t: string)
    ensures LotsOf(a + b, t) == LotsOf(a, t) + LotsOf(b, t)
  {
    var n := |b|;
    if n == 0 {
      assert a + b == a;
    } else {
      assert (a + b)[..|a + b| - 1] == a + b[..n - 1];
      LotsAppend(a, b[..n - 1], t);
    }
  }
}
