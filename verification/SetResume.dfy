/** Crash and resume when every card's scrape delivers a fixed list: the final table is the uninterrupted run's,
    less exactly the ids whose insert was lost. */
module SetResume {
  import opened Options
  import opened CardScrape
  import opened SetScrape

  function KeySet(keys: seq<string>, n: nat): set<string>
    requires n <= |keys|
  {
    set k | k in keys[..n]
  }

  /** The rows an uninterrupted run gets to in the first n cards: a repeated key is scraped once. */
  function Flat(keys: seq<string>, rows: seq<seq<Row>>, n: nat): seq<Row>
    requires n <= |keys| == |rows|
  {
    if n == 0 then []
    else Flat(keys, rows, n - 1) + if keys[n - 1] in keys[..n - 1] then [] else rows[n - 1]
  }

  /** The table of one uninterrupted run in which no insert fails. */
  function Ideal(keys: seq<string>, rows: seq<seq<Row>>, rejected: set<Row>, t0: Table): Table
    requires |keys| == |rows|
  {
    Deliver(t0, {}, Flat(keys, rows, |keys|), rejected, {})
  }

  /** What that table is: the old rows, and for every new id the first row of the run that carries it;
      an id whose first row is rejected is not there at all, even if a later row carries it. */
  lemma FirstRowWins(keys: seq<string>, rows: seq<seq<Row>>, rejected: set<Row>, t0: Table, id: string)
    requires |keys| == |rows|
    ensures var ideal, flat := Ideal(keys, rows, rejected, t0), Flat(keys, rows, |keys|);
            var p := FirstOf(flat, id);
            (id in ideal <==> id in t0 || (id != "" && p < |flat| && flat[p] !in rejected))
            && (id in t0 ==> ideal[id] == t0[id])
            && (id !in t0 && id in ideal ==> ideal[id] == flat[p])
  {
    DeliverExactly(t0, {}, Flat(keys, rows, |keys|), rejected, {}, id);
  }

  lemma CardCovered(keys: seq<string>, rows: seq<seq<Row>>, i: nat)
    requires i < |keys| == |rows|
    ensures KeySet(keys, i + 1) == KeySet(keys, i) + {keys[i]}
    ensures keys[i] in KeySet(keys, i) ==> Flat(keys, rows, i + 1) == Flat(keys, rows, i) && KeySet(keys, i + 1) == KeySet(keys, i)
    ensures keys[i] !in KeySet(keys, i) ==> Flat(keys, rows, i + 1) == Flat(keys, rows, i) + rows[i]
  {
    assert keys[..i + 1] == keys[..i] + [keys[i]];
  }

  function Max(i: nat, m: nat): nat { if i < m then m else i }

  /** With the first m cards on record, the unrecorded rows are the rest of the uninterrupted run's. */
  lemma {:induction false} UnrecordedIsRest(keys: seq<string>, rows: seq<seq<Row>>, m: nat, i: nat)
    requires i <= |keys| == |rows| && m <= |keys|
    ensures Flat(keys, rows, Max(i, m)) + Unrecorded(keys, rows, KeySet(keys, Max(i, m)), i) == Flat(keys, rows, |keys|)
    decreases |keys| - i
  {
    if i == |keys| {
      assert Flat(keys, rows, |keys|) + [] == Flat(keys, rows, |keys|);
    } else {
      UnrecordedIsRest(keys, rows, m, i + 1);
      if i < m {
        assert keys[i] in keys[..m];
      } else {
        CardCovered(keys, rows, i);
        if keys[i] !in KeySet(keys, i) {
          var rest := Unrecorded(keys, rows, KeySet(keys, i + 1), i + 1);
          assert Flat(keys, rows, i) + (rows[i] + rest) == (Flat(keys, rows, i) + rows[i]) + rest;
        }
      }
    }
  }

  // ----- the invariant of the store

  /** Part of the uninterrupted run's table, row for row, and at least the old table. */
  ghost predicate Within(t0: Table, t: Table, ideal: Table) {
    t0.Keys <= t.Keys && forall id :: id in t ==> id in ideal && ideal[id] == t[id]
  }

  /** The cards are exactly the first m keys; every id of their rows has been emitted, and every id known was emitted by
      them or is in the table. */
  ghost predicate Covered(keys: seq<string>, rows: seq<seq<Row>>, t: Table, cards: set<string>, ids: set<string>, m: nat) {
    m <= |keys| == |rows| && cards == KeySet(keys, m)
    && Ids(Flat(keys, rows, m)) <= ids <= t.Keys + Ids(Flat(keys, rows, m))
  }

  ghost predicate RecordOk(keys: seq<string>, rows: seq<seq<Row>>, s: Store) {
    s.checkpoint.Some? ==>
      exists m: nat :: Covered(keys, rows, s.table, s.checkpoint.value.cardsDone, s.checkpoint.value.processedIds, m)
  }

  ghost predicate StoreOk(keys: seq<string>, rows: seq<seq<Row>>, rejected: set<Row>, t0: Table, s: Store)
    requires |keys| == |rows|
  {
    Within(t0, s.table, Ideal(keys, rows, rejected, t0)) && RecordOk(keys, rows, s)
  }

  /** No known id that belongs in the table is missing from it. */
  ghost predicate Lossless(t: Table, ids: set<string>, ideal: Table) {
    forall id :: id in ids && id in ideal ==> id in t
  }

  lemma {:induction false} FirstOfAppend(x: seq<Row>, y: seq<Row>, id: string)
    ensures FirstOf(x + y, id) == if FirstOf(x, id) < |x| then FirstOf(x, id) else |x| + FirstOf(y, id)
  {
    if x == [] {
      assert x + y == y;
    } else {
      assert (x + y)[0] == x[0] && (x + y)[1..] == x[1..] + y;
      FirstOfAppend(x[1..], y, id);
    }
  }

  lemma SplitAt(flat: seq<Row>, x: seq<Row>, y: seq<Row>, id: string)
    requires x + y <= flat && id !in Ids(x) && id != "" && FirstOf(y, id) < |y|
    ensures FirstOf(flat, id) < |flat| && flat[FirstOf(flat, id)] == y[FirstOf(y, id)]
  {
    hide FirstOf;
    hide Ids;
    FirstAfter(x, y, id);
    FirstOfPrefix(x + y, flat, id);
  }

  lemma FirstAfter(x: seq<Row>, y: seq<Row>, id: string)
    requires id !in Ids(x) && id != "" && FirstOf(y, id) < |y|
    ensures FirstOf(x + y, id) < |x + y| && (x + y)[FirstOf(x + y, id)] == y[FirstOf(y, id)]
  {
    hide FirstOf;
    hide Ids;
    IdsAreFirsts(x, id);
    FirstOfAppend(x, y, id);
  }

  lemma FirstOfPrefix(front: seq<Row>, flat: seq<Row>, id: string)
    requires front <= flat && FirstOf(front, id) < |front|
    ensures FirstOf(flat, id) == FirstOf(front, id) && flat[FirstOf(flat, id)] == front[FirstOf(front, id)]
  {
    hide FirstOf;
    var rest := flat[|front|..];
    FirstOfAppend(front, rest, id);
    Rejoined(flat, front);
  }

  lemma Rejoined(flat: seq<Row>, front: seq<Row>)
    requires front <= flat
    ensures front + flat[|front|..] == flat
  {
  }

  /** Delivering the next stretch of the uninterrupted output keeps the table within the ideal one. */
  lemma DeliverWithin(keys: seq<string>, rows: seq<seq<Row>>, rejected: set<Row>, t0: Table, t: Table, seen: set<string>, m: nat, y: seq<Row>, failing: set<string>)
    requires m <= |keys| == |rows| && Within(t0, t, Ideal(keys, rows, rejected, t0)) && Ids(Flat(keys, rows, m)) <= seen
    requires Flat(keys, rows, m) + y <= Flat(keys, rows, |keys|)
    ensures var t' := Deliver(t, seen, y, rejected, failing);
            Within(t0, t', Ideal(keys, rows, rejected, t0)) && t.Keys <= t'.Keys
  {
    var flat, x, t' := Flat(keys, rows, |keys|), Flat(keys, rows, m), Deliver(t, seen, y, rejected, failing);
    var ideal := Ideal(keys, rows, rejected, t0);
    forall id
      ensures id in t' ==> id in ideal && ideal[id] == t'[id]
      ensures id in t ==> id in t'
    {
      DeliverExactly(t, seen, y, rejected, failing, id);
      if id in t' && id !in t {
        SplitAt(flat, x, y, id);
        FirstRowWins(keys, rows, rejected, t0, id);
      }
    }
  }

  /** With no insert failing, nothing that belongs in the table is missed. */
  lemma DeliverLossless(keys: seq<string>, rows: seq<seq<Row>>, rejected: set<Row>, t0: Table, t: Table, seen: set<string>, m: nat, y: seq<Row>)
    requires m <= |keys| == |rows| && t0.Keys <= t.Keys && Ids(Flat(keys, rows, m)) <= seen
    requires Flat(keys, rows, m) + y <= Flat(keys, rows, |keys|)
    requires Lossless(t, seen, Ideal(keys, rows, rejected, t0))
    ensures Lossless(Deliver(t, seen, y, rejected, {}), seen + Ids(y), Ideal(keys, rows, rejected, t0))
  {
    var flat, x, t' := Flat(keys, rows, |keys|), Flat(keys, rows, m), Deliver(t, seen, y, rejected, {});
    var ideal := Ideal(keys, rows, rejected, t0);
    forall id | id in seen + Ids(y) && id in ideal ensures id in t' {
      DeliverExactly(t, seen, y, rejected, {}, id);
      IdsAreFirsts(y, id);
      if id !in seen && id !in t {
        SplitAt(flat, x, y, id);
        FirstRowWins(keys, rows, rejected, t0, id);
      }
    }
  }

  lemma CoveredGrows(keys: seq<string>, rows: seq<seq<Row>>, s: Store, t: Table)
    requires RecordOk(keys, rows, s) && s.table.Keys <= t.Keys
    ensures RecordOk(keys, rows, s.(table := t))
  {
    if s.checkpoint.Some? {
      var m: nat :| Covered(keys, rows, s.table, s.checkpoint.value.cardsDone, s.checkpoint.value.processedIds, m);
      assert Covered(keys, rows, t, s.checkpoint.value.cardsDone, s.checkpoint.value.processedIds, m);
    }
  }

  lemma SavingKeeps(keys: seq<string>, rows: seq<seq<Row>>, s: Store, mem: Memory, a: Attempt, m: nat)
    requires RecordOk(keys, rows, s) && Covered(keys, rows, s.table, mem.done, mem.seen, m)
    ensures RecordOk(keys, rows, Saving(s, mem, a)) && Saving(s, mem, a).table == s.table
  {
  }

  /** The invariant of a running process about to visit card i: its first m >= i cards are covered. */
  ghost predicate ProcessOk(keys: seq<string>, rows: seq<seq<Row>>, rejected: set<Row>, t0: Table, s: Store, mem: Memory, i: nat, m: nat)
    requires |keys| == |rows|
  {
    StoreOk(keys, rows, rejected, t0, s) && Covered(keys, rows, s.table, mem.done, mem.seen, m) && i <= m
  }

  /** Where an unvisited card's rows stand in the uninterrupted output. */
  lemma CardStretch(keys: seq<string>, rows: seq<seq<Row>>, i: nat, n: nat)
    requires i < |keys| == |rows| && keys[i] !in KeySet(keys, i) && n <= |rows[i]|
    ensures Flat(keys, rows, i) + rows[i][..n] <= Flat(keys, rows, |keys|)
  {
    hide Flat;
    CardCovered(keys, rows, i);
    FlatPrefix(keys, rows, i + 1, |keys|);
    PrefixTaken(Flat(keys, rows, i), rows[i], n, Flat(keys, rows, |keys|));
  }

  lemma PrefixTaken(x: seq<Row>, y: seq<Row>, n: nat, whole: seq<Row>)
    requires n <= |y| && x + y <= whole
    ensures x + y[..n] <= whole
  {
    assert x + y == (x + y[..n]) + y[n..];
  }

  lemma {:induction false} FlatPrefix(keys: seq<string>, rows: seq<seq<Row>>, m: nat, n: nat)
    requires m <= n <= |keys| == |rows|
    ensures Flat(keys, rows, m) <= Flat(keys, rows, n)
  {
    if m < n {
      FlatPrefix(keys, rows, m, n - 1);
    }
  }

  /** Scraping card i, the first one not covered, emits all of its rows or dies on the way. */
  lemma CardKeeps(keys: seq<string>, rows: seq<seq<Row>>, rejected: set<Row>, t0: Table, a: Attempt, s: Store, mem: Memory, i: nat)
    requires i < |keys| == |rows| && a.delivered == rows && a.rejected == rejected
    requires ProcessOk(keys, rows, rejected, t0, s, mem, i, i) && keys[i] !in mem.done
    ensures var e := Emit(s.table, mem.seen, rows[i], mem.life, a);
            StoreOk(keys, rows, rejected, t0, s.(table := e.table))
            && (!e.crashed && e.life > 0 ==>
                  Covered(keys, rows, e.table, mem.done + {keys[i]}, e.seen, i + 1))
  {
    hide Ideal;
    hide Emit;
    hide Flat;
    hide Deliver;
    var n := Min(mem.life, |rows[i]|);
    var e := Emit(s.table, mem.seen, rows[i], mem.life, a);
    EmitDelivers(s.table, mem.seen, rows[i], mem.life, a);
    CardStretch(keys, rows, i, n);
    DeliverWithin(keys, rows, rejected, t0, s.table, mem.seen, i, rows[i][..n], a.failing);
    CoveredGrows(keys, rows, s, e.table);
    CardCovered(keys, rows, i);
    if !e.crashed {
      assert rows[i][..n] == rows[i];
      IdsAppend(Flat(keys, rows, i), rows[i]);
    }
  }

  /** The whole card loop keeps the invariant. */
  lemma {:induction false} ContinueKeeps(keys: seq<string>, rows: seq<seq<Row>>, rejected: set<Row>, t0: Table, a: Attempt, s: Store, mem: Memory, i: nat, m: nat)
    requires i <= |keys| == |rows| && a.delivered == rows && a.rejected == rejected
    requires ProcessOk(keys, rows, rejected, t0, s, mem, i, m)
    ensures StoreOk(keys, rows, rejected, t0, Continue(keys, a, s, mem, i).0)
    decreases |keys| - i
  {
    hide Ideal;
    hide Within;
    hide Emit;
    if i == |keys| || (keys[i] !in mem.done && mem.stop) {
      SavingKeeps(keys, rows, s, mem, a, m);
    } else if keys[i] in mem.done {
      if i == m {
        CardCovered(keys, rows, i);
      }
      ContinueKeeps(keys, rows, rejected, t0, a, s, mem, i + 1, if i < m then m else i + 1);
    } else {
      NotCovered(keys, i, m);
      CardKeeps(keys, rows, rejected, t0, a, s, mem, i);
      var e := Emit(s.table, mem.seen, rows[i], mem.life, a);
      if !e.crashed && e.life > 0 {
        var m1 := Memory(mem.done + {keys[i]}, e.seen, mem.thisRun + 1, i in a.stops, mem.saveNo, e.life - 1);
        SavingKeeps(keys, rows, s.(table := e.table), m1, a, i + 1);
        var (s', mem') := CardDone(keys, a, s.(table := e.table), mem, i, e);
        ContinueKeeps(keys, rows, rejected, t0, a, s', mem', i + 1, i + 1);
      }
    }
  }

  lemma NotCovered(keys: seq<string>, i: nat, m: nat)
    requires i <= m <= |keys| && i < |keys| && keys[i] !in KeySet(keys, m)
    ensures i == m
  {
    if i < m {
      InPrefix(keys, i, m);
    }
  }

  lemma InPrefix(keys: seq<string>, i: nat, m: nat)
    requires i < m <= |keys|
    ensures keys[i] in KeySet(keys, m)
  {
    assert keys[..m][i] == keys[i];
  }

  lemma LoadedCovered(keys: seq<string>, rows: seq<seq<Row>>, a: Attempt, s: Store) returns (m: nat)
    requires |keys| == |rows| && RecordOk(keys, rows, s)
    ensures Covered(keys, rows, s.table, Loaded(s, a).done, Loaded(s, a).seen, m)
    ensures RecordedCards(s) == KeySet(keys, m) && Ids(Flat(keys, rows, m)) <= Loaded(s, a).seen
    ensures Ids(Flat(keys, rows, m)) <= RecordedIds(s)
  {
    m := 0;
    if s.checkpoint.Some? {
      m :| Covered(keys, rows, s.table, s.checkpoint.value.cardsDone, s.checkpoint.value.processedIds, m);
    }
  }

  /** One process run, crashed anywhere, stopped or finished, with any inserts failing, keeps the store consistent:
      every row in the table is the uninterrupted run's, and every recorded card and id has been emitted. */
  lemma AttemptKeeps(keys: seq<string>, rows: seq<seq<Row>>, rejected: set<Row>, t0: Table, a: Attempt, s: Store)
    requires |keys| == |rows| && a.delivered == rows && a.rejected == rejected && StoreOk(keys, rows, rejected, t0, s)
    ensures StoreOk(keys, rows, rejected, t0, ScrapeSet(keys, a, s).0)
  {
    var m := LoadedCovered(keys, rows, a, s);
    ContinueKeeps(keys, rows, rejected, t0, a, s, Loaded(s, a), 0, m);
  }

  lemma {:induction false} AttemptsKeep(keys: seq<string>, rows: seq<seq<Row>>, rejected: set<Row>, t0: Table, attempts: seq<Attempt>)
    requires |keys| == |rows| && forall i :: 0 <= i < |attempts| ==> attempts[i].delivered == rows && attempts[i].rejected == rejected
    ensures StoreOk(keys, rows, rejected, t0, AfterAttempts(keys, attempts, Store(t0, None)))
  {
    var n := |attempts|;
    if n == 0 {
      forall id | id in t0 ensures id in Ideal(keys, rows, rejected, t0) && Ideal(keys, rows, rejected, t0)[id] == t0[id] {
        FirstRowWins(keys, rows, rejected, t0, id);
      }
    } else {
      AttemptsKeep(keys, rows, rejected, t0, attempts[..n - 1]);
      AttemptKeeps(keys, rows, rejected, t0, attempts[n - 1], AfterAttempts(keys, attempts[..n - 1], Store(t0, None)));
    }
  }

  /** After a finishing run from any such store, an id that belongs in the table is missing exactly when it was missing
      before and either was already on record, or its insert failed in this run. */
  lemma LostExactlyWhen(keys: seq<string>, rows: seq<seq<Row>>, rejected: set<Row>, t0: Table, a: Attempt, s: Store, id: string)
    requires |keys| == |rows| && a.delivered == rows && a.rejected == rejected && StoreOk(keys, rows, rejected, t0, s)
    requires ScrapeSet(keys, a, s).1 == Finished && id in Ideal(keys, rows, rejected, t0)
    ensures id !in ScrapeSet(keys, a, s).0.table <==> id !in s.table && (id in RecordedIds(s) || id in a.failing)
  {
    HoldsExactlyWhen(keys, a, s, id);
    var m := LoadedCovered(keys, rows, a, s);
    UnrecordedIsRest(keys, rows, m, 0);
    FirstRowWins(keys, rows, rejected, t0, id);
    var x, y := Flat(keys, rows, m), Unrecorded(keys, rows, RecordedCards(s), 0);
    if id !in s.table && id !in RecordedIds(s) {
      IdsAreFirsts(x, id);
      FirstOfAppend(x, y, id);
    }
  }

  // ----- no insert fails

  ghost predicate StoreLossless(keys: seq<string>, rows: seq<seq<Row>>, rejected: set<Row>, t0: Table, s: Store)
    requires |keys| == |rows|
  {
    Lossless(s.table, RecordedIds(s), Ideal(keys, rows, rejected, t0))
  }

  lemma SavingLossless(keys: seq<string>, rows: seq<seq<Row>>, rejected: set<Row>, t0: Table, s: Store, mem: Memory, a: Attempt)
    requires |keys| == |rows| && StoreLossless(keys, rows, rejected, t0, s)
    requires Lossless(s.table, mem.seen, Ideal(keys, rows, rejected, t0))
    ensures StoreLossless(keys, rows, rejected, t0, Saving(s, mem, a))
  {
  }

  lemma LosslessGrows(t: Table, t': Table, ids: set<string>, ideal: Table)
    requires Lossless(t, ids, ideal) && t.Keys <= t'.Keys
    ensures Lossless(t', ids, ideal)
  {
  }

  lemma {:induction false} ContinueLossless(keys: seq<string>, rows: seq<seq<Row>>, rejected: set<Row>, t0: Table, a: Attempt, s: Store, mem: Memory, i: nat, m: nat)
    requires i <= |keys| == |rows| && a.delivered == rows && a.rejected == rejected && a.failing == {}
    requires ProcessOk(keys, rows, rejected, t0, s, mem, i, m) && StoreLossless(keys, rows, rejected, t0, s)
    requires Lossless(s.table, mem.seen, Ideal(keys, rows, rejected, t0))
    ensures StoreLossless(keys, rows, rejected, t0, Continue(keys, a, s, mem, i).0)
    decreases |keys| - i
  {
    hide Ideal;
    hide Emit;
    hide Flat;
    hide Within;
    hide Lossless;
    if i == |keys| || (keys[i] !in mem.done && mem.stop) {
      SavingLossless(keys, rows, rejected, t0, s, mem, a);
    } else if keys[i] in mem.done {
      if i == m {
        CardCovered(keys, rows, i);
      }
      ContinueLossless(keys, rows, rejected, t0, a, s, mem, i + 1, if i < m then m else i + 1);
    } else {
      NotCovered(keys, i, m);
      CardKeeps(keys, rows, rejected, t0, a, s, mem, i);
      CardLossless(keys, rows, rejected, t0, a, s, mem, i);
      LosslessGrows(s.table, Emit(s.table, mem.seen, rows[i], mem.life, a).table, RecordedIds(s), Ideal(keys, rows, rejected, t0));
      var e := Emit(s.table, mem.seen, rows[i], mem.life, a);
      if !e.crashed && e.life > 0 {
        var m1 := Memory(mem.done + {keys[i]}, e.seen, mem.thisRun + 1, i in a.stops, mem.saveNo, e.life - 1);
        SavingKeeps(keys, rows, s.(table := e.table), m1, a, i + 1);
        SavingLossless(keys, rows, rejected, t0, s.(table := e.table), m1, a);
        var (s', mem') := CardDone(keys, a, s.(table := e.table), mem, i, e);
        ContinueLossless(keys, rows, rejected, t0, a, s', mem', i + 1, i + 1);
      }
    }
  }

  lemma CardLossless(keys: seq<string>, rows: seq<seq<Row>>, rejected: set<Row>, t0: Table, a: Attempt, s: Store, mem: Memory, i: nat)
    requires i < |keys| == |rows| && a.delivered == rows && a.rejected == rejected && a.failing == {}
    requires ProcessOk(keys, rows, rejected, t0, s, mem, i, i) && keys[i] !in mem.done
    requires Lossless(s.table, mem.seen, Ideal(keys, rows, rejected, t0))
    ensures var e := Emit(s.table, mem.seen, rows[i], mem.life, a);
            s.table.Keys <= e.table.Keys && Lossless(e.table, e.seen, Ideal(keys, rows, rejected, t0))
  {
    hide Ideal;
    hide Emit;
    hide Flat;
    hide Deliver;
    var n := Min(mem.life, |rows[i]|);
    EmitDelivers(s.table, mem.seen, rows[i], mem.life, a);
    CardStretch(keys, rows, i, n);
    DeliverWithin(keys, rows, rejected, t0, s.table, mem.seen, i, rows[i][..n], {});
    DeliverLossless(keys, rows, rejected, t0, s.table, mem.seen, i, rows[i][..n]);
  }

  lemma {:induction false} AttemptsLossless(keys: seq<string>, rows: seq<seq<Row>>, rejected: set<Row>, t0: Table, attempts: seq<Attempt>)
    requires |keys| == |rows|
    requires forall i :: 0 <= i < |attempts| ==>
                           attempts[i].delivered == rows && attempts[i].rejected == rejected && attempts[i].failing == {}
    ensures StoreLossless(keys, rows, rejected, t0, AfterAttempts(keys, attempts, Store(t0, None)))
  {
    var n := |attempts|;
    if n > 0 {
      var before, a := AfterAttempts(keys, attempts[..n - 1], Store(t0, None)), attempts[n - 1];
      AttemptsLossless(keys, rows, rejected, t0, attempts[..n - 1]);
      AttemptsKeep(keys, rows, rejected, t0, attempts[..n - 1]);
      var m := LoadedCovered(keys, rows, a, before);
      ContinueLossless(keys, rows, rejected, t0, a, before, Loaded(before, a), 0, m);
    }
  }

  /** Crash-resume equivalence: every card's scrape delivers a fixed list, the grade catalogue is fixed, and no insert raises.
      Then any sequence of runs, crashed anywhere (inside a card's rows, between cards, while writing a checkpoint) or
      stopped, followed by one that finishes, leaves exactly the table, rows included, of one uninterrupted run. */
  lemma ResumeEqualsUninterrupted(keys: seq<string>, rows: seq<seq<Row>>, rejected: set<Row>, t0: Table, attempts: seq<Attempt>, last: Attempt)
    requires |keys| == |rows| && last.delivered == rows && last.rejected == rejected && last.failing == {}
    requires forall i :: 0 <= i < |attempts| ==>
                           attempts[i].delivered == rows && attempts[i].rejected == rejected && attempts[i].failing == {}
    requires ScrapeSet(keys, last, AfterAttempts(keys, attempts, Store(t0, None))).1 == Finished
    ensures ScrapeSet(keys, last, AfterAttempts(keys, attempts, Store(t0, None))).0.table == Ideal(keys, rows, rejected, t0)
  {
    hide ScrapeSet;
    hide Ideal;
    var s := AfterAttempts(keys, attempts, Store(t0, None));
    AttemptsKeep(keys, rows, rejected, t0, attempts);
    AttemptsLossless(keys, rows, rejected, t0, attempts);
    AttemptKeeps(keys, rows, rejected, t0, last, s);
    var t, ideal := ScrapeSet(keys, last, s).0.table, Ideal(keys, rows, rejected, t0);
    forall id | id in ideal ensures id in t {
      LostExactlyWhen(keys, rows, rejected, t0, last, s, id);
    }
    assert t.Keys == ideal.Keys;
  }

  // ----- witnesses

  /** One insert that raises: the run finishes, the row is on record and not in the table, and the next run,
      with nothing failing, does not send it again. */
  lemma FailedInsertIsNotRetried()
    ensures var keys, x := ["TRK004"], Row("1", "x");
            var first := Attempt([[x]], {}, [], [], {}, {}, {"1"}, 100);
            var second := Attempt([[x]], {}, [], [], {}, {}, {}, 100);
            var (s, ending) := ScrapeSet(keys, first, Store(map[], None));
            ending == Finished && s.table == map[] && RecordedIds(s) == {"1"}
            && ScrapeSet(keys, second, s).0.table == map[]
  {
    var keys, x, start := ["TRK004"], Row("1", "x"), Store(map[], None);
    var first, second := Attempt([[x]], {}, [], [], {}, {}, {"1"}, 100), Attempt([[x]], {}, [], [], {}, {}, {}, 100);
    assert Emit(map[], {}, [x], 100, first) == Emission(map[], {"1"}, 99, false) by {
      assert [x][1..] == [] && {} + {"1"} == {"1"};
    }
    assert {} + {"TRK004"} == {"TRK004"};
    assert Loaded(start, first).seen == {};
    var s := ScrapeSet(keys, first, start).0;
    assert s.checkpoint == Some(Checkpoint({"TRK004"}, {"1"}));
    FullRecordIsFinal(keys, [second], s);
    assert [second][..0] == [];
    assert AfterAttempts(keys, [second], s) == ScrapeSet(keys, second, AfterAttempts(keys, [], s)).0;
  }

  /** A card cut short by the third block is recorded as done all the same, and a later complete visit
      would have delivered the row it lost. */
  lemma CutShortCardLosesRows()
    ensures var keys := ["TRK004"];
            var x, y := Row("1", "x"), Row("2", "y");
            var cut := Attempt([[x]], {0}, [], [], {}, {}, {}, 100);
            var full := Attempt([[x, y]], {}, [], [], {}, {}, {}, 100);
            var (s, ending) := ScrapeSet(keys, cut, Store(map[], None));
            ending == Finished && s.table == map["1" := x] && ScrapeSet(keys, full, s).0.table == map["1" := x]
  {
    var keys, x, y, start := ["TRK004"], Row("1", "x"), Row("2", "y"), Store(map[], None);
    var cut, full := Attempt([[x]], {0}, [], [], {}, {}, {}, 100), Attempt([[x, y]], {}, [], [], {}, {}, {}, 100);
    assert Emit(map[], {}, [x], 100, cut) == Emission(map["1" := x], {"1"}, 99, false) by {
      assert [x][1..] == [] && {} + {"1"} == {"1"};
    }
    assert {} + {"TRK004"} == {"TRK004"};
    assert Loaded(start, cut).seen == {};
    var s := ScrapeSet(keys, cut, start).0;
    assert s.checkpoint == Some(Checkpoint({"TRK004"}, {"1"}));
    FullRecordIsFinal(keys, [full], s);
    assert [full][..0] == [];
    assert AfterAttempts(keys, [full], s) == ScrapeSet(keys, full, AfterAttempts(keys, [], s)).0;
  }
}
