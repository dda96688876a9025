/** The checkpointed set loop of `scrapeSet`, crashes at any point included, over an insert-if-absent table. */
module SetScrape {
  import opened Options
  import opened CardScrape

  type Table = map<string, Row>

  /** The two parts of the checkpoint file that `scrapeSet` reads back. */
  datatype Checkpoint = Checkpoint(cardsDone: set<string>, processedIds: set<string>)

  /** What survives a crash: the transactions table and the checkpoint file (None: absent or not parseable). */
  datatype Store = Store(table: Table, checkpoint: Option<Checkpoint>)

  /** A checkpoint write succeeds, fails leaving the old file, or is torn leaving an unreadable one. */
  datatype SaveOutcome = Saved | SaveFailed | Torn

  datatype Ending = Crashed | Stopped | Finished

  /** One process run: the rows each card's scrape delivers, the cards whose scrape raises the stop flag, the checkpoint
      interval in force at each card (the configuration is hot-reloaded), how each save goes, the ids the driver loads
      into the seen-set, the rows whose grade the catalogue it loaded does not know, the ids whose insert raises
      (a process sends an id once at most), and how many loop steps the process lives. */
  datatype Attempt = Attempt(delivered: seq<seq<Row>>, stops: set<nat>, every: seq<nat>, saves: seq<SaveOutcome>,
                             preload: set<string>, rejected: set<Row>, failing: set<string>, life: nat)

  /** The process memory of `scrapeSet`. */
  datatype Memory = Memory(done: set<string>, seen: set<string>, thisRun: nat, stop: bool, saveNo: nat, life: nat)

  /** The driver's `onResult` for a row with an id: a row of unknown grade goes to the reject log, an insert that raises is
      logged and swallowed, and an id already in the table is left alone (`ON CONFLICT (item_id) DO NOTHING`). */
  function Stored(t: Table, r: Row, rejected: set<Row>, failing: set<string>): Table {
    if r in rejected || r.itemId in failing || r.itemId in t then t else t[r.itemId := r]
  }

  function EveryAt(a: Attempt, i: nat): (n: nat)
    ensures n > 0
  {
    if i < |a.every| && a.every[i] > 0 then a.every[i] else 10
  }

  function SaveAt(a: Attempt, k: nat): SaveOutcome { if k < |a.saves| then a.saves[k] else Saved }

  function Saving(s: Store, m: Memory, a: Attempt): Store {
    match SaveAt(a, m.saveNo)
    case Saved => s.(checkpoint := Some(Checkpoint(m.done, m.seen)))
    case SaveFailed => s
    case Torn => s.(checkpoint := None)
  }

  datatype Emission = Emission(table: Table, seen: set<string>, life: nat, crashed: bool)

  /** The dedup-and-emit loop over one card's rows: an id is in the seen-set before its row is sent. */
  function Emit(t: Table, seen: set<string>, rows: seq<Row>, life: nat, a: Attempt): Emission
    decreases |rows|
  {
    if rows == [] then Emission(t, seen, life, false)
    else if life == 0 then Emission(t, seen, 0, true)
    else
      var r := rows[0];
      if r.itemId == "" || r.itemId in seen then Emit(t, seen, rows[1..], life - 1, a)
      else Emit(Stored(t, r, a.rejected, a.failing), seen + {r.itemId}, rows[1..], life - 1, a)
  }

  /** The card loop from card i on. */
  function Continue(keys: seq<string>, a: Attempt, s: Store, m: Memory, i: nat): (Store, Ending)
    requires i <= |keys| == |a.delivered|
    decreases |keys| - i
  {
    if i == |keys| then (Saving(s, m, a), Finished)
    else if keys[i] in m.done then Continue(keys, a, s, m, i + 1)
    else if m.stop then (Saving(s, m, a), Stopped)
    else
      var e := Emit(s.table, m.seen, a.delivered[i], m.life, a);
      if e.crashed || e.life == 0 then (s.(table := e.table), Crashed)
      else
        var (s', m') := CardDone(keys, a, s.(table := e.table), m, i, e);
        Continue(keys, a, s', m', i + 1)
  }

  /** The bookkeeping after card i's rows are out: record the card, and checkpoint every so many cards. */
  function CardDone(keys: seq<string>, a: Attempt, s: Store, m: Memory, i: nat, e: Emission): (Store, Memory)
    requires i < |keys| && e.life > 0
  {
    var m1 := Memory(m.done + {keys[i]}, e.seen, m.thisRun + 1, i in a.stops, m.saveNo, e.life - 1);
    if m1.thisRun % EveryAt(a, i) == 0 then (Saving(s, m1, a), m1.(saveNo := m1.saveNo + 1)) else (s, m1)
  }

  /** What a starting process loads: the checkpoint's cards and ids, and the ids the driver found in the table. */
  function Loaded(s: Store, a: Attempt): Memory {
    var preloaded := a.preload * s.table.Keys;
    match s.checkpoint
    case None => Memory({}, preloaded, 0, false, 0, a.life)
    case Some(c) => Memory(c.cardsDone, preloaded + c.processedIds, 0, false, 0, a.life)
  }

  function ScrapeSet(keys: seq<string>, a: Attempt, s: Store): (Store, Ending)
    requires |keys| == |a.delivered|
  {
    Continue(keys, a, s, Loaded(s, a), 0)
  }

  /** The program: a process running against the table and the checkpoint file. */
  class Scraper {
    var table: Table
    var checkpoint: Option<Checkpoint>

    constructor (s: Store)
      ensures View() == s
    {
      table, checkpoint := s.table, s.checkpoint;
    }

    function View(): Store
      reads this
    {
      Store(table, checkpoint)
    }

    method SaveCheckpoint(done: set<string>, seen: set<string>, outcome: SaveOutcome)
      modifies this`checkpoint
      ensures checkpoint == match outcome case Saved => Some(Checkpoint(done, seen)) case SaveFailed => old(checkpoint) case Torn => None
    {
      match outcome {
        case Saved => checkpoint := Some(Checkpoint(done, seen));
        case SaveFailed =>
        case Torn => checkpoint := None;
      }
    }

    /** `insertRow` under the driver's `onResult`. */
    method SendRow(r: Row, rejected: set<Row>, failing: set<string>)
      modifies this`table
      ensures table == Stored(old(table), r, rejected, failing)
    {
      if r in rejected {
        return;
      }
      if r.itemId !in failing && r.itemId !in table {
        table := table[r.itemId := r];
      }
    }

    /** The inner loop: skip blank and seen ids, send the rest; `crashed` when the process dies on the way. */
    method EmitRows(rows: seq<Row>, seen: set<string>, life: nat, a: Attempt) returns (seen': set<string>, life': nat, crashed: bool)
      modifies this`table
      ensures Emission(table, seen', life', crashed) == Emit(old(table), seen, rows, life, a)
    {
      seen', life' := seen, life;
      ghost var whole := Emit(table, seen, rows, life, a);
      assert rows[0..] == rows;
      for q := 0 to |rows|
        invariant Emit(table, seen', rows[q..], life', a) == whole
      {
        assert rows[q..][0] == rows[q] && rows[q..][1..] == rows[q + 1..];
        if life' == 0 {
          return seen', 0, true;
        }
        var r := rows[q];
        if !(r.itemId == "" || r.itemId in seen') {
          seen' := seen' + {r.itemId};
          SendRow(r, a.rejected, a.failing);
        }
        life' := life' - 1;
      }
      crashed := false;
    }

    /** `scrapeSet`. */
    method Run(keys: seq<string>, a: Attempt) returns (ending: Ending)
      requires |keys| == |a.delivered|
      modifies this
      ensures (View(), ending) == ScrapeSet(keys, a, old(View()))
    {
      var done: set<string>, seen := {}, a.preload * table.Keys;
      if checkpoint.Some? {
        done, seen := checkpoint.value.cardsDone, seen + checkpoint.value.processedIds;
      }
      var thisRun, stop, saveNo, life := 0, false, 0, a.life;
      ghost var whole := ScrapeSet(keys, a, View());
      for i := 0 to |keys|
        invariant Continue(keys, a, View(), Memory(done, seen, thisRun, stop, saveNo, life), i) == whole
      {
        if keys[i] in done {
          continue;
        }
        if stop {
          SaveCheckpoint(done, seen, SaveAt(a, saveNo));
          return Stopped;
        }
        var crashed: bool;
        seen, life, crashed := EmitRows(a.delivered[i], seen, life, a);
        if crashed || life == 0 {
          return Crashed;
        }
        done, thisRun, stop, life := done + {keys[i]}, thisRun + 1, i in a.stops, life - 1;
        if thisRun % EveryAt(a, i) == 0 {
          SaveCheckpoint(done, seen, SaveAt(a, saveNo));
          saveNo := saveNo + 1;
        }
      }
      SaveCheckpoint(done, seen, SaveAt(a, saveNo));
      return Finished;
    }
  }

  // ----- what one process does to the table, whatever it is delivered

  /** The ids carried by the rows. */
  function Ids(rows: seq<Row>): set<string> {
    if rows == [] then {} else (if rows[0].itemId == "" then {} else {rows[0].itemId}) + Ids(rows[1..])
  }

  /** The index of the first row that carries the id; |rows| when none does. */
  function FirstOf(rows: seq<Row>, id: string): (p: nat)
    ensures p <= |rows| && (p < |rows| ==> rows[p].itemId == id)
  {
    if rows == [] then 0 else if rows[0].itemId == id then 0 else 1 + FirstOf(rows[1..], id)
  }

  lemma {:induction false} FirstOfIsFirst(rows: seq<Row>, id: string)
    ensures forall q :: 0 <= q < FirstOf(rows, id) ==> rows[q].itemId != id
  {
    if rows != [] && rows[0].itemId != id {
      FirstOfIsFirst(rows[1..], id);
      assert forall q :: 0 < q < |rows| ==> rows[q] == rows[1..][q - 1];
    }
  }

  /** Sending the rows in order, skipping blank and seen ids. */
  function Deliver(t: Table, seen: set<string>, rows: seq<Row>, rejected: set<Row>, failing: set<string>): Table
    decreases |rows|
  {
    if rows == [] then t
    else if rows[0].itemId == "" || rows[0].itemId in seen then Deliver(t, seen, rows[1..], rejected, failing)
    else Deliver(Stored(t, rows[0], rejected, failing), seen + {rows[0].itemId}, rows[1..], rejected, failing)
  }

  /** The rows put the id into the table: its first row is not rejected, its insert does not fail, and it was not seen before. */
  predicate Stores(seen: set<string>, rows: seq<Row>, rejected: set<Row>, failing: set<string>, id: string) {
    id != "" && id !in seen && FirstOf(rows, id) < |rows| && rows[FirstOf(rows, id)] !in rejected && id !in failing
  }

  /** Exactly what delivering rows does to one id: first row wins, and only the first is ever tried. */
  lemma {:induction false} DeliverExactly(t: Table, seen: set<string>, rows: seq<Row>, rejected: set<Row>, failing: set<string>, id: string)
    ensures var t' := Deliver(t, seen, rows, rejected, failing);
            (id in t' <==> id in t || Stores(seen, rows, rejected, failing, id))
            && (id in t ==> t'[id] == t[id])
            && (id !in t && id in t' ==> t'[id] == rows[FirstOf(rows, id)])
    decreases |rows|
  {
    if rows != [] {
      var r := rows[0];
      if r.itemId == "" || r.itemId in seen {
        DeliverExactly(t, seen, rows[1..], rejected, failing, id);
      } else {
        DeliverExactly(Stored(t, r, rejected, failing), seen + {r.itemId}, rows[1..], rejected, failing, id);
      }
    }
  }

  lemma {:induction false} DeliverAppend(t: Table, seen: set<string>, x: seq<Row>, y: seq<Row>, rejected: set<Row>, failing: set<string>)
    ensures Deliver(t, seen, x + y, rejected, failing)
         == Deliver(Deliver(t, seen, x, rejected, failing), seen + Ids(x), y, rejected, failing)
    decreases |x|
  {
    if x == [] {
      assert x + y == y && seen + {} == seen;
    } else {
      assert (x + y)[0] == x[0] && (x + y)[1..] == x[1..] + y;
      var r := x[0];
      if r.itemId == "" || r.itemId in seen {
        DeliverAppend(t, seen, x[1..], y, rejected, failing);
        assert seen + Ids(x) == seen + Ids(x[1..]);
      } else {
        DeliverAppend(Stored(t, r, rejected, failing), seen + {r.itemId}, x[1..], y, rejected, failing);
        assert seen + Ids(x) == (seen + {r.itemId}) + Ids(x[1..]);
      }
    }
  }

  lemma {:induction false} IdsAppend(x: seq<Row>, y: seq<Row>)
    ensures Ids(x + y) == Ids(x) + Ids(y)
  {
    if x == [] {
      assert x + y == y;
    } else {
      assert (x + y)[0] == x[0] && (x + y)[1..] == x[1..] + y;
      IdsAppend(x[1..], y);
    }
  }

  lemma {:induction false} IdsAreFirsts(rows: seq<Row>, id: string)
    ensures id in Ids(rows) <==> id != "" && FirstOf(rows, id) < |rows|
  {
    if rows != [] {
      IdsAreFirsts(rows[1..], id);
    }
  }

  function Min(x: nat, y: nat): nat { if x < y then x else y }

  lemma {:induction false} EmitDelivers(t: Table, seen: set<string>, rows: seq<Row>, life: nat, a: Attempt)
    ensures var e, sent := Emit(t, seen, rows, life, a), rows[..Min(life, |rows|)];
            e.table == Deliver(t, seen, sent, a.rejected, a.failing) && e.seen == seen + Ids(sent)
            && (e.crashed <==> life < |rows|) && (!e.crashed ==> e.life == life - |rows|)
    decreases |rows|
  {
    if rows != [] && life > 0 {
      var r, sent := rows[0], rows[..Min(life, |rows|)];
      assert sent[0] == r && sent[1..] == rows[1..][..Min(life - 1, |rows[1..]|)];
      if r.itemId == "" || r.itemId in seen {
        EmitDelivers(t, seen, rows[1..], life - 1, a);
        assert seen + Ids(sent) == seen + Ids(sent[1..]);
      } else {
        EmitDelivers(Stored(t, r, a.rejected, a.failing), seen + {r.itemId}, rows[1..], life - 1, a);
        assert seen + Ids(sent) == (seen + {r.itemId}) + Ids(sent[1..]);
      }
    } else {
      assert seen + {} == seen && rows[..Min(life, |rows|)] == [];
    }
  }

  /** The rows the process gets to, from card i on. */
  function Reached(keys: seq<string>, a: Attempt, done: set<string>, stop: bool, life: nat, i: nat): seq<Row>
    requires i <= |keys| == |a.delivered|
    decreases |keys| - i
  {
    if i == |keys| then []
    else if keys[i] in done then Reached(keys, a, done, stop, life, i + 1)
    else if stop then []
    else if life <= |a.delivered[i]| then a.delivered[i][..life]
    else a.delivered[i] + Reached(keys, a, done + {keys[i]}, i in a.stops, life - |a.delivered[i]| - 1, i + 1)
  }

  lemma {:induction false} ContinueDelivers(keys: seq<string>, a: Attempt, s: Store, m: Memory, i: nat)
    requires i <= |keys| == |a.delivered|
    ensures Continue(keys, a, s, m, i).0.table
         == Deliver(s.table, m.seen, Reached(keys, a, m.done, m.stop, m.life, i), a.rejected, a.failing)
    decreases |keys| - i
  {
    if i < |keys| {
      if keys[i] in m.done {
        ContinueDelivers(keys, a, s, m, i + 1);
      } else if !m.stop {
        var rows := a.delivered[i];
        var e := Emit(s.table, m.seen, rows, m.life, a);
        EmitDelivers(s.table, m.seen, rows, m.life, a);
        if m.life > |rows| {
          assert rows[..Min(m.life, |rows|)] == rows;
          var (s', m') := CardDone(keys, a, s.(table := e.table), m, i, e);
          ContinueDelivers(keys, a, s', m', i + 1);
          DeliverAppend(s.table, m.seen, rows, Reached(keys, a, m'.done, m'.stop, m'.life, i + 1), a.rejected, a.failing);
        }
      }
    }
  }

  /** One process, however it ends, on one id: there afterwards exactly when it was there before or the process stored it. */
  lemma ProcessStoresExactly(keys: seq<string>, a: Attempt, s: Store, id: string)
    requires |keys| == |a.delivered|
    ensures var t, rows := ScrapeSet(keys, a, s).0.table, Reached(keys, a, Loaded(s, a).done, false, a.life, 0);
            (id in t <==> id in s.table || Stores(Loaded(s, a).seen, rows, a.rejected, a.failing, id))
            && (id in s.table ==> t[id] == s.table[id])
            && (id !in s.table && id in t ==> t[id] == rows[FirstOf(rows, id)])
  {
    var m := Loaded(s, a);
    ContinueDelivers(keys, a, s, m, 0);
    DeliverExactly(s.table, m.seen, Reached(keys, a, m.done, false, a.life, 0), a.rejected, a.failing, id);
  }

  /** The rows delivered for the cards from i on that are not recorded, a repeated key counting once. */
  function Unrecorded(keys: seq<string>, delivered: seq<seq<Row>>, done: set<string>, i: nat): seq<Row>
    requires i <= |keys| == |delivered|
    decreases |keys| - i
  {
    if i == |keys| then []
    else if keys[i] in done then Unrecorded(keys, delivered, done, i + 1)
    else delivered[i] + Unrecorded(keys, delivered, done + {keys[i]}, i + 1)
  }

  /** A run that finishes gets to every row of every unrecorded card; one that does not gets to a first part of them. */
  lemma {:induction false} ReachedPart(keys: seq<string>, a: Attempt, s: Store, m: Memory, i: nat)
    requires i <= |keys| == |a.delivered|
    ensures Reached(keys, a, m.done, m.stop, m.life, i) <= Unrecorded(keys, a.delivered, m.done, i)
    ensures Continue(keys, a, s, m, i).1 == Finished ==>
              Reached(keys, a, m.done, m.stop, m.life, i) == Unrecorded(keys, a.delivered, m.done, i)
    decreases |keys| - i
  {
    if i < |keys| {
      if keys[i] in m.done {
        ReachedPart(keys, a, s, m, i + 1);
      } else if !m.stop {
        var rows := a.delivered[i];
        var e := Emit(s.table, m.seen, rows, m.life, a);
        EmitDelivers(s.table, m.seen, rows, m.life, a);
        if m.life > |rows| {
          var (s', m') := CardDone(keys, a, s.(table := e.table), m, i, e);
          ReachedPart(keys, a, s', m', i + 1);
        }
      }
    }
  }

  function RecordedCards(s: Store): set<string> { if s.checkpoint.Some? then s.checkpoint.value.cardsDone else {} }

  function RecordedIds(s: Store): set<string> { if s.checkpoint.Some? then s.checkpoint.value.processedIds else {} }

  /** The finishing run itself puts the id into the table: the id is not on record, some card that is not on record
      delivers it, its first such row is not rejected, and its insert goes through. */
  predicate FinishStores(keys: seq<string>, a: Attempt, s: Store, id: string)
    requires |keys| == |a.delivered|
  {
    Stores(RecordedIds(s), Unrecorded(keys, a.delivered, RecordedCards(s), 0), a.rejected, a.failing, id)
  }

  /** Whatever lists the visits deliver: after a run that finishes, an id is in the table exactly when it was there when the
      run started or the run stores it. So an id that a recorded card should have delivered and did not is missing
      unless another, unrecorded card carries it. */
  lemma HoldsExactlyWhen(keys: seq<string>, a: Attempt, s: Store, id: string)
    requires |keys| == |a.delivered| && ScrapeSet(keys, a, s).1 == Finished
    ensures id in ScrapeSet(keys, a, s).0.table <==> id in s.table || FinishStores(keys, a, s, id)
  {
    ProcessStoresExactly(keys, a, s, id);
    ReachedPart(keys, a, s, Loaded(s, a), 0);
  }

  // ----- sequences of runs

  /** The store after a sequence of process runs. */
  function AfterAttempts(keys: seq<string>, attempts: seq<Attempt>, s: Store): Store
    requires forall i :: 0 <= i < |attempts| ==> |attempts[i].delivered| == |keys|
  {
    var n := |attempts|;
    if n == 0 then s else ScrapeSet(keys, attempts[n - 1], AfterAttempts(keys, attempts[..n - 1], s)).0
  }

  /** The run from this store stores the id. */
  predicate RunStores(keys: seq<string>, a: Attempt, s: Store, id: string)
    requires |a.delivered| == |keys|
  {
    Stores(Loaded(s, a).seen, Reached(keys, a, Loaded(s, a).done, false, a.life, 0), a.rejected, a.failing, id)
  }

  /** Run j of the sequence stores the id. */
  predicate StoredBy(keys: seq<string>, attempts: seq<Attempt>, s: Store, j: nat, id: string)
    requires forall i :: 0 <= i < |attempts| ==> |attempts[i].delivered| == |keys|
  {
    j < |attempts| && RunStores(keys, attempts[j], AfterAttempts(keys, attempts[..j], s), id)
  }

  lemma StoredByPrefix(keys: seq<string>, attempts: seq<Attempt>, s: Store, j: nat, id: string)
    requires |attempts| > 0 && forall i :: 0 <= i < |attempts| ==> |attempts[i].delivered| == |keys|
    ensures var n := |attempts|;
            StoredBy(keys, attempts, s, j, id)
            <==> StoredBy(keys, attempts[..n - 1], s, j, id)
                 || (j == n - 1 && RunStores(keys, attempts[n - 1], AfterAttempts(keys, attempts[..n - 1], s), id))
  {
    hide RunStores;
    hide AfterAttempts;
    var n := |attempts|;
    if j < n - 1 {
      assert attempts[..n - 1][..j] == attempts[..j];
    }
  }

  /** Over any sequence of runs, crashed, stopped or finished: the table holds an id exactly when it did at the start
      or some run, some card's visit, stored it. */
  lemma {:induction false} HeldExactlyWhenStored(keys: seq<string>, attempts: seq<Attempt>, s: Store, id: string)
    requires forall i :: 0 <= i < |attempts| ==> |attempts[i].delivered| == |keys|
    ensures id in AfterAttempts(keys, attempts, s).table <==> id in s.table || exists j: nat :: StoredBy(keys, attempts, s, j, id)
  {
    hide StoredBy;
    hide ScrapeSet;
    var n := |attempts|;
    if n == 0 {
      assert attempts == [];
      NothingStored(keys, s, id);
    } else {
      var front := attempts[..n - 1];
      HeldExactlyWhenStored(keys, front, s, id);
      ProcessStoresExactly(keys, attempts[n - 1], AfterAttempts(keys, front, s), id);
      forall j: nat
        ensures StoredBy(keys, attempts, s, j, id)
                <==> StoredBy(keys, front, s, j, id)
                     || (j == n - 1 && RunStores(keys, attempts[n - 1], AfterAttempts(keys, front, s), id))
      {
        StoredByPrefix(keys, attempts, s, j, id);
      }
      assert StoredBy(keys, attempts, s, n - 1, id) || !RunStores(keys, attempts[n - 1], AfterAttempts(keys, front, s), id);
    }
  }

  lemma NothingStored(keys: seq<string>, s: Store, id: string)
    ensures forall j: nat :: !StoredBy(keys, [], s, j, id)
  {
  }

  // ----- what a checkpoint commits to

  /** No save of the run is torn; one that fails leaves the old file. */
  predicate NeverTorn(a: Attempt) { Torn !in a.saves }

  predicate AllRecorded(keys: seq<string>, s: Store) {
    s.checkpoint.Some? && forall i :: 0 <= i < |keys| ==> keys[i] in s.checkpoint.value.cardsDone
  }

  /** The memory knows at least these cards and ids, and so does the file. */
  predicate Knows(s: Store, m: Memory, cards: set<string>, ids: set<string>) {
    cards <= m.done && ids <= m.seen && s.checkpoint.Some?
    && cards <= s.checkpoint.value.cardsDone && ids <= s.checkpoint.value.processedIds
  }

  lemma {:induction false} RecordKept(keys: seq<string>, a: Attempt, s: Store, m: Memory, i: nat, cards: set<string>, ids: set<string>)
    requires i <= |keys| == |a.delivered| && NeverTorn(a) && Knows(s, m, cards, ids)
    ensures var s' := Continue(keys, a, s, m, i).0;
            s'.checkpoint.Some? && cards <= s'.checkpoint.value.cardsDone && ids <= s'.checkpoint.value.processedIds
    decreases |keys| - i
  {
    if i < |keys| {
      if keys[i] in m.done {
        RecordKept(keys, a, s, m, i + 1, cards, ids);
      } else if !m.stop {
        var e := Emit(s.table, m.seen, a.delivered[i], m.life, a);
        EmitDelivers(s.table, m.seen, a.delivered[i], m.life, a);
        if !e.crashed && e.life > 0 {
          var (s', m') := CardDone(keys, a, s.(table := e.table), m, i, e);
          RecordKept(keys, a, s', m', i + 1, cards, ids);
        }
      }
    }
  }

  /** What is on record stays on record through any run that tears no save. */
  lemma {:induction false} RecordKeptThrough(keys: seq<string>, attempts: seq<Attempt>, s: Store)
    requires forall i :: 0 <= i < |attempts| ==> |attempts[i].delivered| == |keys| && NeverTorn(attempts[i])
    requires s.checkpoint.Some?
    ensures var s' := AfterAttempts(keys, attempts, s);
            s'.checkpoint.Some? && RecordedCards(s) <= RecordedCards(s') && RecordedIds(s) <= RecordedIds(s')
  {
    var n := |attempts|;
    if n > 0 {
      RecordKeptThrough(keys, attempts[..n - 1], s);
      var before, a := AfterAttempts(keys, attempts[..n - 1], s), attempts[n - 1];
      RecordKept(keys, a, before, Loaded(before, a), 0, RecordedCards(before), RecordedIds(before));
    }
  }

  /** An id that reaches a checkpoint without having been stored is lost for good: no later run stores it,
      whatever it is delivered, as long as no save tears the file. */
  lemma {:induction false} RecordedLossIsFinal(keys: seq<string>, attempts: seq<Attempt>, s: Store, id: string)
    requires forall i :: 0 <= i < |attempts| ==> |attempts[i].delivered| == |keys| && NeverTorn(attempts[i])
    requires s.checkpoint.Some? && id in s.checkpoint.value.processedIds && id !in s.table
    ensures id !in AfterAttempts(keys, attempts, s).table
  {
    var n := |attempts|;
    if n > 0 {
      RecordedLossIsFinal(keys, attempts[..n - 1], s, id);
      RecordKeptThrough(keys, attempts[..n - 1], s);
      ProcessStoresExactly(keys, attempts[n - 1], AfterAttempts(keys, attempts[..n - 1], s), id);
    }
  }

  lemma {:induction false} NothingReached(keys: seq<string>, a: Attempt, done: set<string>, life: nat, i: nat)
    requires i <= |keys| == |a.delivered| && forall j :: 0 <= j < |keys| ==> keys[j] in done
    ensures Reached(keys, a, done, false, life, i) == []
    decreases |keys| - i
  {
    if i < |keys| {
      NothingReached(keys, a, done, life, i + 1);
    }
  }

  /** Once every card is on record no run changes the table any more: rows a visit fell short of are never fetched. */
  lemma {:induction false} FullRecordIsFinal(keys: seq<string>, attempts: seq<Attempt>, s: Store)
    requires forall i :: 0 <= i < |attempts| ==> |attempts[i].delivered| == |keys| && NeverTorn(attempts[i])
    requires AllRecorded(keys, s)
    ensures AfterAttempts(keys, attempts, s).table == s.table
  {
    var n := |attempts|;
    if n > 0 {
      FullRecordIsFinal(keys, attempts[..n - 1], s);
      RecordKeptThrough(keys, attempts[..n - 1], s);
      var before, a := AfterAttempts(keys, attempts[..n - 1], s), attempts[n - 1];
      ContinueDelivers(keys, a, before, Loaded(before, a), 0);
      NothingReached(keys, a, Loaded(before, a).done, a.life, 0);
    }
  }

  /** A finishing run whose saves go through records every card, however short its visits fell: one cut by blocks,
      by a fetch error, or by the operator's quit, after which every remaining card answers nothing. */
  lemma {:induction false} FinishRecordsAll(keys: seq<string>, a: Attempt, s: Store, m: Memory, i: nat)
    requires i <= |keys| == |a.delivered| && (forall k :: 0 <= k < |a.saves| ==> a.saves[k] == Saved)
    requires Continue(keys, a, s, m, i).1 == Finished && forall j :: 0 <= j < i ==> keys[j] in m.done
    ensures AllRecorded(keys, Continue(keys, a, s, m, i).0)
    decreases |keys| - i
  {
    if i < |keys| {
      if keys[i] in m.done {
        FinishRecordsAll(keys, a, s, m, i + 1);
      } else if !m.stop {
        var e := Emit(s.table, m.seen, a.delivered[i], m.life, a);
        if !e.crashed && e.life > 0 {
          var (s', m') := CardDone(keys, a, s.(table := e.table), m, i, e);
          FinishRecordsAll(keys, a, s', m', i + 1);
        }
      }
    }
  }

  /** So after one finishing run the table is what it will ever be, whatever later runs would deliver. */
  lemma FinishIsFinal(keys: seq<string>, a: Attempt, s: Store, later: seq<Attempt>)
    requires |keys| == |a.delivered| && (forall k :: 0 <= k < |a.saves| ==> a.saves[k] == Saved)
    requires ScrapeSet(keys, a, s).1 == Finished
    requires forall i :: 0 <= i < |later| ==> |later[i].delivered| == |keys| && NeverTorn(later[i])
    ensures AfterAttempts(keys, later, ScrapeSet(keys, a, s).0).table == ScrapeSet(keys, a, s).0.table
  {
    FinishRecordsAll(keys, a, s, Loaded(s, a), 0);
    FullRecordIsFinal(keys, later, ScrapeSet(keys, a, s).0);
  }

  /** The two runs differ only in what cards recorded as done would deliver. */
  ghost predicate SameUpToDone(keys: seq<string>, done: set<string>, a: Attempt, b: Attempt) {
    |keys| == |a.delivered| == |b.delivered| && a == b.(delivered := a.delivered)
    && forall i :: 0 <= i < |keys| && keys[i] !in done ==> a.delivered[i] == b.delivered[i]
  }

  lemma {:induction false} EmitIgnoresLists(t: Table, seen: set<string>, rows: seq<Row>, life: nat, a: Attempt, b: Attempt)
    requires a.rejected == b.rejected && a.failing == b.failing
    ensures Emit(t, seen, rows, life, a) == Emit(t, seen, rows, life, b)
    decreases |rows|
  {
    if rows != [] && life > 0 {
      var r := rows[0];
      if r.itemId == "" || r.itemId in seen {
        EmitIgnoresLists(t, seen, rows[1..], life - 1, a, b);
      } else {
        EmitIgnoresLists(Stored(t, r, a.rejected, a.failing), seen + {r.itemId}, rows[1..], life - 1, a, b);
      }
    }
  }

  lemma {:induction false} ContinueIgnoresDone(keys: seq<string>, done: set<string>, a: Attempt, b: Attempt, s: Store, m: Memory, i: nat)
    requires SameUpToDone(keys, done, a, b) && done <= m.done && i <= |keys|
    ensures Continue(keys, a, s, m, i) == Continue(keys, b, s, m, i)
    decreases |keys| - i
  {
    if i < |keys| {
      if keys[i] in m.done {
        ContinueIgnoresDone(keys, done, a, b, s, m, i + 1);
      } else if !m.stop {
        EmitIgnoresLists(s.table, m.seen, a.delivered[i], m.life, a, b);
        var e := Emit(s.table, m.seen, a.delivered[i], m.life, a);
        if !e.crashed && e.life > 0 {
          var (s', m') := CardDone(keys, a, s.(table := e.table), m, i, e);
          ContinueIgnoresDone(keys, done, a, b, s', m', i + 1);
        }
      }
    }
  }

  /** A recorded card is never scraped again: whatever it would deliver now has no influence on the run. */
  lemma RecordedCardsAreFinal(keys: seq<string>, a: Attempt, b: Attempt, s: Store)
    requires s.checkpoint.Some? && SameUpToDone(keys, s.checkpoint.value.cardsDone, a, b)
    ensures ScrapeSet(keys, a, s) == ScrapeSet(keys, b, s)
  {
    ContinueIgnoresDone(keys, s.checkpoint.value.cardsDone, a, b, s, Loaded(s, a), 0);
  }
}
