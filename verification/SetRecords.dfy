/** What a run leaves on record: which cards the checkpoint file holds when the run finishes, stops or crashes. */
module SetRecords {
  import opened Options
  import opened SetScrape

  /** The cards a run gets through from card i on, as indices: their rows are out and they are marked done. */
  function Through(keys: seq<string>, a: Attempt, done: set<string>, stop: bool, life: nat, i: nat): (t: seq<nat>)
    requires i <= |keys| == |a.delivered|
    ensures forall k :: 0 <= k < |t| ==> i <= t[k] < |keys|
    decreases |keys| - i
  {
    if i == |keys| then []
    else if keys[i] in done then Through(keys, a, done, stop, life, i + 1)
    else if stop || life <= |a.delivered[i]| then []
    else [i] + Through(keys, a, done + {keys[i]}, i in a.stops, life - |a.delivered[i]| - 1, i + 1)
  }

  function KeysAt(keys: seq<string>, t: seq<nat>): set<string>
    requires forall k :: 0 <= k < |t| ==> t[k] < |keys|
  {
    set k | 0 <= k < |t| :: keys[t[k]]
  }

  /** The last card of t whose count within the run, `before` cards having gone before, is a multiple of the interval
      in force at it; the number of cards up to and including it, 0 when there is none. */
  function LastDue(a: Attempt, t: seq<nat>, before: nat): (n: nat)
    ensures n <= |t|
  {
    if t == [] then 0
    else
      var rest := LastDue(a, t[1..], before + 1);
      if rest > 0 then rest + 1
      else if (before + 1) % EveryAt(a, t[0]) == 0 then 1
      else 0
  }

  predicate AllSaved(a: Attempt) { forall k :: 0 <= k < |a.saves| ==> a.saves[k] == Saved }

  lemma KeysAtPrepend(keys: seq<string>, i: nat, t: seq<nat>)
    requires i < |keys| && forall k :: 0 <= k < |t| ==> t[k] < |keys|
    ensures KeysAt(keys, [i] + t) == {keys[i]} + KeysAt(keys, t)
  {
    var all := [i] + t;
    forall x ensures x in KeysAt(keys, all) <==> x in {keys[i]} + KeysAt(keys, t) {
      if x in KeysAt(keys, t) {
        var k :| 0 <= k < |t| && keys[t[k]] == x;
        assert all[k + 1] == t[k];
      }
      if x == keys[i] {
        assert all[0] == i;
      }
      if x in KeysAt(keys, all) {
        var k :| 0 <= k < |all| && keys[all[k]] == x;
        if k > 0 {
          assert t[k - 1] == all[k];
        }
      }
    }
  }

  /** With good saves the record of a run that does not crash is complete, and that of a crashed one reaches exactly to the
      last card that was due. */
  ghost predicate RecordedTo(keys: seq<string>, a: Attempt, s: Store, m: Memory, i: nat, s': Store, ending: Ending)
    requires i <= |keys| == |a.delivered|
  {
    var t := Through(keys, a, m.done, m.stop, m.life, i);
    var n := if ending == Crashed then LastDue(a, t, m.thisRun) else |t|;
    if n == 0 && ending == Crashed then s'.checkpoint == s.checkpoint
    else s'.checkpoint.Some? && s'.checkpoint.value.cardsDone == m.done + KeysAt(keys, t[..n])
  }

  lemma OneMoreCard(keys: seq<string>, a: Attempt, s: Store, s1: Store, m: Memory, m1: Memory, i: nat, s': Store, ending: Ending)
    requires i < |keys| == |a.delivered| && keys[i] !in m.done && !m.stop && m.life > |a.delivered[i]|
    requires m1.done == m.done + {keys[i]} && m1.thisRun == m.thisRun + 1 && m1.stop == (i in a.stops)
    requires m1.life == m.life - |a.delivered[i]| - 1
    requires if m1.thisRun % EveryAt(a, i) == 0 then s1.checkpoint.Some? && s1.checkpoint.value.cardsDone == m1.done
             else s1.checkpoint == s.checkpoint
    requires RecordedTo(keys, a, s1, m1, i + 1, s', ending)
    ensures RecordedTo(keys, a, s, m, i, s', ending)
  {
    hide KeysAt;
    var t1 := Through(keys, a, m1.done, m1.stop, m1.life, i + 1);
    var t := [i] + t1;
    assert Through(keys, a, m.done, m.stop, m.life, i) == t && t[1..] == t1;
    var n1 := if ending == Crashed then LastDue(a, t1, m1.thisRun) else |t1|;
    assert t[..n1 + 1] == [i] + t1[..n1];
    KeysAtPrepend(keys, i, t1[..n1]);
    NoKeys(keys);
    assert t1[..0] == [];
    assert m.done + ({keys[i]} + KeysAt(keys, t1[..n1])) == m1.done + KeysAt(keys, t1[..n1]);
  }

  lemma NoKeys(keys: seq<string>)
    ensures KeysAt(keys, []) == {}
  {
  }

  lemma {:induction false} ContinueRecords(keys: seq<string>, a: Attempt, s: Store, m: Memory, i: nat)
    requires i <= |keys| == |a.delivered| && AllSaved(a)
    ensures var (s', ending) := Continue(keys, a, s, m, i); RecordedTo(keys, a, s, m, i, s', ending)
    decreases |keys| - i
  {
    var t := Through(keys, a, m.done, m.stop, m.life, i);
    var (s', ending) := Continue(keys, a, s, m, i);
    if i == |keys| {
      assert m.done + {} == m.done;
    } else if keys[i] in m.done {
      ContinueRecords(keys, a, s, m, i + 1);
    } else if m.stop {
      assert m.done + {} == m.done;
    } else {
      var e := Emit(s.table, m.seen, a.delivered[i], m.life, a);
      EmitDelivers(s.table, m.seen, a.delivered[i], m.life, a);
      if !e.crashed && e.life > 0 {
        var (s1, m1) := CardDone(keys, a, s.(table := e.table), m, i, e);
        ContinueRecords(keys, a, s1, m1, i + 1);
        OneMoreCard(keys, a, s, s1, m, m1, i, s', ending);
      }
    }
  }

  /** The cards the run from this store gets through. */
  function GotThrough(keys: seq<string>, a: Attempt, s: Store): (t: seq<nat>)
    requires |keys| == |a.delivered|
    ensures forall k :: 0 <= k < |t| ==> t[k] < |keys|
  {
    Through(keys, a, RecordedCards(s), false, a.life, 0)
  }

  /** With good saves a run that finishes or stops leaves every card it got through on record, and a crashed one exactly
      those up to the last that was due; whatever was on record before stays, and nothing else is put there. */
  lemma RecordsExactly(keys: seq<string>, a: Attempt, s: Store)
    requires |keys| == |a.delivered| && AllSaved(a)
    ensures var (s', ending) := ScrapeSet(keys, a, s);
            var t := GotThrough(keys, a, s);
            (ending != Crashed ==> s'.checkpoint.Some? && s'.checkpoint.value.cardsDone == RecordedCards(s) + KeysAt(keys, t))
            && (ending == Crashed ==> RecordedCards(s') == RecordedCards(s) + KeysAt(keys, t[..LastDue(a, t, 0)]))
  {
    hide Continue;
    hide KeysAt;
    hide LastDue;
    var t := GotThrough(keys, a, s);
    assert t[..|t|] == t && t[..0] == [];
    NoKeys(keys);
    assert RecordedCards(s) + {} == RecordedCards(s);
    ContinueRecords(keys, a, s, Loaded(s, a), 0);
  }

  /** A checkpoint is due every n cards, ten when the interval is not configured. */
  predicate Every(a: Attempt, count: nat, n: nat) {
    n > 0 && (|a.every| < count ==> n == 10)
    && forall i :: 0 <= i < count && i < |a.every| ==> if a.every[i] > 0 then a.every[i] == n else n == 10
  }

  lemma {:induction false} DueGap(keys: seq<string>, a: Attempt, t: seq<nat>, before: nat, n: nat)
    requires Every(a, |keys|, n) && forall k :: 0 <= k < |t| ==> t[k] < |keys|
    ensures var due := LastDue(a, t, before); if due > 0 then |t| - due < n else before % n + |t| < n
  {
    if t != [] {
      DueGap(keys, a, t[1..], before + 1, n);
      assert EveryAt(a, t[0]) == n;
      NextRemainder(before, n);
    }
  }

  lemma NextRemainder(x: nat, n: nat)
    requires n > 0
    ensures (x + 1) % n == if x % n + 1 == n then 0 else x % n + 1
  {
    var q, r := x / n, x % n;
    if r + 1 == n {
      assert (q + 1) * n == q * n + n;
      SameRemainder(x + 1, q + 1, n, 0);
    } else {
      SameRemainder(x + 1, q, n, r + 1);
    }
  }

  lemma SameRemainder(y: nat, q: nat, n: nat, r: nat)
    requires r < n && y == q * n + r
    ensures y % n == r
  {
    Multiple(y / n - q, n);
    assert (y / n - q) * n == r - y % n;
  }

  lemma Multiple(d: int, n: nat)
    ensures d > 0 ==> d * n >= n
    ensures d < 0 ==> d * n <= -(n as int)
  {
  }

  lemma {:induction false} FewKeys(keys: seq<string>, t: seq<nat>)
    requires forall k :: 0 <= k < |t| ==> t[k] < |keys|
    ensures |KeysAt(keys, t)| <= |t|
  {
    if t == [] {
      NoKeys(keys);
    } else {
      FewKeys(keys, t[1..]);
      assert t == [t[0]] + t[1..];
      KeysAtPrepend(keys, t[0], t[1..]);
    }
  }

  /** With good saves and an interval of n cards, a crash costs fewer than n of the cards the run got through:
      all but the last n - 1 are on record. */
  lemma CrashCostsLessThanInterval(keys: seq<string>, a: Attempt, s: Store, n: nat)
    requires |keys| == |a.delivered| && AllSaved(a) && Every(a, |keys|, n) && ScrapeSet(keys, a, s).1 == Crashed
    ensures var s', t := ScrapeSet(keys, a, s).0, GotThrough(keys, a, s);
            |KeysAt(keys, t) - RecordedCards(s')| < n
            && forall k :: 0 <= k <= |t| - n ==> keys[t[k]] in RecordedCards(s')
  {
    hide ScrapeSet;
    hide LastDue;
    var s', t := ScrapeSet(keys, a, s).0, GotThrough(keys, a, s);
    RecordsExactly(keys, a, s);
    DueGap(keys, a, t, 0, n);
    var due := LastDue(a, t, 0);
    FewKeys(keys, t[due..]);
    forall x | x in KeysAt(keys, t) && x !in RecordedCards(s') ensures x in KeysAt(keys, t[due..]) {
      var k :| 0 <= k < |t| && keys[t[k]] == x;
      if k < due {
        Within(keys, t, due, k);
      } else {
        assert t[due..][k - due] == t[k];
      }
    }
    Subset(KeysAt(keys, t) - RecordedCards(s'), KeysAt(keys, t[due..]));
    forall k | 0 <= k <= |t| - n ensures keys[t[k]] in RecordedCards(s') {
      Within(keys, t, due, k);
    }
  }

  lemma Within(keys: seq<string>, t: seq<nat>, n: nat, k: nat)
    requires k < n <= |t| && forall j :: 0 <= j < |t| ==> t[j] < |keys|
    ensures keys[t[k]] in KeysAt(keys, t[..n])
  {
    assert t[..n][k] == t[k];
  }

  lemma {:induction false} Subset<T>(x: set<T>, y: set<T>)
    requires x <= y
    ensures |x| <= |y|
  {
    if x != {} {
      var e :| e in x;
      Subset(x - {e}, y - {e});
    }
  }

  /** The ending fits the cards got through from card i on. */
  ghost predicate EndsAs(keys: seq<string>, a: Attempt, m: Memory, i: nat, ending: Ending)
    requires i <= |keys| == |a.delivered|
  {
    var t := Through(keys, a, m.done, m.stop, m.life, i);
    (ending == Finished <==> AllIn(keys, m.done + KeysAt(keys, t)))
    && (ending != Finished ==> (ending == Stopped <==> if t == [] then m.stop else t[|t| - 1] in a.stops))
  }

  predicate AllIn(keys: seq<string>, cards: set<string>) { forall k :: 0 <= k < |keys| ==> keys[k] in cards }

  lemma EndsOneCardOn(keys: seq<string>, a: Attempt, m: Memory, m1: Memory, i: nat, ending: Ending)
    requires i < |keys| == |a.delivered| && keys[i] !in m.done && !m.stop && m.life > |a.delivered[i]|
    requires m1.done == m.done + {keys[i]} && m1.stop == (i in a.stops) && m1.life == m.life - |a.delivered[i]| - 1
    requires EndsAs(keys, a, m1, i + 1, ending)
    ensures EndsAs(keys, a, m, i, ending)
  {
    hide KeysAt;
    hide AllIn;
    var t1 := Through(keys, a, m1.done, m1.stop, m1.life, i + 1);
    KeysAtPrepend(keys, i, t1);
    assert m.done + ({keys[i]} + KeysAt(keys, t1)) == m1.done + KeysAt(keys, t1);
  }

  lemma EndsHere(keys: seq<string>, a: Attempt, m: Memory, i: nat, ending: Ending)
    requires i <= |keys| == |a.delivered| && (i < |keys| ==> keys[i] !in m.done && (m.stop || m.life <= |a.delivered[i]|))
    requires i == |keys| ==> AllIn(keys, m.done)
    requires ending == if i == |keys| then Finished else if m.stop then Stopped else Crashed
    ensures EndsAs(keys, a, m, i, ending)
  {
    hide KeysAt;
    NoKeys(keys);
    assert m.done + {} == m.done;
  }

  lemma {:induction false} ContinueEnds(keys: seq<string>, a: Attempt, s: Store, m: Memory, i: nat)
    requires i <= |keys| == |a.delivered| && forall k :: 0 <= k < i ==> keys[k] in m.done
    ensures EndsAs(keys, a, m, i, Continue(keys, a, s, m, i).1)
    decreases |keys| - i
  {
    hide Emit;
    hide KeysAt;
    if i < |keys| && keys[i] in m.done {
      ContinueEnds(keys, a, s, m, i + 1);
    } else if i == |keys| || m.stop {
      EndsHere(keys, a, m, i, Continue(keys, a, s, m, i).1);
    } else {
      hide EndsAs;
      var e := Emit(s.table, m.seen, a.delivered[i], m.life, a);
      EmitDelivers(s.table, m.seen, a.delivered[i], m.life, a);
      if m.life > |a.delivered[i]| {
        var (s1, m1) := CardDone(keys, a, s.(table := e.table), m, i, e);
        ContinueEnds(keys, a, s1, m1, i + 1);
        EndsOneCardOn(keys, a, m, m1, i, Continue(keys, a, s, m, i).1);
      } else {
        EndsHere(keys, a, m, i, Crashed);
      }
    }
  }

  /** How a run ends: it finishes exactly when every card was on record or got through; otherwise it stops exactly when
      the last card it got through raised the stop flag, and else it crashed. */
  lemma EndsExactly(keys: seq<string>, a: Attempt, s: Store)
    requires |keys| == |a.delivered|
    ensures var ending, t := ScrapeSet(keys, a, s).1, GotThrough(keys, a, s);
            (ending == Finished <==> forall k :: 0 <= k < |keys| ==> keys[k] in RecordedCards(s) + KeysAt(keys, t))
            && (ending != Finished ==> (ending == Stopped <==> t != [] && t[|t| - 1] in a.stops))
  {
    hide Continue;
    hide KeysAt;
    ContinueEnds(keys, a, s, Loaded(s, a), 0);
  }

  // ----- a save that fails

  /** A run that meets no due card before its end makes one save, the last: a save that fails leaves the file as it was,
      a torn one leaves none that can be read. */
  lemma LoneSaveDecides(keys: seq<string>, a: Attempt, s: Store)
    requires |keys| == |a.delivered| && ScrapeSet(keys, a, s).1 != Crashed && |a.saves| > 0
    requires LastDue(a, GotThrough(keys, a, s), 0) == 0
    ensures var s', t := ScrapeSet(keys, a, s).0, GotThrough(keys, a, s);
            (a.saves[0] == SaveFailed ==> s'.checkpoint == s.checkpoint)
            && (a.saves[0] == Torn ==> s'.checkpoint == None)
            && (a.saves[0] == Saved ==> s'.checkpoint.Some? && s'.checkpoint.value.cardsDone == RecordedCards(s) + KeysAt(keys, t))
  {
    hide Continue;
    LoneSave(keys, a, s, Loaded(s, a), 0);
  }

  lemma {:induction false} LoneSave(keys: seq<string>, a: Attempt, s: Store, m: Memory, i: nat)
    requires i <= |keys| == |a.delivered| && m.saveNo < |a.saves| && Continue(keys, a, s, m, i).1 != Crashed
    requires LastDue(a, Through(keys, a, m.done, m.stop, m.life, i), m.thisRun) == 0
    ensures var c, t := Continue(keys, a, s, m, i).0.checkpoint, Through(keys, a, m.done, m.stop, m.life, i);
            (a.saves[m.saveNo] == SaveFailed ==> c == s.checkpoint)
            && (a.saves[m.saveNo] == Torn ==> c == None)
            && (a.saves[m.saveNo] == Saved ==> c.Some? && c.value.cardsDone == m.done + KeysAt(keys, t))
    decreases |keys| - i
  {
    hide Emit;
    hide KeysAt;
    NoKeys(keys);
    assert m.done + {} == m.done;
    if i < |keys| {
      if keys[i] in m.done {
        LoneSave(keys, a, s, m, i + 1);
      } else if !m.stop {
        var e := Emit(s.table, m.seen, a.delivered[i], m.life, a);
        EmitDelivers(s.table, m.seen, a.delivered[i], m.life, a);
        var (s1, m1) := CardDone(keys, a, s.(table := e.table), m, i, e);
        var t1 := Through(keys, a, m1.done, m1.stop, m1.life, i + 1);
        assert ([i] + t1)[1..] == t1;
        LoneSave(keys, a, s1, m1, i + 1);
        KeysAtPrepend(keys, i, t1);
        assert m.done + ({keys[i]} + KeysAt(keys, t1)) == m1.done + KeysAt(keys, t1);
      }
    }
  }
}
