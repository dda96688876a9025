/** What the Unlimited rewrite does to the graph: every edge keeps its meaning, nothing dangles,
    and the table insert reaches the language filter only through the edition filter. */
module WorkflowGraph {
  import opened Options
  import opened WorkflowRewrite

  /** Distinct node names stay distinct, and a changed name is not the name of any node. */
  ghost predicate CollisionFree(nodes: seq<Node>, rw: Rewriting) {
    (forall x, y :: HasNode(nodes, x) && HasNode(nodes, y) && NewName(rw, x) == NewName(rw, y) ==> x == y)
    && forall x :: HasNode(nodes, x) && NewName(rw, x) != x ==> !HasNode(nodes, NewName(rw, x))
  }

  /** Every connection key and every edge target names a node. */
  ghost predicate Closed(w: Workflow) {
    (forall k :: k in w.connections ==> HasNode(w.nodes, k))
    && forall p :: IsEdge(w.connections, p) ==> HasNode(w.nodes, EdgeAt(w.connections, p).node)
  }

  lemma SpecialNames()
    ensures !IsSearch(INSERT) && !IsSearch(SQL_LOG) && !IsSearch(EDITION) && !IsSearch(LANGUAGE) && !IsSearch(RUNOFF)
    ensures INSERT != SQL_LOG && INSERT != EDITION && SQL_LOG != EDITION
  {
    assert INSERT[0] == 'I' && SQL_LOG[0] == 'L' && EDITION[0] == 'E' && LANGUAGE[0] == 'L' && RUNOFF[0] == 'F';
    assert SEARCH[0] == 'e';
  }

  predicate Special(name: string) { name == INSERT || name == SQL_LOG || name == EDITION }

  /** A rewriting that keeps the search prefix cannot turn any other name into a special one, or a special one into another. */
  lemma SpecialsUntouched(rw: Rewriting, x: string)
    requires KeepsPrefix(rw)
    ensures Special(NewName(rw, x)) <==> Special(x)
    ensures Special(x) ==> NewName(rw, x) == x
  {
    SpecialNames();
  }

  /** The names of the first n nodes. */
  ghost function NamesOf(nodes: seq<Node>, n: nat): (names: set<string>)
    requires n <= |nodes|
    ensures forall x :: x in names <==> NamedUpTo(nodes, n, x)
  {
    if n == 0 then {} else NamesOf(nodes, n - 1) + {nodes[n - 1].name}
  }

  ghost predicate Injective(names: set<string>, rw: Rewriting) {
    (forall x, y :: x in names && y in names && NewName(rw, x) == NewName(rw, y) ==> x == y)
    && forall x :: x in names && NewName(rw, x) != x ==> NewName(rw, x) !in names
  }

  /** The name x goes by once the entries of the nodes named in `done` have been applied. */
  ghost function MovedName(rw: Rewriting, done: set<string>, x: string): string {
    if x in done then NewName(rw, x) else x
  }

  /** The rename map knows the new name of every node, and nothing else. */
  lemma {:induction false} LookUpIsNewName(rw: Rewriting, nodes: seq<Node>, n: nat, x: string)
    requires n <= |nodes|
    ensures LookUp(RenameEntries(rw, nodes, n), x) == MovedName(rw, NamesOf(nodes, n), x)
  {
    if n > 0 {
      LookUpIsNewName(rw, nodes, n - 1, x);
      var front, name := RenameEntries(rw, nodes, n - 1), nodes[n - 1].name;
      if NewName(rw, name) != name {
        assert (front + [(name, NewName(rw, name))])[..|front|] == front;
      } else {
        assert RenameEntries(rw, nodes, n) == front;
      }
    }
  }

  /** Every key of c has its new name, with its edges, and every key of c' is one of those. */
  ghost predicate Moved(rw: Rewriting, done: set<string>, c: map<string, Branches>, c': map<string, Branches>) {
    (forall k :: k in c ==> KeyMoved(rw, done, c, c', k)) && forall k' :: k' in c' ==> FromKey(rw, done, c, k')
  }

  ghost predicate KeyMoved(rw: Rewriting, done: set<string>, c: map<string, Branches>, c': map<string, Branches>, k: string)
    requires k in c
  {
    MovedName(rw, done, k) in c' && c'[MovedName(rw, done, k)] == c[k]
  }

  ghost predicate FromKey(rw: Rewriting, done: set<string>, c: map<string, Branches>, k': string) {
    exists k :: k in c && MovedName(rw, done, k) == k'
  }

  /** While x waits to be moved, the only key that can be called x is x itself, and no other goes by its new name. */
  lemma WaitingName(rw: Rewriting, names: set<string>, done: set<string>, x: string, k: string)
    requires Injective(names, rw) && x in names && k in names && NewName(rw, x) != x
    ensures MovedName(rw, done, k) == x ==> k == x && x !in done
    ensures k != x ==> MovedName(rw, done, k) != NewName(rw, x)
  {
  }

  /** Moving one key: the waiting key takes its new name, no other is disturbed. */
  lemma KeyAfter(rw: Rewriting, names: set<string>, done: set<string>, x: string, c: map<string, Branches>, before: map<string, Branches>, k: string)
    requires Injective(names, rw) && x in names && c.Keys <= names && Moved(rw, done, c, before) && NewName(rw, x) != x
    requires k in c
    ensures KeyMoved(rw, done + {x}, c, MoveKey(before, (x, NewName(rw, x))), k)
  {
    assert KeyMoved(rw, done, c, before, k);
    WaitingName(rw, names, done, x, k);
    if x in before {
      assert FromKey(rw, done, c, x);
      var k0 :| k0 in c && MovedName(rw, done, k0) == x;
      WaitingName(rw, names, done, x, k0);
    }
  }

  lemma KeyBefore(rw: Rewriting, names: set<string>, done: set<string>, x: string, c: map<string, Branches>, before: map<string, Branches>, k': string)
    requires Injective(names, rw) && x in names && c.Keys <= names && Moved(rw, done, c, before) && NewName(rw, x) != x
    requires k' in MoveKey(before, (x, NewName(rw, x)))
    ensures FromKey(rw, done + {x}, c, k')
  {
    var old' := if k' in before && k' != x then k' else x;
    assert FromKey(rw, done, c, old');
    var k :| k in c && MovedName(rw, done, k) == old';
    WaitingName(rw, names, done, x, k);
    assert MovedName(rw, done + {x}, k) == k';
  }

  lemma MoveStep(rw: Rewriting, names: set<string>, done: set<string>, x: string, c: map<string, Branches>, before: map<string, Branches>)
    requires Injective(names, rw) && x in names && c.Keys <= names && Moved(rw, done, c, before)
    ensures Moved(rw, done + {x}, c, if NewName(rw, x) == x then before else MoveKey(before, (x, NewName(rw, x))))
  {
    if NewName(rw, x) == x {
      UnchangedStep(rw, done, x, c, before);
    } else {
      var after := MoveKey(before, (x, NewName(rw, x)));
      forall k | k in c ensures KeyMoved(rw, done + {x}, c, after, k) {
        KeyAfter(rw, names, done, x, c, before, k);
      }
      forall k' | k' in after ensures FromKey(rw, done + {x}, c, k') {
        KeyBefore(rw, names, done, x, c, before, k');
      }
    }
  }

  lemma UnchangedOrigin(rw: Rewriting, done: set<string>, x: string, c: map<string, Branches>, k': string)
    requires FromKey(rw, done, c, k') && NewName(rw, x) == x
    ensures FromKey(rw, done + {x}, c, k')
  {
    hide NewName;
    var k :| k in c && MovedName(rw, done, k) == k';
    assert MovedName(rw, done + {x}, k) == k';
  }

  lemma UnchangedStep(rw: Rewriting, done: set<string>, x: string, c: map<string, Branches>, before: map<string, Branches>)
    requires Moved(rw, done, c, before) && NewName(rw, x) == x
    ensures Moved(rw, done + {x}, c, before)
  {
    hide NewName;
    forall k ensures MovedName(rw, done + {x}, k) == MovedName(rw, done, k) {
    }
    forall k | k in c ensures KeyMoved(rw, done + {x}, c, before, k) {
      assert KeyMoved(rw, done, c, before, k);
    }
    forall k' | k' in before ensures FromKey(rw, done + {x}, c, k') {
      UnchangedOrigin(rw, done, x, c, k');
    }
  }

  /** The last entry is applied to what the earlier ones left. */
  lemma MoveKeysStep(rw: Rewriting, nodes: seq<Node>, n: nat, c: map<string, Branches>)
    requires n < |nodes|
    ensures var x, before := nodes[n].name, MoveKeys(c, RenameEntries(rw, nodes, n));
            MoveKeys(c, RenameEntries(rw, nodes, n + 1))
            == if NewName(rw, x) == x then before else MoveKey(before, (x, NewName(rw, x)))
  {
    var front, x := RenameEntries(rw, nodes, n), nodes[n].name;
    if NewName(rw, x) != x {
      var all := RenameEntries(rw, nodes, n + 1);
      assert all == front + [(x, NewName(rw, x))];
      assert all[..|all| - 1] == front;
    } else {
      assert RenameEntries(rw, nodes, n + 1) == front;
    }
  }

  ghost predicate MovedUpTo(rw: Rewriting, nodes: seq<Node>, n: nat, c: map<string, Branches>)
    requires n <= |nodes|
  {
    Moved(rw, NamesOf(nodes, n), c, MoveKeys(c, RenameEntries(rw, nodes, n)))
  }

  lemma MoveNode(rw: Rewriting, nodes: seq<Node>, n: nat, c: map<string, Branches>, names: set<string>)
    requires n < |nodes| && c.Keys <= names && Injective(names, rw) && nodes[n].name in names && MovedUpTo(rw, nodes, n, c)
    ensures MovedUpTo(rw, nodes, n + 1, c)
  {
    var done, before, x := NamesOf(nodes, n), MoveKeys(c, RenameEntries(rw, nodes, n)), nodes[n].name;
    assert NamesOf(nodes, n + 1) == done + {x};
    MoveKeysStep(rw, nodes, n, c);
    MoveStep(rw, names, done, x, c, before);
  }

  /** Moving the keys one entry at a time renames each exactly once. */
  lemma {:induction false} KeysMoved(rw: Rewriting, nodes: seq<Node>, n: nat, c: map<string, Branches>, names: set<string>)
    requires n <= |nodes| && c.Keys <= names && Injective(names, rw) && forall i :: 0 <= i < |nodes| ==> nodes[i].name in names
    ensures MovedUpTo(rw, nodes, n, c)
  {
    hide MovedUpTo;
    hide Injective;
    if n == 0 {
      NothingMoved(rw, nodes, c);
    } else {
      KeysMoved(rw, nodes, n - 1, c, names);
      MoveNode(rw, nodes, n - 1, c, names);
    }
  }

  lemma NothingMoved(rw: Rewriting, nodes: seq<Node>, c: map<string, Branches>)
    ensures MovedUpTo(rw, nodes, 0, c)
  {
    forall k' | k' in c ensures FromKey(rw, {}, c, k') {
      assert MovedName(rw, {}, k') == k';
    }
    assert Moved(rw, {}, c, c);
  }

  /** Outside the rewired keys, the Unlimited graph is the stripped graph with every name replaced by its new name:
      the same branches, slots and inputs. */
  ghost predicate SameShape(rw: Rewriting, c: map<string, Branches>, c': map<string, Branches>) {
    (forall p :: IsEdge(c, p) && !Special(p.key) ==> EdgeKept(rw, c, c', p))
    && (forall q :: IsEdge(c', q) && !Special(q.key) ==>
          exists k :: NewName(rw, k) == q.key && !Special(k) && IsEdge(c, q.(key := k)))
  }

  /** The edge at p reappears at the renamed key's same branch and slot, with a renamed target and the same input. */
  ghost predicate EdgeKept(rw: Rewriting, c: map<string, Branches>, c': map<string, Branches>, p: Place)
    requires IsEdge(c, p)
  {
    var q := p.(key := NewName(rw, p.key));
    IsEdge(c', q) && EdgeAt(c', q) == Edge(NewName(rw, EdgeAt(c, p).node), EdgeAt(c, p).index)
  }

  lemma {:induction false} SameNames(a: seq<Node>, b: seq<Node>, n: nat, x: string)
    requires n <= |a| == |b| && forall i :: 0 <= i < |a| ==> a[i].name == b[i].name
    ensures NamedUpTo(a, n, x) <==> NamedUpTo(b, n, x)
  {
    if n > 0 {
      SameNames(a, b, n - 1, x);
    }
  }

  lemma ReschedulingKeepsNames(nodes: seq<Node>, rw: Rewriting)
    ensures forall x :: HasNode(Rescheduled(nodes), x) <==> HasNode(nodes, x)
    ensures CollisionFree(nodes, rw) ==> CollisionFree(Rescheduled(nodes), rw)
  {
    forall x ensures HasNode(Rescheduled(nodes), x) <==> HasNode(nodes, x) {
      SameNames(Rescheduled(nodes), nodes, |nodes|, x);
    }
  }

  /** The rename map of a stripped workflow, and its connections before the rewiring. */
  function EntriesOf(s: Workflow, rw: Rewriting): seq<(string, string)> {
    RenameEntries(rw, Rescheduled(s.nodes), |Rescheduled(s.nodes)|)
  }

  function RenamedConnections(s: Workflow, rw: Rewriting): map<string, Branches> {
    RenameAllTargets(EntriesOf(s, rw), MoveKeys(s.connections, EntriesOf(s, rw)))
  }

  /** Every key is renamed with its branches, and every renamed key comes from one. */
  lemma RenamedKeys(s: Workflow, rw: Rewriting)
    requires Closed(s) && CollisionFree(s.nodes, rw)
    ensures forall k :: k in s.connections ==> RenamedKey(s, rw, k)
    ensures forall k' :: k' in RenamedConnections(s, rw) ==> exists k :: k in s.connections && NewName(rw, k) == k'
  {
    var nodes := Rescheduled(s.nodes);
    ReschedulingKeepsNames(s.nodes, rw);
    var moved, names := MoveKeys(s.connections, EntriesOf(s, rw)), NamesOf(nodes, |nodes|);
    NodesAreNamed(nodes);
    KeysMoved(rw, nodes, |nodes|, s.connections, names);
    forall k | k in s.connections ensures RenamedKey(s, rw, k) {
      assert KeyMoved(rw, names, s.connections, moved, k);
    }
    forall k' | k' in RenamedConnections(s, rw)
      ensures exists k :: k in s.connections && NewName(rw, k) == k'
    {
      assert FromKey(rw, names, s.connections, k');
      var k :| k in s.connections && MovedName(rw, names, k) == k';
      assert NewName(rw, k) == k';
    }
  }

  lemma NodesAreNamed(nodes: seq<Node>)
    ensures forall i :: 0 <= i < |nodes| ==> nodes[i].name in NamesOf(nodes, |nodes|)
  {
    forall i | 0 <= i < |nodes| ensures NamedUpTo(nodes, |nodes|, nodes[i].name) {
      NamedMeans(nodes, |nodes|, nodes[i].name);
    }
  }

  ghost predicate RenamedKey(s: Workflow, rw: Rewriting, k: string)
    requires k in s.connections
  {
    NewName(rw, k) in RenamedConnections(s, rw)
    && RenamedConnections(s, rw)[NewName(rw, k)] == RenameTargets(EntriesOf(s, rw), s.connections[k])
  }

  lemma TargetRenamed(s: Workflow, rw: Rewriting, x: string)
    requires HasNode(s.nodes, x)
    ensures LookUp(EntriesOf(s, rw), x) == NewName(rw, x)
  {
    var nodes := Rescheduled(s.nodes);
    ReschedulingKeepsNames(s.nodes, rw);
    LookUpIsNewName(rw, nodes, |nodes|, x);
  }

  /** Rewiring leaves every ordinary key alone and gives the special ones fixed edges. */
  lemma Rewired(c: map<string, Branches>)
    ensures forall k :: !Special(k) ==> (k in Rewire(c) <==> k in c) && (k in c ==> Rewire(c)[k] == c[k])
    ensures EDITION in Rewire(c) && Rewire(c)[EDITION] == [[Edge(LANGUAGE, 0)], [Edge(RUNOFF, 0)]]
    ensures (INSERT in Rewire(c) <==> INSERT in c) && (INSERT in c ==> Rewire(c)[INSERT] == [[Edge(EDITION, 0)]])
    ensures (SQL_LOG in Rewire(c) <==> SQL_LOG in c) && (SQL_LOG in c ==> Rewire(c)[SQL_LOG] == [[]])
  {
    SpecialNames();
  }

  lemma RewiringKeepsShape(s: Workflow, rw: Rewriting)
    requires Closed(s) && CollisionFree(s.nodes, rw) && KeepsPrefix(rw)
    ensures SameShape(rw, s.connections, Rewire(RenamedConnections(s, rw)))
  {
    var c := RenamedConnections(s, rw);
    var c' := Rewire(c);
    RenamedKeys(s, rw);
    Rewired(c);
    forall p | IsEdge(s.connections, p) && !Special(p.key)
      ensures EdgeKept(rw, s.connections, c', p)
    {
      SpecialsUntouched(rw, p.key);
      assert RenamedKey(s, rw, p.key);
      TargetRenamed(s, rw, EdgeAt(s.connections, p).node);
    }
    forall q | IsEdge(c', q) && !Special(q.key)
      ensures exists k :: NewName(rw, k) == q.key && !Special(k) && IsEdge(s.connections, q.(key := k))
    {
      var k :| k in s.connections && NewName(rw, k) == q.key;
      assert RenamedKey(s, rw, k);
      SpecialsUntouched(rw, k);
      assert IsEdge(s.connections, q.(key := k));
    }
  }

  lemma NodesRenamed(s: Workflow, grader: string, rw: Rewriting, firstId: nat, x: string)
    requires HasNode(s.nodes, x)
    ensures HasNode(Rebuilt(s, grader, rw, firstId).nodes, NewName(rw, x))
  {
    var nodes, u := Rescheduled(s.nodes), Rebuilt(s, grader, rw, firstId).nodes;
    ReschedulingKeepsNames(s.nodes, rw);
    NamedMeans(nodes, |nodes|, x);
    var i :| 0 <= i < |nodes| && nodes[i].name == x;
    assert u[i] == RewriteNode(rw, nodes[i].(id := firstId + i));
    NamedMeans(u, |u|, NewName(rw, x));
  }

  lemma EditionPresent(s: Workflow, grader: string, rw: Rewriting, firstId: nat)
    ensures HasNode(Rebuilt(s, grader, rw, firstId).nodes, EDITION)
  {
    var u := Rebuilt(s, grader, rw, firstId).nodes;
    assert u[|u| - 1].name == EDITION;
  }

  /** The new name of some node. */
  ghost predicate Renames(rw: Rewriting, nodes: seq<Node>, k': string) {
    exists y :: HasNode(nodes, y) && NewName(rw, y) == k'
  }

  ghost predicate HoldsBranchesOf(c: map<string, Branches>, branches: Branches) {
    exists k :: k in c && c[k] == branches
  }

  /** Collisions or not, a key is at every stage a new name or a name still waiting for its entry. */
  ghost predicate KeyKnown(rw: Rewriting, nodes: seq<Node>, n: nat, k': string)
    requires n <= |nodes|
  {
    Renames(rw, nodes, k') || (HasNode(nodes, k') && !NamedUpTo(nodes, n, k'))
  }

  ghost predicate KeysKnown(rw: Rewriting, nodes: seq<Node>, n: nat, c: map<string, Branches>, c': map<string, Branches>)
    requires n <= |nodes|
  {
    forall k' :: k' in c' ==> KeyKnown(rw, nodes, n, k') && HoldsBranchesOf(c, c'[k'])
  }

  lemma StillKnown(rw: Rewriting, nodes: seq<Node>, n: nat, k': string)
    requires n < |nodes| && KeyKnown(rw, nodes, n, k') && (k' != nodes[n].name || NewName(rw, k') == k')
    ensures KeyKnown(rw, nodes, n + 1, k')
  {
    NodeRenames(rw, nodes, n);
  }

  lemma KnownStep(rw: Rewriting, nodes: seq<Node>, n: nat, c: map<string, Branches>, before: map<string, Branches>)
    requires n < |nodes| && KeysKnown(rw, nodes, n, c, before)
    ensures var x := nodes[n].name;
            KeysKnown(rw, nodes, n + 1, c, if NewName(rw, x) == x then before else MoveKey(before, (x, NewName(rw, x))))
  {
    hide NewName;
    hide Renames;
    hide HoldsBranchesOf;
    hide HasNode;
    hide NamedUpTo;
    var x := nodes[n].name;
    var after := if NewName(rw, x) == x then before else MoveKey(before, (x, NewName(rw, x)));
    NodeRenames(rw, nodes, n);
    forall k' | k' in after ensures KeyKnown(rw, nodes, n + 1, k') && HoldsBranchesOf(c, after[k']) {
      if k' != NewName(rw, x) || k' == x {
        StillKnown(rw, nodes, n, k');
      }
    }
  }

  /** And it holds some original key's branches. */
  lemma {:induction false} KeysAreKnown(rw: Rewriting, nodes: seq<Node>, n: nat, c: map<string, Branches>)
    requires n <= |nodes| && forall k :: k in c ==> HasNode(nodes, k)
    ensures KeysKnown(rw, nodes, n, c, MoveKeys(c, RenameEntries(rw, nodes, n)))
  {
    hide KeysKnown;
    hide HasNode;
    hide NewName;
    hide MoveKey;
    if n == 0 {
      OwnKeysKnown(rw, nodes, c);
    } else {
      KeysAreKnown(rw, nodes, n - 1, c);
      MoveKeysStep(rw, nodes, n - 1, c);
      KnownStep(rw, nodes, n - 1, c, MoveKeys(c, RenameEntries(rw, nodes, n - 1)));
    }
  }

  lemma OwnKeysKnown(rw: Rewriting, nodes: seq<Node>, c: map<string, Branches>)
    requires forall k :: k in c ==> HasNode(nodes, k)
    ensures KeysKnown(rw, nodes, 0, c, c)
  {
  }

  /** Every key of the moved table is a node's new name, with some original key's branches. */
  lemma KeyOrigin(rw: Rewriting, nodes: seq<Node>, c: map<string, Branches>, k': string)
    requires (forall k :: k in c ==> HasNode(nodes, k)) && k' in MoveKeys(c, RenameEntries(rw, nodes, |nodes|))
    ensures Renames(rw, nodes, k') && HoldsBranchesOf(c, MoveKeys(c, RenameEntries(rw, nodes, |nodes|))[k'])
  {
    hide Renames;
    hide HoldsBranchesOf;
    KeysAreKnown(rw, nodes, |nodes|, c);
    assert KeyKnown(rw, nodes, |nodes|, k');
  }

  lemma NodeRenames(rw: Rewriting, nodes: seq<Node>, i: nat)
    requires i < |nodes|
    ensures Renames(rw, nodes, NewName(rw, nodes[i].name))
  {
    NamedMeans(nodes, |nodes|, nodes[i].name);
  }

  lemma RebuiltKeysNamed(s: Workflow, grader: string, rw: Rewriting, firstId: nat, k': string)
    requires Closed(s) && k' in Rewire(RenamedConnections(s, rw))
    ensures HasNode(Rebuilt(s, grader, rw, firstId).nodes, k')
  {
    EditionPresent(s, grader, rw, firstId);
    if k' != EDITION {
      Rewired(RenamedConnections(s, rw));
      var nodes := Rescheduled(s.nodes);
      ReschedulingKeepsNames(s.nodes, rw);
      KeyOrigin(rw, nodes, s.connections, k');
      var y :| HasNode(nodes, y) && NewName(rw, y) == k';
      NodesRenamed(s, grader, rw, firstId, y);
    }
  }

  /** The target of an ordinary edge of the rewired graph is the new name of a target of the stripped graph. */
  lemma TargetOrigin(s: Workflow, rw: Rewriting, q: Place) returns (p: Place)
    requires Closed(s) && !Special(q.key) && IsEdge(Rewire(RenamedConnections(s, rw)), q)
    ensures IsEdge(s.connections, p) && EdgeAt(Rewire(RenamedConnections(s, rw)), q).node == NewName(rw, EdgeAt(s.connections, p).node)
  {
    var nodes, moved := Rescheduled(s.nodes), MoveKeys(s.connections, EntriesOf(s, rw));
    Rewired(RenamedConnections(s, rw));
    ReschedulingKeepsNames(s.nodes, rw);
    KeyOrigin(rw, nodes, s.connections, q.key);
    var k :| k in s.connections && s.connections[k] == moved[q.key];
    p := Place(k, q.branch, q.slot);
    TargetRenamed(s, rw, EdgeAt(s.connections, p).node);
  }

  lemma RebuiltTargetsNamed(s: Workflow, grader: string, rw: Rewriting, firstId: nat, q: Place)
    requires Closed(s) && HasNode(s.nodes, LANGUAGE) && HasNode(s.nodes, RUNOFF)
    requires IsEdge(Rewire(RenamedConnections(s, rw)), q)
    ensures HasNode(Rebuilt(s, grader, rw, firstId).nodes, EdgeAt(Rewire(RenamedConnections(s, rw)), q).node)
  {
    if Special(q.key) {
      SpecialNames();
      Rewired(RenamedConnections(s, rw));
      EditionPresent(s, grader, rw, firstId);
      NodesRenamed(s, grader, rw, firstId, LANGUAGE);
      NodesRenamed(s, grader, rw, firstId, RUNOFF);
    } else {
      var p := TargetOrigin(s, rw, q);
      NodesRenamed(s, grader, rw, firstId, EdgeAt(s.connections, p).node);
    }
  }

  lemma RebuiltConnections(s: Workflow, grader: string, rw: Rewriting, firstId: nat)
    ensures Rebuilt(s, grader, rw, firstId).connections == Rewire(RenamedConnections(s, rw))
  {
  }

  /** With both filters' targets present every endpoint still names a node, even when new names collide. */
  lemma UnlimitedIsClosed(w: Workflow, grader: string, rw: Rewriting, firstId: nat)
    requires Closed(Strip(w, grader)) && HasNode(Strip(w, grader).nodes, LANGUAGE) && HasNode(Strip(w, grader).nodes, RUNOFF)
    ensures Closed(Unlimited(w, grader, rw, firstId))
  {
    var s := Strip(w, grader);
    var u := Rebuilt(s, grader, rw, firstId);
    RebuiltConnections(s, grader, rw, firstId);
    forall k | k in u.connections ensures HasNode(u.nodes, k) {
      RebuiltKeysNamed(s, grader, rw, firstId, k);
    }
    forall q | IsEdge(u.connections, q) ensures HasNode(u.nodes, EdgeAt(u.connections, q).node) {
      RebuiltTargetsNamed(s, grader, rw, firstId, q);
    }
  }

  /** With collision-free renaming the graph outside the rewired keys is the renamed graph. */
  lemma UnlimitedKeepsShape(w: Workflow, grader: string, rw: Rewriting, firstId: nat)
    requires Closed(Strip(w, grader)) && CollisionFree(Strip(w, grader).nodes, rw) && KeepsPrefix(rw)
    ensures SameShape(rw, Strip(w, grader).connections, Unlimited(w, grader, rw, firstId).connections)
  {
    RebuiltConnections(Strip(w, grader), grader, rw, firstId);
    RewiringKeepsShape(Strip(w, grader), rw);
  }

  // ----- keys that collide

  /** No changed name is the name of a node; two changed names may still be the same. */
  ghost predicate FreshNames(nodes: seq<Node>, rw: Rewriting) {
    forall x :: HasNode(nodes, x) && NewName(rw, x) != x ==> !HasNode(nodes, NewName(rw, x))
  }

  /** Node n is the first of its name, has connections and takes the new name z. */
  predicate TakesName(rw: Rewriting, nodes: seq<Node>, n: nat, c: map<string, Branches>, z: string)
    requires n < |nodes|
  {
    nodes[n].name in c && !NamedUpTo(nodes, n, nodes[n].name) && NewName(rw, nodes[n].name) == z && nodes[n].name != z
  }

  /** Of the keys among the first n nodes that take the new name z, the one walked last. */
  function LastTaker(rw: Rewriting, nodes: seq<Node>, n: nat, c: map<string, Branches>, z: string): Option<string>
    requires n <= |nodes|
  {
    if n == 0 then None
    else if TakesName(rw, nodes, n - 1, c, z) then Some(nodes[n - 1].name)
    else LastTaker(rw, nodes, n - 1, c, z)
  }

  /** The key whose branches the moved table holds under z. */
  ghost function Holder(rw: Rewriting, nodes: seq<Node>, n: nat, c: map<string, Branches>, z: string): Option<string>
    requires n <= |nodes|
  {
    if !HasNode(nodes, z) then LastTaker(rw, nodes, n, c, z)
    else if z in c && !(NamedUpTo(nodes, n, z) && NewName(rw, z) != z) then Some(z)
    else None
  }

  lemma {:induction false} HolderIsKey(rw: Rewriting, nodes: seq<Node>, n: nat, c: map<string, Branches>, z: string)
    requires n <= |nodes|
    ensures Holder(rw, nodes, n, c, z).Some? ==> Holder(rw, nodes, n, c, z).value in c
  {
    if n > 0 {
      HolderIsKey(rw, nodes, n - 1, c, z);
    }
  }

  lemma MovedExactlyStep(rw: Rewriting, nodes: seq<Node>, n: nat, c: map<string, Branches>, z: string, before: map<string, Branches>)
    requires n < |nodes| && FreshNames(nodes, rw) && forall k :: k in c ==> HasNode(nodes, k)
    requires HeldUpTo(rw, nodes, n, c, z, before) && HeldUpTo(rw, nodes, n, c, nodes[n].name, before)
    ensures var x := nodes[n].name;
            HeldUpTo(rw, nodes, n + 1, c, z, if NewName(rw, x) == x then before else MoveKey(before, (x, NewName(rw, x))))
  {
    hide NewName;
    NamedMeans(nodes, |nodes|, nodes[n].name);
    HolderIsKey(rw, nodes, n, c, z);
  }

  /** The table m holds under z what its holder among the first n nodes' moves had in c. */
  ghost predicate HeldUpTo(rw: Rewriting, nodes: seq<Node>, n: nat, c: map<string, Branches>, z: string, m: map<string, Branches>)
    requires n <= |nodes|
  {
    var holder := Holder(rw, nodes, n, c, z);
    (z in m <==> holder.Some?) && (z in m ==> holder.value in c && m[z] == c[holder.value])
  }

  /** Moving the keys leaves under every name the branches of the last key that took it, and nothing else. */
  lemma {:induction false} MovedExactly(rw: Rewriting, nodes: seq<Node>, n: nat, c: map<string, Branches>, z: string)
    requires n <= |nodes| && FreshNames(nodes, rw) && forall k :: k in c ==> HasNode(nodes, k)
    ensures HeldUpTo(rw, nodes, n, c, z, MoveKeys(c, RenameEntries(rw, nodes, n)))
  {
    hide NewName;
    hide HasNode;
    hide NamedUpTo;
    hide FreshNames;
    hide HeldUpTo;
    hide MoveKey;
    hide MoveKeys;
    hide RenameEntries;
    if n == 0 {
      HeldAtFirst(rw, nodes, c, z);
    } else {
      MovedExactly(rw, nodes, n - 1, c, z);
      MovedExactly(rw, nodes, n - 1, c, nodes[n - 1].name);
      MoveKeysStep(rw, nodes, n - 1, c);
      MovedExactlyStep(rw, nodes, n - 1, c, z, MoveKeys(c, RenameEntries(rw, nodes, n - 1)));
    }
  }

  lemma HeldAtFirst(rw: Rewriting, nodes: seq<Node>, c: map<string, Branches>, z: string)
    requires forall k :: k in c ==> HasNode(nodes, k)
    ensures HeldUpTo(rw, nodes, 0, c, z, MoveKeys(c, RenameEntries(rw, nodes, 0)))
  {
  }

  lemma {:induction false} TakerExists(rw: Rewriting, nodes: seq<Node>, n: nat, c: map<string, Branches>, x: string)
    requires n <= |nodes| && x in c && NamedUpTo(nodes, n, x) && NewName(rw, x) != x
    ensures LastTaker(rw, nodes, n, c, NewName(rw, x)).Some?
  {
    hide NewName;
    if !TakesName(rw, nodes, n - 1, c, NewName(rw, x)) {
      TakerExists(rw, nodes, n - 1, c, x);
    }
  }

  /** The key of the stripped workflow whose branches the Unlimited workflow holds under z. */
  ghost function HolderOf(s: Workflow, rw: Rewriting, z: string): Option<string> {
    Holder(rw, Rescheduled(s.nodes), |s.nodes|, s.connections, z)
  }

  /** Collisions included, as long as no changed name is a node's: every ordinary name holds exactly the branches, with
      renamed targets, of the key that kept it or of the last one walked that took it. */
  lemma SharedNameKeepsLast(w: Workflow, grader: string, rw: Rewriting, firstId: nat, z: string)
    requires Closed(Strip(w, grader)) && FreshNames(Strip(w, grader).nodes, rw) && !Special(z)
    ensures var s, u := Strip(w, grader), Unlimited(w, grader, rw, firstId).connections;
            (z in u <==> HolderOf(s, rw, z).Some?)
            && (z in u ==> HolderOf(s, rw, z).value in s.connections
                           && u[z] == RenameTargets(EntriesOf(s, rw), s.connections[HolderOf(s, rw, z).value]))
  {
    var s := Strip(w, grader);
    RebuiltConnections(s, grader, rw, firstId);
    Rewired(RenamedConnections(s, rw));
    ReschedulingKeepsNames(s.nodes, rw);
    MovedExactly(rw, Rescheduled(s.nodes), |s.nodes|, s.connections, z);
  }

  ghost predicate SameEdgeAt(rw: Rewriting, c: map<string, Branches>, p: Place, q: Place)
    requires IsEdge(c, p)
  {
    IsEdge(c, q) && EdgeAt(c, q).index == EdgeAt(c, p).index && NewName(rw, EdgeAt(c, q).node) == NewName(rw, EdgeAt(c, p).node)
  }

  lemma HolderExists(s: Workflow, rw: Rewriting, x: string)
    requires Closed(s) && FreshNames(s.nodes, rw) && x in s.connections
    ensures HolderOf(s, rw, NewName(rw, x)).Some?
  {
    hide NewName;
    var nodes := Rescheduled(s.nodes);
    ReschedulingKeepsNames(s.nodes, rw);
    if NewName(rw, x) != x {
      TakerExists(rw, nodes, |nodes|, s.connections, x);
    }
  }

  /** So an edge of an ordinary key survives exactly when the holder of its key's new name has the same edge in its place. */
  lemma EdgesKeptExactly(w: Workflow, grader: string, rw: Rewriting, firstId: nat, p: Place)
    requires Closed(Strip(w, grader)) && FreshNames(Strip(w, grader).nodes, rw) && KeepsPrefix(rw)
    requires IsEdge(Strip(w, grader).connections, p) && !Special(p.key)
    ensures var s := Strip(w, grader);
            var y := HolderOf(s, rw, NewName(rw, p.key));
            y.Some? && y.value in s.connections
            && (EdgeKept(rw, s.connections, Unlimited(w, grader, rw, firstId).connections, p)
                <==> SameEdgeAt(rw, s.connections, p, p.(key := y.value)))
  {
    hide HolderOf;
    hide Unlimited;
    var s := Strip(w, grader);
    var z := NewName(rw, p.key);
    SpecialsUntouched(rw, p.key);
    HolderExists(s, rw, p.key);
    SharedNameKeepsLast(w, grader, rw, firstId, z);
    var q := p.(key := HolderOf(s, rw, z).value);
    if IsEdge(s.connections, q) {
      TargetRenamed(s, rw, EdgeAt(s.connections, q).node);
    }
  }

  // ----- the Unlimited sibling and the Shadowless search

  /** An entry leaves the keys it does not name alone. */
  lemma {:induction false} UnnamedKeyStays(rw: Rewriting, nodes: seq<Node>, n: nat, c: map<string, Branches>, k: string)
    requires n <= |nodes| && forall i :: 0 <= i < |nodes| && NewName(rw, nodes[i].name) != nodes[i].name ==>
                                           nodes[i].name != k && NewName(rw, nodes[i].name) != k
    ensures var c' := MoveKeys(c, RenameEntries(rw, nodes, n));
            (k in c' <==> k in c) && (k in c ==> c'[k] == c[k])
  {
    hide NewName;
    if n > 0 {
      UnnamedKeyStays(rw, nodes, n - 1, c, k);
      MoveKeysStep(rw, nodes, n - 1, c);
    }
  }

  /** No node is renamed to the Shadowless search's name, nor to the token node's. */
  ghost predicate LeavesShadowlessAlone(rw: Rewriting, nodes: seq<Node>, grader: string) {
    forall i :: 0 <= i < |nodes| && NewName(rw, nodes[i].name) != nodes[i].name ==>
      NewName(rw, nodes[i].name) != ShadowlessName(grader) && NewName(rw, nodes[i].name) != TOKEN
  }

  lemma TokenIsOrdinary()
    ensures !IsSearch(TOKEN) && !Special(TOKEN)
  {
    assert TOKEN[1] == 'x' && INSERT[1] == 'n' && SQL_LOG[1] == 'o' && EDITION[1] == 'D';
    assert SEARCH[0] == 'e' && TOKEN[0] == 'E';
  }

  /** What the Unlimited connections say of the two keys through which a dangling reference could show. */
  lemma WatchedKeys(s: Workflow, grader: string, rw: Rewriting, firstId: nat)
    requires !HasNode(s.nodes, ShadowlessName(grader)) && LeavesShadowlessAlone(rw, s.nodes, grader)
    ensures var u, sl := Rebuilt(s, grader, rw, firstId).connections, ShadowlessName(grader);
            (sl in u <==> sl in s.connections)
            && (TOKEN in u <==> TOKEN in s.connections)
            && (TOKEN in u ==> u[TOKEN] == RenameTargets(EntriesOf(s, rw), s.connections[TOKEN]))
  {
    var nodes, sl := Rescheduled(s.nodes), ShadowlessName(grader);
    RebuiltConnections(s, grader, rw, firstId);
    Rewired(RenamedConnections(s, rw));
    ShadowlessIsNotSpecial(grader);
    TokenIsOrdinary();
    ReschedulingKeepsNames(s.nodes, rw);
    NamedMeans(nodes, |nodes|, sl);
    assert forall i :: 0 <= i < |nodes| ==> nodes[i].name == s.nodes[i].name;
    UnnamedKeyStays(rw, nodes, |nodes|, s.connections, sl);
    UnnamedKeyStays(rw, nodes, |nodes|, s.connections, TOKEN);
  }

  /** The Unlimited sibling is the same whether or not the Shadowless search had been added, exactly when the workflow
      had no dangling Shadowless reference; provided no renaming makes a Shadowless or token node. */
  lemma UnlimitedIgnoresShadowlessExactly(w: Workflow, grader: string, id: nat, url: string, notes: string, rw: Rewriting, firstId: nat)
    requires Add(w, grader, id, url, notes).1 == Added && LeavesShadowlessAlone(rw, w.nodes, grader)
    ensures Unlimited(Add(w, grader, id, url, notes).0, grader, rw, firstId) == Unlimited(w, grader, rw, firstId)
            <==> NoDangling(w, grader)
  {
    StripUndoesAddExactly(w, grader, id, url, notes);
    if !NoDangling(w, grader) {
      DanglingShows(w, grader, id, url, notes, rw, firstId);
    }
  }

  lemma DanglingShows(w: Workflow, grader: string, id: nat, url: string, notes: string, rw: Rewriting, firstId: nat)
    requires Add(w, grader, id, url, notes).1 == Added && LeavesShadowlessAlone(rw, w.nodes, grader) && !NoDangling(w, grader)
    ensures Unlimited(Add(w, grader, id, url, notes).0, grader, rw, firstId) != Unlimited(w, grader, rw, firstId)
  {
    var s := Strip(Add(w, grader, id, url, notes).0, grader);
    StrippedNodes(w, grader, id, url, notes);
    StrippedToken(w, grader, id, url, notes);
    WatchedKeys(w, grader, rw, firstId);
    WatchedKeys(s, grader, rw, firstId);
    var sl, token := ShadowlessName(grader), w.connections[TOKEN];
    ShadowlessIsNotSpecial(grader);
    EdgesWithout(token[0], sl);
    WithoutShrinks(token[0], sl);
    NodeAbsent(w, grader);
    hide Unlimited;
    var kept := token[0 := WithoutEdgesTo(token[0], sl)];
    assert s.connections[TOKEN] == kept;
    assert |RenameTargets(EntriesOf(w, rw), token)[0]| == |token[0]|;
    assert |RenameTargets(EntriesOf(s, rw), kept)[0]| == |kept[0]|;
  }

  lemma {:induction false} WithoutShrinks(branch: seq<Edge>, name: string)
    ensures |WithoutEdgesTo(branch, name)| == |branch| ==> WithoutEdgesTo(branch, name) == branch
  {
    if branch != [] {
      WithoutShrinks(branch[1..], name);
      EdgesWithout(branch[1..], name);
      assert branch == [branch[0]] + branch[1..];
    }
  }

  lemma NodeAbsent(w: Workflow, grader: string)
    requires !HasNode(w.nodes, ShadowlessName(grader))
    ensures Strip(w, grader) == w
  {
  }

  // ----- paths

  ghost predicate Linked(c: map<string, Branches>, x: string, y: string) {
    exists p :: IsEdge(c, p) && p.key == x && EdgeAt(c, p).node == y
  }

  ghost predicate IsPath(c: map<string, Branches>, path: seq<string>) {
    forall i :: 0 <= i < |path| - 1 ==> Linked(c, path[i], path[i + 1])
  }

  /** Every path out of the table insert goes to the edition filter first, so the language filter, or anything else,
      is reached only through it; and nothing is reached from the SQL log any more. */
  lemma InsertGoesThroughEditionFilter(w: Workflow, grader: string, rw: Rewriting, firstId: nat, path: seq<string>)
    requires |path| >= 2 && IsPath(Unlimited(w, grader, rw, firstId).connections, path)
    ensures path[0] == INSERT ==> path[1] == EDITION
    ensures path[0] == EDITION ==> path[1] == LANGUAGE || path[1] == RUNOFF
    ensures path[0] != SQL_LOG
  {
    SpecialNames();
    var s, u := Strip(w, grader), Unlimited(w, grader, rw, firstId).connections;
    RebuiltConnections(s, grader, rw, firstId);
    Rewired(RenamedConnections(s, rw));
    assert Linked(u, path[0], path[1]);
    var p :| IsEdge(u, p) && p.key == path[0] && EdgeAt(u, p).node == path[1];
  }

  /** The new detour exists whenever the insert had any connection: its only edge leads to the edition filter, whose first
      branch leads to the language filter and whose second to the rejection runoff. */
  lemma DetourExists(w: Workflow, grader: string, rw: Rewriting, firstId: nat)
    requires KeepsPrefix(rw) && INSERT in Strip(w, grader).connections
    ensures var u := Unlimited(w, grader, rw, firstId).connections;
            IsPath(u, [INSERT, EDITION, LANGUAGE])
            && INSERT in u && u[INSERT] == [[Edge("EDITION FILTER", 0)]]
            && EDITION in u && u[EDITION] == [[Edge("LANGUAGE FILTER", 0)], [Edge("FILTER REJECTION RUNOFF", 0)]]
  {
    var s, u := Strip(w, grader), Unlimited(w, grader, rw, firstId).connections;
    RebuiltConnections(s, grader, rw, firstId);
    Rewired(RenamedConnections(s, rw));
    InsertStays(s, rw);
    assert IsEdge(u, Place(INSERT, 0, 0)) && EdgeAt(u, Place(INSERT, 0, 0)).node == EDITION;
    assert IsEdge(u, Place(EDITION, 0, 0)) && EdgeAt(u, Place(EDITION, 0, 0)).node == LANGUAGE;
    assert Linked(u, INSERT, EDITION) && Linked(u, EDITION, LANGUAGE);
  }

  lemma InsertStays(s: Workflow, rw: Rewriting)
    requires KeepsPrefix(rw)
    ensures INSERT in RenamedConnections(s, rw) <==> INSERT in s.connections
  {
    SpecialNames();
    var nodes := Rescheduled(s.nodes);
    UnnamedKeyStays(rw, nodes, |nodes|, s.connections, INSERT);
  }
}
