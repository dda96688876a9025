/** The two in-place rewrites of the vintage workflows: adding the Shadowless search, and deriving the Unlimited sibling. */
module WorkflowRewrite {
  import opened Options

  const MERGE := "Merge"
  const TOKEN := "Extract Bearer Token"
  const INSERT := "Insert or update rows in a table"
  const LANGUAGE := "LANGUAGE FILTER"
  const EDITION := "EDITION FILTER"
  const RUNOFF := "FILTER REJECTION RUNOFF"
  const SQL_LOG := "Log into EventHorizon SQL"
  const SCHEDULE := "Schedule Trigger"
  const SEARCH := "eBay Search"
  const CRON := "0 0,30 * * * *"

  datatype Edge = Edge(node: string, index: nat)

  /** One node's outgoing branches (`main`). */
  type Branches = seq<seq<Edge>>

  /** `inputs` is the Merge node's numberInputs, `cron` the schedule node's expression. */
  datatype Node = Node(name: string, id: nat, url: Option<string>, notes: Option<string>, inputs: nat, cron: string)

  datatype Workflow = Workflow(title: string, active: bool, nodes: seq<Node>, connections: map<string, Branches>)

  /** The renaming and text rewriting applied to search nodes; the theorems hold for any of them
      that keeps the search prefix, as replacing an edition name does. */
  datatype Rewriting = Rewriting(name: string -> string, url: string -> string, notes: string -> string)

  ghost predicate KeepsPrefix(rw: Rewriting) {
    forall x :: SEARCH <= x ==> SEARCH <= rw.name(x)
  }

  function ShadowlessName(grader: string): string { SEARCH + " - " + grader + " Base Set Shadowless" }

  function Title(grader: string): string { "POKEMON-BHN | VINTAGE-" + grader + "-UNLIMITED" }

  /** `nodes.some(n => n.name === name)`, over the first n nodes. */
  predicate NamedUpTo(nodes: seq<Node>, n: nat, name: string)
    requires n <= |nodes|
  {
    n > 0 && (nodes[n - 1].name == name || NamedUpTo(nodes, n - 1, name))
  }

  predicate HasNode(nodes: seq<Node>, name: string) { NamedUpTo(nodes, |nodes|, name) }

  lemma {:induction false} NamedMeans(nodes: seq<Node>, n: nat, name: string)
    requires n <= |nodes|
    ensures NamedUpTo(nodes, n, name) <==> exists i :: 0 <= i < n && nodes[i].name == name
  {
    if n > 0 {
      NamedMeans(nodes, n - 1, name);
    }
  }

  /** `nodes.find(n => n.name === name)`, as an index; |nodes| when there is none. */
  function Find(nodes: seq<Node>, name: string): (i: nat)
    ensures i <= |nodes| && (i < |nodes| ==> nodes[i].name == name)
    ensures forall j :: 0 <= j < i ==> nodes[j].name != name
    decreases |nodes|
  {
    if nodes == [] then 0
    else if nodes[0].name == name then 0
    else
      var k := Find(nodes[1..], name);
      assert forall j :: 0 < j < k + 1 ==> nodes[j] == nodes[1..][j - 1];
      k + 1
  }

  // ----- transform 1

  datatype AddResult = Added | AlreadyThere | MergeMissing | TokenMissing

  /** `addShadowless`. A missing token connection is noticed only after the node has been pushed. */
  function Add(w: Workflow, grader: string, id: nat, url: string, notes: string): (Workflow, AddResult) {
    var sl, m := ShadowlessName(grader), Find(w.nodes, MERGE);
    if m == |w.nodes| then (w, MergeMissing)
    else if HasNode(w.nodes, sl) then (w, AlreadyThere)
    else
      var inputs := w.nodes[m].inputs;
      var w1 := w.(nodes := w.nodes[m := w.nodes[m].(inputs := inputs + 1)]
                            + [Node(sl, id, Some(url), Some(notes), 0, "")]);
      if TOKEN !in w.connections || w.connections[TOKEN] == [] then (w1, TokenMissing)
      else
        var token := w.connections[TOKEN];
        (w1.(connections := w.connections[TOKEN := token[0 := token[0] + [Edge(sl, 0)]]][sl := [[Edge(MERGE, inputs)]]]), Added)
  }

  // ----- transform 2

  function Without(nodes: seq<Node>, name: string): seq<Node> {
    if nodes == [] then []
    else (if nodes[0].name == name then [] else [nodes[0]]) + Without(nodes[1..], name)
  }

  function WithoutEdgesTo(branch: seq<Edge>, name: string): seq<Edge> {
    if branch == [] then []
    else (if branch[0].node == name then [] else [branch[0]]) + WithoutEdgesTo(branch[1..], name)
  }

  /** The part of `buildUnlimited` that takes the Shadowless search out again. */
  function Strip(w: Workflow, grader: string): Workflow {
    var sl := ShadowlessName(grader);
    if !HasNode(w.nodes, sl) then w
    else
      var nodes := Without(w.nodes, sl);
      var c1 := w.connections - {sl};
      var c2 := if TOKEN in c1 && c1[TOKEN] != [] then c1[TOKEN := c1[TOKEN][0 := WithoutEdgesTo(c1[TOKEN][0], sl)]] else c1;
      var m := Find(nodes, MERGE);
      var nodes' := if m < |nodes| && nodes[m].inputs > 0 then nodes[m := nodes[m].(inputs := nodes[m].inputs - 1)] else nodes;
      w.(nodes := nodes', connections := c2)
  }

  predicate IsSearch(name: string) { SEARCH <= name }

  function NewName(rw: Rewriting, name: string): string {
    if IsSearch(name) then rw.name(name) else name
  }

  function Mapped(f: string -> string, o: Option<string>): Option<string> {
    if o.Some? then Some(f(o.value)) else None
  }

  function RewriteNode(rw: Rewriting, n: Node): Node {
    if IsSearch(n.name) then n.(name := rw.name(n.name), url := Mapped(rw.url, n.url), notes := Mapped(rw.notes, n.notes)) else n
  }

  /** The entries of `renameMap`, in the order the nodes are walked. */
  function RenameEntries(rw: Rewriting, nodes: seq<Node>, n: nat): seq<(string, string)>
    requires n <= |nodes|
  {
    if n == 0 then []
    else
      var last := nodes[n - 1].name;
      RenameEntries(rw, nodes, n - 1) + if NewName(rw, last) != last then [(last, NewName(rw, last))] else []
  }

  /** One entry applied to the connection keys: move the edges, then delete the old key. */
  function MoveKey(c: map<string, Branches>, entry: (string, string)): map<string, Branches> {
    if entry.0 in c then c[entry.1 := c[entry.0]] - {entry.0} else c
  }

  function MoveKeys(c: map<string, Branches>, entries: seq<(string, string)>): map<string, Branches> {
    if |entries| == 0 then c else MoveKey(MoveKeys(c, entries[..|entries| - 1]), entries[|entries| - 1])
  }

  /** `renameMap[name]` where there is an entry. */
  function LookUp(entries: seq<(string, string)>, name: string): string {
    if |entries| == 0 then name
    else if entries[|entries| - 1].0 == name then entries[|entries| - 1].1
    else LookUp(entries[..|entries| - 1], name)
  }

  function RenameBranch(entries: seq<(string, string)>, branch: seq<Edge>): (r: seq<Edge>)
    ensures |r| == |branch|
  {
    seq(|branch|, i requires 0 <= i < |branch| => branch[i].(node := LookUp(entries, branch[i].node)))
  }

  function RenameTargets(entries: seq<(string, string)>, branches: Branches): (r: Branches)
    ensures |r| == |branches|
  {
    seq(|branches|, i requires 0 <= i < |branches| => RenameBranch(entries, branches[i]))
  }

  function RenameAllTargets(entries: seq<(string, string)>, c: map<string, Branches>): map<string, Branches> {
    map k | k in c :: RenameTargets(entries, c[k])
  }

  /** Insert -> EDITION FILTER -> LANGUAGE FILTER, and the Gixen edge dropped. */
  function Rewire(c: map<string, Branches>): map<string, Branches> {
    var c1 := if INSERT in c then c[INSERT := [[Edge(EDITION, 0)]]] else c;
    var c2 := c1[EDITION := [[Edge(LANGUAGE, 0)], [Edge(RUNOFF, 0)]]];
    if SQL_LOG in c2 then c2[SQL_LOG := [[]]] else c2
  }

  function Rescheduled(nodes: seq<Node>): seq<Node> {
    var i := Find(nodes, SCHEDULE);
    if i < |nodes| then nodes[i := nodes[i].(cron := CRON)] else nodes
  }

  /** Every node rewritten, with fresh ids counted up from `firstId`. */
  function RewriteNodes(rw: Rewriting, nodes: seq<Node>, firstId: nat): (r: seq<Node>)
    ensures |r| == |nodes|
  {
    seq(|nodes|, i requires 0 <= i < |nodes| => RewriteNode(rw, nodes[i].(id := firstId + i)))
  }

  function EditionNode(id: nat): Node { Node(EDITION, id, None, None, 0, "") }

  /** `buildUnlimited` after the strip. */
  function Rebuilt(s: Workflow, grader: string, rw: Rewriting, firstId: nat): Workflow {
    var nodes := Rescheduled(s.nodes);
    var entries := RenameEntries(rw, nodes, |nodes|);
    Workflow(Title(grader), false,
             RewriteNodes(rw, nodes, firstId) + [EditionNode(firstId + |nodes|)],
             Rewire(RenameAllTargets(entries, MoveKeys(s.connections, entries))))
  }

  /** `buildUnlimited`. */
  function Unlimited(w: Workflow, grader: string, rw: Rewriting, firstId: nat): Workflow {
    Rebuilt(Strip(w, grader), grader, rw, firstId)
  }

  lemma RenamesNothingYet(rw: Rewriting, nodes: seq<Node>)
    ensures RenameEntries(rw, nodes, 0) == []
  {
  }

  lemma RenameEntry(rw: Rewriting, nodes: seq<Node>, i: nat)
    requires i < |nodes|
    ensures RenameEntries(rw, nodes, i + 1)
         == if NewName(rw, nodes[i].name) == nodes[i].name then RenameEntries(rw, nodes, i)
            else RenameEntries(rw, nodes, i) + [(nodes[i].name, NewName(rw, nodes[i].name))]
  {
    assert RenameEntries(rw, nodes, i) + [] == RenameEntries(rw, nodes, i);
  }

  // ----- the program

  class Editor {
    var title: string
    var active: bool
    var nodes: seq<Node>
    var connections: map<string, Branches>

    constructor (w: Workflow)
      ensures View() == w
    {
      title, active, nodes, connections := w.title, w.active, w.nodes, w.connections;
    }

    function View(): Workflow
      reads this
    {
      Workflow(title, active, nodes, connections)
    }

    method AddShadowless(grader: string, id: nat, url: string, notes: string) returns (r: AddResult)
      modifies this
      ensures (View(), r) == Add(old(View()), grader, id, url, notes)
    {
      var m := Find(nodes, MERGE);
      if m == |nodes| {
        return MergeMissing;
      }
      var name := ShadowlessName(grader);
      if HasNode(nodes, name) {
        return AlreadyThere;
      }
      var inputs := nodes[m].inputs;
      nodes := nodes[m := nodes[m].(inputs := inputs + 1)];
      nodes := nodes + [Node(name, id, Some(url), Some(notes), 0, "")];
      if TOKEN !in connections || connections[TOKEN] == [] {
        return TokenMissing;
      }
      var token := connections[TOKEN];
      connections := connections[TOKEN := token[0 := token[0] + [Edge(name, 0)]]];
      connections := connections[name := [[Edge(MERGE, inputs)]]];
      return Added;
    }

    /** The strip branch, on the clone. */
    method StripShadowless(grader: string)
      modifies this
      ensures View() == Strip(old(View()), grader)
    {
      hide Find;
      hide HasNode;
      hide Without;
      hide WithoutEdgesTo;
      var name := ShadowlessName(grader);
      if !HasNode(nodes, name) {
        return;
      }
      nodes := Without(nodes, name);
      connections := connections - {name};
      if TOKEN in connections && connections[TOKEN] != [] {
        var token := connections[TOKEN];
        connections := connections[TOKEN := token[0 := WithoutEdgesTo(token[0], name)]];
      }
      var m := Find(nodes, MERGE);
      if m < |nodes| && nodes[m].inputs > 0 {
        nodes := nodes[m := nodes[m].(inputs := nodes[m].inputs - 1)];
      }
    }

    /** The node walk: fresh ids, new names and texts, and the rename map. */
    method RewriteAll(rw: Rewriting, firstId: nat) returns (entries: seq<(string, string)>)
      modifies this`nodes
      ensures nodes == RewriteNodes(rw, old(nodes), firstId) && entries == RenameEntries(rw, old(nodes), |old(nodes)|)
    {
      hide RenameEntries;
      entries := [];
      RenamesNothingYet(rw, nodes);
      ghost var before := nodes;
      for i := 0 to |nodes|
        invariant |nodes| == |before|
        invariant forall j :: i <= j < |before| ==> nodes[j] == before[j]
        invariant forall j :: 0 <= j < i ==> nodes[j] == RewriteNode(rw, before[j].(id := firstId + j))
        invariant entries == RenameEntries(rw, before, i)
      {
        var n := nodes[i];
        RenameEntry(rw, before, i);
        if IsSearch(n.name) {
          var renamed := rw.name(n.name);
          if renamed != n.name {
            entries := entries + [(n.name, renamed)];
          }
          nodes := nodes[i := Node(renamed, firstId + i, Mapped(rw.url, n.url), Mapped(rw.notes, n.notes), n.inputs, n.cron)];
        } else {
          nodes := nodes[i := n.(id := firstId + i)];
        }
      }
    }

    /** Connection keys first, one entry at a time, then every edge's target. */
    method RenameConnections(entries: seq<(string, string)>)
      modifies this`connections
      ensures connections == RenameAllTargets(entries, MoveKeys(old(connections), entries))
    {
      assert entries[..0] == [];
      for i := 0 to |entries|
        invariant connections == MoveKeys(old(connections), entries[..i])
      {
        assert entries[..i + 1][..i] == entries[..i];
        if entries[i].0 in connections {
          connections := connections[entries[i].1 := connections[entries[i].0]];
          connections := connections - {entries[i].0};
        }
      }
      assert entries[..|entries|] == entries;
      ghost var moved := connections;
      var todo := connections.Keys;
      while todo != {}
        invariant todo <= connections.Keys == moved.Keys
        invariant forall k :: k in moved ==>
                    connections[k] == if k in todo then moved[k] else RenameTargets(entries, moved[k])
      {
        var k :| k in todo;
        connections := connections[k := RenameTargets(entries, connections[k])];
        todo := todo - {k};
      }
      assert connections == RenameAllTargets(entries, moved);
    }

    /** The EDITION FILTER spliced in and the Gixen edge dropped. */
    method RewireConnections()
      modifies this`connections
      ensures connections == Rewire(old(connections))
    {
      if INSERT in connections {
        connections := connections[INSERT := [[Edge(EDITION, 0)]]];
      }
      connections := connections[EDITION := [[Edge(LANGUAGE, 0)], [Edge(RUNOFF, 0)]]];
      if SQL_LOG in connections {
        connections := connections[SQL_LOG := [[]]];
      }
    }

    method Reschedule()
      modifies this`nodes
      ensures nodes == Rescheduled(old(nodes))
    {
      var s := Find(nodes, SCHEDULE);
      if s < |nodes| {
        nodes := nodes[s := nodes[s].(cron := CRON)];
      }
    }

    /** `buildUnlimited`; this editor holds the deep clone. */
    method BuildUnlimited(grader: string, rw: Rewriting, firstId: nat)
      modifies this
      ensures View() == Unlimited(old(View()), grader, rw, firstId)
    {
      hide Strip;
      hide Rescheduled;
      hide RenameEntries;
      hide RenameAllTargets;
      hide MoveKeys;
      hide Rewire;
      StripShadowless(grader);
      title, active := Title(grader), false;
      Reschedule();
      var count := |nodes|;
      var entries := RewriteAll(rw, firstId);
      RenameConnections(entries);
      nodes := nodes + [EditionNode(firstId + count)];
      RewireConnections();
    }
  }

  // ----- adding is idempotent and keeps the Merge wiring sound

  lemma AddIsIdempotent(w: Workflow, grader: string, id: nat, url: string, notes: string, id': nat)
    requires Add(w, grader, id, url, notes).1 == Added
    ensures Add(Add(w, grader, id, url, notes).0, grader, id', url, notes) == (Add(w, grader, id, url, notes).0, AlreadyThere)
  {
    var w', m := Add(w, grader, id, url, notes).0, Find(w.nodes, MERGE);
    assert w'.nodes[|w.nodes|].name == ShadowlessName(grader);
    assert w'.nodes[m].name == MERGE;
  }

  /** A place in the connection table. */
  datatype Place = Place(key: string, branch: nat, slot: nat)

  predicate IsEdge(c: map<string, Branches>, p: Place) {
    p.key in c && p.branch < |c[p.key]| && p.slot < |c[p.key][p.branch]|
  }

  function EdgeAt(c: map<string, Branches>, p: Place): Edge
    requires IsEdge(c, p)
  {
    c[p.key][p.branch][p.slot]
  }

  /** The edges into Merge use different inputs, all below numberInputs. */
  ghost predicate MergeSound(w: Workflow) {
    var m := Find(w.nodes, MERGE);
    m < |w.nodes|
    && (forall p :: IsEdge(w.connections, p) && EdgeAt(w.connections, p).node == MERGE ==>
          EdgeAt(w.connections, p).index < w.nodes[m].inputs)
    && (forall p, q ::
          IsEdge(w.connections, p) && IsEdge(w.connections, q)
          && EdgeAt(w.connections, p).node == EdgeAt(w.connections, q).node == MERGE
          && EdgeAt(w.connections, p).index == EdgeAt(w.connections, q).index
          ==> p == q)
  }

  lemma ShadowlessIsNotSpecial(grader: string)
    ensures var sl := ShadowlessName(grader); sl != MERGE && sl != TOKEN && sl != INSERT && sl != EDITION && sl != SQL_LOG
  {
    assert ShadowlessName(grader)[0] == 'e';
  }

  lemma AddKeepsMergeSound(w: Workflow, grader: string, id: nat, url: string, notes: string)
    requires MergeSound(w) && Add(w, grader, id, url, notes).1 == Added
    ensures MergeSound(Add(w, grader, id, url, notes).0)
  {
    ShadowlessIsNotSpecial(grader);
    var w', sl, m := Add(w, grader, id, url, notes).0, ShadowlessName(grader), Find(w.nodes, MERGE);
    var m' := Find(w'.nodes, MERGE);
    assert w'.nodes[m].name == MERGE && forall j :: 0 <= j < m ==> w'.nodes[j].name != MERGE;
    assert m' == m;
    forall p | IsEdge(w'.connections, p) && EdgeAt(w'.connections, p).node == MERGE
      ensures p == Place(sl, 0, 0) || (IsEdge(w.connections, p) && EdgeAt(w.connections, p) == EdgeAt(w'.connections, p))
      ensures EdgeAt(w'.connections, p).index <= w.nodes[m].inputs
      ensures EdgeAt(w'.connections, p).index == w.nodes[m].inputs ==> p == Place(sl, 0, 0)
    {
      if p.key == TOKEN {
        assert p.branch == 0 ==> p.slot < |w.connections[TOKEN][0]|;
      }
    }
  }

  // ----- stripping undoes adding

  /** Nothing in the connection table speaks of the Shadowless search although its node is absent. */
  ghost predicate NoDangling(w: Workflow, grader: string) {
    var sl := ShadowlessName(grader);
    sl !in w.connections
    && (TOKEN in w.connections && w.connections[TOKEN] != [] ==> forall e :: e in w.connections[TOKEN][0] ==> e.node != sl)
  }

  lemma {:induction false} WithoutNone(nodes: seq<Node>, name: string)
    requires forall i :: 0 <= i < |nodes| ==> nodes[i].name != name
    ensures Without(nodes, name) == nodes
  {
    if nodes != [] {
      WithoutNone(nodes[1..], name);
    }
  }

  lemma {:induction false} WithoutAppend(a: seq<Node>, n: Node, name: string)
    ensures Without(a + [n], name) == Without(a, name) + if n.name == name then [] else [n]
  {
    if a != [] {
      assert (a + [n])[1..] == a[1..] + [n];
      WithoutAppend(a[1..], n, name);
    }
  }

  lemma {:induction false} EdgesWithout(branch: seq<Edge>, name: string)
    ensures WithoutEdgesTo(branch, name) == branch <==> forall e :: e in branch ==> e.node != name
    ensures |WithoutEdgesTo(branch, name)| <= |branch|
  {
    if branch != [] {
      EdgesWithout(branch[1..], name);
      assert branch == [branch[0]] + branch[1..];
    }
  }

  lemma {:induction false} EdgesAppend(a: seq<Edge>, e: Edge, name: string)
    ensures WithoutEdgesTo(a + [e], name) == WithoutEdgesTo(a, name) + if e.node == name then [] else [e]
  {
    if a != [] {
      assert (a + [e])[1..] == a[1..] + [e];
      EdgesAppend(a[1..], e, name);
    }
  }

  /** The connections left by stripping after adding: no Shadowless key, and the token's first branch without edges to it. */
  lemma StrippedToken(w: Workflow, grader: string, id: nat, url: string, notes: string)
    requires Add(w, grader, id, url, notes).1 == Added
    ensures var sl, token := ShadowlessName(grader), w.connections[TOKEN];
            Strip(Add(w, grader, id, url, notes).0, grader).connections
            == (w.connections - {sl})[TOKEN := token[0 := WithoutEdgesTo(token[0], sl)]]
  {
    ShadowlessIsNotSpecial(grader);
    var sl, w' := ShadowlessName(grader), Add(w, grader, id, url, notes).0;
    StrippedNodes(w, grader, id, url, notes);
    var token := w.connections[TOKEN];
    EdgesAppend(token[0], Edge(sl, 0), sl);
    var kept := WithoutEdgesTo(token[0], sl);
    assert (w'.connections - {sl})[TOKEN] == token[0 := token[0] + [Edge(sl, 0)]];
    assert WithoutEdgesTo(token[0] + [Edge(sl, 0)], sl) == kept + [] == kept;
    assert token[0 := token[0] + [Edge(sl, 0)]][0 := kept] == token[0 := kept];
    assert w'.connections - {sl} == (w.connections - {sl})[TOKEN := token[0 := token[0] + [Edge(sl, 0)]]];
  }

  /** Stripping after adding gives the workflow back, node for node and edge for edge, exactly when it had no
      dangling Shadowless reference. */
  lemma StripUndoesAddExactly(w: Workflow, grader: string, id: nat, url: string, notes: string)
    requires Add(w, grader, id, url, notes).1 == Added
    ensures Strip(Add(w, grader, id, url, notes).0, grader) == w <==> NoDangling(w, grader)
  {
    ShadowlessIsNotSpecial(grader);
    StrippedNodes(w, grader, id, url, notes);
    StrippedToken(w, grader, id, url, notes);
    hide Strip;
    var sl, token := ShadowlessName(grader), w.connections[TOKEN];
    EdgesWithout(token[0], sl);
    var c := (w.connections - {sl})[TOKEN := token[0 := WithoutEdgesTo(token[0], sl)]];
    if NoDangling(w, grader) {
      assert token[0 := token[0]] == token;
      assert c == w.connections;
      StripKeepsHeader(w, grader, id, url, notes);
    } else if sl in w.connections {
      assert sl !in c;
    } else {
      assert c[TOKEN][0] != token[0];
    }
  }

  lemma StripKeepsHeader(w: Workflow, grader: string, id: nat, url: string, notes: string)
    ensures var s := Strip(Add(w, grader, id, url, notes).0, grader); s.title == w.title && s.active == w.active
  {
    hide Without;
    hide WithoutEdgesTo;
  }

  lemma StrippedNodes(w: Workflow, grader: string, id: nat, url: string, notes: string)
    requires Add(w, grader, id, url, notes).1 == Added
    ensures var w' := Add(w, grader, id, url, notes).0;
            HasNode(w'.nodes, ShadowlessName(grader)) && Strip(w', grader).nodes == w.nodes
  {
    hide Without;
    hide WithoutEdgesTo;
    ShadowlessIsNotSpecial(grader);
    var sl, m, w' := ShadowlessName(grader), Find(w.nodes, MERGE), Add(w, grader, id, url, notes).0;
    assert w'.nodes[|w.nodes|].name == sl;
    var bumped := w.nodes[m := w.nodes[m].(inputs := w.nodes[m].inputs + 1)];
    NamedMeans(w.nodes, |w.nodes|, sl);
    WithoutNone(bumped, sl);
    WithoutAppend(bumped, w'.nodes[|w.nodes|], sl);
    assert Without(w'.nodes, sl) == bumped;
    var k := Find(bumped, MERGE);
    assert bumped[m].name == MERGE && forall j :: 0 <= j < m ==> bumped[j].name != MERGE;
    assert k == m;
  }

  // ----- what the rewrites leave in the nodes and edges themselves

  /** Node m is the first with this name. */
  ghost predicate FirstNamed(nodes: seq<Node>, m: nat, name: string) {
    m < |nodes| && nodes[m].name == name && forall j :: 0 <= j < m ==> nodes[j].name != name
  }

  lemma FindsFirst(nodes: seq<Node>, m: nat, name: string)
    requires FirstNamed(nodes, m, name)
    ensures Find(nodes, name) == m
  {
  }

  /** An insertion that goes through adds one search node at the end, an edge to it at the end of the token node's first
      branch, and its one edge into the Merge node's next input, which the Merge node then counts; nothing else changes. */
  lemma AddInserts(w: Workflow, grader: string, id: nat, url: string, notes: string, m: nat)
    requires FirstNamed(w.nodes, m, "Merge") && Add(w, grader, id, url, notes).1 == Added
    ensures var w', name, token := Add(w, grader, id, url, notes).0, "eBay Search - " + grader + " Base Set Shadowless", "Extract Bearer Token";
            w'.title == w.title && w'.active == w.active && |w'.nodes| == |w.nodes| + 1
            && w'.nodes[|w.nodes|] == Node(name, id, Some(url), Some(notes), 0, "")
            && (forall i :: 0 <= i < |w.nodes| ==>
                  w'.nodes[i] == if i == m then w.nodes[m].(inputs := w.nodes[m].inputs + 1) else w.nodes[i])
            && token in w.connections && w.connections[token] != []
            && w'.connections.Keys == w.connections.Keys + {name}
            && w'.connections[name] == [[Edge("Merge", w.nodes[m].inputs)]]
            && w'.connections[token] == [w.connections[token][0] + [Edge(name, 0)]] + w.connections[token][1..]
            && forall k :: k in w.connections && k != name && k != token ==> w'.connections[k] == w.connections[k]
  {
    FindsFirst(w.nodes, m, MERGE);
    ShadowlessIsNotSpecial(grader);
    assert SEARCH + " - " == "eBay Search - ";
    assert ShadowlessName(grader) == "eBay Search - " + grader + " Base Set Shadowless";
  }

  /** When an insertion does not go through: no Merge node; a node of that name already; or, with the node already pushed and
      counted, no branch at the token node. */
  lemma AddResultExactly(w: Workflow, grader: string, id: nat, url: string, notes: string)
    ensures var (w', r), name := Add(w, grader, id, url, notes), ShadowlessName(grader);
            (r == MergeMissing <==> forall i :: 0 <= i < |w.nodes| ==> w.nodes[i].name != "Merge")
            && (r == AlreadyThere <==> r != MergeMissing && exists i :: 0 <= i < |w.nodes| && w.nodes[i].name == name)
            && (r == TokenMissing ==> "Extract Bearer Token" !in w.connections || w.connections["Extract Bearer Token"] == [])
            && (r == MergeMissing || r == AlreadyThere ==> w' == w)
            && (r == TokenMissing ==> w'.connections == w.connections && |w'.nodes| == |w.nodes| + 1)
  {
    NamedMeans(w.nodes, |w.nodes|, ShadowlessName(grader));
  }

  /** Node i of the stripped workflow as the Unlimited workflow has it: a fresh id; a search node's name, url and notes
      rewritten; the first schedule trigger on the half-hourly plan; the rest as it was. */
  lemma UnlimitedNode(w: Workflow, grader: string, rw: Rewriting, firstId: nat, i: nat)
    requires i < |Strip(w, grader).nodes|
    ensures var n, u := Strip(w, grader).nodes[i], Unlimited(w, grader, rw, firstId).nodes;
            |u| == |Strip(w, grader).nodes| + 1
            && var n' := u[i];
               n'.id == firstId + i && n'.inputs == n.inputs
               && n'.cron == (if FirstNamed(Strip(w, grader).nodes, i, "Schedule Trigger") then "0 0,30 * * * *" else n.cron)
               && if "eBay Search" <= n.name then
                    n'.name == rw.name(n.name)
                    && n'.url == (if n.url.Some? then Some(rw.url(n.url.value)) else None)
                    && n'.notes == (if n.notes.Some? then Some(rw.notes(n.notes.value)) else None)
                  else n'.name == n.name && n'.url == n.url && n'.notes == n.notes
  {
    hide Strip;
    hide RenameEntries;
    hide Rewire;
  }

  /** The sibling's header and its new last node. */
  lemma UnlimitedHeader(w: Workflow, grader: string, rw: Rewriting, firstId: nat)
    ensures var u, n := Unlimited(w, grader, rw, firstId), |Strip(w, grader).nodes|;
            u.title == "POKEMON-BHN | VINTAGE-" + grader + "-UNLIMITED" && !u.active && |u.nodes| == n + 1
            && u.nodes[n] == Node("EDITION FILTER", firstId + n, None, None, 0, "")
  {
    hide Strip;
    hide RenameEntries;
    hide Rewire;
  }

  /** What the strip takes out of a workflow that has the Shadowless node: every node of that name, its own connections, the
      edges to it in the token node's first branch, and one of the Merge node's inputs; nothing else. */
  lemma StripRemoves(w: Workflow, grader: string)
    requires HasNode(w.nodes, ShadowlessName(grader))
    ensures var s, name, token := Strip(w, grader), ShadowlessName(grader), "Extract Bearer Token";
            var kept := Without(w.nodes, name);
            s.title == w.title && s.active == w.active && |s.nodes| == |kept|
            && (forall i :: 0 <= i < |kept| ==>
                  s.nodes[i] == if FirstNamed(kept, i, "Merge") && kept[i].inputs > 0 then kept[i].(inputs := kept[i].inputs - 1) else kept[i])
            && s.connections.Keys == w.connections.Keys - {name}
            && forall k :: k in s.connections ==>
                 s.connections[k] == if k == token && w.connections[k] != [] then
                                       [WithoutEdgesTo(w.connections[k][0], name)] + w.connections[k][1..]
                                     else w.connections[k]
  {
    hide Without;
    hide WithoutEdgesTo;
    ShadowlessIsNotSpecial(grader);
  }
}
