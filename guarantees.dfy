/** The guarantees of `_process_method` and `generate_graph` stated on the graph itself:
    the recursive invariant of module Wiring unfolded into statements about every node and
    every connection, the event node and its description, and the concatenation of the
    methods' graphs. */
module Guarantees {
  import opened Wrappers
  import opened Graph
  import opened Parser
  import opened Builders
  import opened Synthesis
  import opened Wiring

  // ---------------------------------------------------------------------------------
  // The recursive invariants, element by element
  // ---------------------------------------------------------------------------------

  /** A guid of the list is the guid of one of its nodes, and conversely. */
  lemma {:induction false} GuidsMember(nodes: seq<Node>, x: nat)
    ensures x in Guids(nodes) <==> exists i :: 0 <= i < |nodes| && nodes[i].guid == x
    decreases |nodes|
  {
    if |nodes| > 0 {
      var n := |nodes| - 1;
      GuidsMember(nodes[..n], x);
      if x in Guids(nodes[..n]) {
        var i :| 0 <= i < n && nodes[..n][i].guid == x;
        assert nodes[i].guid == x;
      }
      if exists i :: 0 <= i < |nodes| && nodes[i].guid == x {
        var i :| 0 <= i < |nodes| && nodes[i].guid == x;
        if i < n {
          assert nodes[..n][i].guid == x;
        }
      }
    }
  }

  /** A statement guid is the guid of one of the statement nodes, and conversely. */
  lemma {:induction false} StatementsMember(nodes: seq<Node>, x: nat)
    ensures x in Statements(nodes) <==> exists i :: 0 <= i < |nodes| && nodes[i].guid == x && IsStatement(nodes[i].kind)
    decreases |nodes|
  {
    if |nodes| > 0 {
      var n := |nodes| - 1;
      StatementsMember(nodes[..n], x);
      if x in Statements(nodes[..n]) {
        var i :| 0 <= i < n && nodes[..n][i].guid == x && IsStatement(nodes[..n][i].kind);
        assert nodes[i] == nodes[..n][i];
      }
      if exists i :: 0 <= i < |nodes| && nodes[i].guid == x && IsStatement(nodes[i].kind) {
        var i :| 0 <= i < |nodes| && nodes[i].guid == x && IsStatement(nodes[i].kind);
        if i < n {
          assert nodes[..n][i] == nodes[i];
        }
      }
    }
  }

  /** Fresh node ids lie in `[base, top)` and strictly increase along the list, so no two
      nodes share one. */
  lemma {:induction false} NodesFreshAll(nodes: seq<Node>, base: nat, top: nat)
    requires NodesFresh(nodes, base, top)
    ensures forall i :: 0 <= i < |nodes| ==> base <= nodes[i].guid < top
    ensures forall i, j :: 0 <= i < j < |nodes| ==> nodes[i].guid < nodes[j].guid
    decreases |nodes|
  {
    if |nodes| > 0 {
      var n := |nodes| - 1;
      NodesFreshAll(nodes[..n], base, nodes[n].guid);
      assert forall i :: 0 <= i < n ==> nodes[i] == nodes[..n][i];
    }
  }

  /** Fresh connection ids lie in `[base, top)` and strictly increase along the list. */
  lemma {:induction false} ConnsFreshAll(conns: seq<Connection>, base: nat, top: nat)
    requires ConnsFresh(conns, base, top)
    ensures forall i :: 0 <= i < |conns| ==> base <= conns[i].guid < top
    ensures forall i, j :: 0 <= i < j < |conns| ==> conns[i].guid < conns[j].guid
    decreases |conns|
  {
    if |conns| > 0 {
      var n := |conns| - 1;
      ConnsFreshAll(conns[..n], base, conns[n].guid);
      assert forall i :: 0 <= i < n ==> conns[i] == conns[..n][i];
    }
  }

  /** No connection dangles: each one starts at a node and ends at a statement node, both
      drawn before it. */
  lemma {:induction false} WiredAll(nodes: seq<Node>, conns: seq<Connection>)
    requires Wired(nodes, conns)
    ensures forall i :: 0 <= i < |conns| ==> Attached(nodes, conns[i])
    decreases |conns|
  {
    if |conns| > 0 {
      var n := |conns| - 1;
      WiredAll(nodes, conns[..n]);
      assert forall i :: 0 <= i < n ==> conns[i] == conns[..n][i];
    }
  }

  /** The i-th node sits at grid cell `start + i`. */
  lemma {:induction false} PlacedAll(nodes: seq<Node>, start: Pos)
    requires Placed(nodes, start)
    ensures forall i :: 0 <= i < |nodes| ==> nodes[i].position == Walk(start, i)
    decreases |nodes|
  {
    if |nodes| > 0 {
      var n := |nodes| - 1;
      PlacedAll(nodes[..n], start);
      assert forall i :: 0 <= i < n ==> nodes[i] == nodes[..n][i];
    }
  }

  /** No node has a description. */
  lemma {:induction false} BareAll(nodes: seq<Node>)
    requires Bare(nodes)
    ensures forall i :: 0 <= i < |nodes| ==> nodes[i].description == None
    decreases |nodes|
  {
    if |nodes| > 0 {
      var n := |nodes| - 1;
      BareAll(nodes[..n]);
      assert forall i :: 0 <= i < n ==> nodes[i] == nodes[..n][i];
    }
  }

  // ---------------------------------------------------------------------------------
  // Nodes are only ever appended
  // ---------------------------------------------------------------------------------

  lemma {:induction false} AuxNodesPrefix(a: Acc, pre: seq<Aux>)
    ensures a.nodes <= AddAuxNodes(a, pre).nodes
    decreases |pre|
  {
    if |pre| > 0 {
      AuxNodesPrefix(a, pre[..|pre| - 1]);
    }
  }

  lemma {:induction false} AddWiredPrefix(a: Acc, post: seq<Aux>, dst: nat)
    ensures a.nodes <= AddWired(a, post, dst).nodes
    decreases |post|
  {
    if |post| > 0 {
      AddWiredPrefix(a, post[..|post| - 1], dst);
    }
  }

  /** The value nodes, the link and the value connections keep the nodes before them. */
  lemma AuxLinkPrefix(b: Acc, ev: Option<nat>, pre: seq<Aux>, m: nat)
    ensures b.nodes <= WireAux(Link(AddAuxNodes(b, pre), ev, m), pre, m + 1, m).nodes
  {
    AuxNodesPrefix(b, pre);
    LinkWireNodes(AddAuxNodes(b, pre), ev, pre, m);
  }

  lemma StepPrefix(a: Acc, ev: Option<nat>, t: Template, pre: seq<Aux>, post: seq<Aux>)
    ensures a.nodes <= Step(a, ev, t, pre, post).nodes
  {
    AuxLinkPrefix(AddNode(a, t), ev, pre, a.gen.guid);
    AddWiredPrefix(Staged(a, ev, t, pre), post, a.gen.guid);
    StepIsStaged(a, ev, t, pre, post);
  }

  /** The category loops only append nodes. */
  lemma {:induction false} FoldPrefix(a: Acc, ev: Option<nat>, body: string, caps: seq<Capture>)
    ensures a.nodes <= Fold(a, ev, body, caps).nodes
    decreases |caps|
  {
    if |caps| > 0 {
      var n := |caps| - 1;
      FoldPrefix(a, ev, body, caps[..n]);
      var b := Fold(a, ev, body, caps[..n]);
      match MainOf(body, caps[n])
      case None =>
      case Some(t) => StepPrefix(b, ev, t, PreOf(caps[n]), PostOf(caps[n]));
    }
  }

  // ---------------------------------------------------------------------------------
  // The late description leaves everything else alone
  // ---------------------------------------------------------------------------------

  /** A description changed on node `k` changes no guid, statement or builder call ... */
  lemma {:induction false} RedescribeShape(nodes: seq<Node>, k: nat, d: Option<string>)
    requires k < |nodes|
    ensures Guids(nodes[k := nodes[k].(description := d)]) == Guids(nodes)
    ensures Statements(nodes[k := nodes[k].(description := d)]) == Statements(nodes)
    ensures StatementKinds(nodes[k := nodes[k].(description := d)]) == StatementKinds(nodes)
    decreases |nodes|
  {
    var n := |nodes| - 1;
    if k < n {
      assert nodes[k := nodes[k].(description := d)][..n] == nodes[..n][k := nodes[k].(description := d)];
      RedescribeShape(nodes[..n], k, d);
    } else {
      assert nodes[k := nodes[k].(description := d)][..n] == nodes[..n];
    }
  }

  /** ... no id ... */
  lemma {:induction false} RedescribeFresh(nodes: seq<Node>, k: nat, d: Option<string>, base: nat, top: nat)
    requires k < |nodes| && NodesFresh(nodes, base, top)
    ensures NodesFresh(nodes[k := nodes[k].(description := d)], base, top)
    decreases |nodes|
  {
    var n := |nodes| - 1;
    if k < n {
      assert nodes[k := nodes[k].(description := d)][..n] == nodes[..n][k := nodes[k].(description := d)];
      RedescribeFresh(nodes[..n], k, d, base, nodes[n].guid);
    } else {
      assert nodes[k := nodes[k].(description := d)][..n] == nodes[..n];
    }
  }

  /** ... and no position. */
  lemma {:induction false} RedescribePlaced(nodes: seq<Node>, k: nat, d: Option<string>, start: Pos)
    requires k < |nodes| && Placed(nodes, start)
    ensures Placed(nodes[k := nodes[k].(description := d)], start)
    decreases |nodes|
  {
    var n := |nodes| - 1;
    if k < n {
      assert nodes[k := nodes[k].(description := d)][..n] == nodes[..n][k := nodes[k].(description := d)];
      RedescribePlaced(nodes[..n], k, d, start);
    } else {
      assert nodes[k := nodes[k].(description := d)][..n] == nodes[..n];
    }
  }

  /** Whether a connection dangles depends on the nodes only through their guids and
      statements. */
  lemma {:induction false} WiredSameNodes(nodes: seq<Node>, nodes': seq<Node>, conns: seq<Connection>)
    requires Wired(nodes, conns)
    requires Guids(nodes') == Guids(nodes) && Statements(nodes') == Statements(nodes)
    ensures Wired(nodes', conns)
    decreases |conns|
  {
    if |conns| > 0 {
      WiredSameNodes(nodes, nodes', conns[..|conns| - 1]);
    }
  }

  // ---------------------------------------------------------------------------------
  // One method: the event node, then the category loops
  // ---------------------------------------------------------------------------------

  /** The state before the category loops keeps the invariant, from the counter and the
      cursor the method starts with. */
  lemma StartInv(m: MethodDecl, g: Gen)
    ensures Inv(StartAcc(m, g), EventId(m, g), g.guid, Pos(g.x, g.y))
    ensures StatementKinds(StartAcc(m, g).nodes) == []
  {
    var a0 := Acc([], [], None, g);
    assert Sound(a0, g.guid, Pos(g.x, g.y));
    if m.name in UnityEvents {
      AddNodeSound(a0, g.guid, Pos(g.x, g.y), TEvent(m.name));
      AddNodeStatements(a0, TEvent(m.name));
      AddNodeGuids(a0, TEvent(m.name));
      SoundAnyLast(AddNode(a0, TEvent(m.name)), g.guid, Pos(g.x, g.y), Some(g.guid));
      assert Cursors(EventId(m, g), StartAcc(m, g).nodes) == [g.guid];
    }
  }

  /** The state after the nine category loops, before the comments are attached. */
  function Folded(m: MethodDecl, bm: BodyMatches, g: Gen): Acc {
    Fold(StartAcc(m, g), EventId(m, g), m.body, AllCaptures(bm))
  }

  lemma FoldedInv(m: MethodDecl, bm: BodyMatches, g: Gen)
    ensures Inv(Folded(m, bm, g), EventId(m, g), g.guid, Pos(g.x, g.y))
  {
    StartInv(m, g);
    FoldKeeps(StartAcc(m, g), EventId(m, g), g.guid, Pos(g.x, g.y), m.body, AllCaptures(bm));
  }

  lemma FoldedKinds(m: MethodDecl, bm: BodyMatches, g: Gen)
    ensures StatementKinds(Folded(m, bm, g).nodes) == Mains(m.body, AllCaptures(bm))
  {
    StartInv(m, g);
    FoldKinds(StartAcc(m, g), EventId(m, g), m.body, AllCaptures(bm));
  }

  /** The event node stays the first node. */
  lemma FoldedEvent(m: MethodDecl, bm: BodyMatches, g: Gen)
    requires m.name in UnityEvents
    ensures |Folded(m, bm, g).nodes| > 0
    ensures Folded(m, bm, g).nodes[0] == Node(g.guid, Pos(g.x, g.y), TEvent(m.name), None)
  {
    FoldPrefix(StartAcc(m, g), EventId(m, g), m.body, AllCaptures(bm));
    assert StartAcc(m, g).nodes == [Node(g.guid, Pos(g.x, g.y), TEvent(m.name), None)];
  }

  /** `_process_method` is the category loops followed by the description step. */
  lemma ProcessMethodIsFolded(m: MethodDecl, bm: BodyMatches, g: Gen)
    ensures ProcessMethodSpec(m, bm, g)
            == Folded(m, bm, g).(nodes := Describe(Folded(m, bm, g).nodes, m, EventId(m, g)))
  {
  }

  /** The description step keeps every guid, statement, builder call, id and position. */
  lemma DescribeKeeps(nodes: seq<Node>, m: MethodDecl, ev: Option<nat>, base: nat, top: nat, start: Pos)
    requires NodesFresh(nodes, base, top) && Placed(nodes, start)
    ensures Guids(Describe(nodes, m, ev)) == Guids(nodes)
    ensures Statements(Describe(nodes, m, ev)) == Statements(nodes)
    ensures StatementKinds(Describe(nodes, m, ev)) == StatementKinds(nodes)
    ensures NodesFresh(Describe(nodes, m, ev), base, top) && Placed(Describe(nodes, m, ev), start)
  {
    if m.comments != "" && |nodes| > 0 && ev.Some? {
      RedescribeShape(nodes, 0, Some(m.comments));
      RedescribeFresh(nodes, 0, Some(m.comments), base, top);
      RedescribePlaced(nodes, 0, Some(m.comments), start);
    }
  }

  // ---------------------------------------------------------------------------------
  // The control chain, connection by connection
  // ---------------------------------------------------------------------------------

  predicate Increasing(xs: seq<nat>) {
    forall i, j :: 0 <= i < j < |xs| ==> xs[i] < xs[j]
  }

  /** The k-th control connection leaves the k-th cursor and enters the next one. */
  lemma {:induction false} ChainAt(cur: seq<nat>, ev: Option<nat>)
    ensures forall k :: 0 <= k < |Chain(cur, ev)| ==> Chain(cur, ev)[k] == Edge(cur[k], CursorKey(cur[k], ev), cur[k + 1], "enter")
    decreases |cur|
  {
    if |cur| >= 2 {
      var n := |cur| - 1;
      ChainAt(cur[..n], ev);
      assert forall k :: 0 <= k < n ==> cur[..n][k] == cur[k];
    }
  }

  /** The statement guids of fresh nodes lie in `[base, top)` and increase. */
  lemma {:induction false} StatementsIncreasing(nodes: seq<Node>, base: nat, top: nat)
    requires NodesFresh(nodes, base, top)
    ensures Increasing(Statements(nodes))
    ensures forall i :: 0 <= i < |Statements(nodes)| ==> base <= Statements(nodes)[i] < top
    decreases |nodes|
  {
    if |nodes| > 0 {
      var n := |nodes| - 1;
      StatementsIncreasing(nodes[..n], base, nodes[n].guid);
      StatementsSnoc(nodes[..n], nodes[n]);
      assert nodes[..n] + [nodes[n]] == nodes;
    }
  }

  /** The cursor history of a state that keeps the invariant increases: the event node
      comes first, and every statement node is drawn after it. */
  lemma CursorsIncreasing(nodes: seq<Node>, ev: Option<nat>, base: nat, top: nat)
    requires NodesFresh(nodes, base, top) && EventKept(nodes, ev, top)
    requires ev.Some? ==> |nodes| > 0 && nodes[0].guid == ev.value
    ensures Increasing(Cursors(ev, nodes))
  {
    StatementsIncreasing(nodes, base, top);
    if ev.Some? {
      var s := Statements(nodes);
      NodesFreshAll(nodes, base, top);
      forall i | 0 <= i < |s| ensures ev.value < s[i] {
        StatementsMember(nodes, s[i]);
        var j :| 0 <= j < |nodes| && nodes[j].guid == s[i] && IsStatement(nodes[j].kind);
        assert j != 0;
      }
      assert Cursors(ev, nodes) == [ev.value] + s;
    }
  }

  /** With an increasing cursor history, the control connections are exactly the steps
      of the history: each node of the history after the first is entered by exactly one
      of them, and the first (the event node, or the first statement when there is none)
      by none. */
  lemma ChainSteps(cur: seq<nat>, ev: Option<nat>)
    requires Increasing(cur)
    ensures |Chain(cur, ev)| == if |cur| == 0 then 0 else |cur| - 1
    ensures forall k :: 0 <= k < |Chain(cur, ev)| ==> Chain(cur, ev)[k] == Edge(cur[k], CursorKey(cur[k], ev), cur[k + 1], "enter")
    ensures forall k, k' :: 0 <= k < k' < |Chain(cur, ev)| ==> Chain(cur, ev)[k].dst != Chain(cur, ev)[k'].dst
    ensures forall k :: 0 <= k < |Chain(cur, ev)| ==> Chain(cur, ev)[k].dst != cur[0]
  {
    ChainAt(cur, ev);
    var e := Chain(cur, ev);
    forall k, k' | 0 <= k < k' < |e| ensures e[k].dst != e[k'].dst {
      assert e[k].dst == cur[k + 1] && e[k'].dst == cur[k' + 1];
    }
    forall k | 0 <= k < |e| ensures e[k].dst != cur[0] {
      assert e[k].dst == cur[k + 1];
    }
  }

  // ---------------------------------------------------------------------------------
  // What `_process_method` returns
  // ---------------------------------------------------------------------------------

  /** The description step keeps the invariant but for the descriptions. */
  lemma DescribedKeeps(f: Acc, m: MethodDecl, ev: Option<nat>, base: nat, start: Pos)
    requires Inv(f, ev, base, start)
    ensures var r := f.(nodes := Describe(f.nodes, m, ev));
            NodesFresh(r.nodes, base, r.gen.guid) && ConnsFresh(r.conns, base, r.gen.guid)
            && Wired(r.nodes, r.conns) && Laid(r.nodes, r.gen, start)
            && Chained(r, ev) && EventKept(r.nodes, ev, r.gen.guid)
  {
    DescribeKeeps(f.nodes, m, ev, base, f.gen.guid, start);
    WiredSameNodes(f.nodes, Describe(f.nodes, m, ev), f.conns);
  }

  /** The state `_process_method` ends in keeps the invariant but for the descriptions. */
  lemma ProcessMethodKeeps(m: MethodDecl, bm: BodyMatches, g: Gen)
    ensures var r := ProcessMethodSpec(m, bm, g);
            g.guid <= r.gen.guid
    ensures var r := ProcessMethodSpec(m, bm, g);
            NodesFresh(r.nodes, g.guid, r.gen.guid) && ConnsFresh(r.conns, g.guid, r.gen.guid)
            && Wired(r.nodes, r.conns) && Laid(r.nodes, r.gen, Pos(g.x, g.y))
            && Chained(r, EventId(m, g)) && EventKept(r.nodes, EventId(m, g), r.gen.guid)
  {
    FoldedInv(m, bm, g);
    DescribedKeeps(Folded(m, bm, g), m, EventId(m, g), g.guid, Pos(g.x, g.y));
    ProcessMethodIsFolded(m, bm, g);
  }

  /** Ids: every node and connection id is drawn from the counter during the call, and
      ids increase along each list, so no two nodes and no two connections share one. */
  lemma ProcessMethodIds(m: MethodDecl, bm: BodyMatches, g: Gen)
    ensures g.guid <= ProcessMethodSpec(m, bm, g).gen.guid
    ensures var r := ProcessMethodSpec(m, bm, g);
            forall i :: 0 <= i < |r.nodes| ==> g.guid <= r.nodes[i].guid < r.gen.guid
    ensures var r := ProcessMethodSpec(m, bm, g);
            forall i, j :: 0 <= i < j < |r.nodes| ==> r.nodes[i].guid < r.nodes[j].guid
    ensures var r := ProcessMethodSpec(m, bm, g);
            forall i :: 0 <= i < |r.conns| ==> g.guid <= r.conns[i].guid < r.gen.guid
    ensures var r := ProcessMethodSpec(m, bm, g);
            forall i, j :: 0 <= i < j < |r.conns| ==> r.conns[i].guid < r.conns[j].guid
  {
    var r := ProcessMethodSpec(m, bm, g);
    ProcessMethodKeeps(m, bm, g);
    NodesFreshAll(r.nodes, g.guid, r.gen.guid);
    ConnsFreshAll(r.conns, g.guid, r.gen.guid);
  }

  /** No connection dangles: both ends of each connection are nodes of the method, the
      destination a statement node, both built before the connection. */
  lemma ProcessMethodConnected(m: MethodDecl, bm: BodyMatches, g: Gen)
    ensures var r := ProcessMethodSpec(m, bm, g);
            forall i :: 0 <= i < |r.conns| ==> Attached(r.nodes, r.conns[i])
  {
    var r := ProcessMethodSpec(m, bm, g);
    ProcessMethodKeeps(m, bm, g);
    WiredAll(r.nodes, r.conns);
  }

  /** The control connections thread one chain through the cursor history (the event
      node, if any, then every statement node in list order): the k-th leaves the k-th
      cursor, out of `trigger` when that is the event node and out of `exit` otherwise,
      and enters the next cursor at `enter`. So every statement node is entered exactly
      once, except the first cursor, which is never entered. */
  lemma ProcessMethodControl(m: MethodDecl, bm: BodyMatches, g: Gen)
    ensures var r, ev := ProcessMethodSpec(m, bm, g), EventId(m, g);
            ControlEdges(r.conns) == Chain(Cursors(ev, r.nodes), ev)
    ensures var r, ev := ProcessMethodSpec(m, bm, g), EventId(m, g);
            var cur, e := Cursors(ev, r.nodes), ControlEdges(r.conns);
            |e| == (if |cur| == 0 then 0 else |cur| - 1)
            && (forall k :: 0 <= k < |e| ==> e[k] == Edge(cur[k], CursorKey(cur[k], ev), cur[k + 1], "enter"))
            && (forall k, k' :: 0 <= k < k' < |e| ==> e[k].dst != e[k'].dst)
            && (forall k :: 0 <= k < |e| ==> e[k].dst != cur[0])
  {
    var r, ev := ProcessMethodSpec(m, bm, g), EventId(m, g);
    ProcessMethodKeeps(m, bm, g);
    if ev.Some? {
      ProcessMethodEventFirst(m, bm, g);
    }
    CursorsIncreasing(r.nodes, ev, g.guid, r.gen.guid);
    ChainSteps(Cursors(ev, r.nodes), ev);
  }

  lemma ProcessMethodEventFirst(m: MethodDecl, bm: BodyMatches, g: Gen)
    requires m.name in UnityEvents
    ensures var r := ProcessMethodSpec(m, bm, g);
            |r.nodes| > 0 && r.nodes[0].guid == g.guid && r.nodes[0].kind == TEvent(m.name)
            && r.nodes[0].position == Pos(g.x, g.y)
  {
    FoldedEvent(m, bm, g);
    ProcessMethodIsFolded(m, bm, g);
  }

  /** The statement nodes are those of the captures that are not skipped, category by
      category in the fixed order and in textual order within a category, whatever their
      position in the body. */
  lemma ProcessMethodOrder(m: MethodDecl, bm: BodyMatches, g: Gen)
    ensures StatementKinds(ProcessMethodSpec(m, bm, g).nodes) == Mains(m.body, AllCaptures(bm))
  {
    FoldedInv(m, bm, g);
    FoldedKinds(m, bm, g);
    DescribeKeeps(Folded(m, bm, g).nodes, m, EventId(m, g), g.guid, Folded(m, bm, g).gen.guid, Pos(g.x, g.y));
    ProcessMethodIsFolded(m, bm, g);
  }

  lemma ProcessMethodLaid(m: MethodDecl, bm: BodyMatches, g: Gen)
    ensures var r := ProcessMethodSpec(m, bm, g);
            Laid(r.nodes, r.gen, Pos(g.x, g.y))
  {
    ProcessMethodKeeps(m, bm, g);
  }

  /** Layout: the i-th node sits where `_next_position` is after i calls from the cursor
      the method starts with, and the cursor ends one position after the last node. */
  lemma ProcessMethodLayout(m: MethodDecl, bm: BodyMatches, g: Gen)
    ensures var r := ProcessMethodSpec(m, bm, g);
            forall i :: 0 <= i < |r.nodes| ==> r.nodes[i].position == Walk(Pos(g.x, g.y), i)
    ensures var r := ProcessMethodSpec(m, bm, g);
            Pos(r.gen.x, r.gen.y) == Walk(Pos(g.x, g.y), |r.nodes|)
  {
    var r := ProcessMethodSpec(m, bm, g);
    ProcessMethodKeeps(m, bm, g);
    PlacedAll(r.nodes, Pos(g.x, g.y));
  }

  /** For a Unity event handler, the event node is the first node, sits at the starting
      cursor, carries the comments as its description exactly when they are non-empty,
      and is the destination of no connection; no other node has a description. */
  lemma ProcessMethodEvent(m: MethodDecl, bm: BodyMatches, g: Gen)
    requires m.name in UnityEvents
    ensures var r := ProcessMethodSpec(m, bm, g);
            |r.nodes| > 0 && r.nodes[0].guid == g.guid && r.nodes[0].kind == TEvent(m.name)
            && r.nodes[0].position == Pos(g.x, g.y)
    ensures var r := ProcessMethodSpec(m, bm, g);
            |r.nodes| > 0 && r.nodes[0].description == (if m.comments != "" then Some(m.comments) else None)
    ensures var r := ProcessMethodSpec(m, bm, g);
            forall i :: 1 <= i < |r.nodes| ==> r.nodes[i].description == None
    ensures var r := ProcessMethodSpec(m, bm, g);
            forall i :: 0 <= i < |r.conns| ==> r.conns[i].destinationUnit != g.guid
  {
    var f := Folded(m, bm, g);
    FoldedInv(m, bm, g);
    FoldedEvent(m, bm, g);
    BareAll(f.nodes);
    ProcessMethodIsFolded(m, bm, g);
    ProcessMethodConnected(m, bm, g);
    ProcessMethodKeeps(m, bm, g);
  }

  /** Without an event node, no node gets a description. */
  lemma ProcessMethodNoEvent(m: MethodDecl, bm: BodyMatches, g: Gen)
    requires m.name !in UnityEvents
    ensures var r := ProcessMethodSpec(m, bm, g);
            forall i :: 0 <= i < |r.nodes| ==> r.nodes[i].description == None
  {
    FoldedInv(m, bm, g);
    BareAll(Folded(m, bm, g).nodes);
    ProcessMethodIsFolded(m, bm, g);
  }

  // ---------------------------------------------------------------------------------
  // `generate_graph`: the methods one after another
  // ---------------------------------------------------------------------------------

  /** Moving the cursor a times and then b times is moving it a + b times. */
  lemma {:induction false} WalkAdd(s: Pos, a: nat, b: nat)
    ensures Walk(Walk(s, a), b) == Walk(s, a + b)
    decreases b
  {
    if b > 0 {
      WalkAdd(s, a, b - 1);
    }
  }

  lemma {:induction false} GuidsConcat(a: seq<Node>, b: seq<Node>)
    ensures Guids(a + b) == Guids(a) + Guids(b)
    decreases |b|
  {
    if |b| > 0 {
      var n := |b| - 1;
      assert (a + b)[..|a| + n] == a + b[..n];
      assert (a + b)[|a| + n] == b[n];
      GuidsConcat(a, b[..n]);
    } else {
      assert a + b == a;
    }
  }

  lemma {:induction false} StatementsConcat(a: seq<Node>, b: seq<Node>)
    ensures Statements(a + b) == Statements(a) + Statements(b)
    decreases |b|
  {
    if |b| > 0 {
      var n := |b| - 1;
      assert (a + b)[..|a| + n] == a + b[..n];
      assert (a + b)[|a| + n] == b[n];
      StatementsConcat(a, b[..n]);
    } else {
      assert a + b == a;
    }
  }

  /** A connection attached to either half of a node list is attached to the whole. */
  lemma AttachedConcat(a: seq<Node>, b: seq<Node>, c: Connection)
    requires Attached(a, c) || Attached(b, c)
    ensures Attached(a + b, c)
  {
    GuidsConcat(a, b);
    StatementsConcat(a, b);
  }

  /** Id bounds and increase survive putting two runs one after another. */
  lemma NodeIdsConcat(a: seq<Node>, b: seq<Node>, lo: nat, mid: nat, hi: nat)
    requires lo <= mid <= hi
    requires forall i :: 0 <= i < |a| ==> lo <= a[i].guid < mid
    requires forall i, j :: 0 <= i < j < |a| ==> a[i].guid < a[j].guid
    requires forall i :: 0 <= i < |b| ==> mid <= b[i].guid < hi
    requires forall i, j :: 0 <= i < j < |b| ==> b[i].guid < b[j].guid
    ensures forall i :: 0 <= i < |a + b| ==> lo <= (a + b)[i].guid < hi
    ensures forall i, j :: 0 <= i < j < |a + b| ==> (a + b)[i].guid < (a + b)[j].guid
  {
  }

  lemma ConnIdsConcat(a: seq<Connection>, b: seq<Connection>, lo: nat, mid: nat, hi: nat)
    requires lo <= mid <= hi
    requires forall i :: 0 <= i < |a| ==> lo <= a[i].guid < mid
    requires forall i, j :: 0 <= i < j < |a| ==> a[i].guid < a[j].guid
    requires forall i :: 0 <= i < |b| ==> mid <= b[i].guid < hi
    requires forall i, j :: 0 <= i < j < |b| ==> b[i].guid < b[j].guid
    ensures forall i :: 0 <= i < |a + b| ==> lo <= (a + b)[i].guid < hi
    ensures forall i, j :: 0 <= i < j < |a + b| ==> (a + b)[i].guid < (a + b)[j].guid
  {
  }

  /** A run placed from `s`, followed by one placed from where the first left the
      cursor, is placed from `s`. */
  lemma PlacedConcat(a: seq<Node>, b: seq<Node>, s: Pos)
    requires forall i :: 0 <= i < |a| ==> a[i].position == Walk(s, i)
    requires forall i :: 0 <= i < |b| ==> b[i].position == Walk(Walk(s, |a|), i)
    ensures forall i :: 0 <= i < |a + b| ==> (a + b)[i].position == Walk(s, i)
  {
    forall i | |a| <= i < |a + b|
      ensures (a + b)[i].position == Walk(s, i)
    {
      WalkAdd(s, |a|, i - |a|);
    }
  }

  /** A run placed from `s`, followed by one placed from where the first left the
      cursor, is placed from `s`, and the cursor ends where the second left it. */
  lemma {:induction false} LaidConcat(a: seq<Node>, b: seq<Node>, ga: Gen, gb: Gen, s: Pos)
    requires Laid(a, ga, s) && Laid(b, gb, Pos(ga.x, ga.y))
    ensures Laid(a + b, gb, s)
    decreases |b|
  {
    WalkAdd(s, |a|, |b|);
    if |b| > 0 {
      var n := |b| - 1;
      var c := Walk(Pos(ga.x, ga.y), n);
      assert (a + b)[..|a| + n] == a + b[..n];
      assert (a + b)[|a| + n] == b[n];
      LaidConcat(a, b[..n], ga, Gen(c.x, c.y, 0), s);
      WalkAdd(s, |a|, n);
    } else {
      assert a + b == a;
    }
  }

  /** What one method contributes to the ids: a counter that does not go back, and node and
      connection ids drawn from it in increasing order. */
  predicate IdsFrom(r: Acc, lo: nat) {
    lo <= r.gen.guid
    && (forall i :: 0 <= i < |r.nodes| ==> lo <= r.nodes[i].guid < r.gen.guid)
    && (forall i, j :: 0 <= i < j < |r.nodes| ==> r.nodes[i].guid < r.nodes[j].guid)
    && (forall i :: 0 <= i < |r.conns| ==> lo <= r.conns[i].guid < r.gen.guid)
    && (forall i, j :: 0 <= i < j < |r.conns| ==> r.conns[i].guid < r.conns[j].guid)
  }

  /** No connection dangles. */
  predicate Connected(r: Acc) {
    forall i :: 0 <= i < |r.conns| ==> Attached(r.nodes, r.conns[i])
  }

  /** Ids accumulate over any per-method step that draws them like `_process_method`. */
  lemma {:induction false} AccumulateIds(ms: seq<MethodInput>, g: Gen, run: (MethodInput, Gen) -> Acc)
    requires forall mi, h :: IdsFrom(run(mi, h), h.guid)
    ensures IdsFrom(Accumulate(ms, [], [], g, run), g.guid)
    decreases |ms|
  {
    if |ms| > 0 {
      var n := |ms| - 1;
      var b := Accumulate(ms[..n], [], [], g, run);
      var p := run(ms[n], b.gen);
      AccumulateIds(ms[..n], g, run);
      assert IdsFrom(p, b.gen.guid);
      NodeIdsConcat(b.nodes, p.nodes, g.guid, b.gen.guid, p.gen.guid);
      ConnIdsConcat(b.conns, p.conns, g.guid, b.gen.guid, p.gen.guid);
    }
  }

  /** Connections stay attached over any per-method step that attaches them. */
  lemma {:induction false} AccumulateConnected(ms: seq<MethodInput>, g: Gen, run: (MethodInput, Gen) -> Acc)
    requires forall mi, h :: Connected(run(mi, h))
    ensures Connected(Accumulate(ms, [], [], g, run))
    decreases |ms|
  {
    if |ms| > 0 {
      var n := |ms| - 1;
      var b := Accumulate(ms[..n], [], [], g, run);
      var p := run(ms[n], b.gen);
      var r := Accumulate(ms, [], [], g, run);
      AccumulateConnected(ms[..n], g, run);
      assert Connected(p);
      forall i | 0 <= i < |r.conns|
        ensures Attached(r.nodes, r.conns[i])
      {
        if i < |b.conns| {
          assert r.conns[i] == b.conns[i];
        } else {
          assert r.conns[i] == p.conns[i - |b.conns|];
        }
        AttachedConcat(b.nodes, p.nodes, r.conns[i]);
      }
    }
  }

  /** The layout accumulates over any per-method step that lays its nodes out from the
      cursor it is handed. */
  lemma {:induction false} AccumulateLaid(ms: seq<MethodInput>, g: Gen, run: (MethodInput, Gen) -> Acc)
    requires forall mi, h :: Laid(run(mi, h).nodes, run(mi, h).gen, Pos(h.x, h.y))
    ensures Laid(Accumulate(ms, [], [], g, run).nodes, Accumulate(ms, [], [], g, run).gen, Pos(g.x, g.y))
    decreases |ms|
  {
    if |ms| > 0 {
      var n := |ms| - 1;
      var b := Accumulate(ms[..n], [], [], g, run);
      var p := run(ms[n], b.gen);
      AccumulateLaid(ms[..n], g, run);
      assert Laid(p.nodes, p.gen, Pos(b.gen.x, b.gen.y));
      LaidConcat(b.nodes, p.nodes, b.gen, p.gen, Pos(g.x, g.y));
    }
  }

  /** The graph `generate_graph` accumulates from an empty generator in state `g`. */
  function Generated(ms: seq<MethodInput>, g: Gen): Acc {
    GenerateSpec(ms, [], [], g)
  }

  /** Ids across the whole graph: every node and every connection id is drawn from the
      counter during the run, and ids increase along each list, so no two nodes and no
      two connections share one, even across methods. */
  lemma GenerateIds(ms: seq<MethodInput>, g: Gen)
    ensures g.guid <= Generated(ms, g).gen.guid
    ensures var r := Generated(ms, g);
            forall i :: 0 <= i < |r.nodes| ==> g.guid <= r.nodes[i].guid < r.gen.guid
    ensures var r := Generated(ms, g);
            forall i, j :: 0 <= i < j < |r.nodes| ==> r.nodes[i].guid < r.nodes[j].guid
    ensures var r := Generated(ms, g);
            forall i :: 0 <= i < |r.conns| ==> g.guid <= r.conns[i].guid < r.gen.guid
    ensures var r := Generated(ms, g);
            forall i, j :: 0 <= i < j < |r.conns| ==> r.conns[i].guid < r.conns[j].guid
  {
    forall mi, h | true
      ensures IdsFrom(MethodRun(mi, h), h.guid)
    {
      ProcessMethodIds(mi.decl, mi.matches, h);
    }
    AccumulateIds(ms, g, MethodRun);
  }

  /** No connection of the graph dangles: both ends of each are nodes of the graph, the
      destination a statement node, and both were built before it. */
  lemma GenerateConnected(ms: seq<MethodInput>, g: Gen)
    ensures var r := Generated(ms, g);
            forall i :: 0 <= i < |r.conns| ==> Attached(r.nodes, r.conns[i])
  {
    forall mi, h | true
      ensures Connected(MethodRun(mi, h))
    {
      ProcessMethodConnected(mi.decl, mi.matches, h);
    }
    AccumulateConnected(ms, g, MethodRun);
  }

  /** Layout across the whole graph: the cursor is never reset between methods, so the
      i-th node of the graph sits where the cursor is after i moves from where the run
      started, and the cursor ends one move past the last node. */
  lemma GenerateLayout(ms: seq<MethodInput>, g: Gen)
    ensures var r := Generated(ms, g);
            forall i :: 0 <= i < |r.nodes| ==> r.nodes[i].position == Walk(Pos(g.x, g.y), i)
    ensures var r := Generated(ms, g);
            Pos(r.gen.x, r.gen.y) == Walk(Pos(g.x, g.y), |r.nodes|)
  {
    forall mi, h | true
      ensures Laid(MethodRun(mi, h).nodes, MethodRun(mi, h).gen, Pos(h.x, h.y))
    {
      ProcessMethodLaid(mi.decl, mi.matches, h);
    }
    AccumulateLaid(ms, g, MethodRun);
    PlacedAll(Generated(ms, g).nodes, Pos(g.x, g.y));
  }

  /** From a fresh generator, the i-th node of the graph sits in the i-th cell of the
      five-column grid (x = 250 * (i % 5), y = 150 * (i / 5)), and ids start at 0. */
  lemma FreshGenerate(ms: seq<MethodInput>)
    ensures var r := Generated(ms, Gen(0, 0, 0));
            forall i :: 0 <= i < |r.nodes| ==> r.nodes[i].position == Cell(i)
    ensures var r := Generated(ms, Gen(0, 0, 0));
            forall i :: 0 <= i < |r.nodes| ==> r.nodes[i].guid < r.gen.guid
    ensures var r := Generated(ms, Gen(0, 0, 0));
            Pos(r.gen.x, r.gen.y) == Cell(|r.nodes|)
  {
    var r := Generated(ms, Gen(0, 0, 0));
    GenerateLayout(ms, Gen(0, 0, 0));
    GenerateIds(ms, Gen(0, 0, 0));
    forall i | 0 <= i <= |r.nodes|
      ensures Walk(Pos(0, 0), i) == Cell(i)
    {
      WalkFromOrigin(i);
    }
  }

  /** The element list holds every node's dictionary, in list order, and then every
      connection's. */
  lemma ElementsOrder(nodes: seq<Node>, conns: seq<Connection>)
    ensures |Elements(nodes, conns)| == |nodes| + |conns|
    ensures forall i :: 0 <= i < |nodes| ==> Elements(nodes, conns)[i] == ToDict(nodes[i])
    ensures forall i :: 0 <= i < |conns| ==> Elements(nodes, conns)[|nodes| + i] == conns[i].ToDict()
  {
    var ns, cs := NodeDicts(nodes), ConnectionDicts(conns);
    assert Elements(nodes, conns) == ns + cs;
    forall i | 0 <= i < |conns|
      ensures (ns + cs)[|nodes| + i] == conns[i].ToDict()
    {
      assert (ns + cs)[|ns| + i] == cs[i];
    }
  }
}
