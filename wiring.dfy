/** What `_process_method` and `generate_graph` guarantee about the graph they build:
    fresh and ordered ids, no dangling connection, a single control chain threaded
    through the statement nodes, the layout grid, the event node and its description,
    and the fixed category order. */
module Wiring {
  import opened Wrappers
  import opened Text
  import opened Graph
  import opened Parser
  import opened Builders
  import opened Synthesis

  // ---------------------------------------------------------------------------------
  // Projections of a node list and a connection list
  // ---------------------------------------------------------------------------------

  /** The node guids, in list order. */
  function Guids(nodes: seq<Node>): (r: seq<nat>)
    ensures |r| == |nodes|
  {
    if |nodes| == 0 then [] else Guids(nodes[..|nodes| - 1]) + [nodes[|nodes| - 1].guid]
  }

  /** The guids of the statement nodes, in list order. */
  function Statements(nodes: seq<Node>): seq<nat> {
    if |nodes| == 0 then []
    else
      var n := nodes[|nodes| - 1];
      Statements(nodes[..|nodes| - 1]) + (if IsStatement(n.kind) then [n.guid] else [])
  }

  /** The builder calls of the statement nodes, in list order. */
  function StatementKinds(nodes: seq<Node>): seq<Template> {
    if |nodes| == 0 then []
    else
      var n := nodes[|nodes| - 1];
      StatementKinds(nodes[..|nodes| - 1]) + (if IsStatement(n.kind) then [n.kind] else [])
  }

  /** A control connection without its own guid. */
  datatype Edge = Edge(src: nat, srcKey: string, dst: nat, dstKey: string)

  /** The control connections, in list order. */
  function ControlEdges(conns: seq<Connection>): seq<Edge> {
    if |conns| == 0 then []
    else
      var c := conns[|conns| - 1];
      ControlEdges(conns[..|conns| - 1])
      + (if c.isControl then [Edge(c.sourceUnit, c.sourceKey, c.destinationUnit, c.destinationKey)] else [])
  }

  /** The successive values of the cursor `last_node`: the event node, if any, then every
      statement node. */
  function Cursors(ev: Option<nat>, nodes: seq<Node>): seq<nat> {
    (if ev.Some? then [ev.value] else []) + Statements(nodes)
  }

  /** The control chain through a cursor history: one connection from each cursor to the
      next, out of `trigger` when it leaves the event node and out of `exit` otherwise,
      always into `enter`. */
  function Chain(cur: seq<nat>, ev: Option<nat>): (r: seq<Edge>)
    ensures |r| == if |cur| == 0 then 0 else |cur| - 1
  {
    if |cur| < 2 then []
    else
      var n := |cur| - 1;
      Chain(cur[..n], ev) + [Edge(cur[n - 1], CursorKey(cur[n - 1], ev), cur[n], "enter")]
  }

  function LastOf(cur: seq<nat>): Option<nat> {
    if |cur| == 0 then None else Some(cur[|cur| - 1])
  }

  /** The statement nodes a run of captures adds, in processing order. */
  function Mains(body: string, caps: seq<Capture>): seq<Template> {
    if |caps| == 0 then []
    else
      var t := MainOf(body, caps[|caps| - 1]);
      Mains(body, caps[..|caps| - 1]) + (if t.Some? then [t.value] else [])
  }

  lemma GuidsSnoc(nodes: seq<Node>, n: Node)
    ensures Guids(nodes + [n]) == Guids(nodes) + [n.guid]
  {
    assert (nodes + [n])[..|nodes|] == nodes;
  }

  lemma StatementsSnoc(nodes: seq<Node>, n: Node)
    ensures Statements(nodes + [n]) == Statements(nodes) + (if IsStatement(n.kind) then [n.guid] else [])
    ensures StatementKinds(nodes + [n]) == StatementKinds(nodes) + (if IsStatement(n.kind) then [n.kind] else [])
  {
    assert (nodes + [n])[..|nodes|] == nodes;
  }

  lemma ControlEdgesSnoc(conns: seq<Connection>, c: Connection)
    ensures ControlEdges(conns + [c]) == ControlEdges(conns)
            + (if c.isControl then [Edge(c.sourceUnit, c.sourceKey, c.destinationUnit, c.destinationKey)] else [])
  {
    assert (conns + [c])[..|conns|] == conns;
  }

  lemma ChainSnoc(cur: seq<nat>, ev: Option<nat>, m: nat)
    ensures Chain(cur + [m], ev)
            == Chain(cur, ev) + (if |cur| == 0 then [] else [Edge(cur[|cur| - 1], CursorKey(cur[|cur| - 1], ev), m, "enter")])
  {
    assert (cur + [m])[..|cur|] == cur;
  }

  lemma MainsSnoc(body: string, caps: seq<Capture>, c: Capture)
    ensures Mains(body, caps + [c]) == Mains(body, caps) + (if MainOf(body, c).Some? then [MainOf(body, c).value] else [])
  {
    assert (caps + [c])[..|caps|] == caps;
  }

  /** Every statement node is a node. */
  lemma {:induction false} StatementsAreNodes(nodes: seq<Node>, x: nat)
    requires x in Statements(nodes)
    ensures x in Guids(nodes)
  {
    var n := |nodes| - 1;
    StatementsSnoc(nodes[..n], nodes[n]);
    assert nodes[..n] + [nodes[n]] == nodes;
    if x in Statements(nodes[..n]) {
      StatementsAreNodes(nodes[..n], x);
    } else {
      assert x == nodes[n].guid;
    }
  }

  // ---------------------------------------------------------------------------------
  // The invariant of a method's state
  // ---------------------------------------------------------------------------------

  // Each part is defined on the last element, so that the verifier unfolds it only as
  // far as a proof asks; the quantified forms are lemmas below.

  /** Node ids: drawn from `base` on and below `top`, in increasing order. */
  predicate NodesFresh(nodes: seq<Node>, base: nat, top: nat) {
    |nodes| == 0
    || (var n := |nodes| - 1;
        base <= nodes[n].guid < top && NodesFresh(nodes[..n], base, nodes[n].guid))
  }

  /** Connection ids: drawn from `base` on and below `top`, in increasing order. */
  predicate ConnsFresh(conns: seq<Connection>, base: nat, top: nat) {
    |conns| == 0
    || (var n := |conns| - 1;
        base <= conns[n].guid < top && ConnsFresh(conns[..n], base, conns[n].guid))
  }

  /** A connection that does not dangle: both ends are nodes built before it, and the
      destination is a statement node. */
  predicate Attached(nodes: seq<Node>, c: Connection) {
    c.sourceUnit in Guids(nodes) && c.sourceUnit < c.guid
    && c.destinationUnit in Statements(nodes) && c.destinationUnit < c.guid
  }

  /** No connection dangles. */
  predicate Wired(nodes: seq<Node>, conns: seq<Connection>) {
    |conns| == 0
    || (Wired(nodes, conns[..|conns| - 1]) && Attached(nodes, conns[|conns| - 1]))
  }

  /** The i-th node of the run sits where the cursor is after i calls from `start` ... */
  predicate Placed(nodes: seq<Node>, start: Pos) {
    |nodes| == 0
    || (var n := |nodes| - 1; nodes[n].position == Walk(start, n) && Placed(nodes[..n], start))
  }

  /** ... and the cursor at the next cell. */
  predicate Laid(nodes: seq<Node>, g: Gen, start: Pos) {
    Placed(nodes, start) && Pos(g.x, g.y) == Walk(start, |nodes|)
  }

  /** No node has a description yet. */
  predicate Bare(nodes: seq<Node>) {
    |nodes| == 0 || (nodes[|nodes| - 1].description == None && Bare(nodes[..|nodes| - 1]))
  }

  /** The control connections are the chain of the cursor history, and the cursor is its
      last value. */
  predicate Chained(a: Acc, ev: Option<nat>) {
    ControlEdges(a.conns) == Chain(Cursors(ev, a.nodes), ev) && a.last == LastOf(Cursors(ev, a.nodes))
  }

  /** The event node is a node, not a statement, drawn before the counter. */
  predicate EventKept(nodes: seq<Node>, ev: Option<nat>, top: nat) {
    ev.Some? ==> ev.value in Guids(nodes) && ev.value !in Statements(nodes) && ev.value < top
  }

  /** Everything but the chain. */
  predicate Sound(a: Acc, base: nat, start: Pos) {
    base <= a.gen.guid && NodesFresh(a.nodes, base, a.gen.guid) && ConnsFresh(a.conns, base, a.gen.guid)
    && Wired(a.nodes, a.conns) && Laid(a.nodes, a.gen, start) && Bare(a.nodes)
  }

  predicate Inv(a: Acc, ev: Option<nat>, base: nat, start: Pos) {
    Sound(a, base, start) && Chained(a, ev) && EventKept(a.nodes, ev, a.gen.guid)
  }

  // ---------------------------------------------------------------------------------
  // The primitive emissions keep it
  // ---------------------------------------------------------------------------------

  lemma AddNodeFresh(nodes: seq<Node>, n: Node, base: nat)
    requires NodesFresh(nodes, base, n.guid) && base <= n.guid
    ensures NodesFresh(nodes + [n], base, n.guid + 1)
  {
    assert (nodes + [n])[..|nodes|] == nodes;
  }

  /** Raising the bound keeps the ids fresh. */
  lemma NodesFreshUp(nodes: seq<Node>, base: nat, top: nat, top': nat)
    requires NodesFresh(nodes, base, top) && top <= top'
    ensures NodesFresh(nodes, base, top')
  {
  }

  lemma ConnsFreshUp(conns: seq<Connection>, base: nat, top: nat, top': nat)
    requires ConnsFresh(conns, base, top) && top <= top'
    ensures ConnsFresh(conns, base, top')
  {
  }

  /** A connection stays attached when a node is appended. */
  lemma AttachedGrows(nodes: seq<Node>, n: Node, c: Connection)
    requires Attached(nodes, c)
    ensures Attached(nodes + [n], c)
  {
    GuidsSnoc(nodes, n);
    StatementsSnoc(nodes, n);
  }

  lemma {:induction false} AddNodeWired(nodes: seq<Node>, n: Node, conns: seq<Connection>)
    requires Wired(nodes, conns)
    ensures Wired(nodes + [n], conns)
    decreases |conns|
  {
    if |conns| > 0 {
      AddNodeWired(nodes, n, conns[..|conns| - 1]);
      AttachedGrows(nodes, n, conns[|conns| - 1]);
    }
  }

  lemma AddNodeLaid(nodes: seq<Node>, g: Gen, start: Pos, t: Template)
    requires Laid(nodes, g, start)
    ensures var p := NextCursor(g.x, g.y);
            Laid(nodes + [Node(g.guid, Pos(g.x, g.y), t, None)], Gen(p.x, p.y, g.guid + 1), start)
  {
    assert (nodes + [Node(g.guid, Pos(g.x, g.y), t, None)])[..|nodes|] == nodes;
  }

  lemma AddNodeBare(nodes: seq<Node>, n: Node)
    requires Bare(nodes) && n.description == None
    ensures Bare(nodes + [n])
  {
    assert (nodes + [n])[..|nodes|] == nodes;
  }

  /** Appending a node adds a statement when it is one ... */
  lemma AddNodeStatements(a: Acc, t: Template)
    ensures Statements(AddNode(a, t).nodes) == Statements(a.nodes) + (if IsStatement(t) then [a.gen.guid] else [])
    ensures StatementKinds(AddNode(a, t).nodes) == StatementKinds(a.nodes) + (if IsStatement(t) then [t] else [])
  {
    StatementsSnoc(a.nodes, Node(a.gen.guid, Pos(a.gen.x, a.gen.y), t, None));
  }

  /** ... and its guid, the counter. */
  lemma AddNodeGuids(a: Acc, t: Template)
    ensures Guids(AddNode(a, t).nodes) == Guids(a.nodes) + [a.gen.guid]
  {
    GuidsSnoc(a.nodes, Node(a.gen.guid, Pos(a.gen.x, a.gen.y), t, None));
  }

  /** Appending a node keeps everything but the chain. */
  lemma AddNodeSound(a: Acc, base: nat, start: Pos, t: Template)
    requires Sound(a, base, start)
    ensures Sound(AddNode(a, t), base, start)
  {
    var n := Node(a.gen.guid, Pos(a.gen.x, a.gen.y), t, None);
    AddNodeFresh(a.nodes, n, base);
    ConnsFreshUp(a.conns, base, a.gen.guid, a.gen.guid + 1);
    AddNodeWired(a.nodes, n, a.conns);
    AddNodeLaid(a.nodes, a.gen, start, t);
    AddNodeBare(a.nodes, n);
  }

  lemma AddConnWired(nodes: seq<Node>, conns: seq<Connection>, c: Connection)
    requires Wired(nodes, conns) && Attached(nodes, c)
    ensures Wired(nodes, conns + [c])
  {
    assert (conns + [c])[..|conns|] == conns;
  }

  /** Appending a connection adds a control edge when it is one. */
  lemma AddConnEdges(a: Acc, src: nat, srcKey: string, dst: nat, dstKey: string, control: bool)
    ensures ControlEdges(AddConn(a, src, srcKey, dst, dstKey, control).conns)
            == ControlEdges(a.conns) + (if control then [Edge(src, srcKey, dst, dstKey)] else [])
  {
    ControlEdgesSnoc(a.conns, Connection(a.gen.guid, src, srcKey, dst, dstKey, control));
  }

  /** Appending a connection between nodes already built keeps everything but the chain. */
  lemma AddConnSound(a: Acc, base: nat, start: Pos, src: nat, srcKey: string, dst: nat, dstKey: string, control: bool)
    requires Sound(a, base, start)
    requires src in Guids(a.nodes) && dst in Statements(a.nodes)
    ensures Sound(AddConn(a, src, srcKey, dst, dstKey, control), base, start)
  {
    var c := Connection(a.gen.guid, src, srcKey, dst, dstKey, control);
    StatementsAreNodes(a.nodes, dst);
    GuidsBelow(a.nodes, base, a.gen.guid, src);
    GuidsBelow(a.nodes, base, a.gen.guid, dst);
    AddConnWired(a.nodes, a.conns, c);
    NodesFreshUp(a.nodes, base, a.gen.guid, a.gen.guid + 1);
    assert (a.conns + [c])[..|a.conns|] == a.conns;
  }

  /** Where a previous cursor is a node. */
  lemma CursorIsNode(nodes: seq<Node>, ev: Option<nat>, top: nat, l: nat)
    requires EventKept(nodes, ev, top)
    requires l in Cursors(ev, nodes)
    ensures l in Guids(nodes)
  {
    if !(ev.Some? && l == ev.value) {
      assert l in Statements(nodes);
      StatementsAreNodes(nodes, l);
    }
  }

  /** None of the value nodes is a statement. */
  predicate AllValues(xs: seq<Aux>) {
    forall i :: 0 <= i < |xs| ==> !IsStatement(xs[i].t)
  }

  /** The guids `first`, `first + 1`, ..., `first + n - 1`. */
  function Range(first: nat, n: nat): (r: seq<nat>)
    ensures |r| == n
  {
    if n == 0 then [] else Range(first, n - 1) + [first + n - 1]
  }

  lemma {:induction false} RangeMember(first: nat, n: nat, g: nat)
    requires first <= g < first + n
    ensures g in Range(first, n)
  {
    if g < first + n - 1 {
      RangeMember(first, n - 1, g);
    }
  }

  /** Every node guid is below the counter. */
  lemma {:induction false} GuidsBelow(nodes: seq<Node>, base: nat, top: nat, x: nat)
    requires NodesFresh(nodes, base, top)
    requires x in Guids(nodes)
    ensures x < top
  {
    var n := |nodes| - 1;
    if x != nodes[n].guid {
      GuidsBelow(nodes[..n], base, nodes[n].guid, x);
    }
  }

  /** The value nodes built before the link add no statement ... */
  lemma {:induction false} AuxNodesStatements(a: Acc, pre: seq<Aux>)
    requires AllValues(pre)
    ensures Statements(AddAuxNodes(a, pre).nodes) == Statements(a.nodes)
    ensures StatementKinds(AddAuxNodes(a, pre).nodes) == StatementKinds(a.nodes)
    decreases |pre|
  {
    if |pre| > 0 {
      var n := |pre| - 1;
      assert AllValues(pre[..n]);
      AuxNodesStatements(a, pre[..n]);
      AddNodeStatements(AddAuxNodes(a, pre[..n]), pre[n].t);
    }
  }

  /** ... they take the next guids ... */
  lemma {:induction false} AuxNodesGuids(a: Acc, pre: seq<Aux>)
    ensures Guids(AddAuxNodes(a, pre).nodes) == Guids(a.nodes) + Range(a.gen.guid, |pre|)
    decreases |pre|
  {
    if |pre| > 0 {
      var n := |pre| - 1;
      var b := AddAuxNodes(a, pre[..n]);
      AuxNodesGuids(a, pre[..n]);
      AuxNodesGen(a, pre[..n]);
      AddNodeGuids(b, pre[n].t);
      assert AddAuxNodes(a, pre) == AddNode(b, pre[n].t);
      assert Range(a.gen.guid, |pre|) == Range(a.gen.guid, n) + [b.gen.guid];
    }
  }

  /** ... and no connection. */
  lemma {:induction false} AuxNodesGen(a: Acc, pre: seq<Aux>)
    ensures AddAuxNodes(a, pre).conns == a.conns
    ensures AddAuxNodes(a, pre).last == a.last
    ensures AddAuxNodes(a, pre).gen.guid == a.gen.guid + |pre|
    decreases |pre|
  {
    if |pre| > 0 {
      AuxNodesGen(a, pre[..|pre| - 1]);
    }
  }

  lemma {:induction false} AuxNodesSound(a: Acc, base: nat, start: Pos, pre: seq<Aux>)
    requires Sound(a, base, start)
    ensures Sound(AddAuxNodes(a, pre), base, start)
    decreases |pre|
  {
    if |pre| > 0 {
      var n := |pre| - 1;
      AuxNodesSound(a, base, start, pre[..n]);
      AddNodeSound(AddAuxNodes(a, pre[..n]), base, start, pre[n].t);
    }
  }

  /** Their value connections, from guids `first`, `first + 1`, ... into `dst`, add no
      node ... */
  lemma {:induction false} WireAuxNodes(a: Acc, pre: seq<Aux>, first: nat, dst: nat)
    ensures WireAux(a, pre, first, dst).nodes == a.nodes
    ensures WireAux(a, pre, first, dst).last == a.last
    ensures WireAux(a, pre, first, dst).gen.guid == a.gen.guid + |pre|
    decreases |pre|
  {
    if |pre| > 0 {
      WireAuxNodes(a, pre[..|pre| - 1], first, dst);
    }
  }

  /** ... and no control edge. */
  lemma {:induction false} WireAuxEdges(a: Acc, pre: seq<Aux>, first: nat, dst: nat)
    ensures ControlEdges(WireAux(a, pre, first, dst).conns) == ControlEdges(a.conns)
    decreases |pre|
  {
    if |pre| > 0 {
      var n := |pre| - 1;
      WireAuxEdges(a, pre[..n], first, dst);
      AddConnEdges(WireAux(a, pre[..n], first, dst), first + n, pre[n].srcKey, dst, pre[n].dstKey, false);
    }
  }

  lemma {:induction false} WireAuxSound(a: Acc, base: nat, start: Pos, pre: seq<Aux>, first: nat, dst: nat)
    requires Sound(a, base, start)
    requires forall g :: first <= g < first + |pre| ==> g in Guids(a.nodes)
    requires dst in Statements(a.nodes)
    ensures Sound(WireAux(a, pre, first, dst), base, start)
    decreases |pre|
  {
    if |pre| > 0 {
      var n := |pre| - 1;
      WireAuxSound(a, base, start, pre[..n], first, dst);
      WireAuxNodes(a, pre[..n], first, dst);
      AddConnSound(WireAux(a, pre[..n], first, dst), base, start, first + n, pre[n].srcKey, dst, pre[n].dstKey, false);
    }
  }

  /** The value nodes built after the link, each with its value connection, add no
      statement ... */
  lemma {:induction false} AddWiredStatements(a: Acc, post: seq<Aux>, dst: nat)
    requires AllValues(post)
    ensures Statements(AddWired(a, post, dst).nodes) == Statements(a.nodes)
    ensures StatementKinds(AddWired(a, post, dst).nodes) == StatementKinds(a.nodes)
    decreases |post|
  {
    if |post| > 0 {
      var n := |post| - 1;
      assert AllValues(post[..n]);
      AddWiredStatements(a, post[..n], dst);
      AddNodeStatements(AddWired(a, post[..n], dst), post[n].t);
    }
  }

  /** ... lose no node ... */
  lemma {:induction false} AddWiredGuids(a: Acc, post: seq<Aux>, dst: nat, x: nat)
    requires x in Guids(a.nodes)
    ensures x in Guids(AddWired(a, post, dst).nodes)
    decreases |post|
  {
    if |post| > 0 {
      var n := |post| - 1;
      AddWiredGuids(a, post[..n], dst, x);
      AddNodeGuids(AddWired(a, post[..n], dst), post[n].t);
    }
  }

  /** ... and add no control edge. */
  lemma {:induction false} AddWiredEdges(a: Acc, post: seq<Aux>, dst: nat)
    ensures ControlEdges(AddWired(a, post, dst).conns) == ControlEdges(a.conns)
    ensures AddWired(a, post, dst).last == a.last
    ensures a.gen.guid <= AddWired(a, post, dst).gen.guid
    decreases |post|
  {
    if |post| > 0 {
      var n := |post| - 1;
      AddWiredEdges(a, post[..n], dst);
      AddConnEdges(AddNode(AddWired(a, post[..n], dst), post[n].t), AddWired(a, post[..n], dst).gen.guid,
                   post[n].srcKey, dst, post[n].dstKey, false);
    }
  }

  lemma {:induction false} AddWiredSound(a: Acc, base: nat, start: Pos, post: seq<Aux>, dst: nat)
    requires Sound(a, base, start) && AllValues(post)
    requires dst in Statements(a.nodes)
    ensures Sound(AddWired(a, post, dst), base, start)
    decreases |post|
  {
    if |post| > 0 {
      var n := |post| - 1;
      assert AllValues(post[..n]);
      AddWiredSound(a, base, start, post[..n], dst);
      AddWiredStatements(a, post[..n], dst);
      AddNodeSound(AddWired(a, post[..n], dst), base, start, post[n].t);
      AddNodeStatements(AddWired(a, post[..n], dst), post[n].t);
      AddNodeGuids(AddWired(a, post[..n], dst), post[n].t);
      AddConnSound(AddNode(AddWired(a, post[..n], dst), post[n].t), base, start, AddWired(a, post[..n], dst).gen.guid,
                   post[n].srcKey, dst, post[n].dstKey, false);
    }
  }

  /** The control connection `Link` adds: from the cursor, if there is one, into `m`. */
  function LinkEdges(last: Option<nat>, ev: Option<nat>, m: nat): seq<Edge> {
    match last
    case None => []
    case Some(l) => [Edge(l, CursorKey(l, ev), m, "enter")]
  }

  lemma LinkControl(a: Acc, ev: Option<nat>, m: nat)
    ensures ControlEdges(Link(a, ev, m).conns) == ControlEdges(a.conns) + LinkEdges(a.last, ev, m)
  {
    if a.last.Some? {
      AddConnEdges(a, a.last.value, CursorKey(a.last.value, ev), m, "enter", true);
    }
  }

  lemma LinkSound(a: Acc, ev: Option<nat>, base: nat, start: Pos, m: nat)
    requires Sound(a, base, start) && m in Statements(a.nodes)
    requires a.last.Some? ==> a.last.value in Guids(a.nodes)
    ensures Sound(Link(a, ev, m), base, start)
  {
    if a.last.Some? {
      AddConnSound(a, base, start, a.last.value, CursorKey(a.last.value, ev), m, "enter", true);
    }
  }

  /** The state of a step once its statement node, the value nodes before the link, the
      link and their value connections are in. */
  function Staged(a: Acc, ev: Option<nat>, t: Template, pre: seq<Aux>): Acc {
    WireAux(Link(AddAuxNodes(AddNode(a, t), pre), ev, a.gen.guid), pre, a.gen.guid + 1, a.gen.guid)
  }

  lemma StepIsStaged(a: Acc, ev: Option<nat>, t: Template, pre: seq<Aux>, post: seq<Aux>)
    ensures Step(a, ev, t, pre, post) == AddWired(Staged(a, ev, t, pre), post, a.gen.guid).(last := Some(a.gen.guid))
  {
  }

  /** The link and the value connections after it add no node ... */
  lemma LinkWireNodes(c: Acc, ev: Option<nat>, pre: seq<Aux>, m: nat)
    ensures WireAux(Link(c, ev, m), pre, m + 1, m).nodes == c.nodes
  {
    WireAuxNodes(Link(c, ev, m), pre, m + 1, m);
  }

  /** ... and add the link as their one control edge. */
  lemma LinkWireEdges(c: Acc, ev: Option<nat>, pre: seq<Aux>, m: nat)
    ensures ControlEdges(WireAux(Link(c, ev, m), pre, m + 1, m).conns) == ControlEdges(c.conns) + LinkEdges(c.last, ev, m)
    ensures WireAux(Link(c, ev, m), pre, m + 1, m).last == c.last
    ensures c.gen.guid <= WireAux(Link(c, ev, m), pre, m + 1, m).gen.guid
  {
    LinkControl(c, ev, m);
    WireAuxNodes(Link(c, ev, m), pre, m + 1, m);
    WireAuxEdges(Link(c, ev, m), pre, m + 1, m);
  }

  /** The value nodes, the link and the value connections add no statement. */
  lemma AuxLinkStatements(b: Acc, ev: Option<nat>, pre: seq<Aux>, m: nat)
    requires AllValues(pre)
    ensures Statements(WireAux(Link(AddAuxNodes(b, pre), ev, m), pre, m + 1, m).nodes) == Statements(b.nodes)
    ensures StatementKinds(WireAux(Link(AddAuxNodes(b, pre), ev, m), pre, m + 1, m).nodes) == StatementKinds(b.nodes)
  {
    AuxNodesStatements(b, pre);
    LinkWireNodes(AddAuxNodes(b, pre), ev, pre, m);
  }

  /** Up to the value connections, a step adds `t` as its one statement ... */
  lemma StagedStatements(a: Acc, ev: Option<nat>, t: Template, pre: seq<Aux>)
    requires IsStatement(t) && AllValues(pre)
    ensures Statements(Staged(a, ev, t, pre).nodes) == Statements(a.nodes) + [a.gen.guid]
    ensures StatementKinds(Staged(a, ev, t, pre).nodes) == StatementKinds(a.nodes) + [t]
  {
    AddNodeStatements(a, t);
    AuxLinkStatements(AddNode(a, t), ev, pre, a.gen.guid);
  }

  /** ... the link as its one control edge ... */
  lemma StagedEdges(a: Acc, ev: Option<nat>, t: Template, pre: seq<Aux>)
    ensures ControlEdges(Staged(a, ev, t, pre).conns) == ControlEdges(a.conns) + LinkEdges(a.last, ev, a.gen.guid)
    ensures a.gen.guid < Staged(a, ev, t, pre).gen.guid
    ensures Staged(a, ev, t, pre).last == a.last
  {
    AuxNodesGen(AddNode(a, t), pre);
    LinkWireEdges(AddAuxNodes(AddNode(a, t), pre), ev, pre, a.gen.guid);
  }

  /** ... and keeps every node. */
  lemma StagedGuids(a: Acc, ev: Option<nat>, t: Template, pre: seq<Aux>, x: nat)
    requires x in Guids(a.nodes)
    ensures x in Guids(Staged(a, ev, t, pre).nodes)
  {
    AddNodeGuids(a, t);
    AuxNodesGuids(AddNode(a, t), pre);
    WireAuxNodes(Link(AddAuxNodes(AddNode(a, t), pre), ev, a.gen.guid), pre, a.gen.guid + 1, a.gen.guid);
  }

  /** One statement `t` with its value nodes: `t` is the one new statement, the only new
      control edge is the link into it, it becomes the cursor, and no node is lost. */
  lemma StepStatements(a: Acc, ev: Option<nat>, t: Template, pre: seq<Aux>, post: seq<Aux>)
    requires IsStatement(t) && AllValues(pre) && AllValues(post)
    ensures Statements(Step(a, ev, t, pre, post).nodes) == Statements(a.nodes) + [a.gen.guid]
    ensures StatementKinds(Step(a, ev, t, pre, post).nodes) == StatementKinds(a.nodes) + [t]
  {
    StagedStatements(a, ev, t, pre);
    AddWiredStatements(Staged(a, ev, t, pre), post, a.gen.guid);
    StepIsStaged(a, ev, t, pre, post);
  }

  lemma StepEdges(a: Acc, ev: Option<nat>, t: Template, pre: seq<Aux>, post: seq<Aux>)
    ensures Step(a, ev, t, pre, post).last == Some(a.gen.guid)
    ensures a.gen.guid < Step(a, ev, t, pre, post).gen.guid
    ensures ControlEdges(Step(a, ev, t, pre, post).conns) == ControlEdges(a.conns) + LinkEdges(a.last, ev, a.gen.guid)
  {
    StagedEdges(a, ev, t, pre);
    AddWiredEdges(Staged(a, ev, t, pre), post, a.gen.guid);
    StepIsStaged(a, ev, t, pre, post);
  }

  lemma StepGuids(a: Acc, ev: Option<nat>, t: Template, pre: seq<Aux>, post: seq<Aux>, x: nat)
    requires x in Guids(a.nodes)
    ensures x in Guids(Step(a, ev, t, pre, post).nodes)
  {
    StagedGuids(a, ev, t, pre, x);
    AddWiredGuids(Staged(a, ev, t, pre), post, a.gen.guid, x);
    StepIsStaged(a, ev, t, pre, post);
  }

  /** The soundness part does not look at the cursor. */
  lemma SoundAnyLast(a: Acc, base: nat, start: Pos, l: Option<nat>)
    requires Sound(a, base, start)
    ensures Sound(a.(last := l), base, start)
  {
  }

  /** The value nodes take the guids from the counter on ... */
  lemma AuxSources(b: Acc, pre: seq<Aux>, g: nat)
    requires b.gen.guid <= g < b.gen.guid + |pre|
    ensures g in Guids(AddAuxNodes(b, pre).nodes)
  {
    AuxNodesGuids(b, pre);
    RangeMember(b.gen.guid, |pre|, g);
  }

  /** ... and keep every node. */
  lemma AuxKeepsNodes(b: Acc, pre: seq<Aux>, x: nat)
    requires x in Guids(b.nodes)
    ensures x in Guids(AddAuxNodes(b, pre).nodes)
  {
    AuxNodesGuids(b, pre);
  }

  /** The link into `m` and the value connections from the guids after `m` keep everything
      but the chain, when those are nodes and `m` is a statement. */
  lemma LinkWireSound(c: Acc, ev: Option<nat>, base: nat, start: Pos, pre: seq<Aux>, m: nat)
    requires Sound(c, base, start) && m in Statements(c.nodes)
    requires c.last.Some? ==> c.last.value in Guids(c.nodes)
    requires forall g :: m + 1 <= g < m + 1 + |pre| ==> g in Guids(c.nodes)
    ensures Sound(WireAux(Link(c, ev, m), pre, m + 1, m), base, start)
  {
    LinkSound(c, ev, base, start, m);
    assert Link(c, ev, m).nodes == c.nodes;
    WireAuxSound(Link(c, ev, m), base, start, pre, m + 1, m);
  }

  /** The value nodes built before the link, the link and their value connections keep
      everything but the chain. */
  lemma AuxLinkSound(b: Acc, ev: Option<nat>, base: nat, start: Pos, pre: seq<Aux>, m: nat)
    requires Sound(b, base, start) && AllValues(pre) && m in Statements(b.nodes) && b.gen.guid == m + 1
    requires b.last.Some? ==> b.last.value in Guids(b.nodes)
    ensures Sound(WireAux(Link(AddAuxNodes(b, pre), ev, m), pre, m + 1, m), base, start)
  {
    AuxNodesSound(b, base, start, pre);
    AuxNodesStatements(b, pre);
    AuxNodesGen(b, pre);
    if b.last.Some? {
      AuxKeepsNodes(b, pre, b.last.value);
    }
    forall g | m + 1 <= g < m + 1 + |pre| ensures g in Guids(AddAuxNodes(b, pre).nodes) {
      AuxSources(b, pre, g);
    }
    LinkWireSound(AddAuxNodes(b, pre), ev, base, start, pre, m);
  }

  lemma StagedSound(a: Acc, ev: Option<nat>, base: nat, start: Pos, t: Template, pre: seq<Aux>)
    requires Sound(a, base, start) && IsStatement(t) && AllValues(pre)
    requires a.last.Some? ==> a.last.value in Guids(a.nodes)
    ensures Sound(Staged(a, ev, t, pre), base, start)
  {
    AddNodeSound(a, base, start, t);
    AddNodeStatements(a, t);
    AddNodeGuids(a, t);
    AuxLinkSound(AddNode(a, t), ev, base, start, pre, a.gen.guid);
  }

  lemma StepSound(a: Acc, ev: Option<nat>, base: nat, start: Pos, t: Template, pre: seq<Aux>, post: seq<Aux>)
    requires Sound(a, base, start) && IsStatement(t) && AllValues(pre) && AllValues(post)
    requires a.last.Some? ==> a.last.value in Guids(a.nodes)
    ensures Sound(Step(a, ev, t, pre, post), base, start)
  {
    StagedSound(a, ev, base, start, t, pre);
    StagedStatements(a, ev, t, pre);
    AddWiredSound(Staged(a, ev, t, pre), base, start, post, a.gen.guid);
    SoundAnyLast(AddWired(Staged(a, ev, t, pre), post, a.gen.guid), base, start, Some(a.gen.guid));
    StepIsStaged(a, ev, t, pre, post);
  }

  /** A state that adds one statement `m` as the cursor, linked from the previous cursor,
      to a state that keeps the invariant, keeps it too. */
  lemma ExtendKeeps(a: Acc, s: Acc, ev: Option<nat>, base: nat, start: Pos)
    requires Inv(a, ev, base, start) && Sound(s, base, start)
    requires Statements(s.nodes) == Statements(a.nodes) + [a.gen.guid]
    requires ControlEdges(s.conns) == ControlEdges(a.conns) + LinkEdges(a.last, ev, a.gen.guid)
    requires s.last == Some(a.gen.guid) && a.gen.guid < s.gen.guid
    requires ev.Some? ==> ev.value in Guids(s.nodes)
    ensures Inv(s, ev, base, start)
  {
    ChainSnoc(Cursors(ev, a.nodes), ev, a.gen.guid);
    assert Cursors(ev, s.nodes) == Cursors(ev, a.nodes) + [a.gen.guid];
  }

  /** One statement keeps the invariant: the chain grows by the edge from the previous
      cursor into the statement node, which becomes the cursor. */
  lemma StepKeeps(a: Acc, ev: Option<nat>, base: nat, start: Pos, t: Template, pre: seq<Aux>, post: seq<Aux>)
    requires Inv(a, ev, base, start) && IsStatement(t) && AllValues(pre) && AllValues(post)
    ensures Inv(Step(a, ev, t, pre, post), ev, base, start)
    ensures StatementKinds(Step(a, ev, t, pre, post).nodes) == StatementKinds(a.nodes) + [t]
  {
    if a.last.Some? {
      CursorIsNode(a.nodes, ev, a.gen.guid, a.last.value);
    }
    StepSound(a, ev, base, start, t, pre, post);
    StepStatements(a, ev, t, pre, post);
    StepEdges(a, ev, t, pre, post);
    if ev.Some? {
      StepGuids(a, ev, t, pre, post, ev.value);
    }
    ExtendKeeps(a, Step(a, ev, t, pre, post), ev, base, start);
  }

  /** The statement node of every capture is a statement. */
  lemma MainIsStatement(body: string, c: Capture)
    ensures MainOf(body, c).Some? ==> IsStatement(MainOf(body, c).value)
  {
    if c.CallCap? && !CallSkipped(body, c.c) {
      assert MainOf(body, c).value == CallTemplate(c.c);
    }
  }

  /** The value nodes of every capture are literals, operators or waits. */
  lemma PreValues(c: Capture)
    ensures AllValues(PreOf(c))
  {
    if c.ForCap? {
      var p := LoopTemplates(c.f);
      assert p[0].t.TLiteral? && p[1].t.TLiteral?;
      assert |p| == 2;
    }
  }

  lemma PostValues(c: Capture)
    ensures AllValues(PostOf(c))
  {
    match c
    case LogCap(l) => LogValues(l);
    case IfCap(i) => IfValues(i);
    case AssignCap(x) => AssignValues(x);
    case YieldCap(y) => YieldValues(y);
    case _ =>
  }

  lemma LogValues(l: LogMatch)
    ensures AllValues(PostOf(LogCap(l)))
  {
  }

  lemma IfValues(i: IfMatch)
    ensures AllValues(PostOf(IfCap(i)))
  {
  }

  lemma AssignValues(x: AssignMatch)
    ensures AllValues(PostOf(AssignCap(x)))
  {
  }

  lemma YieldValues(y: YieldMatch)
    ensures AllValues(PostOf(YieldCap(y)))
  {
  }

  lemma StepOfKeeps(a: Acc, ev: Option<nat>, base: nat, start: Pos, body: string, c: Capture)
    requires Inv(a, ev, base, start)
    ensures Inv(StepOf(a, ev, body, c), ev, base, start)
  {
    match MainOf(body, c)
    case None =>
    case Some(t) =>
      MainIsStatement(body, c);
      PreValues(c);
      PostValues(c);
      StepKeeps(a, ev, base, start, t, PreOf(c), PostOf(c));
  }

  /** Each capture that is not skipped adds exactly its statement node. */
  lemma StepOfKinds(a: Acc, ev: Option<nat>, body: string, c: Capture)
    ensures StatementKinds(StepOf(a, ev, body, c).nodes)
            == StatementKinds(a.nodes) + (if MainOf(body, c).Some? then [MainOf(body, c).value] else [])
  {
    match MainOf(body, c)
    case None =>
    case Some(t) =>
      MainIsStatement(body, c);
      PreValues(c);
      PostValues(c);
      StepStatements(a, ev, t, PreOf(c), PostOf(c));
  }

  /** The category loops keep the invariant. */
  lemma {:induction false} FoldKeeps(a: Acc, ev: Option<nat>, base: nat, start: Pos, body: string, caps: seq<Capture>)
    requires Inv(a, ev, base, start)
    ensures Inv(Fold(a, ev, body, caps), ev, base, start)
    decreases |caps|
  {
    if |caps| > 0 {
      var n := |caps| - 1;
      FoldKeeps(a, ev, base, start, body, caps[..n]);
      StepOfKeeps(Fold(a, ev, body, caps[..n]), ev, base, start, body, caps[n]);
    }
  }

  /** The statement nodes of the category loops are those of the captures not skipped, in
      processing order. */
  lemma {:induction false} FoldKinds(a: Acc, ev: Option<nat>, body: string, caps: seq<Capture>)
    ensures StatementKinds(Fold(a, ev, body, caps).nodes) == StatementKinds(a.nodes) + Mains(body, caps)
    decreases |caps|
  {
    if |caps| > 0 {
      var n := |caps| - 1;
      FoldKinds(a, ev, body, caps[..n]);
      StepOfKinds(Fold(a, ev, body, caps[..n]), ev, body, caps[n]);
      assert caps[..n] + [caps[n]] == caps;
      MainsSnoc(body, caps[..n], caps[n]);
    }
  }
}
