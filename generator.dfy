/** `VisualScriptingGenerator`: the object that owns the layout cursor, the guid counter
    and the graph's node and connection lists, proved against the functions of module
    Synthesis. */
module Generator {
  import opened Wrappers
  import opened Text
  import opened Graph
  import opened Parser
  import opened Builders
  import opened Synthesis

  /** The guid of the node a cursor variable holds. */
  function IdOf(n: Option<Node>): Option<nat> {
    match n
    case None => None
    case Some(x) => Some(x.guid)
  }

  class VisualScriptingGenerator {
    var nodes: seq<Node>
    var connections: seq<Connection>
    var positionX: int
    var positionY: int
    /** The counter that stands for `uuid.uuid4()`. */
    var nextGuid: nat

    constructor ()
      ensures nodes == [] && connections == []
      ensures positionX == 0 && positionY == 0 && nextGuid == 0
    {
      nodes := [];
      connections := [];
      positionX := 0;
      positionY := 0;
      nextGuid := 0;
    }

    /** The counters. */
    function State(): Gen
      reads this
    {
      Gen(positionX, positionY, nextGuid)
    }

    /** The local state of `_process_method` together with the counters. */
    function AccOf(ns: seq<Node>, cs: seq<Connection>, last: Option<Node>): Acc
      reads this
    {
      Acc(ns, cs, IdOf(last), State())
    }

    /** `_new_guid`. */
    method NewGuid() returns (g: nat)
      modifies this
      ensures g == old(nextGuid) && nextGuid == g + 1
      ensures positionX == old(positionX) && positionY == old(positionY)
      ensures nodes == old(nodes) && connections == old(connections)
    {
      g := nextGuid;
      nextGuid := nextGuid + 1;
    }

    /** `_next_position`: hands out the cursor and advances it. */
    method NextPosition() returns (p: Pos)
      modifies this
      ensures p == Pos(old(positionX), old(positionY))
      ensures Pos(positionX, positionY) == NextCursor(old(positionX), old(positionY))
      ensures nextGuid == old(nextGuid)
      ensures nodes == old(nodes) && connections == old(connections)
    {
      p := Pos(positionX, positionY);
      positionX := positionX + 250;
      if positionX > 1000 {
        positionX := 0;
        positionY := positionY + 150;
      }
    }

    /** The `_create_*_node` methods: a fresh guid, then the next position.
        The ghost parameters name the caller's lists, so that the effect on them can be
        stated as one step of the specification. */
    method CreateNode(t: Template, ghost ns: seq<Node>, ghost cs: seq<Connection>, ghost last: Option<Node>)
      returns (n: Node)
      modifies this
      ensures n == Node(old(nextGuid), Pos(old(positionX), old(positionY)), t, None)
      ensures AccOf(ns + [n], cs, last) == AddNode(old(AccOf(ns, cs, last)), t)
      ensures nodes == old(nodes) && connections == old(connections)
    {
      var g := NewGuid();
      var p := NextPosition();
      n := Node(g, p, t, None);
    }

    /** `_create_connection`: a fresh guid; source and destination are referred to by id. */
    method CreateConnection(source: Node, sourceKey: string, dest: Node, destKey: string,
                            isControl: bool, ghost ns: seq<Node>, ghost cs: seq<Connection>,
                            ghost last: Option<Node>) returns (c: Connection)
      modifies this
      ensures c == Connection(old(nextGuid), source.guid, sourceKey, dest.guid, destKey, isControl)
      ensures AccOf(ns, cs + [c], last)
              == AddConn(old(AccOf(ns, cs, last)), source.guid, sourceKey, dest.guid, destKey, isControl)
      ensures nextGuid == old(nextGuid) + 1
      ensures positionX == old(positionX) && positionY == old(positionY)
      ensures nodes == old(nodes) && connections == old(connections)
    {
      var g := NewGuid();
      c := Connection(g, source.guid, sourceKey, dest.guid, destKey, isControl);
    }

    /** The control connection each category loop makes from the cursor, if there is one,
        into the node it has just built. */
    method ConnectFromCursor(last: Option<Node>, eventNode: Option<Node>, node: Node,
                             ghost ns: seq<Node>, cs0: seq<Connection>) returns (cs: seq<Connection>)
      modifies this
      ensures AccOf(ns, cs, last) == Link(old(AccOf(ns, cs0, last)), IdOf(eventNode), node.guid)
      ensures nodes == old(nodes) && connections == old(connections)
    {
      cs := cs0;
      if last.Some? {
        var l := last.value;
        var key := if eventNode.Some? && l.guid == eventNode.value.guid then "trigger" else "exit";
        var c := CreateConnection(l, key, node, "enter", true, ns, cs, last);
        cs := cs + [c];
      }
    }

    /** `_extract_switch_body`: the same brace scan as `_extract_body`, returning the text
        before the closing brace. */
    method ExtractSwitchBody(code: string, start: nat) returns (body: string)
      ensures body == SwitchSpan(code, start)
    {
      var t := From(code, start);
      var depth := 0;
      var endPos := 0;
      var i := 0;
      while i < |t|
        invariant 0 <= i <= |t|
        invariant depth == Depth(t[..i])
        invariant forall j :: 0 <= j < i ==> !IsClose(t, j)
      {
        DepthSnoc(t, i);
        if t[i] == '{' {
          depth := depth + 1;
        } else if t[i] == '}' {
          depth := depth - 1;
          if depth == 0 {
            assert IsClose(t, i);
            endPos := i;
            break;
          }
        }
        i := i + 1;
      }
      body := t[..endPos];
    }

    /** One iteration of the for-loop block: the `For` node, its two bound literals, the
        control link from the cursor and the two value connections. */
    method EmitFor(body: string, f: ForMatch, eventNode: Option<Node>,
                   ns0: seq<Node>, cs0: seq<Connection>, last0: Option<Node>)
      returns (ns: seq<Node>, cs: seq<Connection>, last: Option<Node>)
      modifies this
      ensures AccOf(ns, cs, last) == StepOf(old(AccOf(ns0, cs0, last0)), IdOf(eventNode), body, ForCap(f))
      ensures nodes == old(nodes) && connections == old(connections)
    {
      var first := Aux(TLiteral(JInt(LoopBound(f.start, 0)), "int"), "output", "%firstIndex");
      var second := Aux(TLiteral(JInt(LoopBound(f.end, 10)), "int"), "output", "%lastIndex");
      assert LoopTemplates(f) == [first, second];
      ns, cs, last := EmitWithInputs(TFor, first, second, eventNode, ns0, cs0, last0);
    }

    /** A statement node and two value nodes built before it is linked, each wired into
        it after the link. */
    method EmitWithInputs(main: Template, first: Aux, second: Aux, eventNode: Option<Node>,
                          ns0: seq<Node>, cs0: seq<Connection>, last0: Option<Node>)
      returns (ns: seq<Node>, cs: seq<Connection>, last: Option<Node>)
      modifies this
      ensures AccOf(ns, cs, last) == Step(old(AccOf(ns0, cs0, last0)), IdOf(eventNode), main, [first, second], [])
      ensures nodes == old(nodes) && connections == old(connections)
    {
      ns, cs, last := ns0, cs0, last0;
      StepTwoBefore(AccOf(ns, cs, last), IdOf(eventNode), main, first, second);
      var mainNode := CreateNode(main, ns, cs, last);
      ns := ns + [mainNode];
      var firstNode := CreateNode(first.t, ns, cs, last);
      ns := ns + [firstNode];
      var secondNode := CreateNode(second.t, ns, cs, last);
      ns := ns + [secondNode];
      cs := ConnectFromCursor(last, eventNode, mainNode, ns, cs);
      var c := CreateConnection(firstNode, first.srcKey, mainNode, first.dstKey, false, ns, cs, last);
      cs := cs + [c];
      c := CreateConnection(secondNode, second.srcKey, mainNode, second.dstKey, false, ns, cs, last);
      cs := cs + [c];
      last := Some(mainNode);
    }

    /** The shape every block but the for-loop's shares: the statement node, the control
        link from the cursor, then optionally one value node wired into the statement. */
    method EmitStatement(main: Template, value: Option<Aux>, eventNode: Option<Node>,
                         ns0: seq<Node>, cs0: seq<Connection>, last0: Option<Node>)
      returns (ns: seq<Node>, cs: seq<Connection>, last: Option<Node>)
      modifies this
      ensures AccOf(ns, cs, last) == Step(old(AccOf(ns0, cs0, last0)), IdOf(eventNode), main, [], AuxList(value))
      ensures nodes == old(nodes) && connections == old(connections)
    {
      ns, cs, last := ns0, cs0, last0;
      ghost var before := AccOf(ns, cs, last);
      var node := CreateNode(main, ns, cs, last);
      ns := ns + [node];
      cs := ConnectFromCursor(last, eventNode, node, ns, cs);
      if value.Some? {
        StepOneAfter(before, IdOf(eventNode), main, value.value);
        var valueNode := CreateNode(value.value.t, ns, cs, last);
        ns := ns + [valueNode];
        var c := CreateConnection(valueNode, value.value.srcKey, node, value.value.dstKey, false, ns, cs, last);
        cs := cs + [c];
      } else {
        StepPlain(before, IdOf(eventNode), main);
      }
      last := Some(node);
    }

    /** One iteration of the while-loop block. */
    method EmitWhile(body: string, w: WhileMatch, eventNode: Option<Node>,
                   ns0: seq<Node>, cs0: seq<Connection>, last0: Option<Node>)
      returns (ns: seq<Node>, cs: seq<Connection>, last: Option<Node>)
      modifies this
      ensures AccOf(ns, cs, last) == StepOf(old(AccOf(ns0, cs0, last0)), IdOf(eventNode), body, WhileCap(w))
      ensures nodes == old(nodes) && connections == old(connections)
    {
      ns, cs, last := EmitStatement(TWhile, None, eventNode, ns0, cs0, last0);
    }

    /** One iteration of the foreach block: the collection type is always the default. */
    method EmitForeach(body: string, e: ForeachMatch, eventNode: Option<Node>,
                   ns0: seq<Node>, cs0: seq<Connection>, last0: Option<Node>)
      returns (ns: seq<Node>, cs: seq<Connection>, last: Option<Node>)
      modifies this
      ensures AccOf(ns, cs, last) == StepOf(old(AccOf(ns0, cs0, last0)), IdOf(eventNode), body, ForeachCap(e))
      ensures nodes == old(nodes) && connections == old(connections)
    {
      ns, cs, last := EmitStatement(TForEach("System.Collections.IEnumerable"), None, eventNode, ns0, cs0, last0);
    }

    /** One iteration of the switch block: the case count is taken from the text
        `_extract_switch_body` returns from just after the switch's `{`. */
    method EmitSwitch(body: string, sw: SwitchMatch, eventNode: Option<Node>,
                   ns0: seq<Node>, cs0: seq<Connection>, last0: Option<Node>)
      returns (ns: seq<Node>, cs: seq<Connection>, last: Option<Node>)
      modifies this
      ensures AccOf(ns, cs, last) == StepOf(old(AccOf(ns0, cs0, last0)), IdOf(eventNode), body, SwitchCap(sw))
      ensures nodes == old(nodes) && connections == old(connections)
    {
      var switchBody := ExtractSwitchBody(body, sw.bodyStart);
      var numCases := CountCaseLabels(switchBody);
      ns, cs, last := EmitStatement(TSwitch(numCases), None, eventNode, ns0, cs0, last0);
    }

    /** One iteration of the `Debug.Log` block: the invoke node, the control link, and for
        a quoted argument a string literal wired into `%message`. */
    method EmitLog(body: string, l: LogMatch, eventNode: Option<Node>,
                   ns0: seq<Node>, cs0: seq<Connection>, last0: Option<Node>)
      returns (ns: seq<Node>, cs: seq<Connection>, last: Option<Node>)
      modifies this
      ensures AccOf(ns, cs, last) == StepOf(old(AccOf(ns0, cs0, last0)), IdOf(eventNode), body, LogCap(l))
      ensures nodes == old(nodes) && connections == old(connections)
    {
      var logArg := Strip(l.arg);
      var literal: Option<Aux> := None;
      var quoted := QuotedText(logArg);
      if quoted.Some? {
        literal := Some(Aux(TLiteral(JStr(quoted.value), "string"), "output", "%message"));
      }
      assert literal == LogValue(l);
      ns, cs, last := EmitStatement(DebugLog, literal, eventNode, ns0, cs0, last0);
    }

    /** One iteration of the if block: the `If` node, the control link, and a comparison
        node for the first operator found in the condition. */
    method EmitIf(body: string, i: IfMatch, eventNode: Option<Node>,
                   ns0: seq<Node>, cs0: seq<Connection>, last0: Option<Node>)
      returns (ns: seq<Node>, cs: seq<Connection>, last: Option<Node>)
      modifies this
      ensures AccOf(ns, cs, last) == StepOf(old(AccOf(ns0, cs0, last0)), IdOf(eventNode), body, IfCap(i))
      ensures nodes == old(nodes) && connections == old(connections)
    {
      var comparison := ComparisonFor(i);
      ns, cs, last := EmitStatement(TIf, comparison, eventNode, ns0, cs0, last0);
    }

    /** The comparison node the if block builds for a condition, if any. */
    method ComparisonFor(i: IfMatch) returns (comparison: Option<Aux>)
      ensures comparison == IfValue(i)
    {
      var condition := Strip(i.condition);
      var op := FindOperator(ComparisonOps, condition, true);
      comparison := None;
      if op.Some? {
        comparison := Some(Aux(TComparison(op.value), "result", "%condition"));
      }
    }

    /** One iteration of the assignment block: the `SetVariable` node, the control link,
        and an arithmetic node for the first operator in a value that is not a string. */
    method EmitAssign(body: string, x: AssignMatch, eventNode: Option<Node>,
                   ns0: seq<Node>, cs0: seq<Connection>, last0: Option<Node>)
      returns (ns: seq<Node>, cs: seq<Connection>, last: Option<Node>)
      modifies this
      ensures AccOf(ns, cs, last) == StepOf(old(AccOf(ns0, cs0, last0)), IdOf(eventNode), body, AssignCap(x))
      ensures nodes == old(nodes) && connections == old(connections)
    {
      var value := Strip(x.value);
      var op := FindOperator(ArithmeticOps, value, !StartsWith(value, "\""));
      var arithmetic: Option<Aux> := None;
      if op.Some? {
        arithmetic := Some(Aux(TArithmetic(op.value), "result", "%input"));
      }
      assert arithmetic == AssignValue(x);
      ns, cs, last := EmitStatement(TSetVariable(x.name, "System.Object"), arithmetic, eventNode, ns0, cs0, last0);
    }

    /** One iteration of the yield block: the `YieldReturn` node, the control link, and
        for `WaitForSeconds` with a numeric argument a wait node wired into `%instruction`. */
    method EmitYield(body: string, y: YieldMatch, eventNode: Option<Node>,
                   ns0: seq<Node>, cs0: seq<Connection>, last0: Option<Node>)
      returns (ns: seq<Node>, cs: seq<Connection>, last: Option<Node>)
      modifies this
      ensures AccOf(ns, cs, last) == StepOf(old(AccOf(ns0, cs0, last0)), IdOf(eventNode), body, YieldCap(y))
      ensures nodes == old(nodes) && connections == old(connections)
    {
      var wait: Option<Aux> := None;
      if y.typeName == "WaitForSeconds" && y.args.Some? && y.args.value != "" && y.argsIsNumber {
        wait := Some(Aux(TWaitForSeconds(JNum(Strip(y.args.value))), "result", "%instruction"));
      }
      assert wait == YieldValue(y);
      ns, cs, last := EmitStatement(TYieldReturn, wait, eventNode, ns0, cs0, last0);
    }

    /** One iteration of the generic-call block: calls skipped as `Debug.Log` or as the
        right-hand side of an assignment leave everything as it was; any other call gets a
        custom invoke node with one placeholder parameter per argument. */
    method EmitCall(body: string, k: CallMatch, eventNode: Option<Node>,
                   ns0: seq<Node>, cs0: seq<Connection>, last0: Option<Node>)
      returns (ns: seq<Node>, cs: seq<Connection>, last: Option<Node>)
      modifies this
      ensures AccOf(ns, cs, last) == StepOf(old(AccOf(ns0, cs0, last0)), IdOf(eventNode), body, CallCap(k))
      ensures nodes == old(nodes) && connections == old(connections)
    {
      ns, cs, last := ns0, cs0, last0;
      if k.target == "Debug" && k.member == "Log" {
        return;
      }
      var preContext := Lookback(body, k.matchStart);
      if '=' in LastLine(preContext) {
        return;
      }
      var targetType := TargetTypeOf(k.target);
      var parameters := PlaceholderParams(k.args);
      ns, cs, last := EmitStatement(TCustomInvoke(k.member, targetType, parameters, Some("void"), false),
                                    None, eventNode, ns0, cs0, last0);
    }

    /** The parameter list of a generic call: `arg0`, `arg1`, ... of type `System.Object`,
        one per non-blank comma-separated argument. */
    static method PlaceholderParams(args: string) returns (parameters: seq<Param>)
      ensures parameters == ArgParams(ArgCount(args))
    {
      var argsText := Strip(args);
      parameters := [];
      if argsText != "" {
        var argCount := CountNonBlank(SplitOn(argsText, ','));
        for j := 0 to argCount
          invariant |parameters| == j
          invariant forall q :: 0 <= q < j ==> parameters[q] == Param("System.Object", "arg" + NatToString(q))
        {
          parameters := parameters + [Param("System.Object", "arg" + NatToString(j))];
        }
      }
    }

    /** The for-loop block of `_process_method`: every match in textual order. */
    method ProcessFors(body: string, ms: seq<ForMatch>, eventNode: Option<Node>,
                       ns0: seq<Node>, cs0: seq<Connection>, last0: Option<Node>)
      returns (ns: seq<Node>, cs: seq<Connection>, last: Option<Node>)
      modifies this
      ensures AccOf(ns, cs, last) == Fold(old(AccOf(ns0, cs0, last0)), IdOf(eventNode), body, ForCaps(ms))
      ensures nodes == old(nodes) && connections == old(connections)
    {
      ghost var a0 := AccOf(ns0, cs0, last0);
      ns, cs, last := ns0, cs0, last0;
      for i := 0 to |ms|
        invariant AccOf(ns, cs, last) == Fold(a0, IdOf(eventNode), body, ForCaps(ms[..i]))
        invariant nodes == old(nodes) && connections == old(connections)
      {
        ns, cs, last := EmitFor(body, ms[i], eventNode, ns, cs, last);
        WrapSnoc(ms, m => ForCap(m), i);
        FoldSnoc(a0, IdOf(eventNode), body, ForCaps(ms[..i]), ForCap(ms[i]));
      }
      assert ms[..|ms|] == ms;
    }

    /** The while-loop block of `_process_method`: every match in textual order. */
    method ProcessWhiles(body: string, ms: seq<WhileMatch>, eventNode: Option<Node>,
                       ns0: seq<Node>, cs0: seq<Connection>, last0: Option<Node>)
      returns (ns: seq<Node>, cs: seq<Connection>, last: Option<Node>)
      modifies this
      ensures AccOf(ns, cs, last) == Fold(old(AccOf(ns0, cs0, last0)), IdOf(eventNode), body, WhileCaps(ms))
      ensures nodes == old(nodes) && connections == old(connections)
    {
      ghost var a0 := AccOf(ns0, cs0, last0);
      ns, cs, last := ns0, cs0, last0;
      for i := 0 to |ms|
        invariant AccOf(ns, cs, last) == Fold(a0, IdOf(eventNode), body, WhileCaps(ms[..i]))
        invariant nodes == old(nodes) && connections == old(connections)
      {
        ns, cs, last := EmitWhile(body, ms[i], eventNode, ns, cs, last);
        WrapSnoc(ms, m => WhileCap(m), i);
        FoldSnoc(a0, IdOf(eventNode), body, WhileCaps(ms[..i]), WhileCap(ms[i]));
      }
      assert ms[..|ms|] == ms;
    }

    /** The foreach block of `_process_method`: every match in textual order. */
    method ProcessForeaches(body: string, ms: seq<ForeachMatch>, eventNode: Option<Node>,
                       ns0: seq<Node>, cs0: seq<Connection>, last0: Option<Node>)
      returns (ns: seq<Node>, cs: seq<Connection>, last: Option<Node>)
      modifies this
      ensures AccOf(ns, cs, last) == Fold(old(AccOf(ns0, cs0, last0)), IdOf(eventNode), body, ForeachCaps(ms))
      ensures nodes == old(nodes) && connections == old(connections)
    {
      ghost var a0 := AccOf(ns0, cs0, last0);
      ns, cs, last := ns0, cs0, last0;
      for i := 0 to |ms|
        invariant AccOf(ns, cs, last) == Fold(a0, IdOf(eventNode), body, ForeachCaps(ms[..i]))
        invariant nodes == old(nodes) && connections == old(connections)
      {
        ns, cs, last := EmitForeach(body, ms[i], eventNode, ns, cs, last);
        WrapSnoc(ms, m => ForeachCap(m), i);
        FoldSnoc(a0, IdOf(eventNode), body, ForeachCaps(ms[..i]), ForeachCap(ms[i]));
      }
      assert ms[..|ms|] == ms;
    }

    /** The switch block of `_process_method`: every match in textual order. */
    method ProcessSwitches(body: string, ms: seq<SwitchMatch>, eventNode: Option<Node>,
                       ns0: seq<Node>, cs0: seq<Connection>, last0: Option<Node>)
      returns (ns: seq<Node>, cs: seq<Connection>, last: Option<Node>)
      modifies this
      ensures AccOf(ns, cs, last) == Fold(old(AccOf(ns0, cs0, last0)), IdOf(eventNode), body, SwitchCaps(ms))
      ensures nodes == old(nodes) && connections == old(connections)
    {
      ghost var a0 := AccOf(ns0, cs0, last0);
      ns, cs, last := ns0, cs0, last0;
      for i := 0 to |ms|
        invariant AccOf(ns, cs, last) == Fold(a0, IdOf(eventNode), body, SwitchCaps(ms[..i]))
        invariant nodes == old(nodes) && connections == old(connections)
      {
        ns, cs, last := EmitSwitch(body, ms[i], eventNode, ns, cs, last);
        WrapSnoc(ms, m => SwitchCap(m), i);
        FoldSnoc(a0, IdOf(eventNode), body, SwitchCaps(ms[..i]), SwitchCap(ms[i]));
      }
      assert ms[..|ms|] == ms;
    }

    /** The `Debug.Log` block of `_process_method`: every match in textual order. */
    method ProcessLogs(body: string, ms: seq<LogMatch>, eventNode: Option<Node>,
                       ns0: seq<Node>, cs0: seq<Connection>, last0: Option<Node>)
      returns (ns: seq<Node>, cs: seq<Connection>, last: Option<Node>)
      modifies this
      ensures AccOf(ns, cs, last) == Fold(old(AccOf(ns0, cs0, last0)), IdOf(eventNode), body, LogCaps(ms))
      ensures nodes == old(nodes) && connections == old(connections)
    {
      ghost var a0 := AccOf(ns0, cs0, last0);
      ns, cs, last := ns0, cs0, last0;
      for i := 0 to |ms|
        invariant AccOf(ns, cs, last) == Fold(a0, IdOf(eventNode), body, LogCaps(ms[..i]))
        invariant nodes == old(nodes) && connections == old(connections)
      {
        ns, cs, last := EmitLog(body, ms[i], eventNode, ns, cs, last);
        WrapSnoc(ms, m => LogCap(m), i);
        FoldSnoc(a0, IdOf(eventNode), body, LogCaps(ms[..i]), LogCap(ms[i]));
      }
      assert ms[..|ms|] == ms;
    }

    /** The if block of `_process_method`: every match in textual order. */
    method ProcessIfs(body: string, ms: seq<IfMatch>, eventNode: Option<Node>,
                       ns0: seq<Node>, cs0: seq<Connection>, last0: Option<Node>)
      returns (ns: seq<Node>, cs: seq<Connection>, last: Option<Node>)
      modifies this
      ensures AccOf(ns, cs, last) == Fold(old(AccOf(ns0, cs0, last0)), IdOf(eventNode), body, IfCaps(ms))
      ensures nodes == old(nodes) && connections == old(connections)
    {
      ghost var a0 := AccOf(ns0, cs0, last0);
      ns, cs, last := ns0, cs0, last0;
      for i := 0 to |ms|
        invariant AccOf(ns, cs, last) == Fold(a0, IdOf(eventNode), body, IfCaps(ms[..i]))
        invariant nodes == old(nodes) && connections == old(connections)
      {
        ns, cs, last := EmitIf(body, ms[i], eventNode, ns, cs, last);
        WrapSnoc(ms, m => IfCap(m), i);
        FoldSnoc(a0, IdOf(eventNode), body, IfCaps(ms[..i]), IfCap(ms[i]));
      }
      assert ms[..|ms|] == ms;
    }

    /** The assignment block of `_process_method`: every match in textual order. */
    method ProcessAssigns(body: string, ms: seq<AssignMatch>, eventNode: Option<Node>,
                       ns0: seq<Node>, cs0: seq<Connection>, last0: Option<Node>)
      returns (ns: seq<Node>, cs: seq<Connection>, last: Option<Node>)
      modifies this
      ensures AccOf(ns, cs, last) == Fold(old(AccOf(ns0, cs0, last0)), IdOf(eventNode), body, AssignCaps(ms))
      ensures nodes == old(nodes) && connections == old(connections)
    {
      ghost var a0 := AccOf(ns0, cs0, last0);
      ns, cs, last := ns0, cs0, last0;
      for i := 0 to |ms|
        invariant AccOf(ns, cs, last) == Fold(a0, IdOf(eventNode), body, AssignCaps(ms[..i]))
        invariant nodes == old(nodes) && connections == old(connections)
      {
        ns, cs, last := EmitAssign(body, ms[i], eventNode, ns, cs, last);
        WrapSnoc(ms, m => AssignCap(m), i);
        FoldSnoc(a0, IdOf(eventNode), body, AssignCaps(ms[..i]), AssignCap(ms[i]));
      }
      assert ms[..|ms|] == ms;
    }

    /** The yield-return block of `_process_method`: every match in textual order. */
    method ProcessYields(body: string, ms: seq<YieldMatch>, eventNode: Option<Node>,
                       ns0: seq<Node>, cs0: seq<Connection>, last0: Option<Node>)
      returns (ns: seq<Node>, cs: seq<Connection>, last: Option<Node>)
      modifies this
      ensures AccOf(ns, cs, last) == Fold(old(AccOf(ns0, cs0, last0)), IdOf(eventNode), body, YieldCaps(ms))
      ensures nodes == old(nodes) && connections == old(connections)
    {
      ghost var a0 := AccOf(ns0, cs0, last0);
      ns, cs, last := ns0, cs0, last0;
      for i := 0 to |ms|
        invariant AccOf(ns, cs, last) == Fold(a0, IdOf(eventNode), body, YieldCaps(ms[..i]))
        invariant nodes == old(nodes) && connections == old(connections)
      {
        ns, cs, last := EmitYield(body, ms[i], eventNode, ns, cs, last);
        WrapSnoc(ms, m => YieldCap(m), i);
        FoldSnoc(a0, IdOf(eventNode), body, YieldCaps(ms[..i]), YieldCap(ms[i]));
      }
      assert ms[..|ms|] == ms;
    }

    /** The generic-call block of `_process_method`: every match in textual order. */
    method ProcessCalls(body: string, ms: seq<CallMatch>, eventNode: Option<Node>,
                       ns0: seq<Node>, cs0: seq<Connection>, last0: Option<Node>)
      returns (ns: seq<Node>, cs: seq<Connection>, last: Option<Node>)
      modifies this
      ensures AccOf(ns, cs, last) == Fold(old(AccOf(ns0, cs0, last0)), IdOf(eventNode), body, CallCaps(ms))
      ensures nodes == old(nodes) && connections == old(connections)
    {
      ghost var a0 := AccOf(ns0, cs0, last0);
      ns, cs, last := ns0, cs0, last0;
      for i := 0 to |ms|
        invariant AccOf(ns, cs, last) == Fold(a0, IdOf(eventNode), body, CallCaps(ms[..i]))
        invariant nodes == old(nodes) && connections == old(connections)
      {
        ns, cs, last := EmitCall(body, ms[i], eventNode, ns, cs, last);
        WrapSnoc(ms, m => CallCap(m), i);
        FoldSnoc(a0, IdOf(eventNode), body, CallCaps(ms[..i]), CallCap(ms[i]));
      }
      assert ms[..|ms|] == ms;
    }

    /** `_process_method`: the event node of a Unity event handler, the nine category
        blocks in their fixed order, then the comments attached to the event node. The
        generator's lists are left alone; the counters advance. */
    method ProcessMethod(m: MethodDecl, bm: BodyMatches) returns (ns: seq<Node>, cs: seq<Connection>)
      modifies this
      ensures var r := ProcessMethodSpec(m, bm, old(State()));
              ns == r.nodes && cs == r.conns && State() == r.gen
      ensures nodes == old(nodes) && connections == old(connections)
    {
      ghost var g := State();
      ns, cs := [], [];
      var last: Option<Node> := None;
      var eventNode: Option<Node> := None;
      if m.name in UnityEvents {
        var e := CreateNode(TEvent(m.name), ns, cs, last);
        ns := ns + [e];
        eventNode := Some(e);
        last := Some(e);
      }
      ghost var a0 := AccOf(ns, cs, last);
      assert a0 == StartAcc(m, g);
      ghost var ev := IdOf(eventNode);
      assert ev == EventId(m, g);
      var body := m.body;
      ghost var done := ForCaps(bm.fors);
      ns, cs, last := ProcessFors(body, bm.fors, eventNode, ns, cs, last);
      ns, cs, last := ProcessWhiles(body, bm.whiles, eventNode, ns, cs, last);
      FoldConcat(a0, ev, body, done, WhileCaps(bm.whiles));
      done := done + WhileCaps(bm.whiles);
      ns, cs, last := ProcessForeaches(body, bm.foreaches, eventNode, ns, cs, last);
      FoldConcat(a0, ev, body, done, ForeachCaps(bm.foreaches));
      done := done + ForeachCaps(bm.foreaches);
      ns, cs, last := ProcessSwitches(body, bm.switches, eventNode, ns, cs, last);
      FoldConcat(a0, ev, body, done, SwitchCaps(bm.switches));
      done := done + SwitchCaps(bm.switches);
      ns, cs, last := ProcessLogs(body, bm.logs, eventNode, ns, cs, last);
      FoldConcat(a0, ev, body, done, LogCaps(bm.logs));
      done := done + LogCaps(bm.logs);
      ns, cs, last := ProcessIfs(body, bm.ifs, eventNode, ns, cs, last);
      FoldConcat(a0, ev, body, done, IfCaps(bm.ifs));
      done := done + IfCaps(bm.ifs);
      ns, cs, last := ProcessAssigns(body, bm.assigns, eventNode, ns, cs, last);
      FoldConcat(a0, ev, body, done, AssignCaps(bm.assigns));
      done := done + AssignCaps(bm.assigns);
      ns, cs, last := ProcessYields(body, bm.yieldReturns, eventNode, ns, cs, last);
      FoldConcat(a0, ev, body, done, YieldCaps(bm.yieldReturns));
      done := done + YieldCaps(bm.yieldReturns);
      ns, cs, last := ProcessCalls(body, bm.calls, eventNode, ns, cs, last);
      FoldConcat(a0, ev, body, done, CallCaps(bm.calls));
      done := done + CallCaps(bm.calls);
      assert done == AllCaptures(bm);
      if m.comments != "" && |ns| > 0 && eventNode.Some? {
        ns := ns[0 := ns[0].(description := Some(m.comments))];
      }
    }

    /** `generate_graph`: every method's nodes and connections appended to the
        generator's lists, then every node dictionary and every connection dictionary,
        wrapped in the graph document. */
    method GenerateGraph(methods: seq<MethodInput>, className: Option<string>) returns (graph: Json)
      modifies this
      ensures var r := GenerateSpec(methods, old(nodes), old(connections), old(State()));
              nodes == r.nodes && connections == r.conns && State() == r.gen
      ensures graph == GraphDocument(className, Elements(nodes, connections))
    {
      ProcessMethods(methods);
      var nodeElements := NodeElements(nodes);
      var connectionElements := ConnectionElements(connections);
      graph := GraphDocument(className, nodeElements + connectionElements);
    }

    /** The first loop of `generate_graph`. */
    method ProcessMethods(methods: seq<MethodInput>)
      modifies this
      ensures var r := GenerateSpec(methods, old(nodes), old(connections), old(State()));
              nodes == r.nodes && connections == r.conns && State() == r.gen
    {
      ghost var n0, c0, g0 := nodes, connections, State();
      for i := 0 to |methods|
        invariant var r := GenerateSpec(methods[..i], n0, c0, g0);
                  nodes == r.nodes && connections == r.conns && State() == r.gen
      {
        assert methods[..i + 1][..i] == methods[..i];
        var methodNodes, methodConnections := ProcessMethod(methods[i].decl, methods[i].matches);
        nodes := nodes + methodNodes;
        connections := connections + methodConnections;
      }
      assert methods[..|methods|] == methods;
    }

    /** The node loop of `generate_graph`. */
    static method NodeElements(ns: seq<Node>) returns (elements: seq<Json>)
      ensures elements == NodeDicts(ns)
    {
      elements := [];
      for i := 0 to |ns|
        invariant elements == NodeDicts(ns[..i])
      {
        assert ns[..i + 1] == ns[..i] + [ns[i]];
        elements := elements + [ToDict(ns[i])];
      }
      assert ns[..|ns|] == ns;
    }

    /** The connection loop of `generate_graph`. */
    static method ConnectionElements(cs: seq<Connection>) returns (elements: seq<Json>)
      ensures elements == ConnectionDicts(cs)
    {
      elements := [];
      for i := 0 to |cs|
        invariant elements == ConnectionDicts(cs[..i])
      {
        assert cs[..i + 1] == cs[..i] + [cs[i]];
        elements := elements + [cs[i].ToDict()];
      }
      assert cs[..|cs|] == cs;
    }

    /** The operator search of the if and assignment blocks: the first of `ops` that
        occurs in `s`, when the block's extra condition `allowed` holds. */
    method FindOperator(ops: seq<string>, s: string, allowed: bool) returns (r: Option<string>)
      ensures r == if allowed then FirstOp(ops, s) else None
    {
      r := None;
      if !allowed {
        return;
      }
      var k := 0;
      while k < |ops|
        invariant 0 <= k <= |ops|
        invariant FirstOp(ops, s) == FirstOp(ops[k..], s)
      {
        assert ops[k..][1..] == ops[k + 1..];
        if Contains(s, ops[k]) {
          r := Some(ops[k]);
          return;
        }
        k := k + 1;
      }
    }
  }
}
