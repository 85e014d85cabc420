/** What one iteration of each category loop of `_process_method` emits: exactly which
    nodes, with which guids and builder calls, and exactly which connections, stated for
    any state the loop may be in. */
module Constructs {
  import opened Wrappers
  import opened Text
  import opened Graph
  import opened Parser
  import opened Builders
  import opened Synthesis

  /** The control connection a step adds, with guid `id`, from the cursor into its
      statement node `m`: none when there is no cursor yet. */
  function CursorLink(last: Option<nat>, ev: Option<nat>, m: nat, id: nat): (r: seq<Connection>)
    ensures |r| == if last.Some? then 1 else 0
  {
    match last
    case None => []
    case Some(l) => [Connection(id, l, CursorKey(l, ev), m, "enter", true)]
  }

  lemma LinkIsCursorLink(a: Acc, ev: Option<nat>, m: nat)
    ensures var b := Link(a, ev, m);
            b.nodes == a.nodes && b.last == a.last
            && b.conns == a.conns + CursorLink(a.last, ev, m, a.gen.guid)
            && b.gen == a.gen.(guid := a.gen.guid + |CursorLink(a.last, ev, m, a.gen.guid)|)
  {
  }

  /** A step whose two value nodes are built before the link: the statement node and the
      two value nodes take the next three guids and positions, then come the control link
      from the cursor and the two value connections into the statement node. */
  lemma StepTwoBeforeShape(a: Acc, ev: Option<nat>, t: Template, x: Aux, y: Aux)
    ensures var m, p, r := a.gen.guid, Pos(a.gen.x, a.gen.y), Step(a, ev, t, [x, y], []);
            var link := CursorLink(a.last, ev, m, m + 3);
            var k := m + 3 + |link|;
            r.nodes == a.nodes + [Node(m, p, t, None), Node(m + 1, Walk(p, 1), x.t, None),
                                  Node(m + 2, Walk(p, 2), y.t, None)]
            && r.conns == a.conns + link + [Connection(k, m + 1, x.srcKey, m, x.dstKey, false),
                                            Connection(k + 1, m + 2, y.srcKey, m, y.dstKey, false)]
            && r.last == Some(m) && r.gen.guid == k + 2
            && Pos(r.gen.x, r.gen.y) == Walk(p, 3)
  {
    var m, p := a.gen.guid, Pos(a.gen.x, a.gen.y);
    StepTwoBefore(a, ev, t, x, y);
    var b0 := AddNode(AddNode(AddNode(a, t), x.t), y.t);
    LinkIsCursorLink(b0, ev, m);
  }

  /** A step with at most one value node, built after the link: the statement node, the
      control link from the cursor, then the value node and its value connection. */
  lemma StepOneAfterShape(a: Acc, ev: Option<nat>, t: Template, v: Option<Aux>)
    ensures var m, p, r := a.gen.guid, Pos(a.gen.x, a.gen.y), Step(a, ev, t, [], AuxList(v));
            var link := CursorLink(a.last, ev, m, m + 1);
            var k := m + 1 + |link|;
            r.nodes == a.nodes + [Node(m, p, t, None)]
                       + (if v.Some? then [Node(k, Walk(p, 1), v.value.t, None)] else [])
            && r.conns == a.conns + link
                          + (if v.Some? then [Connection(k + 1, k, v.value.srcKey, m, v.value.dstKey, false)] else [])
            && r.last == Some(m)
            && r.gen.guid == (if v.Some? then k + 2 else k)
            && Pos(r.gen.x, r.gen.y) == Walk(p, if v.Some? then 2 else 1)
  {
    var m := a.gen.guid;
    LinkIsCursorLink(AddNode(a, t), ev, m);
    match v
    case None => StepPlain(a, ev, t);
    case Some(x) => StepOneAfter(a, ev, t, x);
  }

  /** A for-loop match emits exactly a `For` node and two integer literals: `int(start)`
      when the stripped start text is all digits and 0 otherwise, `int(end)` when the end
      text is all digits and 10 otherwise. Besides the control link from the cursor it
      adds two value connections, from each literal's `output` into `%firstIndex` and
      `%lastIndex`. */
  lemma ForStep(a: Acc, ev: Option<nat>, body: string, f: ForMatch)
    ensures var m, p, r := a.gen.guid, Pos(a.gen.x, a.gen.y), StepOf(a, ev, body, ForCap(f));
            var link := CursorLink(a.last, ev, m, m + 3);
            var k := m + 3 + |link|;
            var first := if IsDigits(Strip(f.start)) then DigitsValue(Strip(f.start)) else 0;
            var last := if IsDigits(Strip(f.end)) then DigitsValue(Strip(f.end)) else 10;
            r.nodes == a.nodes + [Node(m, p, TFor, None),
                                  Node(m + 1, Walk(p, 1), TLiteral(JInt(first), "int"), None),
                                  Node(m + 2, Walk(p, 2), TLiteral(JInt(last), "int"), None)]
            && r.conns == a.conns + link + [Connection(k, m + 1, "output", m, "%firstIndex", false),
                                            Connection(k + 1, m + 2, "output", m, "%lastIndex", false)]
            && r.last == Some(m)
  {
    var x := Aux(TLiteral(JInt(LoopBound(f.start, 0)), "int"), "output", "%firstIndex");
    var y := Aux(TLiteral(JInt(LoopBound(f.end, 10)), "int"), "output", "%lastIndex");
    assert LoopTemplates(f) == [x, y];
    StepTwoBeforeShape(a, ev, TFor, x, y);
  }

  /** While, foreach and switch matches emit their loop or switch node and the control
      link only; the condition, collection and selector stay unwired. A switch node has
      one control output per `case <digits>:` label in the text `_extract_switch_body`
      returns, so n + 3 ports in all. */
  lemma PlainStep(a: Acc, ev: Option<nat>, body: string, c: Capture)
    requires c.WhileCap? || c.ForeachCap? || c.SwitchCap?
    ensures var m, p, r := a.gen.guid, Pos(a.gen.x, a.gen.y), StepOf(a, ev, body, c);
            var t := match c
                     case WhileCap(_) => TWhile
                     case ForeachCap(_) => TForEach("System.Collections.IEnumerable")
                     case SwitchCap(s) => TSwitch(CountCaseLabels(SwitchSpan(body, s.bodyStart)));
            r.nodes == a.nodes + [Node(m, p, t, None)]
            && r.conns == a.conns + CursorLink(a.last, ev, m, m + 1)
            && r.last == Some(m)
    ensures c.SwitchCap? ==>
              |Content(TSwitch(CountCaseLabels(SwitchSpan(body, c.s.bodyStart)))).ports|
              == CountCaseLabels(SwitchSpan(body, c.s.bodyStart)) + 3
  {
    var t := MainOf(body, c).value;
    StepOneAfterShape(a, ev, t, None);
    if c.SwitchCap? {
      var n := CountCaseLabels(SwitchSpan(body, c.s.bodyStart));
      assert Content(TSwitch(n)) == SwitchContent(n);
    }
  }

  /** A `Debug.Log` match emits the invoke node bound to `UnityEngine.Debug.Log` and the
      control link; when the stripped argument starts and ends with `"`, also a string
      literal holding the text between the quotes, wired from `output` into `%message`. */
  lemma LogStep(a: Acc, ev: Option<nat>, body: string, l: LogMatch)
    ensures var m, p, r := a.gen.guid, Pos(a.gen.x, a.gen.y), StepOf(a, ev, body, LogCap(l));
            var link := CursorLink(a.last, ev, m, m + 1);
            var k := m + 1 + |link|;
            var q := QuotedText(Strip(l.arg));
            r.nodes == a.nodes + [Node(m, p, DebugLog, None)]
                       + (if q.Some? then [Node(k, Walk(p, 1), TLiteral(JStr(q.value), "string"), None)] else [])
            && r.conns == a.conns + link
                          + (if q.Some? then [Connection(k + 1, k, "output", m, "%message", false)] else [])
            && r.last == Some(m)
  {
    StepOneAfterShape(a, ev, DebugLog, LogValue(l));
  }

  /** An if match emits the `If` node and the control link, and, when one of `<=`, `>=`,
      `==`, `!=`, `<`, `>` occurs in the stripped condition, one comparison node for the
      first of them in that order (`FirstOpSpec`), wired from `result` into `%condition`. */
  lemma IfStep(a: Acc, ev: Option<nat>, body: string, i: IfMatch)
    ensures var m, p, r := a.gen.guid, Pos(a.gen.x, a.gen.y), StepOf(a, ev, body, IfCap(i));
            var link := CursorLink(a.last, ev, m, m + 1);
            var k := m + 1 + |link|;
            var op := FirstOp(ComparisonOps, Strip(i.condition));
            r.nodes == a.nodes + [Node(m, p, TIf, None)]
                       + (if op.Some? then [Node(k, Walk(p, 1), TComparison(op.value), None)] else [])
            && r.conns == a.conns + link
                          + (if op.Some? then [Connection(k + 1, k, "result", m, "%condition", false)] else [])
            && r.last == Some(m)
  {
    StepOneAfterShape(a, ev, TIf, IfValue(i));
  }

  /** An assignment match emits the `SetVariable` node for the assigned name and the
      control link, and, unless the stripped value starts with `"`, one arithmetic node for
      the first of `+`, `-`, `*`, `/`, `%` that occurs in it, wired from `result` into
      `%input`. */
  lemma AssignStep(a: Acc, ev: Option<nat>, body: string, x: AssignMatch)
    ensures var m, p, r := a.gen.guid, Pos(a.gen.x, a.gen.y), StepOf(a, ev, body, AssignCap(x));
            var link := CursorLink(a.last, ev, m, m + 1);
            var k := m + 1 + |link|;
            var v := Strip(x.value);
            var op := if StartsWith(v, "\"") then None else FirstOp(ArithmeticOps, v);
            r.nodes == a.nodes + [Node(m, p, TSetVariable(x.name, "System.Object"), None)]
                       + (if op.Some? then [Node(k, Walk(p, 1), TArithmetic(op.value), None)] else [])
            && r.conns == a.conns + link
                          + (if op.Some? then [Connection(k + 1, k, "result", m, "%input", false)] else [])
            && r.last == Some(m)
  {
    StepOneAfterShape(a, ev, TSetVariable(x.name, "System.Object"), AssignValue(x));
  }

  /** A yield match emits the `YieldReturn` node and the control link, and, for
      `WaitForSeconds` with a non-empty argument that parses as a number, a wait node
      holding that argument, wired from `result` into `%instruction`. */
  lemma YieldStep(a: Acc, ev: Option<nat>, body: string, y: YieldMatch)
    ensures var m, p, r := a.gen.guid, Pos(a.gen.x, a.gen.y), StepOf(a, ev, body, YieldCap(y));
            var link := CursorLink(a.last, ev, m, m + 1);
            var k := m + 1 + |link|;
            var wait := y.typeName == "WaitForSeconds" && y.args.Some? && y.args.value != "" && y.argsIsNumber;
            r.nodes == a.nodes + [Node(m, p, TYieldReturn, None)]
                       + (if wait then [Node(k, Walk(p, 1), TWaitForSeconds(JNum(Strip(y.args.value))), None)] else [])
            && r.conns == a.conns + link
                          + (if wait then [Connection(k + 1, k, "result", m, "%instruction", false)] else [])
            && r.last == Some(m)
  {
    StepOneAfterShape(a, ev, TYieldReturn, YieldValue(y));
  }

  /** A generic call match changes nothing when it is `Debug.Log` or when an `=` (also
      the one of `==`) occurs on its line within the 20 characters before it; otherwise it
      emits one custom invoke node on the receiver's type (`UnityEngine.`-qualified for
      `GameObject`, `Transform` and `Rigidbody`), with one `System.Object` placeholder per
      non-blank argument, and the control link. */
  lemma CallStep(a: Acc, ev: Option<nat>, body: string, c: CallMatch)
    ensures CallSkipped(body, c) ==> StepOf(a, ev, body, CallCap(c)) == a
    ensures !CallSkipped(body, c) ==>
              var m, p, r := a.gen.guid, Pos(a.gen.x, a.gen.y), StepOf(a, ev, body, CallCap(c));
              var target := if c.target in ["GameObject", "Transform", "Rigidbody"]
                            then "UnityEngine." + c.target else c.target;
              r.nodes == a.nodes + [Node(m, p, TCustomInvoke(c.member, target, ArgParams(ArgCount(c.args)),
                                                             Some("void"), false), None)]
              && r.conns == a.conns + CursorLink(a.last, ev, m, m + 1)
              && r.last == Some(m)
  {
    if !CallSkipped(body, c) {
      StepOneAfterShape(a, ev, CallTemplate(c), None);
    }
  }

  /** A connection key that starts with `%` and names none of the ports listed. */
  predicate Undeclared(key: string, ports: seq<Port>) {
    |key| > 1 && key[0] == '%' && forall q :: q in ports ==> q.name != key
  }

  /** Every value node in the list is wired into a key that names none of the ports. */
  predicate KeysUndeclared(aux: seq<Aux>, ports: seq<Port>) {
    forall x :: x in aux ==> Undeclared(x.dstKey, ports)
  }

  /** A `%`-prefixed key differs from every port name that does not start with `%`. */
  lemma PercentKeyUndeclared(key: string, ports: seq<Port>)
    requires |key| > 1 && key[0] == '%'
    requires forall q :: q in ports ==> |q.name| > 0 && q.name[0] != '%'
    ensures Undeclared(key, ports)
  {
    forall q | q in ports
      ensures q.name != key
    {
      assert q.name[0] != key[0];
    }
  }

  lemma ForKeysUndeclared(f: ForMatch)
    ensures KeysUndeclared(LoopTemplates(f), Content(TFor).ports)
  {
    var ports := ForContent().ports;
    assert Content(TFor).ports == ports;
    assert forall q :: q in ports ==> |q.name| > 0 && q.name[0] != '%';
    PercentKeyUndeclared("%firstIndex", ports);
    PercentKeyUndeclared("%lastIndex", ports);
  }

  lemma LogKeyUndeclared(l: LogMatch)
    ensures KeysUndeclared(AuxList(LogValue(l)), Content(DebugLog).ports)
  {
    var ports := Content(DebugLog).ports;
    assert NatToString(0) == "0";
    assert ports == [Enter(), Exit(), Port("0", ValueInput, Some("System.Object"))];
    PercentKeyUndeclared("%message", ports);
  }

  lemma IfKeyUndeclared(i: IfMatch)
    ensures KeysUndeclared(AuxList(IfValue(i)), Content(TIf).ports)
  {
    var ports := IfContent().ports;
    assert Content(TIf).ports == ports;
    assert forall q :: q in ports ==> |q.name| > 0 && q.name[0] != '%';
    PercentKeyUndeclared("%condition", ports);
  }

  lemma AssignKeyUndeclared(x: AssignMatch)
    ensures KeysUndeclared(AuxList(AssignValue(x)), Content(TSetVariable(x.name, "System.Object")).ports)
  {
    var ports := SetVariableContent(x.name, "System.Object").ports;
    assert Content(TSetVariable(x.name, "System.Object")).ports == ports;
    assert forall q :: q in ports ==> |q.name| > 0 && q.name[0] != '%';
    PercentKeyUndeclared("%input", ports);
  }

  lemma YieldKeyUndeclared(y: YieldMatch)
    ensures KeysUndeclared(AuxList(YieldValue(y)), Content(TYieldReturn).ports)
  {
    var ports := YieldReturnContent().ports;
    assert Content(TYieldReturn).ports == ports;
    assert forall q :: q in ports ==> |q.name| > 0 && q.name[0] != '%';
    PercentKeyUndeclared("%instruction", ports);
  }

  /** Every value-connection key starts with `%`, and none of them is the name of a port
      the destination node declares: the inputs of `For`, `If`, `SetVariable` and
      `YieldReturn` are named without `%`, and the `Debug.Log` invoke names its one input
      `0`. */
  lemma ValueKeysAreNotDeclaredPorts(body: string, c: Capture)
    requires MainOf(body, c).Some?
    ensures KeysUndeclared(PreOf(c) + PostOf(c), Content(MainOf(body, c).value).ports)
  {
    match c
    case ForCap(f) =>
      ForKeysUndeclared(f);
      assert PreOf(c) + PostOf(c) == LoopTemplates(f);
    case LogCap(l) =>
      LogKeyUndeclared(l);
      assert PreOf(c) + PostOf(c) == AuxList(LogValue(l));
    case IfCap(i) =>
      IfKeyUndeclared(i);
      assert PreOf(c) + PostOf(c) == AuxList(IfValue(i));
    case AssignCap(x) =>
      AssignKeyUndeclared(x);
      assert PreOf(c) + PostOf(c) == AuxList(AssignValue(x));
    case YieldCap(y) =>
      YieldKeyUndeclared(y);
      assert PreOf(c) + PostOf(c) == AuxList(YieldValue(y));
    case WhileCap(_) =>
      assert PreOf(c) + PostOf(c) == [];
    case ForeachCap(_) =>
      assert PreOf(c) + PostOf(c) == [];
    case SwitchCap(_) =>
      assert PreOf(c) + PostOf(c) == [];
    case CallCap(_) =>
      assert PreOf(c) + PostOf(c) == [];
  }

  /** An `=` on the last line of a text is an `=` of the text with no line break after
      it ... */
  lemma LastLineEqualsFound(t: string)
    requires '=' in LastLine(t)
    ensures exists j :: 0 <= j < |t| && t[j] == '=' && '\n' !in t[j..]
  {
    var l := LastLine(t);
    SplitOnLast(t, '\n');
    var o := |t| - |l|;
    var i :| 0 <= i < |l| && l[i] == '=';
    assert t[o + i..] == l[i..];
    assert forall x :: x in l[i..] ==> x in l;
    assert t[o + i] == '=';
  }

  /** ... and an `=` of the text with no line break after it is on the last line. */
  lemma LastLineEqualsKept(t: string, j: nat)
    requires j < |t| && t[j] == '=' && '\n' !in t[j..]
    ensures '=' in LastLine(t)
  {
    var l := LastLine(t);
    SplitOnLast(t, '\n');
    var o := |t| - |l|;
    assert l[j - o] == t[j];
  }

  /** The generic-call skip exactly: a call is skipped when it is `Debug.Log`, or when
      some `=` lies in the 20 characters before it with no line break between that `=`
      and the call. The `=` of `==`, `<=`, `>=` and `!=` counts too. */
  lemma CallSkippedIff(body: string, c: CallMatch)
    ensures var e := if c.matchStart <= |body| then c.matchStart else |body|;
            var b := if c.matchStart >= 20 then c.matchStart - 20 else 0;
            CallSkipped(body, c)
            <==> (c.target == "Debug" && c.member == "Log")
                 || exists j :: b <= j < e && body[j] == '=' && '\n' !in body[j..e]
  {
    var e := if c.matchStart <= |body| then c.matchStart else |body|;
    var b := if c.matchStart >= 20 then c.matchStart - 20 else 0;
    if b <= e {
      assert Lookback(body, c.matchStart) == body[b..e];
      if '=' in LastLine(body[b..e]) {
        WindowEqualsFound(body, b, e);
      }
      forall j | b <= j < e && body[j] == '=' && '\n' !in body[j..e]
        ensures '=' in LastLine(body[b..e])
      {
        WindowEqualsKept(body, b, e, j);
      }
    } else {
      assert Lookback(body, c.matchStart) == [] && SplitOn([], '\n') == [""];
    }
  }

  /** An `=` on the last line of a window of the body is an `=` of the body inside the
      window with no line break after it in the window ... */
  lemma WindowEqualsFound(body: string, b: nat, e: nat)
    requires b <= e <= |body| && '=' in LastLine(body[b..e])
    ensures exists j :: b <= j < e && body[j] == '=' && '\n' !in body[j..e]
  {
    var t := body[b..e];
    LastLineEqualsFound(t);
    var j :| 0 <= j < |t| && t[j] == '=' && '\n' !in t[j..];
    assert t[j..] == body[b + j..e];
  }

  /** ... and conversely. */
  lemma WindowEqualsKept(body: string, b: nat, e: nat, j: nat)
    requires b <= j < e <= |body| && body[j] == '=' && '\n' !in body[j..e]
    ensures '=' in LastLine(body[b..e])
  {
    var t := body[b..e];
    assert t[j - b..] == body[j..e];
    LastLineEqualsKept(t, j - b);
  }

  /** A call with an `=` at most twenty characters before it and no line break between
      them is skipped. */
  lemma EqualsBeforeSkips(body: string, c: CallMatch, j: nat)
    requires c.matchStart <= |body| && j < c.matchStart && c.matchStart <= j + 20
    requires body[j] == '=' && '\n' !in body[j..c.matchStart]
    ensures CallSkipped(body, c)
  {
    CallSkippedIff(body, c);
  }

  /** The operator search finds nothing in a text that holds none of the operators'
      first characters. */
  lemma FirstOpMissing(ops: seq<string>, s: string)
    requires forall k :: 0 <= k < |ops| ==> |ops[k]| > 0 && ops[k][0] !in s
    ensures FirstOp(ops, s) == None
  {
    FirstOpSpec(ops, s);
    forall k | 0 <= k < |ops|
      ensures !Contains(s, ops[k])
    {
      NotContainsMissing(s, ops[k], ops[k][0]);
    }
  }

  /** ... and finds the operator at `k` when it occurs and none before it could. */
  lemma FirstOpFound(ops: seq<string>, s: string, k: nat)
    requires k < |ops| && Contains(s, ops[k])
    requires forall j :: 0 <= j < k ==> |ops[j]| > 0 && ops[j][0] !in s
    ensures FirstOp(ops, s) == Some(ops[k])
  {
    FirstOpSpec(ops, s);
    forall j | 0 <= j < k
      ensures !Contains(s, ops[j])
    {
      NotContainsMissing(s, ops[j], ops[j][0]);
    }
  }
}
