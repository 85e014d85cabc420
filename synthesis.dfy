/** The specification of `VisualScriptingGenerator._process_method` and `generate_graph` as
    functions over an explicit generator state: the layout cursor, the guid counter, the
    node and connection lists and the control cursor `last_node`. The regular expressions
    are not modelled: each construct category contributes its matches, in textual order, as
    capture records, and the functions here make the decisions the code makes on them. */
module Synthesis {
  import opened Wrappers
  import opened Text
  import opened Graph
  import opened Parser
  import opened Builders

  // ---------------------------------------------------------------------------------
  // Layout cursor (`_next_position`)
  // ---------------------------------------------------------------------------------

  /** The cursor after one call of `_next_position` from (x, y). */
  function NextCursor(x: int, y: int): Pos {
    if x + 250 > 1000 then Pos(0, y + 150) else Pos(x + 250, y)
  }

  /** The position handed to the k-th node drawn from a fresh cursor: five per row. */
  function Cell(k: nat): Pos {
    Pos(250 * (k % 5), 150 * (k / 5))
  }

  /** Starting at (0, 0), the cursor after k calls is `Cell(k)`: the layout is a pure
      function of emission order. */
  lemma NextCursorCell(k: nat)
    ensures NextCursor(Cell(k).x, Cell(k).y) == Cell(k + 1)
  {
    var q, r := k / 5, k % 5;
    assert k == 5 * q + r;
    if r < 4 {
      assert k + 1 == 5 * q + (r + 1);
      assert (k + 1) / 5 == q && (k + 1) % 5 == r + 1;
    } else {
      assert k + 1 == 5 * (q + 1) + 0;
      assert (k + 1) / 5 == q + 1 && (k + 1) % 5 == 0;
    }
  }

  /** The cursor after `k` calls of `_next_position` from `p`. */
  function Walk(p: Pos, k: nat): Pos {
    if k == 0 then p else NextCursor(Walk(p, k - 1).x, Walk(p, k - 1).y)
  }

  /** From the generator's initial cursor (0, 0), the k-th position drawn is `Cell(k)`. */
  lemma {:induction false} WalkFromOrigin(k: nat)
    ensures Walk(Pos(0, 0), k) == Cell(k)
  {
    if k > 0 {
      WalkFromOrigin(k - 1);
      NextCursorCell(k - 1);
    }
  }

  /** A cursor on the grid the method keeps: x one of 0, 250, ..., 1000 and y a
      non-negative multiple of 150. */
  predicate OnGrid(x: int, y: int) {
    0 <= x <= 1000 && x % 250 == 0 && 0 <= y && y % 150 == 0
  }

  /** `_next_position` keeps the cursor on the grid, never lowers y, and wraps x to 0
      (moving y down one row of 150) exactly after the call that returned x = 1000. */
  lemma NextCursorOnGrid(x: int, y: int)
    requires OnGrid(x, y)
    ensures OnGrid(NextCursor(x, y).x, NextCursor(x, y).y)
    ensures NextCursor(x, y).y >= y
    ensures NextCursor(x, y).x == 0 <==> x == 1000
    ensures x == 1000 ==> NextCursor(x, y).y == y + 150
    ensures x < 1000 ==> NextCursor(x, y) == Pos(x + 250, y)
  {
  }

  // ---------------------------------------------------------------------------------
  // Generator state and the primitive emissions
  // ---------------------------------------------------------------------------------

  /** The generator's counters: the layout cursor and the next guid. */
  datatype Gen = Gen(x: int, y: int, guid: nat)

  /** The state threaded through one method: its nodes and connections so far, the guid of
      the control cursor `last_node`, and the counters. */
  datatype Acc = Acc(nodes: seq<Node>, conns: seq<Connection>, last: Option<nat>, gen: Gen)

  /** Build a node from a fresh guid and the next position, and append it. */
  function AddNode(a: Acc, t: Template): Acc {
    var n := Node(a.gen.guid, Pos(a.gen.x, a.gen.y), t, None);
    var p := NextCursor(a.gen.x, a.gen.y);
    a.(nodes := a.nodes + [n], gen := Gen(p.x, p.y, a.gen.guid + 1))
  }

  /** `_create_connection` from a fresh guid, appended. */
  function AddConn(a: Acc, src: nat, srcKey: string, dst: nat, dstKey: string, control: bool): Acc {
    a.(conns := a.conns + [Connection(a.gen.guid, src, srcKey, dst, dstKey, control)],
       gen := a.gen.(guid := a.gen.guid + 1))
  }

  /** The source key of the control connection out of the cursor. */
  function CursorKey(last: nat, ev: Option<nat>): string {
    if Some(last) == ev then "trigger" else "exit"
  }

  /** `if last_node: connections.append(_create_connection(last_node, ..., node, "enter"))`. */
  function Link(a: Acc, ev: Option<nat>, dst: nat): Acc {
    match a.last
    case None => a
    case Some(l) => AddConn(a, l, CursorKey(l, ev), dst, "enter", true)
  }

  /** An auxiliary node (literal, operator or wait) and the ports of the value connection
      from it into the statement node. */
  datatype Aux = Aux(t: Template, srcKey: string, dstKey: string)

  /** Append the auxiliary nodes that are built before the control link (the for-loop's
      two literals). */
  function AddAuxNodes(a: Acc, pre: seq<Aux>): Acc {
    if |pre| == 0 then a else AddNode(AddAuxNodes(a, pre[..|pre| - 1]), pre[|pre| - 1].t)
  }

  /** Their value connections, the i-th from guid `first + i` into `dst`. */
  function WireAux(a: Acc, pre: seq<Aux>, first: nat, dst: nat): Acc {
    if |pre| == 0 then a
    else
      var n := |pre| - 1;
      AddConn(WireAux(a, pre[..n], first, dst), first + n, pre[n].srcKey, dst, pre[n].dstKey, false)
  }

  /** Auxiliary nodes built after the control link, each followed by its value connection. */
  function AddWired(a: Acc, post: seq<Aux>, dst: nat): Acc {
    if |post| == 0 then a
    else
      var b := AddWired(a, post[..|post| - 1], dst);
      var x := post[|post| - 1];
      AddConn(AddNode(b, x.t), b.gen.guid, x.srcKey, dst, x.dstKey, false)
  }

  lemma AddAuxNodesPair(a: Acc, x: Aux, y: Aux)
    ensures AddAuxNodes(a, [x, y]) == AddNode(AddNode(a, x.t), y.t)
  {
    assert [x, y][..1] == [x];
    assert [x][..0] == [];
    assert AddAuxNodes(a, [x]) == AddNode(a, x.t);
    assert AddAuxNodes(a, [x, y]) == AddNode(AddAuxNodes(a, [x]), y.t);
  }

  lemma WireAuxPair(a: Acc, x: Aux, y: Aux, first: nat, dst: nat)
    ensures WireAux(a, [x, y], first, dst)
            == AddConn(AddConn(a, first, x.srcKey, dst, x.dstKey, false), first + 1, y.srcKey, dst, y.dstKey, false)
  {
    assert [x, y][..1] == [x];
    assert [x][..0] == [];
    assert WireAux(a, [x], first, dst) == AddConn(a, first, x.srcKey, dst, x.dstKey, false);
    assert WireAux(a, [x, y], first, dst)
           == AddConn(WireAux(a, [x], first, dst), first + 1, y.srcKey, dst, y.dstKey, false);
  }

  lemma AddWiredSingle(a: Acc, x: Aux, dst: nat)
    ensures AddWired(a, [x], dst) == AddConn(AddNode(a, x.t), a.gen.guid, x.srcKey, dst, x.dstKey, false)
  {
    assert [x][..0] == [];
  }

  /** One statement: its node, the auxiliary nodes built before the link, the control link
      from the cursor, their value connections, the auxiliary nodes built after the link
      with theirs, and the cursor moved to the statement node. */
  function Step(a: Acc, ev: Option<nat>, main: Template, pre: seq<Aux>, post: seq<Aux>): Acc {
    var m := a.gen.guid;
    var a1 := AddAuxNodes(AddNode(a, main), pre);
    var a2 := Link(a1, ev, m);
    var a3 := WireAux(a2, pre, m + 1, m);
    var a4 := AddWired(a3, post, m);
    a4.(last := Some(m))
  }

  /** The three shapes of step the categories use, spelled out: no auxiliary node; two
      literals built before the link; one auxiliary node built after it. */
  lemma StepPlain(a: Acc, ev: Option<nat>, t: Template)
    ensures Step(a, ev, t, [], []) == Link(AddNode(a, t), ev, a.gen.guid).(last := Some(a.gen.guid))
  {
  }

  lemma StepTwoBefore(a: Acc, ev: Option<nat>, t: Template, x: Aux, y: Aux)
    ensures var m := a.gen.guid;
            var b := Link(AddNode(AddNode(AddNode(a, t), x.t), y.t), ev, m);
            Step(a, ev, t, [x, y], [])
            == AddConn(AddConn(b, m + 1, x.srcKey, m, x.dstKey, false), m + 2, y.srcKey, m, y.dstKey, false)
               .(last := Some(m))
  {
    var m := a.gen.guid;
    AddAuxNodesPair(AddNode(a, t), x, y);
    var b := Link(AddNode(AddNode(AddNode(a, t), x.t), y.t), ev, m);
    WireAuxPair(b, x, y, m + 1, m);
    var c := AddConn(AddConn(b, m + 1, x.srcKey, m, x.dstKey, false), m + 2, y.srcKey, m, y.dstKey, false);
    assert AddWired(c, [], m) == c;
  }

  lemma StepOneAfter(a: Acc, ev: Option<nat>, t: Template, x: Aux)
    ensures var m := a.gen.guid;
            var b := Link(AddNode(a, t), ev, m);
            Step(a, ev, t, [], [x])
            == AddConn(AddNode(b, x.t), b.gen.guid, x.srcKey, m, x.dstKey, false).(last := Some(m))
  {
    var m := a.gen.guid;
    AddWiredSingle(Link(AddNode(a, t), ev, m), x, m);
  }

  // ---------------------------------------------------------------------------------
  // Capture records, one kind per construct category
  // ---------------------------------------------------------------------------------

  /** `for (int|var v = start; v op end; v incr)`. */
  datatype ForMatch = ForMatch(variable: string, start: string, op: string, end: string, increment: string)
  /** `while (condition)`. */
  datatype WhileMatch = WhileMatch(condition: string)
  /** `foreach (var|Type item in collection)`. */
  datatype ForeachMatch = ForeachMatch(itemType: Option<string>, item: string, collection: string)
  /** `switch (selector) {`, with the index just after its `{` (`match.end()`). */
  datatype SwitchMatch = SwitchMatch(selector: string, bodyStart: nat)
  /** `Debug.Log(arg)`. */
  datatype LogMatch = LogMatch(arg: string)
  /** `if (condition)`. */
  datatype IfMatch = IfMatch(condition: string)
  /** `name = value;`. */
  datatype AssignMatch = AssignMatch(name: string, value: string)
  /** `yield return [new] Type[(args)]`; `argsIsNumber` says whether Python's `float`
      accepts the stripped argument text. */
  datatype YieldMatch = YieldMatch(typeName: string, args: Option<string>, argsIsNumber: bool)
  /** `receiver.member(args)`, with the index where the match starts. */
  datatype CallMatch = CallMatch(target: string, member: string, args: string, matchStart: nat)

  /** The matches of each category in one method body, each in textual order. */
  datatype BodyMatches = BodyMatches(fors: seq<ForMatch>, whiles: seq<WhileMatch>,
                                     foreaches: seq<ForeachMatch>, switches: seq<SwitchMatch>,
                                     logs: seq<LogMatch>, ifs: seq<IfMatch>,
                                     assigns: seq<AssignMatch>, yieldReturns: seq<YieldMatch>,
                                     calls: seq<CallMatch>)

  datatype Capture = ForCap(f: ForMatch) | WhileCap(w: WhileMatch) | ForeachCap(e: ForeachMatch)
                   | SwitchCap(s: SwitchMatch) | LogCap(l: LogMatch) | IfCap(i: IfMatch)
                   | AssignCap(a: AssignMatch) | YieldCap(y: YieldMatch) | CallCap(c: CallMatch)

  /** The position of a category in the fixed processing order. */
  function CategoryRank(c: Capture): nat {
    match c
    case ForCap(_) => 0
    case WhileCap(_) => 1
    case ForeachCap(_) => 2
    case SwitchCap(_) => 3
    case LogCap(_) => 4
    case IfCap(_) => 5
    case AssignCap(_) => 6
    case YieldCap(_) => 7
    case CallCap(_) => 8
  }

  /** The matches of one category, each wrapped as a capture. */
  function Wrap<T>(ms: seq<T>, f: T -> Capture): (r: seq<Capture>)
    ensures |r| == |ms|
  {
    if |ms| == 0 then [] else Wrap(ms[..|ms| - 1], f) + [f(ms[|ms| - 1])]
  }

  lemma WrapSnoc<T>(ms: seq<T>, f: T -> Capture, i: nat)
    requires i < |ms|
    ensures Wrap(ms[..i + 1], f) == Wrap(ms[..i], f) + [f(ms[i])]
  {
    assert ms[..i + 1][..i] == ms[..i];
  }

  function ForCaps(ms: seq<ForMatch>): seq<Capture> { Wrap(ms, m => ForCap(m)) }
  function WhileCaps(ms: seq<WhileMatch>): seq<Capture> { Wrap(ms, m => WhileCap(m)) }
  function ForeachCaps(ms: seq<ForeachMatch>): seq<Capture> { Wrap(ms, m => ForeachCap(m)) }
  function SwitchCaps(ms: seq<SwitchMatch>): seq<Capture> { Wrap(ms, m => SwitchCap(m)) }
  function LogCaps(ms: seq<LogMatch>): seq<Capture> { Wrap(ms, m => LogCap(m)) }
  function IfCaps(ms: seq<IfMatch>): seq<Capture> { Wrap(ms, m => IfCap(m)) }
  function AssignCaps(ms: seq<AssignMatch>): seq<Capture> { Wrap(ms, m => AssignCap(m)) }
  function YieldCaps(ms: seq<YieldMatch>): seq<Capture> { Wrap(ms, m => YieldCap(m)) }
  function CallCaps(ms: seq<CallMatch>): seq<Capture> { Wrap(ms, m => CallCap(m)) }

  /** All captures in processing order: every for-loop, then every while-loop, ..., then
      every call — category by category, not in textual order. */
  function AllCaptures(bm: BodyMatches): seq<Capture> {
    ForCaps(bm.fors) + WhileCaps(bm.whiles) + ForeachCaps(bm.foreaches)
    + SwitchCaps(bm.switches) + LogCaps(bm.logs) + IfCaps(bm.ifs)
    + AssignCaps(bm.assigns) + YieldCaps(bm.yieldReturns) + CallCaps(bm.calls)
  }

  // ---------------------------------------------------------------------------------
  // The decisions made on the captures
  // ---------------------------------------------------------------------------------

  /** A loop bound: `int(s)` when the stripped text `s` is all digits, else `default`. */
  function LoopBound(text: string, default: int): (r: int)
    ensures IsDigits(Strip(text)) ==> r == DigitsValue(Strip(text))
    ensures !IsDigits(Strip(text)) ==> r == default
  {
    var s := Strip(text);
    if IsDigits(s) then DigitsValue(s) else default
  }

  /** The text inside the quotes when the (stripped) argument both starts and ends with
      `"` (`arg[1:-1]`, which is "" for a lone `"`). */
  function QuotedText(s: string): (r: Option<string>)
    ensures r.Some? <==> StartsWith(s, "\"") && EndsWith(s, "\"")
  {
    if StartsWith(s, "\"") && EndsWith(s, "\"") then
      Some(if |s| >= 2 then s[1..|s| - 1] else "")
    else None
  }

  /** Quoting the text found again gives the argument back, unless the argument is the
      lone `"`. */
  lemma QuotedTextRequotes(s: string)
    requires QuotedText(s).Some? && |s| >= 2
    ensures "\"" + QuotedText(s).value + "\"" == s
  {
    assert s[0] == '"' by { assert s[..1][0] == s[0]; }
    assert s[|s| - 1] == '"' by { assert s[|s| - 1..][0] == s[|s| - 1]; }
  }

  /** The first operator of `ops` that occurs in `s` (the `for op in ops: if op in s:
      ... break` search). */
  function FirstOp(ops: seq<string>, s: string): Option<string> {
    if |ops| == 0 then None
    else if Contains(s, ops[0]) then Some(ops[0])
    else FirstOp(ops[1..], s)
  }

  /** The search finds nothing only when no operator occurs, and otherwise finds an
      operator that occurs with none before it in the list occurring. */
  lemma {:induction false} FirstOpSpec(ops: seq<string>, s: string)
    ensures FirstOp(ops, s).None? <==> forall k :: 0 <= k < |ops| ==> !Contains(s, ops[k])
    ensures FirstOp(ops, s).Some? ==>
              exists k :: 0 <= k < |ops| && ops[k] == FirstOp(ops, s).value && Contains(s, ops[k])
                          && forall j :: 0 <= j < k ==> !Contains(s, ops[j])
  {
    if |ops| == 0 || Contains(s, ops[0]) {
    } else {
      FirstOpSpec(ops[1..], s);
      var r := FirstOp(ops[1..], s);
      if r.Some? {
        var k :| 0 <= k < |ops| - 1 && ops[1..][k] == r.value && Contains(s, ops[1..][k])
                 && forall j :: 0 <= j < k ==> !Contains(s, ops[1..][j]);
        assert ops[k + 1] == r.value && Contains(s, ops[k + 1]);
        forall j | 0 <= j < k + 1 ensures !Contains(s, ops[j]) {
          if j > 0 { assert ops[j] == ops[1..][j - 1]; }
        }
      } else {
        forall k | 0 <= k < |ops| ensures !Contains(s, ops[k]) {
          if k > 0 { assert ops[k] == ops[1..][k - 1]; }
        }
      }
    }
  }

  const ComparisonOps: seq<string> := ["<=", ">=", "==", "!=", "<", ">"]
  const ArithmeticOps: seq<string> := ["+", "-", "*", "/", "%"]

  /** The arithmetic node a (stripped) assigned value gets: none for a value that starts
      with `"`. */
  function ArithmeticOf(v: string): Option<string> {
    if StartsWith(v, "\"") then None else FirstOp(ArithmeticOps, v)
  }

  /** `body[max(0, start - 20):start]`, with Python's clamping of slice bounds. */
  function Lookback(body: string, start: nat): string {
    var e := if start <= |body| then start else |body|;
    var b := if start >= 20 then start - 20 else 0;
    if b <= e then body[b..e] else ""
  }

  /** The last line of a text (`split('\n')[-1]`). */
  function LastLine(s: string): string {
    var lines := SplitOn(s, '\n');
    lines[|lines| - 1]
  }

  /** The two skips of the generic-call handler: `Debug.Log` itself, and any `=` on the
      same line within the 20 characters before the call (which `==` also triggers). */
  predicate CallSkipped(body: string, c: CallMatch) {
    (c.target == "Debug" && c.member == "Log") || '=' in LastLine(Lookback(body, c.matchStart))
  }

  /** The receiver's type: `UnityEngine.`-qualified for the three allow-listed names. */
  function TargetTypeOf(target: string): string {
    if target in ["GameObject", "Transform", "Rigidbody"] then "UnityEngine." + target else target
  }

  /** The number of non-blank comma-separated arguments. */
  function CountNonBlank(parts: seq<string>): (r: nat)
    ensures r <= |parts|
  {
    if |parts| == 0 then 0
    else CountNonBlank(parts[..|parts| - 1]) + (if Strip(parts[|parts| - 1]) != "" then 1 else 0)
  }

  function ArgCount(args: string): nat {
    var a := Strip(args);
    if a == "" then 0 else CountNonBlank(SplitOn(a, ','))
  }

  /** The placeholder parameters `arg0`, `arg1`, ... of a generic call. */
  function ArgParams(n: nat): (ps: seq<Param>)
    ensures |ps| == n
  {
    seq(n, i requires 0 <= i < n => Param("System.Object", "arg" + NatToString(i)))
  }

  /** Counting `case\s+\d+:` labels: "case", at least one whitespace character, at least
      one digit, then ":". */
  function SkipWhile(t: string, j: nat, p: char -> bool): (r: nat)
    requires j <= |t|
    ensures j <= r <= |t|
    ensures forall k :: j <= k < r ==> p(t[k])
    ensures r < |t| ==> !p(t[r])
    decreases |t| - j
  {
    if j < |t| && p(t[j]) then SkipWhile(t, j + 1, p) else j
  }

  predicate CaseLabelAt(t: string, i: nat) {
    OccursAt(t, "case", i)
    && var a := SkipWhile(t, i + 4, IsSpace);
       a > i + 4 && var b := SkipWhile(t, a, IsDigit); b > a && b < |t| && t[b] == ':'
  }

  /** The number of label matches that start at `i` or later. A count of every start
      index equals the count of `re.findall`, which resumes after each match, because two
      matches never overlap (`CaseLabelsDisjoint`). */
  function CountCaseLabelsFrom(t: string, i: nat): (r: nat)
    ensures r > 0 <==> exists k: nat :: i <= k < |t| && CaseLabelAt(t, k)
    ensures r <= |t| - i || i >= |t|
    decreases |t| - i
  {
    if i >= |t| then 0
    else (if CaseLabelAt(t, i) then 1 else 0) + CountCaseLabelsFrom(t, i + 1)
  }

  /** The index just past the `:` of a label that starts at `i`. */
  function CaseLabelEnd(t: string, i: nat): (e: nat)
    requires CaseLabelAt(t, i)
    ensures i + 7 <= e <= |t| && t[e - 1] == ':'
  {
    SkipWhile(t, SkipWhile(t, i + 4, IsSpace), IsDigit) + 1
  }

  /** Inside a label, after its first character, no other label can start: every later
      character is one of "ase", whitespace, a digit or the colon. */
  lemma NoCaseInsideLabel(t: string, i: nat, k: nat)
    requires CaseLabelAt(t, i) && i < k < CaseLabelEnd(t, i)
    ensures !OccursAt(t, "case", k)
  {
    var a := SkipWhile(t, i + 4, IsSpace);
    var b := SkipWhile(t, a, IsDigit);
    assert t[i..i + 4] == "case";
    if k < i + 4 {
      assert t[k] == t[i..i + 4][k - i];
    } else if k < a {
      assert IsSpace(t[k]);
    } else if k < b {
      assert IsDigit(t[k]);
    }
    assert t[k] != 'c';
    if k + 4 <= |t| {
      assert t[k..k + 4][0] == t[k];
    }
  }

  /** A label match and the next one do not overlap: no label starts inside another. */
  lemma CaseLabelsDisjoint(t: string, i: nat, j: nat)
    requires CaseLabelAt(t, i) && CaseLabelAt(t, j) && i < j
    ensures CaseLabelEnd(t, i) <= j
  {
    if j < CaseLabelEnd(t, i) {
      NoCaseInsideLabel(t, i, j);
    }
  }

  /** `len(re.findall(r'case\s+\d+:', text))`. */
  function CountCaseLabels(t: string): nat {
    CountCaseLabelsFrom(t, 0)
  }

  // ---------------------------------------------------------------------------------
  // One capture, then a method
  // ---------------------------------------------------------------------------------

  function LoopTemplates(f: ForMatch): seq<Aux> {
    [Aux(TLiteral(JInt(LoopBound(f.start, 0)), "int"), "output", "%firstIndex"),
     Aux(TLiteral(JInt(LoopBound(f.end, 10)), "int"), "output", "%lastIndex")]
  }

  const DebugLog := TInvoke("Log", "UnityEngine.Debug", [Param("System.Object", "message")], None)

  /** At most one value node wired into a statement. */
  function AuxList(v: Option<Aux>): seq<Aux> {
    match v
    case Some(x) => [x]
    case None => []
  }

  /** For a quoted `Debug.Log` argument, a string literal wired into `%message`. */
  function LogValue(l: LogMatch): Option<Aux> {
    match QuotedText(Strip(l.arg))
    case Some(text) => Some(Aux(TLiteral(JStr(text), "string"), "output", "%message"))
    case None => None
  }

  /** For a condition holding a comparison operator, a comparison node wired into
      `%condition`. */
  function IfValue(i: IfMatch): Option<Aux> {
    match FirstOp(ComparisonOps, Strip(i.condition))
    case Some(op) => Some(Aux(TComparison(op), "result", "%condition"))
    case None => None
  }

  /** For an assigned value holding an arithmetic operator, an arithmetic node wired into
      `%input`. */
  function AssignValue(a: AssignMatch): Option<Aux> {
    match ArithmeticOf(Strip(a.value))
    case Some(op) => Some(Aux(TArithmetic(op), "result", "%input"))
    case None => None
  }

  /** A `WaitForSeconds` node for `yield return new WaitForSeconds(n)` with an argument
      that parses as a number. */
  function YieldValue(y: YieldMatch): Option<Aux> {
    if y.typeName == "WaitForSeconds" && y.args.Some? && y.args.value != "" && y.argsIsNumber then
      Some(Aux(TWaitForSeconds(JNum(Strip(y.args.value))), "result", "%instruction"))
    else None
  }

  function CallTemplate(c: CallMatch): Template {
    TCustomInvoke(c.member, TargetTypeOf(c.target), ArgParams(ArgCount(c.args)), Some("void"), false)
  }

  /** The case count of a switch: labels in the text `_extract_switch_body` returns. */
  function SwitchCases(body: string, s: SwitchMatch): nat {
    CountCaseLabels(SwitchSpan(body, s.bodyStart))
  }

  /** The statement node a capture adds, or nothing for a skipped generic call. */
  function MainOf(body: string, c: Capture): Option<Template> {
    match c
    case ForCap(_) => Some(TFor)
    case WhileCap(_) => Some(TWhile)
    case ForeachCap(_) => Some(TForEach("System.Collections.IEnumerable"))
    case SwitchCap(s) => Some(TSwitch(SwitchCases(body, s)))
    case LogCap(_) => Some(DebugLog)
    case IfCap(_) => Some(TIf)
    case AssignCap(x) => Some(TSetVariable(x.name, "System.Object"))
    case YieldCap(_) => Some(TYieldReturn)
    case CallCap(k) => if CallSkipped(body, k) then None else Some(CallTemplate(k))
  }

  /** The value nodes built before the control link: the for-loop's two bounds. */
  function PreOf(c: Capture): seq<Aux> {
    if c.ForCap? then LoopTemplates(c.f) else []
  }

  /** The value node built after the control link, if any. */
  function PostOf(c: Capture): seq<Aux> {
    match c
    case LogCap(l) => AuxList(LogValue(l))
    case IfCap(i) => AuxList(IfValue(i))
    case AssignCap(x) => AuxList(AssignValue(x))
    case YieldCap(y) => AuxList(YieldValue(y))
    case _ => []
  }

  /** One iteration of one category loop of `_process_method`. */
  function StepOf(a: Acc, ev: Option<nat>, body: string, c: Capture): Acc {
    match MainOf(body, c)
    case None => a
    case Some(t) => Step(a, ev, t, PreOf(c), PostOf(c))
  }

  /** The captures processed one after the other. */
  function Fold(a: Acc, ev: Option<nat>, body: string, caps: seq<Capture>): Acc {
    if |caps| == 0 then a else StepOf(Fold(a, ev, body, caps[..|caps| - 1]), ev, body, caps[|caps| - 1])
  }

  /** Processing one more capture is one more step. */
  lemma FoldSnoc(a: Acc, ev: Option<nat>, body: string, caps: seq<Capture>, c: Capture)
    ensures Fold(a, ev, body, caps + [c]) == StepOf(Fold(a, ev, body, caps), ev, body, c)
  {
    assert (caps + [c])[..|caps|] == caps;
  }

  /** Processing two runs of captures one after the other is processing their
      concatenation: the category loops compose. */
  lemma {:induction false} FoldConcat(a: Acc, ev: Option<nat>, body: string, xs: seq<Capture>, ys: seq<Capture>)
    ensures Fold(a, ev, body, xs + ys) == Fold(Fold(a, ev, body, xs), ev, body, ys)
    decreases |ys|
  {
    if |ys| == 0 {
      assert xs + ys == xs;
    } else {
      var n := |ys| - 1;
      assert xs + ys == (xs + ys[..n]) + [ys[n]];
      FoldConcat(a, ev, body, xs, ys[..n]);
      FoldSnoc(a, ev, body, xs + ys[..n], ys[n]);
    }
  }

  /** The state before the first category loop: the event node, when the method is a
      Unity event handler, is the first node and the cursor. */
  function StartAcc(m: MethodDecl, g: Gen): Acc {
    if m.name in UnityEvents then
      AddNode(Acc([], [], None, g), TEvent(m.name)).(last := Some(g.guid))
    else Acc([], [], None, g)
  }

  function EventId(m: MethodDecl, g: Gen): Option<nat> {
    if m.name in UnityEvents then Some(g.guid) else None
  }

  /** The late description attachment: the event node gets the comments when they are
      non-empty. */
  function Describe(nodes: seq<Node>, m: MethodDecl, ev: Option<nat>): seq<Node> {
    if m.comments != "" && |nodes| > 0 && ev.Some? then
      nodes[0 := nodes[0].(description := Some(m.comments))]
    else nodes
  }

  /** `_process_method`: the nodes, the connections and the counters afterwards. */
  function ProcessMethodSpec(m: MethodDecl, bm: BodyMatches, g: Gen): Acc {
    var ev := EventId(m, g);
    var a := Fold(StartAcc(m, g), ev, m.body, AllCaptures(bm));
    a.(nodes := Describe(a.nodes, m, ev))
  }

  /** A parsed method together with the matches found in its body. */
  datatype MethodInput = MethodInput(decl: MethodDecl, matches: BodyMatches)

  /** The accumulation of `generate_graph` for a given per-method step `run`: every
      method's nodes, then every method's connections, in method order, the counters
      threaded from one method into the next. */
  function Accumulate(ms: seq<MethodInput>, nodes: seq<Node>, conns: seq<Connection>, g: Gen,
                      run: (MethodInput, Gen) -> Acc): Acc
    decreases |ms|
  {
    if |ms| == 0 then Acc(nodes, conns, None, g)
    else
      var before := Accumulate(ms[..|ms| - 1], nodes, conns, g, run);
      var r := run(ms[|ms| - 1], before.gen);
      Acc(before.nodes + r.nodes, before.conns + r.conns, None, r.gen)
  }

  /** The step of `generate_graph`: `_process_method` on one method. */
  function MethodRun(mi: MethodInput, g: Gen): Acc {
    ProcessMethodSpec(mi.decl, mi.matches, g)
  }

  /** `generate_graph`'s accumulation. */
  function GenerateSpec(ms: seq<MethodInput>, nodes: seq<Node>, conns: seq<Connection>, g: Gen): Acc {
    Accumulate(ms, nodes, conns, g, MethodRun)
  }

  function NodeDicts(nodes: seq<Node>): (es: seq<Json>)
    ensures |es| == |nodes| && forall i :: 0 <= i < |nodes| ==> es[i] == ToDict(nodes[i])
  {
    seq(|nodes|, i requires 0 <= i < |nodes| => ToDict(nodes[i]))
  }

  function ConnectionDicts(conns: seq<Connection>): (es: seq<Json>)
    ensures |es| == |conns| && forall i :: 0 <= i < |conns| ==> es[i] == conns[i].ToDict()
  {
    seq(|conns|, i requires 0 <= i < |conns| => conns[i].ToDict())
  }

  /** The element list: every node dictionary, then every connection dictionary. */
  function Elements(nodes: seq<Node>, conns: seq<Connection>): seq<Json> {
    NodeDicts(nodes) + ConnectionDicts(conns)
  }

  /** The document `generate_graph` returns. */
  function GraphDocument(className: Option<string>, elements: seq<Json>): Json {
    var named := className.Some? && className.value != "";
    JObj([("nest", JObj([
      ("source", JStr("Embed")),
      ("macro", JNull),
      ("embed", JObj([
        ("variables", JObj([("Kind", JStr("Flow")),
                            ("collection", JObj([("$content", JArr([])), ("$version", JStr("A"))])),
                            ("$version", JStr("A"))])),
        ("controlInputDefinitions", JArr([])),
        ("controlOutputDefinitions", JArr([])),
        ("valueInputDefinitions", JArr([])),
        ("valueOutputDefinitions", JArr([])),
        ("title", JStr(if named then className.value else "ConvertedGraph")),
        ("summary", JStr(if named then "Converted from " + className.value + ".cs" else "Converted Graph")),
        ("pan", JObj([("x", JNum("0.0")), ("y", JNum("0.0"))])),
        ("zoom", JNum("1.0")),
        ("elements", JArr(elements)),
        ("$version", JStr("A"))]))]))])
  }
}
