/** The structural extractor of the converter (`CSharpParser`): brace-balanced body
    extraction, comment harvesting above a method, parameter splitting and the record kept
    for each method. The regular expressions that find declarations are not modelled: one
    method declaration is given as the record of its capture groups (`MethodMatch`). */
module Parser {
  import opened Wrappers
  import opened Text

  // ---------------------------------------------------------------------------------
  // Brace-depth scanning
  // ---------------------------------------------------------------------------------

  /** How one character changes the brace depth. */
  function BraceStep(c: char): int {
    if c == '{' then 1 else if c == '}' then -1 else 0
  }

  /** The depth reached after scanning `s` from depth 0: opening braces minus closing ones. */
  function Depth(s: string): int {
    if |s| == 0 then 0 else Depth(s[..|s| - 1]) + BraceStep(s[|s| - 1])
  }

  /** Index `i` holds a `}` that brings the running depth back to zero. */
  predicate IsClose(s: string, i: int) {
    0 <= i < |s| && s[i] == '}' && Depth(s[..i + 1]) == 0
  }

  /** The first closing index at or after `i`, if any. */
  function FirstCloseFrom(s: string, i: nat): (r: Option<nat>)
    ensures r.Some? ==> i <= r.value < |s| && IsClose(s, r.value)
                        && forall j :: i <= j < r.value ==> !IsClose(s, j)
    ensures r.None? ==> forall j :: i <= j < |s| ==> !IsClose(s, j)
    decreases |s| - i
  {
    if i >= |s| then None
    else if IsClose(s, i) then Some(i)
    else FirstCloseFrom(s, i + 1)
  }

  function FirstClose(s: string): Option<nat> {
    FirstCloseFrom(s, 0)
  }

  /** What `code[start:]` is in Python, where a start beyond the end gives "". */
  function From(code: string, start: nat): string {
    if start <= |code| then code[start..] else ""
  }

  /** The text `_extract_body` returns: from `start` up to and including the first `}`
      that brings the depth back to zero, or "" when the depth never returns to zero. */
  function BodySpan(code: string, start: nat): string {
    var t := From(code, start);
    match FirstClose(t)
    case Some(k) => t[..k + 1]
    case None => ""
  }

  /** The text `_extract_switch_body` returns: the same scan, but the closing `}` is
      excluded, and "" when the depth never returns to zero. */
  function SwitchSpan(code: string, start: nat): string {
    var t := From(code, start);
    match FirstClose(t)
    case Some(k) => t[..k]
    case None => ""
  }

  lemma DepthSnoc(s: string, i: nat)
    requires i < |s|
    ensures Depth(s[..i + 1]) == Depth(s[..i]) + BraceStep(s[i])
  {
    assert s[..i + 1][..i] == s[..i];
  }

  /** `_extract_body`: a character loop with a depth counter. */
  method ExtractBody(code: string, start: nat) returns (body: string)
    ensures body == BodySpan(code, start)
  {
    var t := From(code, start);
    var depth := 0;
    var endPos := 0;
    var i := 0;
    while i < |t|
      invariant 0 <= i <= |t|
      invariant depth == Depth(t[..i])
      invariant forall j :: 0 <= j < i ==> !IsClose(t, j)
    {
      DepthSnoc(t, i);
      if t[i] == '{' {
        depth := depth + 1;
      } else if t[i] == '}' {
        depth := depth - 1;
        if depth == 0 {
          assert IsClose(t, i);
          endPos := i + 1;
          break;
        }
      }
      i := i + 1;
    }
    body := t[..endPos];
  }

  /** Scanning from an opening brace: the depth stays positive before the first close. */
  lemma {:induction false} DepthPositiveBeforeClose(t: string, k: nat, j: nat)
    requires k < |t| && |t| > 0 && t[0] == '{'
    requires forall m :: 0 <= m < k ==> !IsClose(t, m)
    requires 1 <= j <= k
    ensures Depth(t[..j]) > 0
  {
    if j == 1 {
      DepthSnoc(t, 0);
    } else {
      DepthPositiveBeforeClose(t, k, j - 1);
      DepthSnoc(t, j - 1);
      assert !IsClose(t, j - 1);
    }
  }

  /** Started on an opening brace, `_extract_body` returns either "" (the brace is never
      matched) or a text that starts with that brace, ends with its matching `}`, is
      balanced, and stays strictly inside the outer brace pair until its last character. */
  lemma BodySpanIsMatchedBlock(code: string, start: nat)
    requires start < |code| && code[start] == '{'
    ensures var b := BodySpan(code, start);
            (b == [] <==> forall j :: 0 <= j < |code| - start ==> !IsClose(code[start..], j))
            && (b != [] ==> b[0] == '{' && b[|b| - 1] == '}' && Depth(b) == 0
                            && b == code[start..start + |b|]
                            && forall j :: 1 <= j < |b| ==> Depth(b[..j]) > 0)
  {
    var t := code[start..];
    match FirstClose(t)
    case None =>
    case Some(k) =>
      var b := t[..k + 1];
      assert b[..k + 1] == b;
      forall j | 1 <= j < |b| ensures Depth(b[..j]) > 0 {
        DepthPositiveBeforeClose(t, k, j);
        assert b[..j] == t[..j];
      }
  }

  /** With no `{` in `s`, the depth never rises above zero and is negative once a `}` has
      been seen. */
  lemma {:induction false} DepthWithoutOpen(s: string)
    requires '{' !in s
    ensures Depth(s) <= 0
    ensures '}' in s ==> Depth(s) < 0
  {
    if |s| > 0 {
      var p := s[..|s| - 1];
      assert forall c :: c in p ==> c in s;
      DepthWithoutOpen(p);
      if '}' in s && s[|s| - 1] != '}' {
        var k :| 0 <= k < |s| && s[k] == '}';
        assert p[k] == '}';
      }
    }
  }

  /** The switch-body quirk: the scan starts just after the switch's own `{`, at depth 0, so
      when no further `{` follows, no `}` brings the depth back to zero and the result is "". */
  lemma SwitchSpanWithoutInnerOpenIsEmpty(code: string, start: nat)
    requires '{' !in From(code, start)
    ensures SwitchSpan(code, start) == ""
  {
    var t := From(code, start);
    forall j | 0 <= j < |t| ensures !IsClose(t, j) {
      var p := t[..j + 1];
      assert forall c :: c in p ==> c in t;
      if t[j] == '}' {
        assert p[j] == '}';
        DepthWithoutOpen(p);
      }
    }
    assert FirstClose(t) == None;
  }

  /** When the switch scan succeeds, it stops just before a `}` that closes the text read. */
  lemma SwitchSpanStopsBeforeClose(code: string, start: nat)
    requires SwitchSpan(code, start) != ""
    ensures var b := SwitchSpan(code, start);
            start + |b| < |code| && code[start + |b|] == '}'
            && b == code[start..start + |b|] && Depth(b) == 1
  {
    var t := From(code, start);
    var k := FirstClose(t).value;
    DepthSnoc(t, k);
  }

  // ---------------------------------------------------------------------------------
  // Comment harvesting
  // ---------------------------------------------------------------------------------

  /** How one line above a method is treated: a comment (with its text), a line that is
      passed over (blank or an attribute such as `[SerializeField]`), or a line that ends
      the search. */
  datatype LineKind = CommentLine(text: string) | SkipLine | StopLine

  predicate IsCommentMark(c: char) {
    c == '/' || c == '*'
  }

  function Classify(raw: string): LineKind {
    var line := Strip(raw);
    if StartsWith(line, "//") then CommentLine(Strip(line[2..]))
    else if StartsWith(line, "/*") || StartsWith(line, "*") then
      CommentLine(Strip(TrimRight(TrimLeft(line, IsCommentMark), IsCommentMark)))
    else if line != "" && !StartsWith(line, "[") then StopLine
    else SkipLine
  }

  /** The comment texts kept when the classified lines are read from the last one
      backwards, stopping at the first line that is neither a comment, blank nor an
      attribute; texts are kept in their original order. */
  function Harvest(kinds: seq<LineKind>): seq<string> {
    if |kinds| == 0 then []
    else
      var init := kinds[..|kinds| - 1];
      match kinds[|kinds| - 1]
      case CommentLine(text) => Harvest(init) + [text]
      case SkipLine => Harvest(init)
      case StopLine => []
  }

  /** The at most five lines that end at `pos` (`code[:pos].split('\n')[-5:]`). */
  function CommentWindow(code: string, pos: nat): (w: seq<string>)
    ensures 1 <= |w| <= 5
  {
    var before := if pos <= |code| then code[..pos] else code;
    var lines := SplitOn(before, '\n');
    if |lines| > 5 then lines[|lines| - 5..] else lines
  }

  function ClassifyAll(lines: seq<string>): (kinds: seq<LineKind>)
    ensures |kinds| == |lines|
  {
    seq(|lines|, i requires 0 <= i < |lines| => Classify(lines[i]))
  }

  /** `_extract_method_comments(pos)`. */
  function MethodComments(code: string, pos: nat): string {
    Join(Harvest(ClassifyAll(CommentWindow(code, pos))), " ")
  }

  /** `_extract_method_comments`: the reversed-line loop that inserts at the front. */
  method ExtractMethodComments(code: string, pos: nat) returns (r: string)
    ensures r == MethodComments(code, pos)
  {
    var lines := CommentWindow(code, pos);
    ghost var kinds := ClassifyAll(lines);
    var comments: seq<string> := [];
    var i := |lines|;
    var stopped := false;
    assert kinds[..i] == kinds;
    while i > 0 && !stopped
      invariant 0 <= i <= |lines|
      invariant Harvest(kinds) == (if stopped then [] else Harvest(kinds[..i])) + comments
      decreases i, if stopped then 0 else 1
    {
      ghost var before := kinds[..i];
      assert before[..i - 1] == kinds[..i - 1];
      var kind := Classify(lines[i - 1]);
      assert before[i - 1] == kind;
      HarvestLast(before, kind);
      if kind.StopLine? {
        stopped := true;
      } else {
        ghost var h := Harvest(kinds[..i - 1]);
        if kind.CommentLine? {
          assert Harvest(before) == h + [kind.text];
          ConcatAssoc(h, [kind.text], comments);
          comments := [kind.text] + comments;
        }
        i := i - 1;
      }
    }
    assert !stopped ==> kinds[..i] == [];
    assert Harvest(kinds) == comments;
    r := Join(comments, " ");
  }

  lemma ConcatAssoc<T>(a: seq<T>, b: seq<T>, c: seq<T>)
    ensures a + b + c == a + (b + c)
  {
  }

  lemma HarvestLast(kinds: seq<LineKind>, last: LineKind)
    requires |kinds| > 0 && kinds[|kinds| - 1] == last
    ensures Harvest(kinds) == match last
      case CommentLine(text) => Harvest(kinds[..|kinds| - 1]) + [text]
      case SkipLine => Harvest(kinds[..|kinds| - 1])
      case StopLine => []
  {
  }

  /** Lines above the last stopping line never contribute. */
  lemma {:induction false} HarvestAfterStop(kinds: seq<LineKind>, k: nat)
    requires k < |kinds| && kinds[k] == StopLine
    ensures Harvest(kinds) == Harvest(kinds[k + 1..])
    decreases |kinds|
  {
    var n := |kinds|;
    if k == n - 1 {
      assert kinds[k + 1..] == [];
    } else {
      var init := kinds[..n - 1];
      var tail := kinds[k + 1..];
      HarvestAfterStop(init, k);
      assert tail[..|tail| - 1] == init[k + 1..];
      assert tail[|tail| - 1] == kinds[n - 1];
    }
  }

  /** Every harvested text is the text of a comment line, in the same order as the lines,
      and there are at most as many texts as lines. */
  lemma {:induction false} HarvestIsFromComments(kinds: seq<LineKind>)
    ensures |Harvest(kinds)| <= |kinds|
    ensures forall t :: t in Harvest(kinds) ==>
              exists k :: 0 <= k < |kinds| && kinds[k] == CommentLine(t)
  {
    if |kinds| > 0 {
      var n := |kinds|;
      var init := kinds[..n - 1];
      HarvestIsFromComments(init);
      forall t | t in Harvest(kinds)
        ensures exists k :: 0 <= k < n && kinds[k] == CommentLine(t)
      {
        if t in Harvest(init) {
          var k :| 0 <= k < n - 1 && init[k] == CommentLine(t);
          assert kinds[k] == init[k];
        } else {
          assert kinds[n - 1] == CommentLine(t);
        }
      }
    }
  }

  /** The number of comment lines among `kinds`. */
  function CommentCount(kinds: seq<LineKind>): nat {
    if |kinds| == 0 then 0
    else CommentCount(kinds[..|kinds| - 1]) + (if kinds[|kinds| - 1].CommentLine? then 1 else 0)
  }

  lemma {:induction false} HarvestCountsComments(kinds: seq<LineKind>)
    requires forall k :: 0 <= k < |kinds| ==> kinds[k] != StopLine
    ensures |Harvest(kinds)| == |set k | 0 <= k < |kinds| && kinds[k].CommentLine?|
  {
    var n := |kinds|;
    if n > 0 {
      var init := kinds[..n - 1];
      HarvestCountsComments(init);
      var s := set k | 0 <= k < n && kinds[k].CommentLine?;
      var s0 := set k | 0 <= k < n - 1 && init[k].CommentLine?;
      if kinds[n - 1].CommentLine? {
        assert s == s0 + {n - 1};
      } else {
        assert s == s0;
      }
    }
  }

  lemma {:induction false} HarvestCommentsInOrder(kinds: seq<LineKind>)
    requires forall k :: 0 <= k < |kinds| ==> kinds[k] != StopLine
    ensures |Harvest(kinds)| == CommentCount(kinds)
    ensures forall k :: 0 <= k < |kinds| && kinds[k].CommentLine? ==>
              CommentCount(kinds[..k]) < |Harvest(kinds)|
              && Harvest(kinds)[CommentCount(kinds[..k])] == kinds[k].text
  {
    var n := |kinds|;
    if n > 0 {
      var init := kinds[..n - 1];
      HarvestCommentsInOrder(init);
      forall k | 0 <= k < n && kinds[k].CommentLine?
        ensures CommentCount(kinds[..k]) < |Harvest(kinds)|
        ensures Harvest(kinds)[CommentCount(kinds[..k])] == kinds[k].text
      {
        if k < n - 1 {
          assert kinds[..k] == init[..k];
          assert init[k] == kinds[k];
        } else {
          assert kinds[..k] == init;
        }
      }
    }
  }

  /** With no stopping line, every comment line is kept, in line order: the comment on
      line `k` is text number `CommentCount(kinds[..k])`, the number of comment lines above
      it, and nothing else is kept. */
  lemma HarvestKeepsAllComments(kinds: seq<LineKind>)
    requires forall k :: 0 <= k < |kinds| ==> kinds[k] != StopLine
    ensures |Harvest(kinds)| == |set k | 0 <= k < |kinds| && kinds[k].CommentLine?|
    ensures |Harvest(kinds)| == CommentCount(kinds)
    ensures forall k :: 0 <= k < |kinds| && kinds[k].CommentLine? ==>
              CommentCount(kinds[..k]) < |Harvest(kinds)|
              && Harvest(kinds)[CommentCount(kinds[..k])] == kinds[k].text
  {
    HarvestCountsComments(kinds);
    HarvestCommentsInOrder(kinds);
  }

  // ---------------------------------------------------------------------------------
  // Parameters
  // ---------------------------------------------------------------------------------

  datatype Param = Param(ty: string, name: string)

  /** The index of the last `c` in `s`. */
  function LastIndexOf(s: string, c: char): (r: Option<nat>)
    ensures r.Some? ==> r.value < |s| && s[r.value] == c && c !in s[r.value + 1..]
    ensures r.None? <==> c !in s
  {
    if |s| == 0 then None
    else if s[|s| - 1] == c then Some(|s| - 1)
    else
      var r := LastIndexOf(s[..|s| - 1], c);
      assert forall x :: x in s[..|s| - 1] ==> x in s;
      assert s == s[..|s| - 1] + [s[|s| - 1]];
      if r.Some? then
        assert s[r.value + 1..] == s[..|s| - 1][r.value + 1..] + [s[|s| - 1]];
        r
      else r
  }

  /** One stripped parameter text: `part.rsplit(' ', 1)` when it contains a space,
      nothing otherwise. The pair splits the text at its last space. */
  function ParamOf(part: string): (r: Option<Param>)
    ensures r.None? <==> ' ' !in part
    ensures r.Some? ==> r.value.ty + " " + r.value.name == part && ' ' !in r.value.name
  {
    match LastIndexOf(part, ' ')
    case None => None
    case Some(k) =>
      assert part == part[..k] + " " + part[k + 1..];
      Some(Param(part[..k], part[k + 1..]))
  }

  /** Stripping each comma-separated part and keeping those that have a space. */
  function ParamsOfParts(parts: seq<string>): seq<Param> {
    if |parts| == 0 then []
    else
      var rest := ParamsOfParts(parts[..|parts| - 1]);
      match ParamOf(Strip(parts[|parts| - 1]))
      case Some(p) => rest + [p]
      case None => rest
  }

  /** The parameter list of a declaration, from the text between its parentheses. */
  function Parameters(text: string): seq<Param> {
    if Strip(text) == "" then [] else ParamsOfParts(SplitOn(text, ','))
  }

  /** The parameter splitting of `_extract_methods`: a loop appending one pair per part. */
  method SplitParameters(text: string) returns (params: seq<Param>)
    ensures params == Parameters(text)
  {
    params := [];
    if Strip(text) != "" {
      var parts := SplitOn(text, ',');
      var i := 0;
      while i < |parts|
        invariant 0 <= i <= |parts|
        invariant params == ParamsOfParts(parts[..i])
      {
        assert parts[..i + 1][..i] == parts[..i];
        var part := Strip(parts[i]);
        if ' ' in part {
          var k := LastIndexOf(part, ' ').value;
          params := params + [Param(part[..k], part[k + 1..])];
        }
        i := i + 1;
      }
      assert parts[..|parts|] == parts;
    }
  }

  /** A pair read from a stripped part has a non-empty name with no space and no comma. */
  lemma ParamOfStrippedName(part: string)
    requires ',' !in part
    ensures var r := ParamOf(Strip(part));
            r.Some? ==> r.value.name != "" && ' ' !in r.value.name && ',' !in r.value.name
  {
    var s := Strip(part);
    var r := ParamOf(s);
    if r.Some? {
      var q := r.value;
      var i, j := StripShape(part);
      assert !IsSpace(s[|s| - 1]);
      assert q.ty + " " + q.name == s;
      assert q.name != "";
      assert forall c :: c in s ==> c in part;
      assert forall c :: c in q.name ==> c in s;
    }
  }

  /** Every kept pair comes from one comma-separated part: type, one space and name give
      back that part with its surrounding whitespace removed, and the name is non-empty and
      holds neither a space nor a comma. At most one pair is kept per part. */
  lemma {:induction false} ParamsOfPartsSound(parts: seq<string>)
    requires forall k :: 0 <= k < |parts| ==> ',' !in parts[k]
    ensures |ParamsOfParts(parts)| <= |parts|
    ensures forall p :: p in ParamsOfParts(parts) ==>
              p.name != "" && ' ' !in p.name && ',' !in p.name
              && exists k :: 0 <= k < |parts| && p.ty + " " + p.name == Strip(parts[k])
  {
    if |parts| > 0 {
      var n := |parts|;
      var init := parts[..n - 1];
      ParamsOfPartsSound(init);
      ParamOfStrippedName(parts[n - 1]);
      var r := ParamOf(Strip(parts[n - 1]));
      forall p | p in ParamsOfParts(parts)
        ensures p.name != "" && ' ' !in p.name && ',' !in p.name
        ensures exists k :: 0 <= k < n && p.ty + " " + p.name == Strip(parts[k])
      {
        if p in ParamsOfParts(init) {
          var k :| 0 <= k < n - 1 && p.ty + " " + p.name == Strip(init[k]);
          assert init[k] == parts[k];
        } else {
          assert r == Some(p);
        }
      }
    }
  }

  /** The number of parts that hold a space once stripped. */
  function SpacedCount(parts: seq<string>): nat {
    if |parts| == 0 then 0
    else SpacedCount(parts[..|parts| - 1]) + (if ' ' in Strip(parts[|parts| - 1]) then 1 else 0)
  }

  /** No part is lost and the order is kept: the pair of part `k` is pair number
      `SpacedCount(parts[..k])`, the number of kept parts before it, and there are exactly
      as many pairs as parts with a space. */
  lemma {:induction false} ParamsOfPartsComplete(parts: seq<string>)
    ensures |ParamsOfParts(parts)| == SpacedCount(parts)
    ensures forall k :: 0 <= k < |parts| && ' ' in Strip(parts[k]) ==>
              SpacedCount(parts[..k]) < |ParamsOfParts(parts)|
              && Some(ParamsOfParts(parts)[SpacedCount(parts[..k])]) == ParamOf(Strip(parts[k]))
  {
    var n := |parts|;
    if n > 0 {
      var init := parts[..n - 1];
      ParamsOfPartsComplete(init);
      forall k | 0 <= k < n && ' ' in Strip(parts[k])
        ensures SpacedCount(parts[..k]) < |ParamsOfParts(parts)|
        ensures Some(ParamsOfParts(parts)[SpacedCount(parts[..k])]) == ParamOf(Strip(parts[k]))
      {
        if k < n - 1 {
          assert parts[..k] == init[..k];
          assert init[k] == parts[k];
        } else {
          assert parts[..k] == init;
        }
      }
    }
  }

  /** The parameter list satisfies the same: one pair per part at most, each pair
      recombining to a stripped part of the text. */
  lemma ParametersSound(text: string)
    ensures |Parameters(text)| <= |SplitOn(text, ',')|
    ensures forall p :: p in Parameters(text) ==>
              p.name != "" && ' ' !in p.name && ',' !in p.name
              && exists part :: part in SplitOn(text, ',') && p.ty + " " + p.name == Strip(part)
    ensures Strip(text) == "" ==> Parameters(text) == []
    ensures Strip(text) != "" ==>
              var parts := SplitOn(text, ',');
              |Parameters(text)| == SpacedCount(parts)
              && forall k :: 0 <= k < |parts| && ' ' in Strip(parts[k]) ==>
                   SpacedCount(parts[..k]) < |Parameters(text)|
                   && Some(Parameters(text)[SpacedCount(parts[..k])]) == ParamOf(Strip(parts[k]))
  {
    if Strip(text) != "" {
      var parts := SplitOn(text, ',');
      ParamsOfPartsSound(parts);
      ParamsOfPartsComplete(parts);
    }
  }

  // ---------------------------------------------------------------------------------
  // Method records
  // ---------------------------------------------------------------------------------

  /** The deferred-execution test of `_extract_methods`: the return type mentions
      `IEnumerator` anywhere. */
  function IsCoroutine(returnType: string): (r: bool)
    ensures r <==> exists i: nat :: OccursAt(returnType, "IEnumerator", i)
  {
    ContainsOccurs(returnType, "IEnumerator");
    Contains(returnType, "IEnumerator")
  }

  /** The capture groups of one match of the method-declaration pattern: the optional
      access modifier, `static`, the optional `virtual`/`override`/`abstract`, `async`, the
      return type, the name, the text between the parentheses, and where the match starts
      and ends (it ends just after the body's opening `{`). */
  datatype MethodMatch = MethodMatch(access: Option<string>, isStatic: bool,
                                     modifier: Option<string>, isAsync: bool,
                                     returnType: string, name: string, params: string,
                                     start: nat, end: nat)

  /** The record `_extract_methods` keeps for one method. */
  datatype MethodDecl = MethodDecl(access: string, isStatic: bool, modifier: Option<string>,
                                   isAsync: bool, returnType: string, name: string,
                                   parameters: seq<Param>, body: string, isCoroutine: bool,
                                   comments: string)

  /** One iteration of `_extract_methods`. The match ends just after a `{`, so its end is
      at least one. */
  method ExtractMethod(code: string, m: MethodMatch) returns (d: MethodDecl)
    requires 0 < m.end
    ensures d.access == m.access.GetOr("private") && d.name == m.name
    ensures d.isStatic == m.isStatic && d.modifier == m.modifier && d.isAsync == m.isAsync
    ensures d.returnType == m.returnType
    ensures d.parameters == Parameters(m.params)
    ensures d.body == BodySpan(code, m.end - 1)
    ensures d.isCoroutine <==> exists i: nat :: OccursAt(m.returnType, "IEnumerator", i)
    ensures d.comments == MethodComments(code, m.start)
  {
    var params := SplitParameters(m.params);
    var body := ExtractBody(code, m.end - 1);
    var comments := ExtractMethodComments(code, m.start);
    d := MethodDecl(m.access.GetOr("private"), m.isStatic, m.modifier, m.isAsync,
                    m.returnType, m.name, params, body, IsCoroutine(m.returnType), comments);
  }
}
