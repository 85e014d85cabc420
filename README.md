# Dafny model of the C#-to-Visual-Scripting converter core

The converter reads a Unity C# script and builds a Unity Visual Scripting ("Bolt") flow
graph. Its core has three parts:

- `CSharpParser` cuts each method out of the text: brace-balanced body, comments above it,
  parameter list, coroutine flag.
- `VisualScriptingGenerator._process_method` turns one method body into nodes and
  connections. It runs one regular-expression scan per construct (for, while, foreach,
  switch, `Debug.Log`, if, assignment, `yield return`, generic call) and chains every
  statement node to the previous one through a control connection.
- `generate_graph` and the `to_dict` methods lay the result out as a JSON document.

This project models that core in Dafny 4.

- `wrappers.dfy`, `text.dfy`: `Option`, and the Python string operations the core uses
  (`strip`, `split`, `in`, `isdigit`/`int`, `str` of a number).
- `parser.dfy`: the parser helpers `_extract_body`, `_extract_method_comments`, parameter
  splitting and the method record.
- `graph.dfy`, `builders.dfy`: ports, nodes, connections, the fifteen `_create_*_node`
  builders and `to_dict`. A node is its guid, position, builder (`Template`) and
  description. Everything else about it is a function of the builder.
- `synthesis.dfy`: the specification of `_process_method` as a fold over the regex
  captures. One generic `Step` runs per capture. It takes the statement node, the value
  nodes built before the control link and those built after it. Also here: the cursor
  walk of `_next_position`, and `generate_graph` as a fold over methods.
- `generator.dfy`: the generator as a class. Its fields are the node and connection
  lists, the position cursor and the id counter. Its methods (`ProcessMethod`,
  `GenerateGraph`, one loop per construct, `_extract_switch_body`) are proved equal to
  the specification functions.
- `wiring.dfy`, `guarantees.dfy`: the invariant every step keeps, and what it gives for a
  method and for the whole graph:
  - ids are fresh and increasing;
  - no connection dangles;
  - the control connections form exactly the chain of statement nodes in scan order;
  - positions follow the cursor;
  - the event node comes first and carries the method comment.
- `constructs.dfy`: what each construct emits, node by node and connection by
  connection. Also the exact condition under which a generic call is skipped.
- `scenarios.dfy`: concrete inputs for the decisions made on captured text.

Regular-expression matches are inputs. Each construct's match is a record of its capture
groups (`ForMatch`, `CallMatch`, …), and a method's matches come as one `BodyMatches`
value, in the order `re.finditer` yields them. `uuid4()` is replaced by one counter shared
by nodes and connections. `$id` is the decimal text of that counter.

## Model

| member | source | states |
|---|---|---|
| Text.SplitOn | cs_to_visual_scripting_converter.py:190 | `str.split(sep)` gives at least one part, and no part holds the separator |
| Text.JoinSplitOn | cs_to_visual_scripting_converter.py:190 | joining the parts of a split with the separator gives the text back |
| Text.SplitOnLast | cs_to_visual_scripting_converter.py:224 | the last part of a split is the suffix after the last separator (the whole text when there is none) |
| Text.StripShape | cs_to_visual_scripting_converter.py:191 | `strip()` removes exactly a whitespace prefix and a whitespace suffix and leaves a text that neither starts nor ends with whitespace |
| Text.ContainsOccurs | cs_to_visual_scripting_converter.py:203 | the substring test `p in s` holds exactly when `p` occurs at some index of `s` |
| Text.NatToString | cs_to_visual_scripting_converter.py:72 | the decimal text of an id is all digits |
| Text.DigitsValueOfNatToString | cs_to_visual_scripting_converter.py:72 | reading the decimal text of an id back gives the id |
| Parser.FirstCloseFrom | cs_to_visual_scripting_converter.py:238-245 | finds the first index where the brace depth returns to 0 on a `}`, with none before it; none when there is no such index |
| Parser.ExtractBody | cs_to_visual_scripting_converter.py:236-247 | the scanning loop of `_extract_body` returns `BodySpan`, the text from `start` through the `}` that closes depth 0 |
| Parser.BodySpanIsMatchedBlock | cs_to_visual_scripting_converter.py:236-247 | from a `{`, the body is empty exactly when no brace closes it; otherwise it is the slice of the code at `start` that opens with `{`, ends with `}`, is balanced, and stays at positive depth inside |
| Parser.SwitchSpanWithoutInnerOpenIsEmpty | cs_to_visual_scripting_converter.py:942-954 | scanning after the switch's own `{`, a body with no further `{` gives "" |
| Parser.SwitchSpanStopsBeforeClose | cs_to_visual_scripting_converter.py:942-954 | a non-empty switch body is the slice at `start` that stops just before a `}` and ends at depth 1 |
| Parser.CommentWindow | cs_to_visual_scripting_converter.py:224-226 | at most the last five lines before the method are looked at, and there is always at least one |
| Parser.ExtractMethodComments | cs_to_visual_scripting_converter.py:221-234 | the backwards loop gives `MethodComments`: the kept comment texts joined by spaces |
| Parser.HarvestAfterStop | cs_to_visual_scripting_converter.py:232-233 | only comment lines below the lowest stopping line are kept |
| Parser.HarvestIsFromComments | cs_to_visual_scripting_converter.py:226-233 | every kept text comes from a comment line of the window, and there are no more texts than lines |
| Parser.HarvestKeepsAllComments | cs_to_visual_scripting_converter.py:226-233 | with no stopping line, every comment line's text is kept and nothing else: the comment on a line is text number k when k comment lines lie above it |
| Parser.LastIndexOf | cs_to_visual_scripting_converter.py:194 | the index of the last occurrence of a character, none exactly when it does not occur |
| Parser.ParamOf | cs_to_visual_scripting_converter.py:193-197 | a part without a space gives no parameter; otherwise `rsplit(' ', 1)` gives a type and name with `type + " " + name == part` and no space in the name |
| Parser.SplitParameters | cs_to_visual_scripting_converter.py:189-197 | the loop over comma parts gives `Parameters(text)` |
| Parser.ParamOfStrippedName | cs_to_visual_scripting_converter.py:191-196 | a parameter from a stripped part has a non-empty name with no space and no comma |
| Parser.ParametersSound | cs_to_visual_scripting_converter.py:189-197 | an all-whitespace list gives no parameter; otherwise every stripped comma part holding a space gives its `rsplit(' ', 1)` pair, in part order, and nothing else: each pair has a non-empty name free of spaces and commas and `type + " " + name` is one of the stripped parts |
| Parser.ParamsOfPartsComplete | cs_to_visual_scripting_converter.py:191-197 | the pairs are the stripped parts holding a space, in part order: the part with k such parts before it gives pair number k, and there are as many pairs as such parts |
| Parser.IsCoroutine | cs_to_visual_scripting_converter.py:203 | a method is a coroutine exactly when `IEnumerator` occurs in its return type |
| Parser.ExtractMethod | cs_to_visual_scripting_converter.py:180-219 | the method record keeps the capture groups, defaults the access to `private`, holds the parsed parameters, the body from the declaration's `{`, the coroutine flag and the comments above the declaration |
| Graph.NodeDictDistinct | cs_to_visual_scripting_converter.py:68-95 | `Node.to_dict` gives a JSON object whose keys are distinct |
| Graph.NodeDictShape | cs_to_visual_scripting_converter.py:68-95 | `$id` is the id text, `$type` the node type; `summary` is there exactly for a non-empty description; `member` and `chainable` are there exactly when the node has member information |
| Graph.ConnectionDictShape | cs_to_visual_scripting_converter.py:107-115 | `Connection.to_dict` refers to both units by their id text, keeps both keys, and has the control type exactly for a control connection |
| Graph.RefResolvesIff | cs_to_visual_scripting_converter.py:591-603 | a connection's `sourceUnit` or `destinationUnit` reference equals a node's `$id` exactly when it was made from that node |
| Builders.SwitchContent | cs_to_visual_scripting_converter.py:429-447 | a switch node with n cases has n + 3 ports: `enter`, `selector`, one control output named `0`, …, `n-1` per case, then `default` |
| Builders.ContentHasEnterIff | cs_to_visual_scripting_converter.py:303-589 | a builder's first port is the control input `enter` exactly for the statement builders (invoke, if, for, while, foreach, switch, yield, custom invoke, set variable) |
| Synthesis.NextCursorOnGrid | cs_to_visual_scripting_converter.py:294-301 | `_next_position` moves the cursor 250 to the right, and after x = 1000 goes back to x = 0 and 150 down; the cursor stays on the grid and never moves up |
| Synthesis.NextCursorCell | cs_to_visual_scripting_converter.py:294-301 | from the k-th grid cell the cursor moves to cell k + 1 |
| Synthesis.WalkFromOrigin | cs_to_visual_scripting_converter.py:294-301 | after k calls from (0, 0) the cursor is at grid cell k |
| Synthesis.StepTwoBefore | cs_to_visual_scripting_converter.py:670-693 | a statement with two input values builds the node and both values first, then links from the cursor, then wires the values |
| Synthesis.StepOneAfter | cs_to_visual_scripting_converter.py:764-785 | a statement with one input value builds the node and links it from the cursor before building and wiring the value |
| Synthesis.QuotedText | cs_to_visual_scripting_converter.py:773 | a log argument is a string literal exactly when it starts and ends with `"` |
| Synthesis.QuotedTextRequotes | cs_to_visual_scripting_converter.py:773-774 | putting the quotes back around `log_arg[1:-1]` gives the argument again |
| Synthesis.FirstOpSpec | cs_to_visual_scripting_converter.py:804-807 | the operator search gives nothing exactly when no operator occurs; otherwise it gives an occurring operator with no earlier operator of the list occurring |
| Synthesis.CountCaseLabelsFrom | cs_to_visual_scripting_converter.py:740 | the case count is positive exactly when some `case<whitespace><digits>:` label occurs in the switch text |
| Synthesis.CaseLabelsDisjoint | cs_to_visual_scripting_converter.py:740 | no label starts before the `:` of the previous one, so counting every start index gives `len(re.findall(...))`, which resumes after each match |
| Synthesis.ArgParams | cs_to_visual_scripting_converter.py:909-913 | a call with n arguments gets n placeholder parameters |
| Synthesis.FoldConcat | cs_to_visual_scripting_converter.py:660-933 | running the category scans one after another is running them on the concatenated capture list |
| Generator.VisualScriptingGenerator.constructor | cs_to_visual_scripting_converter.py:283-289 | a new generator has no nodes and no connections, and its cursor and counter are at 0 |
| Generator.VisualScriptingGenerator.NewGuid | cs_to_visual_scripting_converter.py:291-292 | a new id is the counter, which then moves on by one; nothing else changes |
| Generator.VisualScriptingGenerator.NextPosition | cs_to_visual_scripting_converter.py:294-301 | returns the cursor and moves it by `NextCursor`; nothing else changes |
| Generator.VisualScriptingGenerator.CreateNode | cs_to_visual_scripting_converter.py:303-312 | a builder call takes the next id and position and yields a node without description |
| Generator.VisualScriptingGenerator.CreateConnection | cs_to_visual_scripting_converter.py:591-603 | `_create_connection` takes the next id and refers to both nodes by their ids |
| Generator.VisualScriptingGenerator.ConnectFromCursor | cs_to_visual_scripting_converter.py:681-686 | links the cursor node (key `trigger` from the event node, `exit` otherwise) to the new node's `enter`, and adds nothing without a cursor |
| Generator.VisualScriptingGenerator.ExtractSwitchBody | cs_to_visual_scripting_converter.py:942-954 | the scanning loop of `_extract_switch_body` gives `SwitchSpan`: the text up to, not including, the `}` that brings the depth back to 0 |
| Generator.VisualScriptingGenerator.EmitFor | cs_to_visual_scripting_converter.py:664-695 | one for-loop match does exactly the specification step for a `ForCap` |
| Generator.VisualScriptingGenerator.EmitWhile | cs_to_visual_scripting_converter.py:699-711 | one while match does exactly the specification step |
| Generator.VisualScriptingGenerator.EmitForeach | cs_to_visual_scripting_converter.py:716-730 | one foreach match does exactly the specification step |
| Generator.VisualScriptingGenerator.EmitSwitch | cs_to_visual_scripting_converter.py:735-752 | one switch match counts its cases in the extracted text and does exactly the specification step |
| Generator.VisualScriptingGenerator.EmitLog | cs_to_visual_scripting_converter.py:757-785 | one `Debug.Log` match does exactly the specification step |
| Generator.VisualScriptingGenerator.EmitIf | cs_to_visual_scripting_converter.py:790-819 | one if match does exactly the specification step |
| Generator.VisualScriptingGenerator.ComparisonFor | cs_to_visual_scripting_converter.py:803-816 | the loop over the comparison operators gives the comparison node `IfValue` describes |
| Generator.VisualScriptingGenerator.EmitAssign | cs_to_visual_scripting_converter.py:824-854 | one assignment match does exactly the specification step |
| Generator.VisualScriptingGenerator.EmitYield | cs_to_visual_scripting_converter.py:859-888 | one yield match does exactly the specification step |
| Generator.VisualScriptingGenerator.EmitCall | cs_to_visual_scripting_converter.py:893-931 | one generic call match does exactly the specification step, skipped ones included |
| Generator.VisualScriptingGenerator.PlaceholderParams | cs_to_visual_scripting_converter.py:909-913 | the loop makes one `System.Object` placeholder per non-blank comma part of the arguments |
| Generator.VisualScriptingGenerator.FindOperator | cs_to_visual_scripting_converter.py:838-850 | the operator loop with its `not startswith('"')` guard gives the first occurring operator when allowed and none otherwise |
| Generator.VisualScriptingGenerator.ProcessFors | cs_to_visual_scripting_converter.py:661-695 | the for-loop scan is the fold of the specification step over the for matches |
| Generator.VisualScriptingGenerator.ProcessWhiles | cs_to_visual_scripting_converter.py:697-711 | the while scan is the fold over the while matches |
| Generator.VisualScriptingGenerator.ProcessForeaches | cs_to_visual_scripting_converter.py:714-730 | the foreach scan is the fold over the foreach matches |
| Generator.VisualScriptingGenerator.ProcessSwitches | cs_to_visual_scripting_converter.py:733-752 | the switch scan is the fold over the switch matches |
| Generator.VisualScriptingGenerator.ProcessLogs | cs_to_visual_scripting_converter.py:754-785 | the `Debug.Log` scan is the fold over the log matches |
| Generator.VisualScriptingGenerator.ProcessIfs | cs_to_visual_scripting_converter.py:787-819 | the if scan is the fold over the if matches |
| Generator.VisualScriptingGenerator.ProcessAssigns | cs_to_visual_scripting_converter.py:821-854 | the assignment scan is the fold over the assignment matches |
| Generator.VisualScriptingGenerator.ProcessYields | cs_to_visual_scripting_converter.py:856-888 | the yield scan is the fold over the yield matches |
| Generator.VisualScriptingGenerator.ProcessCalls | cs_to_visual_scripting_converter.py:890-933 | the generic call scan is the fold over the call matches |
| Generator.VisualScriptingGenerator.ProcessMethod | cs_to_visual_scripting_converter.py:648-940 | `_process_method` returns the nodes and connections of `ProcessMethodSpec` and leaves the cursor and counter where the specification does, without touching the generator's lists |
| Generator.VisualScriptingGenerator.ProcessMethods | cs_to_visual_scripting_converter.py:608-611 | the loop over methods extends the generator's lists as `GenerateSpec` does |
| Generator.VisualScriptingGenerator.NodeElements | cs_to_visual_scripting_converter.py:613-614 | the node loop gives the node elements in order |
| Generator.VisualScriptingGenerator.ConnectionElements | cs_to_visual_scripting_converter.py:616-617 | the connection loop gives the connection elements in order |
| Generator.VisualScriptingGenerator.GenerateGraph | cs_to_visual_scripting_converter.py:605-646 | `generate_graph` leaves the lists of `GenerateSpec` and returns the document whose elements are all node dictionaries followed by all connection dictionaries |
| Wiring.StepKeeps | cs_to_visual_scripting_converter.py:660-933 | every construct step keeps the invariant (fresh increasing ids, no dangling connection, positions on the cursor walk, control connections forming the statement chain, event node kept) and adds its statement |
| Wiring.StepOfKinds | cs_to_visual_scripting_converter.py:660-933 | a capture adds exactly its statement node, and a skipped call adds none |
| Wiring.FoldKeeps | cs_to_visual_scripting_converter.py:660-933 | the invariant holds after any sequence of captures |
| Wiring.FoldKinds | cs_to_visual_scripting_converter.py:660-933 | after a sequence of captures the statement kinds are those of the captures that are not skipped, in order |
| Guarantees.StartInv | cs_to_visual_scripting_converter.py:653-658 | the invariant holds after the optional event node, and there is no statement yet |
| Guarantees.FoldedEvent | cs_to_visual_scripting_converter.py:653-658 | for a Unity event method the first node is the event node at the cursor with the first id |
| Guarantees.ProcessMethodKeeps | cs_to_visual_scripting_converter.py:648-940 | the method's nodes and connections satisfy the whole invariant |
| Guarantees.ProcessMethodIds | cs_to_visual_scripting_converter.py:648-940 | every node and connection id of a method is fresh and ids increase in emission order |
| Guarantees.ProcessMethodConnected | cs_to_visual_scripting_converter.py:648-940 | every connection goes from a node of the method to a statement node of the method, both made before it |
| Guarantees.ProcessMethodControl | cs_to_visual_scripting_converter.py:648-940 | the control connections are exactly the chain through the statement nodes in emission order, starting at the event node, with `trigger` from the event node and `exit` otherwise; no node is entered twice and the first is never entered |
| Guarantees.ProcessMethodEventFirst | cs_to_visual_scripting_converter.py:653-658 | a Unity event method's first node is its event node, at the starting cursor with the first id |
| Guarantees.ProcessMethodOrder | cs_to_visual_scripting_converter.py:660-933 | the statement nodes come in category order (for, while, foreach, switch, log, if, assignment, yield, call) and in match order within a category, whatever the text order |
| Guarantees.ProcessMethodLaid | cs_to_visual_scripting_converter.py:294-301 | the method's node positions and the final cursor lie on the cursor walk |
| Guarantees.ProcessMethodLayout | cs_to_visual_scripting_converter.py:294-301 | the i-th node of a method sits i cursor steps from the starting cursor, and the cursor ends one step past the last node |
| Guarantees.ProcessMethodEvent | cs_to_visual_scripting_converter.py:935-938 | for a Unity event method only the event node gets the (non-empty) comment as description, and no connection enters the event node |
| Guarantees.ProcessMethodNoEvent | cs_to_visual_scripting_converter.py:935-938 | a method that is not a Unity event drops its comment: no node has a description |
| Guarantees.GenerateIds | cs_to_visual_scripting_converter.py:605-611 | across all methods, ids are fresh and increase in emission order |
| Guarantees.GenerateConnected | cs_to_visual_scripting_converter.py:605-611 | no connection of the graph dangles |
| Guarantees.GenerateLayout | cs_to_visual_scripting_converter.py:605-611 | the cursor is shared by all methods: the i-th node of the graph sits i steps from the start |
| Guarantees.FreshGenerate | cs_to_visual_scripting_converter.py:283-301 | from a fresh generator, the i-th node sits at grid cell i and every id is below the final counter |
| Guarantees.ElementsOrder | cs_to_visual_scripting_converter.py:613-617 | the elements are the node dictionaries in order followed by the connection dictionaries in order |
| Constructs.CursorLink | cs_to_visual_scripting_converter.py:681-686 | the link from the cursor is one connection when there is a cursor and none otherwise |
| Constructs.LinkIsCursorLink | cs_to_visual_scripting_converter.py:681-686 | linking from the cursor adds that connection only, and the counter moves by its length |
| Constructs.StepTwoBeforeShape | cs_to_visual_scripting_converter.py:670-693 | a statement with two input values gives three nodes on consecutive ids and positions, then the cursor link, then the two value connections into the statement |
| Constructs.StepOneAfterShape | cs_to_visual_scripting_converter.py:764-785 | a statement with an optional input value gives its node and cursor link, then the value node and its connection, with ids and positions in that order |
| Constructs.ForStep | cs_to_visual_scripting_converter.py:661-695 | a for match gives a `For` node and two integer literals (digits or 0, digits or 10), the cursor link, and value connections from `output` into `%firstIndex` and `%lastIndex` |
| Constructs.PlainStep | cs_to_visual_scripting_converter.py:697-752 | while, foreach and switch matches give their node and cursor link only; a switch has one output per `case <digits>:` label in the extracted text, n + 3 ports in all |
| Constructs.LogStep | cs_to_visual_scripting_converter.py:754-785 | a log match gives the `Debug.Log` invoke node, and for a quoted argument a string literal of the text between the quotes wired into `%message` |
| Constructs.IfStep | cs_to_visual_scripting_converter.py:787-819 | an if match gives the `If` node, and a comparison node for the first of `<=`, `>=`, `==`, `!=`, `<`, `>` in the condition wired into `%condition` |
| Constructs.AssignStep | cs_to_visual_scripting_converter.py:821-854 | an assignment gives a `SetVariable` node, and unless the value is quoted an arithmetic node for the first of `+`, `-`, `*`, `/`, `%` wired into `%input` |
| Constructs.YieldStep | cs_to_visual_scripting_converter.py:856-888 | a yield gives a `YieldReturn` node, and for `WaitForSeconds` with a numeric argument a wait node wired into `%instruction` |
| Constructs.CallStep | cs_to_visual_scripting_converter.py:890-933 | a skipped call changes nothing; any other call gives one custom invoke node on the receiver's type with one placeholder per argument |
| Constructs.ValueKeysAreNotDeclaredPorts | cs_to_visual_scripting_converter.py:688-691 | every value connection's destination key starts with `%` and names none of the destination node's declared ports |
| Constructs.ForKeysUndeclared | cs_to_visual_scripting_converter.py:688-691 | `%firstIndex` and `%lastIndex` are not port names of the `For` node |
| Constructs.LogKeyUndeclared | cs_to_visual_scripting_converter.py:777-781 | `%message` is not a port name of the `Debug.Log` invoke node, whose input is named `0` |
| Constructs.IfKeyUndeclared | cs_to_visual_scripting_converter.py:810-814 | `%condition` is not a port name of the `If` node |
| Constructs.AssignKeyUndeclared | cs_to_visual_scripting_converter.py:845-849 | `%input` is not a port name of the `SetVariable` node |
| Constructs.YieldKeyUndeclared | cs_to_visual_scripting_converter.py:879-883 | `%instruction` is not a port name of the `YieldReturn` node |
| Constructs.CallSkippedIff | cs_to_visual_scripting_converter.py:897-904 | a call is skipped exactly when it is `Debug.Log` or some `=` (also one of `==`, `<=`, `>=`, `!=`) lies in the 20 characters before it with no line break in between |
| Constructs.EqualsBeforeSkips | cs_to_visual_scripting_converter.py:902-904 | an `=` at most 20 characters before a call on the same line skips the call |
| Constructs.LastLineEqualsFound | cs_to_visual_scripting_converter.py:903 | an `=` on the last line of the look-back is an `=` with no line break after it |
| Constructs.LastLineEqualsKept | cs_to_visual_scripting_converter.py:903 | an `=` with no line break after it is on the last line of the look-back |
| Constructs.FirstOpMissing | cs_to_visual_scripting_converter.py:804-807 | the operator search finds nothing when no operator's first character occurs |
| Constructs.FirstOpFound | cs_to_visual_scripting_converter.py:839-842 | the search finds the k-th operator when it occurs and no earlier one can |
| Scenarios.LoopBoundDigits | cs_to_visual_scripting_converter.py:674-677 | `0`, ` 5 ` and `12` are read as 0, 5 and 12 |
| Scenarios.LoopBoundFallback | cs_to_visual_scripting_converter.py:674-677 | `-1`, `count` and the empty text fall back to 0 for a start and 10 for an end |
| Scenarios.ComparisonGreater | cs_to_visual_scripting_converter.py:803-807 | `x > 3` gets the `>` comparison |
| Scenarios.ComparisonLessOrEqual | cs_to_visual_scripting_converter.py:803-807 | `a <= b` gets `<=`, not `<` |
| Scenarios.ComparisonNone | cs_to_visual_scripting_converter.py:803-807 | a bare flag gets no comparison node |
| Scenarios.ArithmeticMinus | cs_to_visual_scripting_converter.py:838-842 | `a - b * c` gets `-`, which comes before `*` in the operator list |
| Scenarios.ArithmeticQuoted | cs_to_visual_scripting_converter.py:838-842 | a quoted value gets no arithmetic node even when it holds `+` |
| Scenarios.ArithmeticNone | cs_to_visual_scripting_converter.py:838-842 | a plain name gets no arithmetic node |
| Scenarios.LogExamples | cs_to_visual_scripting_converter.py:773-775 | `"hello"` gives a string literal `hello` into `%message`; a variable argument gives none |
| Scenarios.CallAfterEqualitySkipped | cs_to_visual_scripting_converter.py:902-904 | the call in `if (a == b.Go())` is skipped because of the `=` of `==` |
| Scenarios.CallOnOwnLineKept | cs_to_visual_scripting_converter.py:902-904 | a call on its own line after `x = 1;` is kept |
| Scenarios.SwitchWithoutInnerBraces | cs_to_visual_scripting_converter.py:737-742 | `switch(k){case 1:}` gets a switch node with no case output, because the scan starts after the switch's own `{` |

## Left out

- Regular expressions. The declaration patterns (`_extract_methods`, lines 177-219) and
  the nine construct patterns of `_process_method` are not modelled. Their matches are
  inputs: a `MethodMatch` per declaration and one record of capture groups per construct
  match, in the order `re.finditer` yields them. So the model takes the matches as given, not
  the patterns.
- The `case\s+\d+:` count in a switch is modelled by a small recogniser, not by the regex
  engine. Its `\s` is Python's whitespace (`Text.IsSpace`, the full `str.isspace` set);
  its `\d` is the ASCII digits only.
- `_parse`, `_extract_fields` and the class-name search (lines 141-175) fill `fields`
  and `class_name`. The class name is an input of `GenerateGraph`. Fields and the
  `Variable` class are never used by the core, so they are not part of this model.
- `uuid.uuid4()` and `abs(hash(guid)) % 10000`. The model uses one counter shared by nodes
  and connections, and `$id` is its decimal text. So `$id` values are distinct, while the
  original's can collide: two different guids can hash to the same value modulo 10000.
- `float`. Positions are whole numbers, which are exact for 250/150 steps.
  `float(yield_args)` is abstracted to the capture field `argsIsNumber`, whether the text
  parses. The seconds are kept as the stripped text (`JNum`).
- `isdigit`, `int` and the regex `\d` are restricted to the ASCII digits; `isspace` and
  `strip` use Python's full whitespace set. Non-ASCII digits are not modelled. For a loop
  bound such as `"٣"` (Arabic-Indic three) the original reads 3, and for `"²"`
  (superscript two), which `isdigit` accepts, `int` at lines 674 and 677 raises
  `ValueError`; the model returns the default 0 or 10 for both. A case label written with
  non-ASCII digits is counted by the original and not by the model.
- `json.dumps`, `convert`, `convert_file`, `main` and the command line (lines 957-1054) are
  I/O around the core and are not part of this model. The graph is returned as a `Json`
  value.
- Generator.VisualScriptingGenerator.ProcessMethod: the original compares
  `last_node == event_node` with dataclass equality. The model compares ids, which is
  the same here, since two nodes built by the generator never share a guid.
