/** The node builders of `VisualScriptingGenerator` (`_create_*_node`) and the event and
    type catalogues they consult: what each builder call puts in a node besides the guid
    and position the generator draws for it. */
module Builders {
  import opened Wrappers
  import opened Text
  import opened Graph
  import opened Parser

  /** `UNITY_EVENTS`: the lifecycle method names that become event nodes. */
  const UnityEvents: map<string, string> := map[
    "Start" := "Unity.VisualScripting.Start",
    "Update" := "Unity.VisualScripting.Update",
    "Awake" := "Unity.VisualScripting.Awake",
    "OnEnable" := "Unity.VisualScripting.OnEnable",
    "OnDisable" := "Unity.VisualScripting.OnDisable",
    "OnDestroy" := "Unity.VisualScripting.OnDestroy",
    "FixedUpdate" := "Unity.VisualScripting.FixedUpdate",
    "LateUpdate" := "Unity.VisualScripting.LateUpdate",
    "OnTriggerEnter" := "Unity.VisualScripting.OnTriggerEnter",
    "OnTriggerExit" := "Unity.VisualScripting.OnTriggerExit",
    "OnTriggerStay" := "Unity.VisualScripting.OnTriggerStay",
    "OnCollisionEnter" := "Unity.VisualScripting.OnCollisionEnter",
    "OnCollisionExit" := "Unity.VisualScripting.OnCollisionExit",
    "OnCollisionStay" := "Unity.VisualScripting.OnCollisionStay"]

  /** `TYPE_MAPPINGS`: short type names and their qualified runtime names. */
  const TypeMappings: map<string, string> := map[
    "int" := "System.Int32",
    "float" := "System.Single",
    "double" := "System.Double",
    "bool" := "System.Boolean",
    "string" := "System.String",
    "Vector2" := "UnityEngine.Vector2",
    "Vector3" := "UnityEngine.Vector3",
    "Quaternion" := "UnityEngine.Quaternion",
    "GameObject" := "UnityEngine.GameObject",
    "Transform" := "UnityEngine.Transform"]

  /** `TYPE_MAPPINGS.get(t, t)`. */
  function MapType(t: string): string {
    if t in TypeMappings then TypeMappings[t] else t
  }

  function Enter(): Port { Port("enter", ControlInput, None) }
  function Exit(): Port { Port("exit", ControlOutput, None) }

  function Plain(nodeType: string, category: Category, ports: seq<Port>,
             defaults: seq<(string, Json)>): NodeContent {
    NodeContent(nodeType, category, ports, defaults, None)
  }

  /** `_create_event_node`: an unknown name falls back to the Start event type. */
  function EventContent(eventName: string): NodeContent {
    var ty := if eventName in UnityEvents then UnityEvents[eventName] else "Unity.VisualScripting.Start";
    Plain(ty, EventCat, [Port("trigger", ControlOutput, None)], [])
  }

  /** A return type other than none, "" or "void" adds a `result` port. */
  predicate ReturnsValue(returnType: Option<string>) {
    returnType.Some? && returnType.value != "" && returnType.value != "void"
  }

  /** `_create_invoke_node`: value inputs named by position, no `parameterNames`. */
  function InvokeContent(member: string, targetType: string,
                         params: seq<Param>, returnType: Option<string>): NodeContent {
    var types := seq(|params|, i requires 0 <= i < |params| => params[i].ty);
    var inputs := seq(|params|, i requires 0 <= i < |params| =>
                        Port(NatToString(i), ValueInput, Some(params[i].ty)));
    var result := if ReturnsValue(returnType) then [Port("result", ValueOutput, returnType)] else [];
    NodeContent("Unity.VisualScripting.InvokeMember", InvokeCat, [Enter(), Exit()] + inputs + result, [],
                Some(MemberInfo(member, types, targetType, None)))
  }

  /** `_create_literal_node`. */
  function LiteralContent(value: Json, valueType: string): NodeContent {
    var mapped := MapType(valueType);
    Plain(LiteralType, DataCat, [Port("output", ValueOutput, Some(mapped))],
          [("type", JStr(mapped)), ("value", JObj([("$content", value), ("$type", JStr(mapped))]))])
  }

  function IfContent(): NodeContent {
    Plain("Unity.VisualScripting.If", FlowCat,
          [Enter(), Port("condition", ValueInput, Some("System.Boolean")),
           Port("true", ControlOutput, None), Port("false", ControlOutput, None)], [])
  }

  function ForContent(): NodeContent {
    Plain("Unity.VisualScripting.For", FlowCat,
          [Enter(), Port("firstIndex", ValueInput, Some("System.Int32")),
           Port("lastIndex", ValueInput, Some("System.Int32")),
           Port("step", ValueInput, Some("System.Int32")),
           Port("body", ControlOutput, None), Exit(),
           Port("currentIndex", ValueOutput, Some("System.Int32"))], [])
  }

  function WhileContent(): NodeContent {
    Plain("Unity.VisualScripting.While", FlowCat,
          [Enter(), Port("condition", ValueInput, Some("System.Boolean")),
           Port("body", ControlOutput, None), Exit()], [])
  }

  function ForEachContent(collectionType: string): NodeContent {
    Plain("Unity.VisualScripting.ForEach", FlowCat,
          [Enter(), Port("collection", ValueInput, Some(collectionType)),
           Port("body", ControlOutput, None), Exit(),
           Port("currentItem", ValueOutput, Some("System.Object"))], [])
  }

  /** `_create_switch_node(n)`: `enter`, `selector`, one control output per case named
      "0" to "n-1", and `default` — n + 3 ports in all. */
  function SwitchContent(cases: nat): (n: NodeContent)
    ensures |n.ports| == cases + 3
    ensures n.ports[0] == Enter() && n.ports[1].name == "selector"
    ensures forall i :: 0 <= i < cases ==> n.ports[i + 2] == Port(NatToString(i), ControlOutput, None)
    ensures n.ports[cases + 2] == Port("default", ControlOutput, None)
  {
    var outs := seq(cases, i requires 0 <= i < cases => Port(NatToString(i), ControlOutput, None));
    Plain("Unity.VisualScripting.SwitchOnInteger", FlowCat,
          [Enter(), Port("selector", ValueInput, Some("System.Int32"))] + outs
          + [Port("default", ControlOutput, None)], [])
  }

  /** The operation table of `_create_arithmetic_node`; an unknown operator is an addition. */
  function ArithmeticType(op: string): string {
    if op == "+" then "Unity.VisualScripting.GenericAdd"
    else if op == "-" then "Unity.VisualScripting.GenericSubtract"
    else if op == "*" then "Unity.VisualScripting.GenericMultiply"
    else if op == "/" then "Unity.VisualScripting.GenericDivide"
    else if op == "%" then "Unity.VisualScripting.GenericModulo"
    else "Unity.VisualScripting.GenericAdd"
  }

  /** The operation table of `_create_comparison_node`; an unknown operator is equality. */
  function ComparisonType(op: string): string {
    if op == "==" then "Unity.VisualScripting.GenericEqual"
    else if op == "!=" then "Unity.VisualScripting.GenericNotEqual"
    else if op == "<" then "Unity.VisualScripting.GenericLess"
    else if op == ">" then "Unity.VisualScripting.GenericGreater"
    else if op == "<=" then "Unity.VisualScripting.GenericLessOrEqual"
    else if op == ">=" then "Unity.VisualScripting.GenericGreaterOrEqual"
    else "Unity.VisualScripting.GenericEqual"
  }

  function ArithmeticContent(op: string): NodeContent {
    Plain(ArithmeticType(op), OperatorCat,
          [Port("a", ValueInput, Some("System.Object")), Port("b", ValueInput, Some("System.Object")),
           Port("result", ValueOutput, Some("System.Object"))], [])
  }

  function ComparisonContent(op: string): NodeContent {
    Plain(ComparisonType(op), OperatorCat,
          [Port("a", ValueInput, Some("System.Object")), Port("b", ValueInput, Some("System.Object")),
           Port("result", ValueOutput, Some("System.Boolean"))], [])
  }

  function YieldReturnContent(): NodeContent {
    Plain("Unity.VisualScripting.YieldReturn", FlowCat,
          [Enter(), Exit(), Port("instruction", ValueInput, Some("UnityEngine.YieldInstruction"))], [])
  }

  function WaitForSecondsContent(seconds: Json): NodeContent {
    Plain("Unity.VisualScripting.WaitForSeconds", DataCat,
          [Port("seconds", ValueInput, Some("System.Single")),
           Port("result", ValueOutput, Some("UnityEngine.WaitForSeconds"))],
          [("seconds", seconds)])
  }

  /** `_create_custom_invoke_node`: mapped parameter types, a `target` input unless static,
      one `%name` input per parameter, and `parameterNames` in the descriptor. */
  function CustomInvokeContent(member: string, targetType: string,
                               params: seq<Param>, returnType: Option<string>, isStatic: bool): NodeContent {
    var types := seq(|params|, i requires 0 <= i < |params| => MapType(params[i].ty));
    var names := seq(|params|, i requires 0 <= i < |params| => params[i].name);
    var target := if isStatic then [] else [Port("target", ValueInput, Some(targetType))];
    var inputs := seq(|params|, i requires 0 <= i < |params| =>
                        Port("%" + params[i].name, ValueInput, Some(MapType(params[i].ty))));
    var result := if ReturnsValue(returnType) then [Port("result", ValueOutput, Some(MapType(returnType.value)))] else [];
    NodeContent("Unity.VisualScripting.InvokeMember", InvokeCat, [Enter(), Exit()] + target + inputs + result, [],
                Some(MemberInfo(member, types, targetType, Some(names))))
  }

  function SetVariableContent(name: string, varType: string): NodeContent {
    Plain("Unity.VisualScripting.SetVariable", VariableCat,
          [Enter(), Exit(), Port("input", ValueInput, Some(varType))], [("name", JStr(name))])
  }

  function GetVariableContent(name: string, varType: string): NodeContent {
    Plain("Unity.VisualScripting.GetVariable", VariableCat,
          [Port("output", ValueOutput, Some(varType))], [("name", JStr(name))])
  }

  /** What the builder call `t` puts in a node. */
  function Content(t: Template): NodeContent {
    match t
    case TEvent(e) => EventContent(e)
    case TInvoke(m, tt, ps, rt) => InvokeContent(m, tt, ps, rt)
    case TLiteral(v, vt) => LiteralContent(v, vt)
    case TIf => IfContent()
    case TFor => ForContent()
    case TWhile => WhileContent()
    case TForEach(ct) => ForEachContent(ct)
    case TSwitch(n) => SwitchContent(n)
    case TArithmetic(op) => ArithmeticContent(op)
    case TComparison(op) => ComparisonContent(op)
    case TYieldReturn => YieldReturnContent()
    case TWaitForSeconds(sec) => WaitForSecondsContent(sec)
    case TCustomInvoke(m, tt, ps, rt, st) => CustomInvokeContent(m, tt, ps, rt, st)
    case TSetVariable(n, vt) => SetVariableContent(n, vt)
    case TGetVariable(n, vt) => GetVariableContent(n, vt)
  }

  /** `Node.to_dict` of a node. */
  function ToDict(n: Node): Json {
    NodeDict(n.guid, n.position, Content(n.kind), n.description)
  }

  /** The node is a statement node: its first port is the control input `enter`. */
  predicate HasEnter(c: NodeContent) {
    |c.ports| > 0 && c.ports[0] == Enter()
  }

  /** The builders whose nodes take part in the control chain. */
  predicate IsStatement(t: Template) {
    t.TInvoke? || t.TIf? || t.TFor? || t.TWhile? || t.TForEach? || t.TSwitch?
    || t.TYieldReturn? || t.TCustomInvoke? || t.TSetVariable?
  }

  /** Exactly the statement builders give a node whose first port is `enter`; event,
      literal, operator, wait and get-variable nodes have none. */
  lemma ContentHasEnterIff(t: Template)
    ensures HasEnter(Content(t)) <==> IsStatement(t)
  {
  }
}
