/** The graph vocabulary of the converter: ports, nodes (units), connections and the
    dictionary projections `Node.to_dict` and `Connection.to_dict`. */
module Graph {
  import opened Wrappers
  import opened Text
  import Parser

  datatype PortKind = ControlInput | ControlOutput | ValueInput | ValueOutput

  /** A port: its name, its kind and the optional type identifier. (No builder gives a port
      a default value, so that field is not kept.) */
  datatype Port = Port(name: string, kind: PortKind, dataType: Option<string>)

  datatype Category = EventCat | FlowCat | DataCat | InvokeCat | GetMemberCat
                    | SetMemberCat | VariableCat | OperatorCat

  /** The dictionary/list/scalar values the projection produces. `JNum` carries the text of
      a number parsed with Python's `float`, which is not modelled. */
  datatype Json = JNull | JBool(b: bool) | JInt(i: int) | JStr(s: string) | JNum(text: string)
                | JArr(items: seq<Json>) | JObj(fields: seq<(string, Json)>)

  datatype Pos = Pos(x: int, y: int)

  /** The member descriptor of an invoke node; `parameterNames` is absent for the nodes
      made by `_create_invoke_node` and present for those of `_create_custom_invoke_node`. */
  datatype MemberInfo = MemberInfo(name: string, parameterTypes: seq<string>,
                                   targetType: string, parameterNames: Option<seq<string>>)
  {
    function ToJson(): Json {
      JObj([("name", JStr(name)),
            ("parameterTypes", JArr(StrList(parameterTypes))),
            ("targetType", JStr(targetType)),
            ("targetTypeName", JStr(targetType))]
           + (match parameterNames
              case Some(ns) => [("parameterNames", JArr(StrList(ns)))]
              case None => [])
           + [("$version", JStr("A"))])
    }
  }

  function StrList(ss: seq<string>): (r: seq<Json>)
    ensures |r| == |ss|
  {
    seq(|ss|, i requires 0 <= i < |ss| => JStr(ss[i]))
  }

  /** The first value stored under `key`, as Python's `dict.get`. */
  function Lookup(fields: seq<(string, Json)>, key: string): Option<Json> {
    if |fields| == 0 then None
    else if fields[0].0 == key then Some(fields[0].1)
    else Lookup(fields[1..], key)
  }

  function Keys(fields: seq<(string, Json)>): seq<string> {
    seq(|fields|, i requires 0 <= i < |fields| => fields[i].0)
  }

  const LiteralType := "Unity.VisualScripting.Literal"

  /** The text the projection writes for a node's `$id` and for a connection's `$ref`. The
      original reduces a random guid with `abs(hash(guid)) % 10000`; here the guid is a
      counter and its decimal text is used, so two nodes never share an id. */
  function IdText(guid: nat): string {
    NatToString(guid)
  }

  /** One `_create_*_node` call, with its arguments. */
  datatype Template =
    | TEvent(eventName: string)
    | TInvoke(member: string, targetType: string, params: seq<Parser.Param>, returnType: Option<string>)
    | TLiteral(value: Json, valueType: string)
    | TIf | TFor | TWhile | TForEach(collectionType: string) | TSwitch(cases: nat)
    | TArithmetic(op: string) | TComparison(op: string)
    | TYieldReturn | TWaitForSeconds(seconds: Json)
    | TCustomInvoke(member: string, targetType: string, params: seq<Parser.Param>,
                    returnType: Option<string>, isStatic: bool)
    | TSetVariable(name: string, varType: string) | TGetVariable(name: string, varType: string)

  /** A node (unit): the guid and position drawn for it, the builder call that made it, and
      the description attached later. No code changes a node's type, category, ports,
      default values or member descriptor after the builder returns, so the model keeps
      the builder call and derives those fields from it (`Builders.Content`). */
  datatype Node = Node(guid: nat, position: Pos, kind: Template, description: Option<string>)

  /** The fields a builder decides. */
  datatype NodeContent = NodeContent(nodeType: string, category: Category, ports: seq<Port>,
                                     defaultValues: seq<(string, Json)>, member: Option<MemberInfo>)

  /** `Node.to_dict`, from a node's guid, position, builder fields and description. */
  function NodeDict(guid: nat, position: Pos, c: NodeContent, description: Option<string>): Json {
    JObj(BaseFields(guid, position, c) + SummaryFields(description) + MemberFields(c) + LiteralFields(c))
  }

  function BaseFields(guid: nat, position: Pos, c: NodeContent): seq<(string, Json)> {
    [("guid", JStr(IdText(guid))),
     ("$type", JStr(c.nodeType)),
     ("$version", JStr("A")),
     ("$id", JStr(IdText(guid))),
     ("position", JObj([("x", JInt(position.x)), ("y", JInt(position.y))])),
     ("defaultValues", JObj(c.defaultValues))]
  }

  /** `summary` is written only for a non-empty description (Python truthiness). */
  function SummaryFields(description: Option<string>): seq<(string, Json)> {
    if description.Some? && description.value != "" then [("summary", JStr(description.value))] else []
  }

  function MemberFields(c: NodeContent): seq<(string, Json)> {
    match c.member
    case Some(m) => [("member", m.ToJson()), ("chainable", JBool(false)),
                     ("parameterNames", JArr(StrList(m.parameterNames.GetOr([]))))]
    case None => []
  }

  function LiteralFields(c: NodeContent): seq<(string, Json)> {
    if c.nodeType == LiteralType && Lookup(c.defaultValues, "type").Some? then
      [("type", Lookup(c.defaultValues, "type").value),
       ("value", Lookup(c.defaultValues, "value").GetOr(
                   JObj([("$content", JNull), ("$type", JStr("System.Object"))])))]
    else []
  }

  /** A connection between two nodes, naming them by guid. */
  datatype Connection = Connection(guid: nat, sourceUnit: nat, sourceKey: string,
                                   destinationUnit: nat, destinationKey: string,
                                   isControl: bool)
  {
    function TypeName(): string {
      if isControl then "Unity.VisualScripting.ControlConnection"
      else "Unity.VisualScripting.ValueConnection"
    }

    /** `Connection.to_dict`. */
    function ToDict(): Json {
      JObj([("guid", JStr(IdText(guid))),
            ("$type", JStr(TypeName())),
            ("sourceUnit", JObj([("$ref", JStr(IdText(sourceUnit)))])),
            ("sourceKey", JStr(sourceKey)),
            ("destinationUnit", JObj([("$ref", JStr(IdText(destinationUnit)))])),
            ("destinationKey", JStr(destinationKey))])
    }
  }

  /** The value under `key` of a dictionary, or nothing when `j` is not a dictionary. */
  function Field(j: Json, key: string): Option<Json> {
    if j.JObj? then Lookup(j.fields, key) else None
  }

  /** The id a node dictionary carries under `$id`. */
  function DictId(j: Json): Option<Json> {
    Field(j, "$id")
  }

  /** The id a connection dictionary names under `end`ʼs `$ref` (`end` is `sourceUnit` or
      `destinationUnit`). */
  function DictRef(j: Json, end: string): Option<Json> {
    match Field(j, end)
    case Some(u) => Field(u, "$ref")
    case None => None
  }

  predicate DistinctKeys(fields: seq<(string, Json)>) {
    forall i, j :: 0 <= i < j < |fields| ==> fields[i].0 != fields[j].0
  }

  lemma {:induction false} LookupFound(fields: seq<(string, Json)>, k: nat)
    requires DistinctKeys(fields) && k < |fields|
    ensures Lookup(fields, fields[k].0) == Some(fields[k].1)
  {
    if k > 0 {
      LookupFound(fields[1..], k - 1);
    }
  }

  lemma {:induction false} LookupMissing(fields: seq<(string, Json)>, key: string)
    requires forall i :: 0 <= i < |fields| ==> fields[i].0 != key
    ensures Lookup(fields, key) == None
  {
    if |fields| > 0 {
      LookupMissing(fields[1..], key);
    }
  }

  lemma {:induction false} LookupConcat(a: seq<(string, Json)>, b: seq<(string, Json)>, key: string)
    ensures Lookup(a + b, key) == if Lookup(a, key).Some? then Lookup(a, key) else Lookup(b, key)
  {
    if |a| > 0 {
      assert (a + b)[1..] == a[1..] + b;
      LookupConcat(a[1..], b, key);
    } else {
      assert a + b == b;
    }
  }

  lemma DistinctConcat(a: seq<(string, Json)>, b: seq<(string, Json)>)
    requires DistinctKeys(a) && DistinctKeys(b)
    requires forall i, j :: 0 <= i < |a| && 0 <= j < |b| ==> a[i].0 != b[j].0
    ensures DistinctKeys(a + b)
  {
    forall i, j | 0 <= i < j < |a + b| ensures (a + b)[i].0 != (a + b)[j].0 {
      if j < |a| {
      } else if i >= |a| {
        assert (a + b)[i] == b[i - |a|] && (a + b)[j] == b[j - |a|];
      } else {
        assert (a + b)[j] == b[j - |a|];
      }
    }
  }

  /** A key is looked up in the four parts of a node dictionary in order. */
  lemma NodeLookup(guid: nat, position: Pos, c: NodeContent, d: Option<string>, key: string)
    ensures var b, s, m, l := BaseFields(guid, position, c), SummaryFields(d), MemberFields(c), LiteralFields(c);
            Field(NodeDict(guid, position, c, d), key) ==
              if Lookup(b, key).Some? then Lookup(b, key)
              else if Lookup(s, key).Some? then Lookup(s, key)
              else if Lookup(m, key).Some? then Lookup(m, key)
              else Lookup(l, key)
  {
    var b, s, m, l := BaseFields(guid, position, c), SummaryFields(d), MemberFields(c), LiteralFields(c);
    LookupConcat(b + s + m, l, key);
    LookupConcat(b + s, m, key);
    LookupConcat(b, s, key);
  }

  lemma NodeDictDistinct(guid: nat, position: Pos, c: NodeContent, d: Option<string>)
    ensures var j := NodeDict(guid, position, c, d); j.JObj? && DistinctKeys(j.fields)
  {
    var b, s, m, l := BaseFields(guid, position, c), SummaryFields(d), MemberFields(c), LiteralFields(c);
    assert DistinctKeys(b);
    DistinctConcat(b, s);
    assert forall i :: 0 <= i < |b + s| ==> (b + s)[i].0 in ["guid", "$type", "$version", "$id", "position", "defaultValues", "summary"];
    DistinctConcat(b + s, m);
    assert forall i :: 0 <= i < |b + s + m| ==> (b + s + m)[i].0 in ["guid", "$type", "$version", "$id", "position", "defaultValues", "summary", "member", "chainable", "parameterNames"];
    DistinctConcat(b + s + m, l);
  }

  /** What `Node.to_dict` promises: a dictionary with distinct keys whose `$id` is the
      node's id text and whose `$type` is its type; a `summary` exactly when the node has a
      non-empty description; `member` and `chainable` exactly when it has a member
      descriptor. */
  lemma NodeDictShape(guid: nat, position: Pos, c: NodeContent, d: Option<string>)
    ensures var j := NodeDict(guid, position, c, d); j.JObj? && DistinctKeys(j.fields)
    ensures DictId(NodeDict(guid, position, c, d)) == Some(JStr(IdText(guid)))
    ensures Field(NodeDict(guid, position, c, d), "$type") == Some(JStr(c.nodeType))
    ensures Field(NodeDict(guid, position, c, d), "summary") ==
            (if d.Some? && d.value != "" then Some(JStr(d.value)) else None)
    ensures Field(NodeDict(guid, position, c, d), "member").Some? <==> c.member.Some?
    ensures Field(NodeDict(guid, position, c, d), "chainable").Some? <==> c.member.Some?
  {
    NodeDictDistinct(guid, position, c, d);
    var b, s, m, l := BaseFields(guid, position, c), SummaryFields(d), MemberFields(c), LiteralFields(c);
    NodeLookup(guid, position, c, d, "$id");
    NodeLookup(guid, position, c, d, "$type");
    NodeLookup(guid, position, c, d, "summary");
    NodeLookup(guid, position, c, d, "member");
    NodeLookup(guid, position, c, d, "chainable");
    LookupFound(b, 1);
    LookupFound(b, 3);
    LookupMissing(b, "summary");
    LookupMissing(b, "member");
    LookupMissing(b, "chainable");
    LookupMissing(s, "member");
    LookupMissing(s, "chainable");
    LookupMissing(m, "summary");
    LookupMissing(l, "summary");
    LookupMissing(l, "member");
    LookupMissing(l, "chainable");
  }

  /** What `Connection.to_dict` promises: the `$ref` of each end is that end's id text, and
      the `$type` names a control connection exactly when the connection is one. */
  lemma ConnectionDictShape(c: Connection)
    ensures DictRef(c.ToDict(), "sourceUnit") == Some(JStr(IdText(c.sourceUnit)))
    ensures DictRef(c.ToDict(), "destinationUnit") == Some(JStr(IdText(c.destinationUnit)))
    ensures Field(c.ToDict(), "sourceKey") == Some(JStr(c.sourceKey))
    ensures Field(c.ToDict(), "destinationKey") == Some(JStr(c.destinationKey))
    ensures Field(c.ToDict(), "$type") == Some(JStr("Unity.VisualScripting.ControlConnection")) <==> c.isControl
  {
    var fs := c.ToDict().fields;
    assert DistinctKeys(fs);
    LookupFound(fs, 1);
    LookupFound(fs, 2);
    LookupFound(fs, 3);
    LookupFound(fs, 4);
    LookupFound(fs, 5);
  }

  /** A connection dictionary's reference resolves to a node dictionary exactly when the
      connection names that node: id texts of different guids differ. */
  lemma RefResolvesIff(c: Connection, guid: nat, position: Pos, content: NodeContent, d: Option<string>)
    ensures DictRef(c.ToDict(), "sourceUnit") == DictId(NodeDict(guid, position, content, d)) <==> c.sourceUnit == guid
    ensures DictRef(c.ToDict(), "destinationUnit") == DictId(NodeDict(guid, position, content, d))
            <==> c.destinationUnit == guid
  {
    NodeDictShape(guid, position, content, d);
    ConnectionDictShape(c);
    DigitsValueOfNatToString(c.sourceUnit);
    DigitsValueOfNatToString(c.destinationUnit);
    DigitsValueOfNatToString(guid);
  }
}
