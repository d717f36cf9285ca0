/** The gates a model's tool call passes before it reaches the wire. */
module BridgeTools {
  import opened Options
  import opened Utf16
  import opened CanonicalEncoder

  datatype JsonType = TString | TBoolean | TObject | TArray | TNumber | TInteger | TNull

  datatype ToolSpec = ToolSpec(
    name: Text,
    allowedArgNames: seq<Text>,
    requiredArgNames: seq<Text>,
    argTypes: seq<(Text, JsonType)>)

  datatype Binding = Binding(taskId: Text, allowed: set<Text>)

  /** One call of a registered handler, as the runtime makes it. */
  datatype HandlerCall = HandlerCall(spec: ToolSpec, args: Ref, taskId: Option<Text>, sessionId: Option<Text>)

  /** The world around the handlers: the heap of Python objects and the payload ceiling. */
  datatype World = World(heap: Heap, toFloat: ToFloat, binding: Binding, maxToolPayloadBytes: nat)

  function Utf8Width(c: CodePoint): nat {
    if c < 0x80 then 1 else if c < 0x800 then 2 else if c < 0x1_0000 then 3 else 4
  }

  function Utf8Length(t: Text): nat {
    if t == [] then 0 else Utf8Width(t[0]) + Utf8Length(t[1..])
  }

  /** `isinstance` against the declared type, with bool kept apart from the numbers. */
  predicate HasType(h: Heap, declared: JsonType, v: Ref) {
    match declared
    case TString => v.HStr?
    case TBoolean => v.HBool?
    case TObject => v.At? && v.id in h && h[v.id].DictNode?
    case TArray => v.At? && v.id in h && h[v.id].ListNode?
    case TNumber => v.HNum?
    case TInteger => v.HNum? && v.n.Int?
    case TNull => v.HNull?
  }

  predicate KeyDeclared(spec: ToolSpec, k: Key) { k.StrKey? && k.t in spec.allowedArgNames }

  predicate ArgTyped(h: Heap, vals: map<Text, Ref>, t: (Text, JsonType)) {
    t.0 in vals ==> HasType(h, t.1, vals[t.0])
  }

  /** What `validate_args` lets through. */
  ghost predicate ArgsAccepted(w: World, spec: ToolSpec, args: Ref)
    requires Closed(w.heap) && RefOk(w.heap, args)
  {
    && args.At? && w.heap[args.id].DictNode?
    && var node := w.heap[args.id];
    && (forall i :: 0 <= i < |node.keys| ==> KeyDeclared(spec, node.keys[i]))
    && (forall i :: 0 <= i < |spec.requiredArgNames| ==> spec.requiredArgNames[i] in node.vals)
    && (forall i :: 0 <= i < |spec.argTypes| ==> ArgTyped(w.heap, node.vals, spec.argTypes[i]))
    && var r := Enc(w.heap, w.toFloat, true, args, [], {});
       r.Ok? && Utf8Length(r.text) <= w.maxToolPayloadBytes
  }

  // ---- what the checks mean, read off the value ----

  /** The declared types that a value satisfies: a bool is no number, a whole float no integer, and what is
      not JSON satisfies none. */
  function TypesOf(h: Heap, v: Ref): set<JsonType> {
    match v
    case HNull => {TNull}
    case HBool(_) => {TBoolean}
    case HNum(Int(_)) => {TNumber, TInteger}
    case HNum(_) => {TNumber}
    case HStr(_) => {TString}
    case HOther => {}
    case At(id) =>
      if id !in h then {}
      else match h[id]
           case ListNode(_) => {TArray}
           case DictNode(_, _) => {TObject}
  }

  /** An accepted argument with a declared type is of that type. */
  lemma AcceptedArgsTyped(w: World, spec: ToolSpec, args: Ref, i: nat)
    requires Closed(w.heap) && RefOk(w.heap, args) && ArgsAccepted(w, spec, args)
    requires i < |spec.argTypes| && spec.argTypes[i].0 in w.heap[args.id].vals
    ensures spec.argTypes[i].1 in TypesOf(w.heap, w.heap[args.id].vals[spec.argTypes[i].0])
  {
    assert ArgTyped(w.heap, w.heap[args.id].vals, spec.argTypes[i]);
  }

  /** Any other dict is refused for a reason: an undeclared key, a missing argument, a value of another type,
      or a text that cannot be made or is too long. */
  lemma RefusedArgs(w: World, spec: ToolSpec, args: Ref)
    requires Closed(w.heap) && RefOk(w.heap, args) && !ArgsAccepted(w, spec, args)
    requires args.At? && w.heap[args.id].DictNode?
    ensures var node, r := w.heap[args.id], Enc(w.heap, w.toFloat, true, args, [], {});
            || (exists i :: 0 <= i < |node.keys| && !(node.keys[i].StrKey? && node.keys[i].t in spec.allowedArgNames))
            || (exists i :: 0 <= i < |spec.requiredArgNames| && spec.requiredArgNames[i] !in node.vals)
            || (exists i :: 0 <= i < |spec.argTypes| && spec.argTypes[i].0 in node.vals
                            && spec.argTypes[i].1 !in TypesOf(w.heap, node.vals[spec.argTypes[i].0]))
            || r.Err?
            || |Utf8(r.text)| > w.maxToolPayloadBytes
  {
    var node, r := w.heap[args.id], Enc(w.heap, w.toFloat, true, args, [], {});
    if r.Ok? { Utf8Size(r.text); }
    if i :| 0 <= i < |spec.argTypes| && !ArgTyped(w.heap, node.vals, spec.argTypes[i]) {
      WrongType(w.heap, node.vals, spec.argTypes[i]);
    } else if i :| 0 <= i < |node.keys| && !KeyDeclared(spec, node.keys[i]) {
      assert !(node.keys[i].StrKey? && node.keys[i].t in spec.allowedArgNames);
    }
  }

  lemma WrongType(h: Heap, vals: map<Text, Ref>, t: (Text, JsonType))
    requires !ArgTyped(h, vals, t)
    ensures t.0 in vals && t.1 !in TypesOf(h, vals[t.0])
  {
  }

  /** The bytes of one code point (section 3 of RFC 3629). */
  function Utf8Of(c: CodePoint): seq<int> {
    if c <= 0x7F then [c]
    else if c <= 0x7FF then [0xC0 + c / 0x40, 0x80 + c % 0x40]
    else if c <= 0xFFFF then [0xE0 + c / 0x1000, 0x80 + c / 0x40 % 0x40, 0x80 + c % 0x40]
    else [0xF0 + c / 0x4_0000, 0x80 + c / 0x1000 % 0x40, 0x80 + c / 0x40 % 0x40, 0x80 + c % 0x40]
  }

  function Utf8(t: Text): seq<int> {
    if t == [] then [] else Utf8Of(t[0]) + Utf8(t[1..])
  }

  /** The size that is compared with the limit is that of the UTF-8 bytes. */
  lemma {:induction false} Utf8Size(t: Text)
    ensures Utf8Length(t) == |Utf8(t)|
  {
    if t != [] { Utf8Size(t[1..]); }
  }

  method ValidateArgs(w: World, spec: ToolSpec, args: Ref) returns (ok: bool)
    requires Closed(w.heap) && RefOk(w.heap, args)
    ensures ok <==> ArgsAccepted(w, spec, args)
  {
    if !args.At? || !w.heap[args.id].DictNode? { return false; }
    var keys, vals := w.heap[args.id].keys, w.heap[args.id].vals;
    for i := 0 to |keys|
      invariant forall j :: 0 <= j < i ==> KeyDeclared(spec, keys[j])
    {
      if !keys[i].StrKey? { return false; }
      if keys[i].t !in spec.allowedArgNames { return false; }
    }
    for i := 0 to |spec.requiredArgNames|
      invariant forall j :: 0 <= j < i ==> spec.requiredArgNames[j] in vals
    {
      if spec.requiredArgNames[i] !in vals { return false; }
    }
    for i := 0 to |spec.argTypes|
      invariant forall j :: 0 <= j < i ==> ArgTyped(w.heap, vals, spec.argTypes[j])
    {
      var (argName, declared) := spec.argTypes[i];
      if argName !in vals { continue; }
      if !HasType(w.heap, declared, vals[argName]) { return false; }
    }
    var r := Stringify(w.heap, w.toFloat, true, args);
    return r.Ok? && Utf8Length(r.text) <= w.maxToolPayloadBytes;
  }

  /** The handler reaches `bridge.invoke` only past all three gates. */
  ghost predicate GatesPass(w: World, call: HandlerCall)
    requires Closed(w.heap) && RefOk(w.heap, call.args)
  {
    && call.taskId == Some(w.binding.taskId)
    && call.spec.name in w.binding.allowed
    && ArgsAccepted(w, call.spec, call.args)
  }

  /** Accepted arguments carry no field that the schema does not declare, and are printable JSON. */
  lemma AcceptedArgsDeclared(w: World, spec: ToolSpec, args: Ref)
    requires Closed(w.heap) && RefOk(w.heap, args) && ArgsAccepted(w, spec, args)
    ensures forall k :: k in w.heap[args.id].vals ==> k in spec.allowedArgNames
  {
    var node := w.heap[args.id];
    assert NodeClosed(w.heap, node);
    forall k | k in node.vals ensures k in spec.allowedArgNames {
      assert k in StrKeys(node.keys);
      StrKeyIsKey(node.keys, k);
      var i :| 0 <= i < |node.keys| && node.keys[i] == StrKey(k);
      assert KeyDeclared(spec, node.keys[i]);
    }
  }

  lemma {:induction false} StrKeyIsKey(keys: seq<Key>, k: Text)
    requires k in StrKeys(keys)
    ensures exists i :: 0 <= i < |keys| && keys[i] == StrKey(k)
  {
    if keys[0] == StrKey(k) {
    } else {
      assert k in StrKeys(keys[1..]);
      StrKeyIsKey(keys[1..], k);
      var i :| 0 <= i < |keys[1..]| && keys[1..][i] == StrKey(k);
      assert keys[i + 1] == StrKey(k);
    }
  }
}
