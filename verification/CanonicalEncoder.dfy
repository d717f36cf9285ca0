/** The recursive encoder over a heap of lists and dicts: the path-scoped `seen` set, its faults,
    and the tree that it prints. */
module CanonicalEncoder {
  import opened Options
  import opened Utf16
  import opened KeyOrder
  import opened Numbers
  import opened Strings
  import opened CanonicalText

  type Id = nat

  /** A Python value as the encoder meets it; `At` is a list or a dict, by identity. */
  datatype Ref = HNull | HBool(b: bool) | HNum(n: Number) | HStr(t: Text) | HOther | At(id: Id)

  datatype Key = StrKey(t: Text) | OtherKey

  /** `vals` holds the values of the string keys. */
  datatype Node = ListNode(items: seq<Ref>) | DictNode(keys: seq<Key>, vals: map<Text, Ref>)

  type Heap = map<Id, Node>
  type ToFloat = int -> Option<Double>

  ghost predicate RefOk(h: Heap, r: Ref) { r.At? ==> r.id in h }

  /** References stay inside the heap, and a dict lists each string key exactly once. */
  ghost predicate Closed(h: Heap) {
    forall id :: id in h ==> NodeClosed(h, h[id])
  }

  ghost predicate NodeClosed(h: Heap, n: Node) {
    match n
    case ListNode(items) => forall i :: 0 <= i < |items| ==> RefOk(h, items[i])
    case DictNode(keys, vals) =>
      && Distinct(StrKeys(keys))
      && (forall k :: k in StrKeys(keys) <==> k in vals)
      && (forall k :: k in vals ==> RefOk(h, vals[k]))
  }

  function StrKeys(keys: seq<Key>): (names: seq<Text>)
    ensures |names| <= |keys|
  {
    if keys == [] then []
    else (if keys[0].StrKey? then [keys[0].t] else []) + StrKeys(keys[1..])
  }

  function Ascii(s: string): Text { seq(|s|, i requires 0 <= i < |s| => s[i] as int) }

  const FORBIDDEN_KEYS: set<Text> := {Ascii("__proto__"), Ascii("constructor"), Ascii("prototype")}

  datatype Step = Index(i: nat) | Member(key: Text)
  type Path = seq<Step>

  datatype Code = NonFinite | UnsupportedType | Cycle | ForbiddenKey
  datatype Fault = Fault(code: Code, path: Path)
  datatype Result = Ok(text: Text) | Err(fault: Fault)

  // ---- what `_encode` appends, or the fault it raises ----

  ghost function Enc(h: Heap, fl: ToFloat, sort: bool, v: Ref, path: Path, seen: set<Id>): Result
    requires Closed(h) && RefOk(h, v)
    decreases h.Keys - seen, 0
  {
    match v
    case HNull => Ok(NULL_TEXT)
    case HBool(b) => Ok(if b then TRUE_TEXT else FALSE_TEXT)
    case HNum(n) =>
      if JsNumber(n, fl).Some? then Ok(JsNumber(n, fl).value) else Err(Fault(Code.NonFinite, path))
    case HStr(t) => Ok(JsString(t))
    case HOther => Err(Fault(UnsupportedType, path))
    case At(id) =>
      if id in seen then Err(Fault(Cycle, path)) else
      var inner := seen + {id};
      assert h.Keys - inner < h.Keys - seen by { assert id in h.Keys - seen && id !in h.Keys - inner; }
      match h[id]
      case ListNode(items) =>
        Wrap(LBRACKET, EncItems(h, fl, sort, items, 0, path, inner), RBRACKET)
      case DictNode(keys, vals) => EncDict(h, fl, sort, keys, vals, path, inner)
  }

  predicate AllStr(keys: seq<Key>) { forall i :: 0 <= i < |keys| ==> keys[i].StrKey? }

  ghost function EncDict(h: Heap, fl: ToFloat, sort: bool, keys: seq<Key>, vals: map<Text, Ref>, path: Path, seen: set<Id>): Result
    requires Closed(h) && NodeClosed(h, DictNode(keys, vals))
    decreases h.Keys - seen, 3 + |keys|
  {
    if !AllStr(keys) then Err(Fault(UnsupportedType, path)) else
    DictOrderMembers(keys, sort);
    DictOrderLength(keys, sort);
    Wrap(LBRACE, EncFields(h, fl, sort, DictOrder(keys, sort), 0, vals, path, seen), RBRACE)
  }

  lemma DictOrderLength(keys: seq<Key>, sort: bool)
    ensures |DictOrder(keys, sort)| <= |keys|
  {
  }

  function DictOrder(keys: seq<Key>, sort: bool): seq<Text> {
    if sort then Sort(StrKeys(keys)) else StrKeys(keys)
  }

  lemma DictOrderMembers(keys: seq<Key>, sort: bool)
    ensures forall k :: k in DictOrder(keys, sort) <==> k in StrKeys(keys)
  {
    SameMembers(StrKeys(keys), Sort(StrKeys(keys)));
  }

  function Wrap(open: CodePoint, r: Result, close: CodePoint): Result {
    match r
    case Ok(t) => Ok([open] + t + [close])
    case Err(f) => Err(f)
  }

  /** Concatenation that stops at the first fault. */
  function Then(t: Text, r: Result): Result {
    match r
    case Ok(u) => Ok(t + u)
    case Err(f) => Err(f)
  }

  function Comma(i: nat): Text { if i > 0 then [COMMA] else [] }

  ghost function EncItems(h: Heap, fl: ToFloat, sort: bool, items: seq<Ref>, i: nat, path: Path, seen: set<Id>): Result
    requires Closed(h) && i <= |items|
    requires forall j :: 0 <= j < |items| ==> RefOk(h, items[j])
    decreases h.Keys - seen, 1 + |items| - i
  {
    if i == |items| then Ok([])
    else match Enc(h, fl, sort, items[i], path + [Index(i)], seen)
      case Err(f) => Err(f)
      case Ok(t) => Then(Comma(i) + t, EncItems(h, fl, sort, items, i + 1, path, seen))
  }

  ghost function EncFields(h: Heap, fl: ToFloat, sort: bool, names: seq<Text>, i: nat, vals: map<Text, Ref>,
                           path: Path, seen: set<Id>): Result
    requires Closed(h) && i <= |names|
    requires forall k :: k in names ==> k in vals
    requires forall k :: k in vals ==> RefOk(h, vals[k])
    decreases h.Keys - seen, 1 + |names| - i
  {
    if i == |names| then Ok([])
    else if names[i] in FORBIDDEN_KEYS then Err(Fault(ForbiddenKey, path + [Member(names[i])]))
    else match Enc(h, fl, sort, vals[names[i]], path + [Member(names[i])], seen)
      case Err(f) => Err(f)
      case Ok(t) =>
        Then(Comma(i) + JsString(names[i]) + [COLON] + t,
             EncFields(h, fl, sort, names, i + 1, vals, path, seen))
  }

  // ---- the encoder as the source runs it ----

  /** Starting from the text `before`, a call that did what `r` says ends with this fault (None: it
      returned normally) and this text. */
  ghost predicate Ran(before: Text, r: Result, fault: Option<Fault>, after: Text) {
    match r
    case Ok(t) => fault.None? && after == before + t
    case Err(f) => fault == Some(f)
  }

  /** A loop over `whole`, begun at `before`, has reached `now` and still has `rest` to do. */
  ghost predicate Remains(before: Text, whole: Result, now: Text, rest: Result) {
    match rest
    case Ok(t) => whole.Ok? && before + whole.text == now + t
    case Err(f) => whole == rest
  }

  lemma RemainsStep(before: Text, whole: Result, now: Text, t: Text, rest: Result)
    requires Remains(before, whole, now, Then(t, rest))
    ensures Remains(before, whole, now + t, rest)
  {
    if rest.Ok? { Assoc(now, t, rest.text); }
  }

  lemma RemainsDone(before: Text, whole: Result, now: Text)
    requires Remains(before, whole, now, Ok([]))
    ensures whole.Ok? && before + whole.text == now
  {
    assert now + [] == now;
  }

  lemma Wrapped(before: Text, open: CodePoint, t: Text, close: CodePoint)
    ensures before + [open] + t + [close] == before + ([open] + t + [close])
  {
  }

  lemma Assoc4(a: Text, b: Text, c: Text, d: Text, e: Text)
    ensures a + b + c + d + e == a + (b + c + d + e)
  {
  }

  class Encoder {
    const heap: Heap
    const toFloat: ToFloat
    const sortKeys: bool
    var seen: set<Id>
    var out: seq<Text>

    constructor (heap: Heap, toFloat: ToFloat, sortKeys: bool)
      ensures this.heap == heap && this.toFloat == toFloat && this.sortKeys == sortKeys
      ensures seen == {} && out == []
    {
      this.heap := heap;
      this.toFloat := toFloat;
      this.sortKeys := sortKeys;
      seen := {};
      out := [];
    }

    method Emit(t: Text)
      modifies this`out
      ensures Join(out) == Join(old(out)) + t
    {
      JoinSnoc(out, t);
      out := out + [t];
    }

    /** `_encode`: it terminates on every heap, restores `seen` on every exit, and appends exactly
        the specified text or raises exactly the specified fault. */
    method Encode(v: Ref, path: Path) returns (fault: Option<Fault>)
      requires Closed(heap) && RefOk(heap, v)
      modifies this
      ensures seen == old(seen)
      ensures Ran(Join(old(out)), Enc(heap, toFloat, sortKeys, v, path, seen), fault, Join(out))
      decreases heap.Keys - seen, 0
    {
      fault := None;
      match v
      case HNull => Emit(NULL_TEXT);
      case HBool(b) => Emit(if b then TRUE_TEXT else FALSE_TEXT);
      case HNum(n) =>
        var text := JsNumber(n, toFloat);
        if text.None? { return Some(Fault(Code.NonFinite, path)); }
        Emit(text.value);
      case HStr(t) =>
        var parts := JsStringParts(t);
        Emit(Join(parts));
      case HOther => fault := Some(Fault(UnsupportedType, path));
      case At(marker) =>
        if marker in seen { return Some(Fault(Cycle, path)); }
        assert marker in heap.Keys - seen && marker !in heap.Keys - (seen + {marker});
        seen := seen + {marker};
        match heap[marker] {
          case ListNode(items) => fault := EncodeList(items, path);
          case DictNode(keys, vals) => fault := EncodeDict(keys, vals, path);
        }
        seen := seen - {marker};
        assert seen == old(seen);
    }

    method EncodeList(items: seq<Ref>, path: Path) returns (fault: Option<Fault>)
      requires Closed(heap)
      requires forall j :: 0 <= j < |items| ==> RefOk(heap, items[j])
      modifies this
      ensures seen == old(seen)
      ensures Ran(Join(old(out)), Wrap(LBRACKET, EncItems(heap, toFloat, sortKeys, items, 0, path, seen), RBRACKET),
                  fault, Join(out))
      decreases heap.Keys - seen, 2 + |items|
    {
      ghost var whole := EncItems(heap, toFloat, sortKeys, items, 0, path, seen);
      Emit([LBRACKET]);
      ghost var before := Join(out);
      for index := 0 to |items|
        invariant seen == old(seen)
        invariant Remains(before, whole, Join(out), EncItems(heap, toFloat, sortKeys, items, index, path, seen))
      {
        ghost var now := Join(out);
        EmitComma(index);
        fault := Encode(items[index], path + [Index(index)]);
        if fault.Some? { return; }
        ghost var t := Enc(heap, toFloat, sortKeys, items[index], path + [Index(index)], seen).text;
        Assoc(now, Comma(index), t);
        RemainsStep(before, whole, now, Comma(index) + t,
                    EncItems(heap, toFloat, sortKeys, items, index + 1, path, seen));
      }
      RemainsDone(before, whole, Join(out));
      Emit([RBRACKET]);
      Wrapped(Join(old(out)), LBRACKET, whole.text, RBRACKET);
      fault := None;
    }

    method EmitComma(index: nat)
      modifies this`out
      ensures Join(out) == Join(old(out)) + Comma(index)
    {
      if index > 0 {
        Emit([COMMA]);
      } else {
        assert Join(out) + [] == Join(out);
      }
    }

    method CheckKeys(keys: seq<Key>) returns (ok: bool)
      ensures ok <==> AllStr(keys)
    {
      for i := 0 to |keys|
        invariant forall j :: 0 <= j < i ==> keys[j].StrKey?
      {
        if keys[i].OtherKey? { return false; }
      }
      return true;
    }

    method EncodeDict(keys: seq<Key>, vals: map<Text, Ref>, path: Path) returns (fault: Option<Fault>)
      requires Closed(heap) && NodeClosed(heap, DictNode(keys, vals))
      modifies this
      ensures seen == old(seen)
      ensures Ran(Join(old(out)), EncDict(heap, toFloat, sortKeys, keys, vals, path, seen), fault, Join(out))
      decreases heap.Keys - seen, 3 + |keys|
    {
      var ok := CheckKeys(keys);
      if !ok { return Some(Fault(UnsupportedType, path)); }
      DictOrderMembers(keys, sortKeys);
      fault := EncodeFields(DictOrder(keys, sortKeys), vals, path);
    }

    method EncodeFields(names: seq<Text>, vals: map<Text, Ref>, path: Path) returns (fault: Option<Fault>)
      requires Closed(heap)
      requires forall k :: k in names ==> k in vals
      requires forall k :: k in vals ==> RefOk(heap, vals[k])
      modifies this
      ensures seen == old(seen)
      ensures Ran(Join(old(out)), Wrap(LBRACE, EncFields(heap, toFloat, sortKeys, names, 0, vals, path, seen), RBRACE),
                  fault, Join(out))
      decreases heap.Keys - seen, 2
    {
      ghost var whole := EncFields(heap, toFloat, sortKeys, names, 0, vals, path, seen);
      Emit([LBRACE]);
      ghost var before := Join(out);
      for i := 0 to |names|
        invariant seen == old(seen)
        invariant Remains(before, whole, Join(out), EncFields(heap, toFloat, sortKeys, names, i, vals, path, seen))
      {
        var key := names[i];
        if key in FORBIDDEN_KEYS { return Some(Fault(ForbiddenKey, path + [Member(key)])); }
        ghost var now := Join(out);
        EmitComma(i);
        Emit(JsString(key));
        Emit([COLON]);
        fault := Encode(vals[key], path + [Member(key)]);
        if fault.Some? { return; }
        ghost var t := Enc(heap, toFloat, sortKeys, vals[key], path + [Member(key)], seen).text;
        Assoc4(now, Comma(i), JsString(key), [COLON], t);
        RemainsStep(before, whole, now, Comma(i) + JsString(key) + [COLON] + t,
                    EncFields(heap, toFloat, sortKeys, names, i + 1, vals, path, seen));
      }
      RemainsDone(before, whole, Join(out));
      Emit([RBRACE]);
      Wrapped(Join(old(out)), LBRACE, whole.text, RBRACE);
      fault := None;
    }
  }

  /** `canonical_json_stringify` (sort = true) and `js_json_stringify` (sort = false). */
  method Stringify(heap: Heap, toFloat: ToFloat, sort: bool, v: Ref) returns (r: Result)
    requires Closed(heap) && RefOk(heap, v)
    ensures r == Enc(heap, toFloat, sort, v, [], {})
  {
    var encoder := new Encoder(heap, toFloat, sort);
    var fault := encoder.Encode(v, []);
    if fault.Some? { return Err(fault.value); }
    return Ok(Join(encoder.out));
  }
}
