/** Canonical JSON text of a tree of values, its parser, and what the text identifies. */
module CanonicalText {
  import opened Options
  import opened Utf16
  import opened KeyOrder
  import opened Numbers
  import opened Strings

  /** A JSON value; an object keeps its insertion order in `keys`. */
  datatype Value =
    | Null
    | Bool(b: bool)
    | Num(d: Double)
    | Str(t: Text)
    | Arr(items: seq<Value>)
    | Obj(keys: seq<Text>, vals: map<Text, Value>)

  /** Objects list each of their keys exactly once. */
  ghost predicate Wf(v: Value) {
    match v
    case Arr(items) => forall i :: 0 <= i < |items| ==> Wf(items[i])
    case Obj(keys, vals) =>
      && Distinct(keys)
      && (forall k :: k in keys <==> k in vals)
      && (forall k :: k in vals ==> Wf(vals[k]))
    case _ => true
  }

  const NULL_TEXT: Text := [0x6E, 0x75, 0x6C, 0x6C]
  const TRUE_TEXT: Text := [0x74, 0x72, 0x75, 0x65]
  const FALSE_TEXT: Text := [0x66, 0x61, 0x6C, 0x73, 0x65]
  const COMMA: CodePoint := 0x2C
  const COLON: CodePoint := 0x3A
  const LBRACKET: CodePoint := 0x5B
  const RBRACKET: CodePoint := 0x5D
  const LBRACE: CodePoint := 0x7B
  const RBRACE: CodePoint := 0x7D

  // ---- printing: Put(v, sort, k) is the text of v followed by k ----

  ghost function Put(v: Value, sort: bool, k: Text): Text
    requires Wf(v)
    decreases v, if v.Obj? then |v.keys| + 1 else 0
  {
    match v
    case Null => NULL_TEXT + k
    case Bool(b) => (if b then TRUE_TEXT else FALSE_TEXT) + k
    case Num(d) => FloatText(d) + k
    case Str(t) => PutString(t, k)
    case Arr(items) => [LBRACKET] + PutItems(items, true, sort, [RBRACKET] + k)
    case Obj(keys, vals) =>
      SameMembers(keys, Sort(keys));
      [LBRACE] + PutFields(v, if sort then Sort(keys) else keys, true, sort, [RBRACE] + k)
  }

  ghost function PutItems(items: seq<Value>, first: bool, sort: bool, k: Text): Text
    requires forall i :: 0 <= i < |items| ==> Wf(items[i])
    decreases items, 0
  {
    if items == [] then k
    else if first then Put(items[0], sort, PutItems(items[1..], false, sort, k))
    else [COMMA] + Put(items[0], sort, PutItems(items[1..], false, sort, k))
  }

  ghost function PutFields(v: Value, keys: seq<Text>, first: bool, sort: bool, k: Text): Text
    requires Wf(v) && v.Obj?
    requires forall key :: key in keys ==> key in v.vals
    decreases v, |keys|
  {
    if keys == [] then k
    else
      var rest := PutFields(v, keys[1..], false, sort, k);
      var field := PutString(keys[0], [COLON] + Put(v.vals[keys[0]], sort, rest));
      if first then field else [COMMA] + field
  }

  /** `js_json_stringify` (sort = false) and `canonical_json_stringify` (sort = true). */
  ghost function Print(v: Value, sort: bool): Text
    requires Wf(v)
  {
    Put(v, sort, [])
  }

  // ---- parsing ----

  predicate Starts(s: Text, p: Text) { p <= s }

  function ParseValue(s: Text): (r: Option<(Value, Text)>)
    ensures r.Some? ==> |r.value.1| < |s|
    decreases |s|, 1
  {
    if Starts(s, NULL_TEXT) then Some((Null, s[|NULL_TEXT|..]))
    else if Starts(s, TRUE_TEXT) then Some((Bool(true), s[|TRUE_TEXT|..]))
    else if Starts(s, FALSE_TEXT) then Some((Bool(false), s[|FALSE_TEXT|..]))
    else if s == [] then None
    else if s[0] == QUOTE then
      var (t, rest) :- ReadChars(s[1..]);
      Some((Str(t), rest))
    else if s[0] == LBRACKET then
      if |s| > 1 && s[1] == RBRACKET then Some((Arr([]), s[2..])) else
      var (items, rest) :- ParseItems(s[1..]);
      Some((Arr(items), rest))
    else if s[0] == LBRACE then
      if |s| > 1 && s[1] == RBRACE then Some((Obj([], map[]), s[2..])) else
      var (keys, vals, rest) :- ParseFields(s[1..]);
      Some((Obj(keys, vals), rest))
    else
      var (numeral, rest) :- ReadNumeral(s);
      Some((Num(ToNormal(numeral)), rest))
  }

  /** Items separated by commas up to the closing bracket, which is consumed. */
  function ParseItems(s: Text): (r: Option<(seq<Value>, Text)>)
    ensures r.Some? ==> |r.value.1| < |s|
    decreases |s|, 2
  {
    var (item, s1) :- ParseValue(s);
    if s1 == [] then None
    else if s1[0] == RBRACKET then Some(([item], s1[1..]))
    else if s1[0] == COMMA then
      var (items, rest) :- ParseItems(s1[1..]);
      Some(([item] + items, rest))
    else None
  }

  /** Fields separated by commas up to the closing brace, which is consumed. */
  function ParseFields(s: Text): (r: Option<(seq<Text>, map<Text, Value>, Text)>)
    ensures r.Some? ==> |r.value.2| < |s|
    decreases |s|, 2
  {
    if s == [] || s[0] != QUOTE then None else
    var (key, s1) :- ReadChars(s[1..]);
    if s1 == [] || s1[0] != COLON then None else
    var (val, s2) :- ParseValue(s1[1..]);
    if s2 == [] then None
    else if s2[0] == RBRACE then Some(([key], map[key := val], s2[1..]))
    else if s2[0] == COMMA then
      var (keys, vals, rest) :- ParseFields(s2[1..]);
      Some(([key] + keys, vals[key := val], rest))
    else None
  }

  // ---- the parser inverts the printer ----

  function Restrict(vals: map<Text, Value>, keys: seq<Text>): map<Text, Value> {
    map k | k in vals && k in keys :: vals[k]
  }

  lemma ParseLiteral(p: Text, k: Text)
    ensures Starts(p + k, p) && (p + k)[|p|..] == k
  {
  }

  lemma NoLiteral(s: Text)
    requires s != [] && s[0] !in {NULL_TEXT[0], TRUE_TEXT[0], FALSE_TEXT[0]}
    ensures !Starts(s, NULL_TEXT) && !Starts(s, TRUE_TEXT) && !Starts(s, FALSE_TEXT)
  {
  }

  lemma ParseNumeral(s: Text)
    requires s != [] && (IsDigit(s[0]) || s[0] == MINUS)
    requires ReadNumeral(s).Some?
    ensures ParseValue(s) == Some((Num(ToNormal(ReadNumeral(s).value.0)), ReadNumeral(s).value.1))
  {
    NoLiteral(s);
  }

  lemma FloatTextStart(d: Double, k: Text)
    ensures FloatText(d) != [] && (IsDigit(FloatText(d)[0]) || FloatText(d)[0] == MINUS)
    ensures (FloatText(d) + k)[0] == FloatText(d)[0]
  {
    if d.Fin? { MagnitudeStart(d.digits, d.exp); }
  }

  lemma ParseNumber(d: Double, k: Text)
    requires EndsNumeral(k)
    ensures ParseValue(FloatText(d) + k) == Some((Num(d), k))
  {
    FloatTextStart(d, k);
    ReadFloatText(d, k);
    ParseNumeral(FloatText(d) + k);
  }

  lemma LastItem(s: Text, item: Value, k: Text)
    requires ParseValue(s) == Some((item, [RBRACKET] + k))
    ensures ParseItems(s) == Some(([item], k))
  {
    assert ([RBRACKET] + k)[1..] == k;
  }

  lemma MoreItems(s: Text, item: Value, s2: Text, items: seq<Value>, k: Text)
    requires ParseValue(s) == Some((item, [COMMA] + s2))
    requires ParseItems(s2) == Some((items, k))
    ensures ParseItems(s) == Some(([item] + items, k))
  {
    assert ([COMMA] + s2)[1..] == s2;
  }

  lemma LastField(s: Text, key: Text, s1: Text, val: Value, k: Text)
    requires s != [] && s[0] == QUOTE && ReadChars(s[1..]) == Some((key, [COLON] + s1))
    requires ParseValue(s1) == Some((val, [RBRACE] + k))
    ensures ParseFields(s) == Some(([key], map[key := val], k))
  {
    assert ([COLON] + s1)[1..] == s1 && ([RBRACE] + k)[1..] == k;
  }

  lemma MoreFields(s: Text, key: Text, s1: Text, val: Value, s2: Text, keys: seq<Text>, vals: map<Text, Value>, k: Text)
    requires s != [] && s[0] == QUOTE && ReadChars(s[1..]) == Some((key, [COLON] + s1))
    requires ParseValue(s1) == Some((val, [COMMA] + s2))
    requires ParseFields(s2) == Some((keys, vals, k))
    ensures ParseFields(s) == Some(([key] + keys, vals[key := val], k))
  {
    assert ([COLON] + s1)[1..] == s1 && ([COMMA] + s2)[1..] == s2;
  }

  lemma ParseBool(b: bool, k: Text)
    ensures ParseValue((if b then TRUE_TEXT else FALSE_TEXT) + k) == Some((Bool(b), k))
  {
    var p := if b then TRUE_TEXT else FALSE_TEXT;
    ParseLiteral(p, k);
    assert (p + k)[0] == p[0];
  }

  lemma ParseEmptyArr(k: Text)
    ensures ParseValue(Put(Arr([]), false, k)) == Some((Arr([]), k))
  {
    var s, inner := Put(Arr([]), false, k), [RBRACKET] + k;
    assert s == [LBRACKET] + inner;
    NoLiteral(s);
    assert s[1..] == inner && s[1] == inner[0] && s[2..] == inner[1..] == k;
  }

  lemma ParseFullArr(items: seq<Value>, k: Text)
    requires items != [] && forall i :: 0 <= i < |items| ==> Wf(items[i])
    requires ParseItems(PutItems(items, true, false, [RBRACKET] + k)) == Some((items, k))
    ensures ParseValue(Put(Arr(items), false, k)) == Some((Arr(items), k))
  {
    var inner := PutItems(items, true, false, [RBRACKET] + k);
    var s := Put(Arr(items), false, k);
    PutStart(items[0], PutItems(items[1..], false, false, [RBRACKET] + k));
    assert s == [LBRACKET] + inner;
    NoLiteral(s);
    assert s[1..] == inner && s[1] == inner[0];
  }

  lemma ParseEmptyObj(v: Value, k: Text)
    requires Wf(v) && v.Obj? && v.keys == []
    ensures ParseValue(Put(v, false, k)) == Some((v, k))
  {
    var s, inner := Put(v, false, k), PutFields(v, v.keys, true, false, [RBRACE] + k);
    assert inner == [RBRACE] + k;
    assert s == [LBRACE] + inner;
    NoLiteral(s);
    assert s[1..] == inner && s[1] == inner[0] && s[2..] == inner[1..] == k;
    assert v.vals == map[];
  }

  lemma ParseFullObj(v: Value, k: Text)
    requires Wf(v) && v.Obj? && v.keys != []
    requires ParseFields(PutFields(v, v.keys, true, false, [RBRACE] + k)) == Some((v.keys, Restrict(v.vals, v.keys), k))
    ensures ParseValue(Put(v, false, k)) == Some((v, k))
  {
    var inner := PutFields(v, v.keys, true, false, [RBRACE] + k);
    var s := Put(v, false, k);
    assert s == [LBRACE] + inner && inner[0] == QUOTE;
    NoLiteral(s);
    assert s[1..] == inner && s[1] == inner[0];
    assert Restrict(v.vals, v.keys) == v.vals;
  }

  lemma {:induction false} ParsePut(v: Value, k: Text)
    requires Wf(v) && EndsNumeral(k)
    ensures ParseValue(Put(v, false, k)) == Some((v, k))
    decreases v, if v.Obj? then |v.keys| + 1 else 0
  {
    match v
    case Null => ParseLiteral(NULL_TEXT, k);
    case Bool(b) =>
      ParseBool(b, k);
    case Num(d) => ParseNumber(d, k);
    case Str(t) =>
      NoLiteral(PutString(t, k));
      ReadPutChars(t, k);
      assert PutString(t, k)[1..] == PutChars(t, [QUOTE] + k);
    case Arr(items) =>
      if items == [] {
        ParseEmptyArr(k);
      } else {
        ParsePutItems(items, k);
        ParseFullArr(items, k);
      }
    case Obj(keys, vals) =>
      if keys == [] {
        ParseEmptyObj(v, k);
      } else {
        ParsePutFields(v, keys, k);
        ParseFullObj(v, k);
      }
  }

  /** The text of a value is never empty and never starts with a closing bracket. */
  lemma PutStart(v: Value, k: Text)
    requires Wf(v)
    ensures Put(v, false, k) != [] && Put(v, false, k)[0] != RBRACKET
  {
    match v
    case Num(d) => FloatStart(d, k);
    case Str(t) => assert PutString(t, k)[0] == QUOTE;
    case Arr(items) => assert Put(v, false, k)[0] == LBRACKET;
    case Obj(keys, _) => assert Put(v, false, k)[0] == LBRACE;
    case _ =>
  }

  lemma FloatStart(d: Double, k: Text)
    ensures FloatText(d) + k != [] && (FloatText(d) + k)[0] != RBRACKET
  {
    if d.Fin? { MagnitudeStart(d.digits, d.exp); }
  }

  lemma {:induction false} ParsePutItems(items: seq<Value>, k: Text)
    requires items != []
    requires forall i :: 0 <= i < |items| ==> Wf(items[i])
    ensures ParseItems(PutItems(items, true, false, [RBRACKET] + k)) == Some((items, k))
    decreases items, 0
  {
    var tail := items[1..];
    var rest := PutItems(tail, false, false, [RBRACKET] + k);
    var s := Put(items[0], false, rest);
    ParsePut(items[0], rest);
    assert [items[0]] + tail == items;
    if tail == [] {
      assert items == [items[0]];
      LastItem(s, items[0], k);
    } else {
      ParsePutItems(tail, k);
      MoreItems(s, items[0], PutItems(tail, true, false, [RBRACKET] + k), tail, k);
    }
  }

  lemma ReadFieldKey(key: Text, s1: Text)
    ensures PutString(key, s1)[0] == QUOTE && ReadChars(PutString(key, s1)[1..]) == Some((key, s1))
  {
    assert PutString(key, s1)[1..] == PutChars(key, [QUOTE] + s1);
    ReadPutChars(key, s1);
  }

  lemma RestrictStep(vals: map<Text, Value>, keys: seq<Text>)
    requires keys != [] && keys[0] in vals
    ensures Restrict(vals, keys[1..])[keys[0] := vals[keys[0]]] == Restrict(vals, keys)
  {
    assert keys == [keys[0]] + keys[1..];
    assert forall k :: k in keys <==> k == keys[0] || k in keys[1..];
  }

  lemma {:induction false} ParsePutFields(v: Value, keys: seq<Text>, k: Text)
    requires Wf(v) && v.Obj? && keys != []
    requires forall key :: key in keys ==> key in v.vals
    ensures ParseFields(PutFields(v, keys, true, false, [RBRACE] + k)) ==
            Some((keys, Restrict(v.vals, keys), k))
    decreases v, |keys|
  {
    var key, val, tail := keys[0], v.vals[keys[0]], keys[1..];
    var rest := PutFields(v, tail, false, false, [RBRACE] + k);
    var s1 := Put(val, false, rest);
    var s := PutString(key, [COLON] + s1);
    assert PutFields(v, keys, true, false, [RBRACE] + k) == s;
    ReadFieldKey(key, [COLON] + s1);
    ParsePut(val, rest);
    RestrictStep(v.vals, keys);
    assert [key] + tail == keys;
    if tail == [] {
      assert keys == [key];
      assert Restrict(v.vals, tail) == map[];
      LastField(s, key, s1, val, k);
    } else {
      ParsePutFields(v, tail, k);
      MoreFields(s, key, s1, val, PutFields(v, tail, true, false, [RBRACE] + k), tail, Restrict(v.vals, tail), k);
    }
  }
}
