/** The punctuation of the canonical text, code point by code point. */
module CanonicalForm {
  import opened Utf16
  import opened KeyOrder
  import opened Numbers
  import opened Strings
  import opened CanonicalText

  // ---- what follows a value is not touched by it ----

  lemma Assoc3(a: Text, b: Text, c: Text)
    ensures a + (b + c) == a + b + c
  {
  }

  lemma {:induction false} PutAppend(v: Value, sort: bool, j: Text, k: Text)
    requires Wf(v)
    ensures Put(v, sort, j + k) == Put(v, sort, j) + k
    decreases v, if v.Obj? then |v.keys| + 1 else 0
  {
    match v
    case Null => Assoc3(NULL_TEXT, j, k);
    case Bool(b) => Assoc3(if b then TRUE_TEXT else FALSE_TEXT, j, k);
    case Num(d) => Assoc3(FloatText(d), j, k);
    case Str(t) => PutStringAppend(t, j, k);
    case Arr(items) =>
      PutItemsAppend(items, true, sort, [RBRACKET] + j, k);
      Assoc3([RBRACKET], j, k);
      Assoc3([LBRACKET], PutItems(items, true, sort, [RBRACKET] + j), k);
    case Obj(keys, vals) =>
      SameMembers(keys, Sort(keys));
      var names := if sort then Sort(keys) else keys;
      PutFieldsAppend(v, names, true, sort, [RBRACE] + j, k);
      Assoc3([RBRACE], j, k);
      Assoc3([LBRACE], PutFields(v, names, true, sort, [RBRACE] + j), k);
  }

  lemma PutStringAppend(t: Text, j: Text, k: Text)
    ensures PutString(t, j + k) == PutString(t, j) + k
  {
    PutCharsAppend(t, [QUOTE] + j, k);
    Assoc3([QUOTE], j, k);
    Assoc3([QUOTE], PutChars(t, [QUOTE] + j), k);
  }

  lemma {:induction false} PutItemsAppend(items: seq<Value>, first: bool, sort: bool, j: Text, k: Text)
    requires forall i :: 0 <= i < |items| ==> Wf(items[i])
    ensures PutItems(items, first, sort, j + k) == PutItems(items, first, sort, j) + k
    decreases items, 0
  {
    if items != [] {
      var rest := PutItems(items[1..], false, sort, j);
      PutItemsAppend(items[1..], false, sort, j, k);
      PutAppend(items[0], sort, rest, k);
      Assoc3([COMMA], Put(items[0], sort, rest), k);
    }
  }

  lemma {:induction false} PutFieldsAppend(v: Value, keys: seq<Text>, first: bool, sort: bool, j: Text, k: Text)
    requires Wf(v) && v.Obj?
    requires forall key :: key in keys ==> key in v.vals
    ensures PutFields(v, keys, first, sort, j + k) == PutFields(v, keys, first, sort, j) + k
    decreases v, |keys|
  {
    if keys != [] {
      var rest := PutFields(v, keys[1..], false, sort, j);
      PutFieldsAppend(v, keys[1..], false, sort, j, k);
      var val := Put(v.vals[keys[0]], sort, rest);
      PutAppend(v.vals[keys[0]], sort, rest, k);
      Assoc3([COLON], val, k);
      PutStringAppend(keys[0], [COLON] + val, k);
      Assoc3([COMMA], PutString(keys[0], [COLON] + val), k);
    }
  }

  lemma PutIsPrint(v: Value, sort: bool, k: Text)
    requires Wf(v)
    ensures Put(v, sort, k) == Print(v, sort) + k
  {
    assert [] + k == k;
    PutAppend(v, sort, [], k);
  }

  // ---- the form of each value ----

  /** The parts with a comma between each two. */
  function Separated(parts: seq<Text>): Text {
    if parts == [] then []
    else if |parts| == 1 then parts[0]
    else parts[0] + [0x2C] + Separated(parts[1..])
  }

  lemma SeparatedCons(part: Text, rest: seq<Text>)
    ensures Separated([part] + rest) == if rest == [] then part else part + [0x2C] + Separated(rest)
  {
    assert ([part] + rest)[1..] == rest;
  }

  lemma {:induction false} ItemsForm(items: seq<Value>, first: bool, sort: bool, k: Text) returns (parts: seq<Text>)
    requires forall i :: 0 <= i < |items| ==> Wf(items[i])
    ensures |parts| == |items| && forall i :: 0 <= i < |items| ==> parts[i] == Print(items[i], sort)
    ensures PutItems(items, first, sort, k) == (if first || items == [] then [] else [0x2C]) + (Separated(parts) + k)
    decreases |items|
  {
    if items == [] {
      parts := [];
      assert [] + ([] + k) == k;
    } else {
      var tail := ItemsForm(items[1..], false, sort, k);
      var head, rest := Print(items[0], sort), PutItems(items[1..], false, sort, k);
      parts := [head] + tail;
      SeparatedCons(head, tail);
      PutIsPrint(items[0], sort, rest);
      Comma(head, Separated(tail), k, tail == []);
      assert forall i :: 0 < i < |items| ==> parts[i] == tail[i - 1] && items[i] == items[1..][i - 1];
    }
  }

  lemma Comma(head: Text, tail: Text, k: Text, last: bool)
    requires last ==> tail == []
    ensures head + ((if last then [] else [0x2C]) + (tail + k)) == (if last then head else head + [0x2C] + tail) + k
  {
  }

  /** A quoted key, a colon and the text of its value. */
  ghost predicate IsField(part: Text, v: Value, key: Text, sort: bool)
    requires Wf(v) && v.Obj?
  {
    key in v.vals && part == JsString(key) + [0x3A] + Print(v.vals[key], sort)
  }

  lemma {:induction false} FieldsForm(v: Value, keys: seq<Text>, first: bool, sort: bool, k: Text) returns (parts: seq<Text>)
    requires Wf(v) && v.Obj?
    requires forall key :: key in keys ==> key in v.vals
    ensures |parts| == |keys|
    ensures forall i :: 0 <= i < |keys| ==> IsField(parts[i], v, keys[i], sort)
    ensures PutFields(v, keys, first, sort, k) == (if first || keys == [] then [] else [0x2C]) + (Separated(parts) + k)
    decreases |keys|
  {
    if keys == [] {
      parts := [];
      assert [] + ([] + k) == k;
    } else {
      var tail := FieldsForm(v, keys[1..], false, sort, k);
      var rest := PutFields(v, keys[1..], false, sort, k);
      var head := JsString(keys[0]) + [0x3A] + Print(v.vals[keys[0]], sort);
      parts := [head] + tail;
      SeparatedCons(head, tail);
      FieldIsHead(v, keys[0], sort, rest);
      Comma(head, Separated(tail), k, tail == []);
      assert IsField(head, v, keys[0], sort);
      assert forall i :: 0 < i < |keys| ==> parts[i] == tail[i - 1] && keys[i] == keys[1..][i - 1];
    }
  }

  lemma PutStringIs(t: Text, k: Text)
    ensures PutString(t, k) == JsString(t) + k
  {
    assert [] + k == k;
    PutStringAppend(t, [], k);
  }

  lemma Colon(name: Text, val: Text, rest: Text)
    ensures name + ([0x3A] + (val + rest)) == name + [0x3A] + val + rest
  {
  }

  lemma Enclosed(open: CodePoint, t: Text, close: CodePoint)
    ensures [open] + ([] + (t + ([close] + []))) == [open] + t + [close]
  {
  }

  lemma FieldIsHead(v: Value, key: Text, sort: bool, rest: Text)
    requires Wf(v) && v.Obj? && key in v.vals
    ensures PutString(key, [COLON] + Put(v.vals[key], sort, rest)) == JsString(key) + [0x3A] + Print(v.vals[key], sort) + rest
  {
    PutIsPrint(v.vals[key], sort, rest);
    PutStringIs(key, [COLON] + (Print(v.vals[key], sort) + rest));
    Colon(JsString(key), Print(v.vals[key], sort), rest);
  }

  /** `null`, `true` and `false`; a number or a string is its own text. */
  lemma ScalarForm(v: Value, sort: bool)
    requires Wf(v)
    ensures v == Null ==> Print(v, sort) == [0x6E, 0x75, 0x6C, 0x6C]
    ensures v == Bool(true) ==> Print(v, sort) == [0x74, 0x72, 0x75, 0x65]
    ensures v == Bool(false) ==> Print(v, sort) == [0x66, 0x61, 0x6C, 0x73, 0x65]
    ensures v.Num? ==> Print(v, sort) == FloatText(v.d)
    ensures v.Str? ==> Print(v, sort) == JsString(v.t)
  {
    assert NULL_TEXT + [] == NULL_TEXT && TRUE_TEXT + [] == TRUE_TEXT && FALSE_TEXT + [] == FALSE_TEXT;
    if v.Num? { assert FloatText(v.d) + [] == FloatText(v.d); }
  }

  /** A list is `[`, its items' texts with commas between, and `]`. */
  lemma ListForm(items: seq<Value>, sort: bool) returns (parts: seq<Text>)
    requires forall i :: 0 <= i < |items| ==> Wf(items[i])
    ensures |parts| == |items| && forall i :: 0 <= i < |items| ==> parts[i] == Print(items[i], sort)
    ensures Print(Arr(items), sort) == [0x5B] + Separated(parts) + [0x5D]
  {
    parts := ItemsForm(items, true, sort, [RBRACKET] + []);
    Enclosed(LBRACKET, Separated(parts), RBRACKET);
  }

  /** An object is `{`, its fields with commas between, each `"key":value`, and `}`. */
  lemma ObjectForm(v: Value, sort: bool) returns (parts: seq<Text>)
    requires Wf(v) && v.Obj?
    ensures var names := if sort then Sort(v.keys) else v.keys;
            && |parts| == |names|
            && (forall i :: 0 <= i < |names| ==>
                  IsField(parts[i], v, names[i], sort))
            && Print(v, sort) == [0x7B] + Separated(parts) + [0x7D]
  {
    SameMembers(v.keys, Sort(v.keys));
    parts := ObjectParts(v, sort, if sort then Sort(v.keys) else v.keys);
  }

  lemma ObjectParts(v: Value, sort: bool, names: seq<Text>) returns (parts: seq<Text>)
    requires Wf(v) && v.Obj? && names == if sort then Sort(v.keys) else v.keys
    requires forall key :: key in names ==> key in v.vals
    ensures |parts| == |names|
    ensures forall i :: 0 <= i < |names| ==> IsField(parts[i], v, names[i], sort)
    ensures Print(v, sort) == [0x7B] + Separated(parts) + [0x7D]
  {
    parts := FieldsForm(v, names, true, sort, [RBRACE] + []);
    Enclosed(LBRACE, Separated(parts), RBRACE);
  }
}
