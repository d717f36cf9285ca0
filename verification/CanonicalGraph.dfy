/** When the heap encoder succeeds, and what it prints: the unfolded tree. */
module CanonicalGraph {
  import opened Utf16
  import opened Numbers
  import opened Strings
  import opened CanonicalText
  import opened CanonicalEncoder
  import opened CanonicalIdentity

  // ---- the tree behind a reference ----

  ghost predicate ScalarOk(fl: ToFloat, r: Ref) {
    match r
    case HNum(n) => ToDouble(n, fl).Some?
    case HOther => false
    case _ => true
  }

  predicate KeysOk(keys: seq<Key>) {
    AllStr(keys) && forall i :: 0 <= i < |keys| ==> keys[i].StrKey? && keys[i].t !in FORBIDDEN_KEYS
  }

  /** Following references from v, outside `seen`, meets no repetition on a path and no fault. */
  ghost predicate Clean(h: Heap, fl: ToFloat, v: Ref, seen: set<Id>)
    requires Closed(h) && RefOk(h, v)
    decreases h.Keys - seen
  {
    ScalarOk(fl, v) && (v.At? ==>
      v.id !in seen &&
      var inner := seen + {v.id};
      assert v.id in h.Keys - seen && v.id !in h.Keys - inner;
      match h[v.id]
      case ListNode(items) => forall i :: 0 <= i < |items| ==> Clean(h, fl, items[i], inner)
      case DictNode(keys, vals) => KeysOk(keys) && forall k :: k in vals ==> Clean(h, fl, vals[k], inner))
  }

  ghost function Unfold(h: Heap, fl: ToFloat, v: Ref, seen: set<Id>): (r: Value)
    requires Closed(h) && RefOk(h, v) && Clean(h, fl, v, seen)
    decreases h.Keys - seen
  {
    match v
    case HNull => Null
    case HBool(b) => Bool(b)
    case HNum(n) => Num(ToDouble(n, fl).value)
    case HStr(t) => Str(t)
    case At(id) =>
      var inner := seen + {id};
      assert id in h.Keys - seen && id !in h.Keys - inner;
      match h[id]
      case ListNode(items) =>
        Arr(seq(|items|, i requires 0 <= i < |items| => Unfold(h, fl, items[i], inner)))
      case DictNode(keys, vals) =>
        Obj(StrKeys(keys), map k | k in vals :: Unfold(h, fl, vals[k], inner))
  }

  lemma {:induction false} UnfoldWf(h: Heap, fl: ToFloat, v: Ref, seen: set<Id>)
    requires Closed(h) && RefOk(h, v) && Clean(h, fl, v, seen)
    ensures Wf(Unfold(h, fl, v, seen))
    decreases h.Keys - seen
  {
    if v.At? {
      var inner := seen + {v.id};
      assert v.id in h.Keys - seen && v.id !in h.Keys - inner;
      match h[v.id]
      case ListNode(items) =>
        forall i | 0 <= i < |items| ensures Wf(Unfold(h, fl, items[i], inner)) {
          UnfoldWf(h, fl, items[i], inner);
        }
      case DictNode(keys, vals) =>
        forall k | k in vals ensures Wf(Unfold(h, fl, vals[k], inner)) {
          UnfoldWf(h, fl, vals[k], inner);
        }
    }
  }

  // ---- the encoder prints the unfolded tree ----

  lemma {:induction false} StrKeysOf(keys: seq<Key>)
    ensures AllStr(keys) ==> (forall i :: 0 <= i < |keys| ==> keys[i].t in StrKeys(keys))
    ensures forall k :: k in StrKeys(keys) ==> exists i :: 0 <= i < |keys| && keys[i] == StrKey(k)
  {
    if keys != [] {
      StrKeysOf(keys[1..]);
      forall k | k in StrKeys(keys) ensures exists i :: 0 <= i < |keys| && keys[i] == StrKey(k) {
        if k in StrKeys(keys[1..]) {
          var i :| 0 <= i < |keys[1..]| && keys[1..][i] == StrKey(k);
          assert keys[i + 1] == StrKey(k);
        }
      }
      if AllStr(keys) {
        assert AllStr(keys[1..]);
        forall i | 0 <= i < |keys| ensures keys[i].t in StrKeys(keys) {
          if i > 0 { assert keys[i] == keys[1..][i - 1]; }
        }
      }
    }
  }

  /** Some name of the dict is forbidden exactly when the keys are not all right. */
  lemma KeysOkNames(keys: seq<Key>, sort: bool)
    requires AllStr(keys)
    ensures KeysOk(keys) <==> forall k :: k in DictOrder(keys, sort) ==> k !in FORBIDDEN_KEYS
  {
    StrKeysOf(keys);
    DictOrderMembers(keys, sort);
    if forall k :: k in DictOrder(keys, sort) ==> k !in FORBIDDEN_KEYS {
      forall i | 0 <= i < |keys| ensures keys[i].t !in FORBIDDEN_KEYS {
        assert keys[i].t in DictOrder(keys, sort);
      }
    }
  }

  lemma {:induction false} EncCleanIff(h: Heap, fl: ToFloat, sort: bool, v: Ref, path: Path, seen: set<Id>)
    requires Closed(h) && RefOk(h, v)
    ensures Enc(h, fl, sort, v, path, seen).Ok? <==> Clean(h, fl, v, seen)
    decreases h.Keys - seen, 0
  {
    match v
    case HNum(n) => JsNumberIsFloatText(n, fl);
    case At(id) =>
      if id !in seen {
        var inner := seen + {id};
        assert id in h.Keys - seen && id !in h.Keys - inner;
        match h[id]
        case ListNode(items) => EncItemsCleanIff(h, fl, sort, items, 0, path, inner);
        case DictNode(keys, vals) =>
          if AllStr(keys) {
            DictOrderMembers(keys, sort);
            DictOrderLength(keys, sort);
            var names := DictOrder(keys, sort);
            EncFieldsCleanIff(h, fl, sort, names, 0, vals, path, inner);
            KeysOkNames(keys, sort);
            assert forall k :: k in vals ==> k in names;
          }
      }
    case _ =>
  }

  lemma {:induction false} EncItemsCleanIff(h: Heap, fl: ToFloat, sort: bool, items: seq<Ref>, i: nat, path: Path, seen: set<Id>)
    requires Closed(h) && i <= |items|
    requires forall j :: 0 <= j < |items| ==> RefOk(h, items[j])
    ensures EncItems(h, fl, sort, items, i, path, seen).Ok? <==>
            forall j :: i <= j < |items| ==> Clean(h, fl, items[j], seen)
    decreases h.Keys - seen, 1 + |items| - i
  {
    if i < |items| {
      EncCleanIff(h, fl, sort, items[i], path + [Index(i)], seen);
      EncItemsCleanIff(h, fl, sort, items, i + 1, path, seen);
    }
  }

  lemma {:induction false} EncFieldsCleanIff(h: Heap, fl: ToFloat, sort: bool, names: seq<Text>, i: nat, vals: map<Text, Ref>,
                                             path: Path, seen: set<Id>)
    requires Closed(h) && i <= |names|
    requires forall k :: k in names ==> k in vals
    requires forall k :: k in vals ==> RefOk(h, vals[k])
    ensures EncFields(h, fl, sort, names, i, vals, path, seen).Ok? <==>
            forall j :: i <= j < |names| ==> names[j] !in FORBIDDEN_KEYS && Clean(h, fl, vals[names[j]], seen)
    decreases h.Keys - seen, 1 + |names| - i
  {
    if i < |names| {
      EncCleanIff(h, fl, sort, vals[names[i]], path + [Member(names[i])], seen);
      EncFieldsCleanIff(h, fl, sort, names, i + 1, vals, path, seen);
    }
  }

  lemma {:induction false} EncPrints(h: Heap, fl: ToFloat, sort: bool, v: Ref, path: Path, seen: set<Id>, k: Text)
    requires Closed(h) && RefOk(h, v) && Clean(h, fl, v, seen)
    ensures Enc(h, fl, sort, v, path, seen).Ok? && Wf(Unfold(h, fl, v, seen))
    ensures Enc(h, fl, sort, v, path, seen).text + k == Put(Unfold(h, fl, v, seen), sort, k)
    decreases h.Keys - seen, 0
  {
    EncCleanIff(h, fl, sort, v, path, seen);
    UnfoldWf(h, fl, v, seen);
    var tree := Unfold(h, fl, v, seen);
    match v
    case HNum(n) => JsNumberIsFloatText(n, fl);
    case HStr(t) => JsStringAppend(t, k);
    case At(id) =>
      var inner := seen + {id};
      assert id in h.Keys - seen && id !in h.Keys - inner;
      match h[id] {
        case ListNode(items) =>
          EncItemsPrints(h, fl, sort, items, 0, tree.items, path, inner, [RBRACKET] + k);
          var t := EncItems(h, fl, sort, items, 0, path, inner).text;
          assert tree.items[0..] == tree.items;
          WrappedAppend(LBRACKET, t, RBRACKET, k);
        case DictNode(keys, vals) =>
          DictOrderMembers(keys, sort);
          DictOrderLength(keys, sort);
          KeysOkNames(keys, sort);
          var names := DictOrder(keys, sort);
          EncFieldsPrints(h, fl, sort, names, 0, vals, tree, path, inner, [RBRACE] + k);
          var t := EncFields(h, fl, sort, names, 0, vals, path, inner).text;
          assert names[0..] == names;
          WrappedAppend(LBRACE, t, RBRACE, k);
      }
    case _ =>
  }

  lemma JsStringAppend(t: Text, k: Text)
    ensures JsString(t) + k == PutString(t, k)
  {
    PutCharsAppend(t, [QUOTE], k);
    assert [QUOTE] + [] == [QUOTE];
    Assoc([QUOTE], PutChars(t, [QUOTE]), k);
  }

  lemma WrappedAppend(open: CodePoint, t: Text, close: CodePoint, k: Text)
    ensures [open] + t + [close] + k == [open] + (t + ([close] + k))
  {
  }

  lemma {:induction false} EncItemsPrints(h: Heap, fl: ToFloat, sort: bool, items: seq<Ref>, i: nat, trees: seq<Value>, path: Path,
                                          seen: set<Id>, k: Text)
    requires Closed(h) && i <= |items| == |trees|
    requires forall j :: 0 <= j < |items| ==> RefOk(h, items[j]) && Clean(h, fl, items[j], seen)
    requires forall j :: 0 <= j < |items| ==> trees[j] == Unfold(h, fl, items[j], seen) && Wf(trees[j])
    ensures EncItems(h, fl, sort, items, i, path, seen).Ok?
    ensures EncItems(h, fl, sort, items, i, path, seen).text + k == PutItems(trees[i..], i == 0, sort, k)
    decreases h.Keys - seen, 1 + |items| - i
  {
    if i == |items| {
      assert trees[i..] == [] && [] + k == k;
    } else {
      EncItemsPrints(h, fl, sort, items, i + 1, trees, path, seen, k);
      var rest := EncItems(h, fl, sort, items, i + 1, path, seen).text;
      EncPrints(h, fl, sort, items[i], path + [Index(i)], seen, rest + k);
      var t := Enc(h, fl, sort, items[i], path + [Index(i)], seen).text;
      assert trees[i..][1..] == trees[i + 1..];
      Assoc(Comma(i) + t, rest, k);
      Assoc(Comma(i), t, rest + k);
      assert i == 0 ==> Comma(i) + (t + (rest + k)) == t + (rest + k);
    }
  }

  /** The fields of a clean dict and the tree they unfold to. */
  ghost predicate FieldsReady(h: Heap, fl: ToFloat, names: seq<Text>, vals: map<Text, Ref>, tree: Value, seen: set<Id>)
    requires Closed(h)
  {
    && (forall n :: n in names ==> n in vals && n !in FORBIDDEN_KEYS)
    && (forall n :: n in vals ==> RefOk(h, vals[n]) && Clean(h, fl, vals[n], seen))
    && tree.Obj? && Wf(tree) && tree.vals.Keys == vals.Keys
    && (forall n :: n in vals ==> tree.vals[n] == Unfold(h, fl, vals[n], seen))
  }

  lemma {:induction false} EncFieldsPrints(h: Heap, fl: ToFloat, sort: bool, names: seq<Text>, i: nat, vals: map<Text, Ref>, tree: Value,
                                           path: Path, seen: set<Id>, k: Text)
    requires Closed(h) && i <= |names| && FieldsReady(h, fl, names, vals, tree, seen)
    ensures EncFields(h, fl, sort, names, i, vals, path, seen).Ok?
    ensures EncFields(h, fl, sort, names, i, vals, path, seen).text + k == PutFields(tree, names[i..], i == 0, sort, k)
    decreases h.Keys - seen, 1 + |names| - i
  {
    if i == |names| {
      NoFields(tree, names, sort, k);
    } else {
      EncFieldsPrints(h, fl, sort, names, i + 1, vals, tree, path, seen, k);
      OneFieldPrints(h, fl, sort, names, i, vals, tree, path, seen, k);
    }
  }

  /** From the fields after i to the fields from i on. */
  lemma {:induction false} OneFieldPrints(h: Heap, fl: ToFloat, sort: bool, names: seq<Text>, i: nat, vals: map<Text, Ref>, tree: Value,
                                          path: Path, seen: set<Id>, k: Text)
    requires Closed(h) && i < |names| && FieldsReady(h, fl, names, vals, tree, seen)
    requires EncFields(h, fl, sort, names, i + 1, vals, path, seen).Ok?
    requires EncFields(h, fl, sort, names, i + 1, vals, path, seen).text + k == PutFields(tree, names[i + 1..], false, sort, k)
    ensures EncFields(h, fl, sort, names, i, vals, path, seen).Ok?
    ensures EncFields(h, fl, sort, names, i, vals, path, seen).text + k == PutFields(tree, names[i..], i == 0, sort, k)
    decreases h.Keys - seen, 1
  {
    var rest := EncFields(h, fl, sort, names, i + 1, vals, path, seen).text;
    var t := FieldValuePrints(h, fl, sort, vals[names[i]], tree.vals[names[i]], path + [Member(names[i])], seen, rest + k);
    FieldText(tree, names, i, sort, t, rest, k);
    FieldEncoded(h, fl, sort, names, i, vals, path, seen, t, rest);
  }

  lemma {:induction false} FieldValuePrints(h: Heap, fl: ToFloat, sort: bool, v: Ref, tree: Value, path: Path, seen: set<Id>, k: Text)
      returns (t: Text)
    requires Closed(h) && RefOk(h, v) && Clean(h, fl, v, seen)
    requires tree == Unfold(h, fl, v, seen)
    ensures Enc(h, fl, sort, v, path, seen) == Ok(t) && Wf(tree) && t + k == Put(tree, sort, k)
    decreases h.Keys - seen, 1, 0
  {
    EncPrints(h, fl, sort, v, path, seen, k);
    t := Enc(h, fl, sort, v, path, seen).text;
  }

  lemma FieldEncoded(h: Heap, fl: ToFloat, sort: bool, names: seq<Text>, i: nat, vals: map<Text, Ref>, path: Path, seen: set<Id>,
                     t: Text, rest: Text)
    requires Closed(h) && i < |names| && names[i] !in FORBIDDEN_KEYS
    requires forall n :: n in names ==> n in vals
    requires forall n :: n in vals ==> RefOk(h, vals[n])
    requires Enc(h, fl, sort, vals[names[i]], path + [Member(names[i])], seen) == Ok(t)
    requires EncFields(h, fl, sort, names, i + 1, vals, path, seen) == Ok(rest)
    ensures EncFields(h, fl, sort, names, i, vals, path, seen) == Ok(Comma(i) + JsString(names[i]) + [COLON] + t + rest)
  {
  }

  lemma NoFields(tree: Value, names: seq<Text>, sort: bool, k: Text)
    requires tree.Obj? && Wf(tree) && forall n :: n in names ==> n in tree.vals
    ensures [] + k == PutFields(tree, names[|names|..], |names| == 0, sort, k)
  {
    assert [] + k == k;
  }

  /** One field in front of the fields after it. */
  lemma FieldText(tree: Value, names: seq<Text>, i: nat, sort: bool, t: Text, rest: Text, k: Text)
    requires i < |names| && tree.Obj? && Wf(tree)
    requires forall n :: n in names ==> n in tree.vals
    requires rest + k == PutFields(tree, names[i + 1..], false, sort, k)
    requires t + (rest + k) == Put(tree.vals[names[i]], sort, rest + k)
    ensures Comma(i) + JsString(names[i]) + [COLON] + t + rest + k == PutFields(tree, names[i..], i == 0, sort, k)
  {
    assert names[i..][1..] == names[i + 1..];
    JsStringAppend(names[i], [COLON] + (t + (rest + k)));
    FieldAppend(Comma(i), JsString(names[i]), t, rest, k);
    assert i == 0 ==> [] + PutString(names[i], [COLON] + (t + (rest + k))) == PutString(names[i], [COLON] + (t + (rest + k)));
  }

  lemma FieldAppend(comma: Text, name: Text, t: Text, rest: Text, k: Text)
    ensures comma + name + [COLON] + t + rest + k == comma + (name + ([COLON] + (t + (rest + k))))
  {
    Assoc(comma + name + [COLON] + t, rest, k);
    Assoc(comma + name + [COLON], t, rest + k);
    Assoc(comma + name, [COLON], t + (rest + k));
    Assoc(comma, name, [COLON] + (t + (rest + k)));
  }

  // ---- paths ----

  ghost predicate Refers(n: Node, c: Id) {
    match n
    case ListNode(items) => exists i :: 0 <= i < |items| && items[i] == At(c)
    case DictNode(keys, vals) => exists k :: k in vals && vals[k] == At(c)
  }

  ghost predicate EdgeAt(h: Heap, p: seq<Id>, i: nat) {
    0 < i < |p| ==> p[i - 1] in h && p[i] in h && Refers(h[p[i - 1]], p[i])
  }

  /** p walks from v along references. */
  ghost predicate IsPath(h: Heap, v: Ref, p: seq<Id>) {
    && (p != [] ==> v == At(p[0]))
    && (forall i :: 0 <= i < |p| ==> p[i] in h)
    && (forall i :: EdgeAt(h, p, i))
  }

  predicate NoRepeat(p: seq<Id>) {
    forall i, j :: 0 <= i < j < |p| ==> p[i] != p[j]
  }

  /** The part of the heap that v reaches has no cycle. */
  ghost predicate Acyclic(h: Heap, v: Ref) {
    forall p :: IsPath(h, v, p) ==> NoRepeat(p)
  }

  ghost predicate NodeOk(fl: ToFloat, n: Node) {
    match n
    case ListNode(items) => forall i :: 0 <= i < |items| ==> ScalarOk(fl, items[i])
    case DictNode(keys, vals) => KeysOk(keys) && forall k :: k in vals ==> ScalarOk(fl, vals[k])
  }

  /** Nothing that v reaches is outside the JSON domain. */
  ghost predicate FaultFree(h: Heap, fl: ToFloat, v: Ref) {
    ScalarOk(fl, v) && forall p :: IsPath(h, v, p) && p != [] ==> NodeOk(fl, h[p[|p| - 1]])
  }

  lemma PathTail(h: Heap, v: Ref, p: seq<Id>) returns (c: Ref)
    requires IsPath(h, v, p) && |p| > 1
    ensures c == At(p[1]) && IsPath(h, c, p[1..]) && Refers(h[p[0]], p[1])
  {
    c := At(p[1]);
    var q := p[1..];
    assert EdgeAt(h, p, 1);
    forall i: nat ensures EdgeAt(h, q, i) {
      assert EdgeAt(h, p, i + 1);
    }
  }

  lemma PathCons(h: Heap, id: Id, c: Ref, q: seq<Id>)
    requires id in h && IsPath(h, c, q)
    requires q != [] ==> Refers(h[id], q[0])
    ensures IsPath(h, At(id), [id] + q)
  {
    var p := [id] + q;
    forall i: nat ensures EdgeAt(h, p, i) {
      if i > 1 { assert EdgeAt(h, q, i - 1); }
    }
  }

  /** Every path from a clean reference repeats nothing, avoids `seen` and ends in a good node. */
  lemma {:induction false} CleanPath(h: Heap, fl: ToFloat, v: Ref, seen: set<Id>, p: seq<Id>)
    requires Closed(h) && RefOk(h, v) && Clean(h, fl, v, seen) && IsPath(h, v, p)
    ensures NoRepeat(p) && (forall i :: 0 <= i < |p| ==> p[i] !in seen)
    ensures p != [] ==> NodeOk(fl, h[p[|p| - 1]])
    decreases |p|
  {
    if |p| > 1 {
      var c := PathTail(h, v, p);
      var inner := seen + {v.id};
      assert RefOk(h, c) && Clean(h, fl, c, inner);
      CleanPath(h, fl, c, inner, p[1..]);
      assert forall i :: 0 < i < |p| ==> p[i] == p[1..][i - 1];
    }
  }

  lemma {:induction false} PathsClean(h: Heap, fl: ToFloat, v: Ref, seen: set<Id>)
    requires Closed(h) && RefOk(h, v) && ScalarOk(fl, v)
    requires forall p :: IsPath(h, v, p) ==> NoRepeat(p) && forall i :: 0 <= i < |p| ==> p[i] !in seen
    requires forall p :: IsPath(h, v, p) && p != [] ==> NodeOk(fl, h[p[|p| - 1]])
    ensures Clean(h, fl, v, seen)
    decreases h.Keys - seen, 0
  {
    if v.At? {
      assert IsPath(h, v, [v.id]);
      assert [v.id][0] !in seen;
      var inner := seen + {v.id};
      assert v.id in h.Keys - seen && v.id !in h.Keys - inner;
      match h[v.id]
      case ListNode(items) =>
        forall i | 0 <= i < |items| ensures Clean(h, fl, items[i], inner) {
          ChildClean(h, fl, v.id, items[i], seen);
        }
      case DictNode(keys, vals) =>
        forall k | k in vals ensures Clean(h, fl, vals[k], inner) {
          ChildClean(h, fl, v.id, vals[k], seen);
        }
    }
  }

  lemma OffPath(id: Id, q: seq<Id>, seen: set<Id>)
    requires NoRepeat([id] + q) && forall i :: 0 <= i < |q| + 1 ==> ([id] + q)[i] !in seen
    ensures NoRepeat(q) && forall i :: 0 <= i < |q| ==> q[i] !in seen + {id}
  {
    var p := [id] + q;
    assert p[0] == id && forall i :: 0 <= i < |q| ==> q[i] == p[i + 1];
  }

  lemma ChildPath(h: Heap, fl: ToFloat, id: Id, c: Ref, q: seq<Id>, seen: set<Id>)
    requires id in h && (c.At? ==> Refers(h[id], c.id)) && IsPath(h, c, q)
    requires forall p :: IsPath(h, At(id), p) ==> NoRepeat(p) && forall i :: 0 <= i < |p| ==> p[i] !in seen
    requires forall p :: IsPath(h, At(id), p) && p != [] ==> NodeOk(fl, h[p[|p| - 1]])
    ensures NoRepeat(q) && (forall i :: 0 <= i < |q| ==> q[i] !in seen + {id})
    ensures q != [] ==> NodeOk(fl, h[q[|q| - 1]])
  {
    var p := [id] + q;
    PathCons(h, id, c, q);
    assert NoRepeat(p) && NodeOk(fl, h[p[|p| - 1]]);
    OffPath(id, q, seen);
    assert q != [] ==> p[|q|] == q[|q| - 1];
  }

  lemma {:induction false} ChildClean(h: Heap, fl: ToFloat, id: Id, c: Ref, seen: set<Id>)
    requires Closed(h) && id in h && id !in seen && RefOk(h, c) && ScalarOk(fl, c)
    requires c.At? ==> Refers(h[id], c.id)
    requires forall p :: IsPath(h, At(id), p) ==> NoRepeat(p) && forall i :: 0 <= i < |p| ==> p[i] !in seen
    requires forall p :: IsPath(h, At(id), p) && p != [] ==> NodeOk(fl, h[p[|p| - 1]])
    ensures Clean(h, fl, c, seen + {id})
    decreases h.Keys - (seen + {id}), 1
  {
    forall q | IsPath(h, c, q)
      ensures NoRepeat(q) && (forall i :: 0 <= i < |q| ==> q[i] !in seen + {id})
      ensures q != [] ==> NodeOk(fl, h[q[|q| - 1]])
    {
      ChildPath(h, fl, id, c, q, seen);
    }
    PathsClean(h, fl, c, seen + {id});
  }

  lemma CleanIff(h: Heap, fl: ToFloat, v: Ref)
    requires Closed(h) && RefOk(h, v)
    ensures Clean(h, fl, v, {}) <==> Acyclic(h, v) && FaultFree(h, fl, v)
  {
    if Clean(h, fl, v, {}) {
      forall p | IsPath(h, v, p)
        ensures NoRepeat(p) && (p != [] ==> NodeOk(fl, h[p[|p| - 1]]))
      {
        CleanPath(h, fl, v, {}, p);
      }
    }
    if Acyclic(h, v) && FaultFree(h, fl, v) {
      PathsClean(h, fl, v, {});
    }
  }

  // ---- main results ----

  /** The encoder succeeds exactly on acyclic, fault-free values, and then prints the unfolded tree. */
  lemma EncodesExactlyAcyclic(h: Heap, fl: ToFloat, sort: bool, v: Ref)
    requires Closed(h) && RefOk(h, v)
    ensures Enc(h, fl, sort, v, [], {}).Ok? <==> Acyclic(h, v) && FaultFree(h, fl, v)
    ensures Acyclic(h, v) && FaultFree(h, fl, v) ==>
              && Clean(h, fl, v, {}) && Wf(Unfold(h, fl, v, {}))
              && Enc(h, fl, sort, v, [], {}) == Ok(Print(Unfold(h, fl, v, {}), sort))
  {
    EncCleanIff(h, fl, sort, v, [], {});
    CleanIff(h, fl, v);
    if Clean(h, fl, v, {}) {
      EncPrints(h, fl, sort, v, [], {}, []);
      var t := Enc(h, fl, sort, v, [], {}).text;
      assert t + [] == t;
    }
  }

  lemma {:induction false} UnfoldIgnoresSeen(h: Heap, fl: ToFloat, v: Ref, seen: set<Id>, other: set<Id>)
    requires Closed(h) && RefOk(h, v) && Clean(h, fl, v, seen) && Clean(h, fl, v, other)
    ensures Unfold(h, fl, v, seen) == Unfold(h, fl, v, other)
    decreases h.Keys - seen
  {
    if v.At? {
      var inner, inner' := seen + {v.id}, other + {v.id};
      assert v.id in h.Keys - seen && v.id !in h.Keys - inner;
      match h[v.id]
      case ListNode(items) =>
        forall i | 0 <= i < |items| ensures Unfold(h, fl, items[i], inner) == Unfold(h, fl, items[i], inner') {
          UnfoldIgnoresSeen(h, fl, items[i], inner, inner');
        }
        assert Unfold(h, fl, v, seen).items == Unfold(h, fl, v, other).items;
      case DictNode(keys, vals) =>
        forall k | k in vals ensures Unfold(h, fl, vals[k], inner) == Unfold(h, fl, vals[k], inner') {
          UnfoldIgnoresSeen(h, fl, vals[k], inner, inner');
        }
        assert Unfold(h, fl, v, seen).vals == Unfold(h, fl, v, other).vals;
    }
  }

  /** A shared node is encoded wherever it is met, with the same text each time. */
  lemma SharedNodeSameText(h: Heap, fl: ToFloat, sort: bool, v: Ref, path: Path, path': Path, seen: set<Id>, seen': set<Id>)
    requires Closed(h) && RefOk(h, v)
    requires Enc(h, fl, sort, v, path, seen).Ok? && Enc(h, fl, sort, v, path', seen').Ok?
    ensures Enc(h, fl, sort, v, path, seen) == Enc(h, fl, sort, v, path', seen')
  {
    EncCleanIff(h, fl, sort, v, path, seen);
    EncCleanIff(h, fl, sort, v, path', seen');
    EncPrints(h, fl, sort, v, path, seen, []);
    EncPrints(h, fl, sort, v, path', seen', []);
    UnfoldIgnoresSeen(h, fl, v, seen, seen');
    var t, u := Enc(h, fl, sort, v, path, seen).text, Enc(h, fl, sort, v, path', seen').text;
    assert t == t + [] == u + [] == u;
  }

  /** A value with no other fault is only ever refused with the code `cycle`. */
  lemma {:induction false} FaultFreeOnlyCycles(h: Heap, fl: ToFloat, sort: bool, v: Ref, path: Path, seen: set<Id>)
    requires Closed(h) && RefOk(h, v) && FaultFree(h, fl, v)
    ensures OnlyCycle(Enc(h, fl, sort, v, path, seen))
    decreases h.Keys - seen, 0
  {
    match v
    case HNum(n) => JsNumberIsFloatText(n, fl);
    case At(id) =>
      if id !in seen {
        var inner := seen + {id};
        assert id in h.Keys - seen && id !in h.Keys - inner;
        StartNodeOk(h, fl, id);
        match h[id]
        case ListNode(items) =>
          ItemsFaultFree(h, fl, id);
          ItemsOnlyCycles(h, fl, sort, items, 0, path, inner);
        case DictNode(keys, vals) =>
          FieldsFaultFree(h, fl, id);
          DictOnlyCycles(h, fl, sort, keys, vals, path, inner);
      }
    case _ =>
  }

  lemma ItemsFaultFree(h: Heap, fl: ToFloat, id: Id)
    requires Closed(h) && id in h && FaultFree(h, fl, At(id)) && h[id].ListNode?
    ensures forall i :: 0 <= i < |h[id].items| ==> FaultFree(h, fl, h[id].items[i])
  {
    StartNodeOk(h, fl, id);
    forall i | 0 <= i < |h[id].items| ensures FaultFree(h, fl, h[id].items[i]) {
      ChildFaultFree(h, fl, id, h[id].items[i]);
    }
  }

  lemma FieldsFaultFree(h: Heap, fl: ToFloat, id: Id)
    requires Closed(h) && id in h && FaultFree(h, fl, At(id)) && h[id].DictNode?
    ensures forall k :: k in h[id].vals ==> FaultFree(h, fl, h[id].vals[k])
  {
    StartNodeOk(h, fl, id);
    forall k | k in h[id].vals ensures FaultFree(h, fl, h[id].vals[k]) {
      ChildFaultFree(h, fl, id, h[id].vals[k]);
    }
  }

  predicate OnlyCycle(r: Result) { r.Err? ==> r.fault.code == Cycle }

  lemma StartNodeOk(h: Heap, fl: ToFloat, id: Id)
    requires id in h && FaultFree(h, fl, At(id))
    ensures NodeOk(fl, h[id])
  {
    var p := [id];
    assert IsPath(h, At(id), p);
    assert p[|p| - 1] == id;
  }

  lemma {:induction false} DictOnlyCycles(h: Heap, fl: ToFloat, sort: bool, keys: seq<Key>, vals: map<Text, Ref>, path: Path, seen: set<Id>)
    requires Closed(h) && NodeClosed(h, DictNode(keys, vals)) && KeysOk(keys)
    requires forall k :: k in vals ==> FaultFree(h, fl, vals[k])
    ensures OnlyCycle(EncDict(h, fl, sort, keys, vals, path, seen))
    decreases h.Keys - seen, 3 + |keys|
  {
    DictOrderMembers(keys, sort);
    DictOrderLength(keys, sort);
    KeysOkNames(keys, sort);
    FieldsOnlyCycles(h, fl, sort, DictOrder(keys, sort), 0, vals, path, seen);
  }

  lemma ChildFaultFree(h: Heap, fl: ToFloat, id: Id, c: Ref)
    requires Closed(h) && id in h && RefOk(h, c) && ScalarOk(fl, c)
    requires c.At? ==> Refers(h[id], c.id)
    requires FaultFree(h, fl, At(id))
    ensures FaultFree(h, fl, c)
  {
    forall q | IsPath(h, c, q) && q != [] ensures NodeOk(fl, h[q[|q| - 1]]) {
      PathCons(h, id, c, q);
      var p := [id] + q;
      assert p[|p| - 1] == q[|q| - 1];
    }
  }

  lemma {:induction false} ItemsOnlyCycles(h: Heap, fl: ToFloat, sort: bool, items: seq<Ref>, i: nat, path: Path, seen: set<Id>)
    requires Closed(h) && i <= |items|
    requires forall j :: 0 <= j < |items| ==> RefOk(h, items[j]) && FaultFree(h, fl, items[j])
    ensures OnlyCycle(EncItems(h, fl, sort, items, i, path, seen))
    decreases h.Keys - seen, 1 + |items| - i
  {
    if i < |items| {
      FaultFreeOnlyCycles(h, fl, sort, items[i], path + [Index(i)], seen);
      ItemsOnlyCycles(h, fl, sort, items, i + 1, path, seen);
    }
  }

  lemma {:induction false} FieldsOnlyCycles(h: Heap, fl: ToFloat, sort: bool, names: seq<Text>, i: nat, vals: map<Text, Ref>,
                                            path: Path, seen: set<Id>)
    requires Closed(h) && i <= |names|
    requires forall k :: k in names ==> k in vals && k !in FORBIDDEN_KEYS
    requires forall k :: k in vals ==> RefOk(h, vals[k]) && FaultFree(h, fl, vals[k])
    ensures OnlyCycle(EncFields(h, fl, sort, names, i, vals, path, seen))
    decreases h.Keys - seen, 1 + |names| - i
  {
    if i < |names| {
      FaultFreeOnlyCycles(h, fl, sort, vals[names[i]], path + [Member(names[i])], seen);
      FieldsOnlyCycles(h, fl, sort, names, i + 1, vals, path, seen);
    }
  }

  /** With no other fault, the encoder fails exactly on cyclic values, and then with code `cycle`. */
  lemma CycleDetected(h: Heap, fl: ToFloat, sort: bool, v: Ref)
    requires Closed(h) && RefOk(h, v) && FaultFree(h, fl, v)
    ensures !Acyclic(h, v) <==> Enc(h, fl, sort, v, [], {}).Err?
    ensures !Acyclic(h, v) ==> Enc(h, fl, sort, v, [], {}).fault.code == Cycle
  {
    EncodesExactlyAcyclic(h, fl, sort, v);
    FaultFreeOnlyCycles(h, fl, sort, v, [], {});
  }

  /** The digest's input identifies the value: on the heap, equal canonical text means equal values. */
  lemma EqualTextEqualValue(h: Heap, fl: ToFloat, v: Ref, w: Ref)
    requires Closed(h) && RefOk(h, v) && RefOk(h, w)
    requires Clean(h, fl, v, {}) && Clean(h, fl, w, {})
    requires TieFree(Unfold(h, fl, v, {}))
    ensures Enc(h, fl, true, v, [], {}) == Enc(h, fl, true, w, [], {}) <==>
            Denote(Unfold(h, fl, v, {})) == Denote(Unfold(h, fl, w, {}))
  {
    CleanIff(h, fl, v);
    CleanIff(h, fl, w);
    EncodesExactlyAcyclic(h, fl, true, v);
    EncodesExactlyAcyclic(h, fl, true, w);
    SameTextIffSameMeaning(Unfold(h, fl, v, {}), Unfold(h, fl, w, {}));
  }
}
