/** Where the canonical encoder's error is, and that it is the first one. */
module CanonicalFaults {
  import opened Utf16
  import opened Numbers
  import opened CanonicalText
  import opened CanonicalEncoder
  import opened CanonicalGraph

  /** `__proto__`, `constructor` and `prototype`. */
  const FORBIDDEN: set<Text> := {
    [0x5F, 0x5F, 0x70, 0x72, 0x6F, 0x74, 0x6F, 0x5F, 0x5F],
    [0x63, 0x6F, 0x6E, 0x73, 0x74, 0x72, 0x75, 0x63, 0x74, 0x6F, 0x72],
    [0x70, 0x72, 0x6F, 0x74, 0x6F, 0x74, 0x79, 0x70, 0x65]
  }

  lemma AsciiIs(s: string, t: Text)
    requires |s| == |t| && forall i :: 0 <= i < |s| ==> s[i] as int == t[i] as int
    ensures Ascii(s) == t
  {
  }

  lemma ForbiddenKeysAre()
    ensures FORBIDDEN_KEYS == FORBIDDEN
  {
    AsciiIs("__proto__", [0x5F, 0x5F, 0x70, 0x72, 0x6F, 0x74, 0x6F, 0x5F, 0x5F]);
    AsciiIs("constructor", [0x63, 0x6F, 0x6E, 0x73, 0x74, 0x72, 0x75, 0x63, 0x74, 0x6F, 0x72]);
    AsciiIs("prototype", [0x70, 0x72, 0x6F, 0x74, 0x6F, 0x74, 0x79, 0x70, 0x65]);
  }

  /** What is wrong with the value itself, met with the nodes `seen` open. */
  ghost predicate Wrong(h: Heap, fl: ToFloat, v: Ref, code: Code, seen: set<Id>) {
    match code
    case NonFinite => v.HNum? && ToDouble(v.n, fl).None?
    case UnsupportedType =>
      v.HOther? || (v.At? && v.id in h && h[v.id].DictNode? && exists i :: 0 <= i < |h[v.id].keys| && h[v.id].keys[i].OtherKey?)
    case Cycle => v.At? && v.id in seen
    case ForbiddenKey => false
  }

  ghost predicate CleanRef(h: Heap, fl: ToFloat, v: Ref, seen: set<Id>)
    requires Closed(h)
  {
    RefOk(h, v) && Clean(h, fl, v, seen)
  }

  /** From v the steps `rel` lead to a value that is wrong for this code, or to a dict of string keys with a
      forbidden one, and nothing that is written before is refused. */
  ghost predicate Located(h: Heap, fl: ToFloat, sort: bool, v: Ref, rel: Path, code: Code, seen: set<Id>)
    requires Closed(h)
    decreases |rel|, 1
  {
    if rel == [] then Wrong(h, fl, v, code, seen)
    else
      && v.At? && v.id in h && v.id !in seen
      && match h[v.id]
         case ListNode(items) => rel[0].Index? && InItems(h, fl, sort, items, rel[0].i, rel[1..], code, seen + {v.id})
         case DictNode(keys, vals) =>
           && rel[0].Member? && AllStr(keys)
           && exists p: nat :: InFields(h, fl, sort, DictOrder(keys, sort), vals, p, rel[0].key, rel[1..], code, seen + {v.id})
  }

  ghost predicate InItems(h: Heap, fl: ToFloat, sort: bool, items: seq<Ref>, i: nat, rel: Path, code: Code, seen: set<Id>)
    requires Closed(h)
    decreases |rel|, 2
  {
    && i < |items|
    && (forall j :: 0 <= j < i ==> CleanRef(h, fl, items[j], seen))
    && Located(h, fl, sort, items[i], rel, code, seen)
  }

  /** The p-th key to be written is `key`, and it is forbidden or its value is where the fault is. */
  ghost predicate InFields(h: Heap, fl: ToFloat, sort: bool, names: seq<Text>, vals: map<Text, Ref>, p: nat, key: Text,
                           rel: Path, code: Code, seen: set<Id>)
    requires Closed(h)
    decreases |rel|, 2
  {
    && p < |names| && names[p] == key && key in vals
    && (forall j :: 0 <= j < p ==> names[j] !in FORBIDDEN && names[j] in vals && CleanRef(h, fl, vals[names[j]], seen))
    && (if key in FORBIDDEN then rel == [] && code == ForbiddenKey
        else Located(h, fl, sort, vals[key], rel, code, seen))
  }

  lemma StepThen(path: Path, s: Step, rel: Path)
    ensures path + [s] + rel == path + ([s] + rel) && ([s] + rel)[1..] == rel
  {
  }

  /** Whatever is refused, the error's path leads from the value to it, for the reason its code says, and it
      is the first refused in the order of the text. */
  lemma {:induction false} FaultLocated(h: Heap, fl: ToFloat, sort: bool, v: Ref, path: Path, seen: set<Id>) returns (rel: Path)
    requires Closed(h) && RefOk(h, v) && Enc(h, fl, sort, v, path, seen).Err?
    ensures Enc(h, fl, sort, v, path, seen).fault.path == path + rel
    ensures Located(h, fl, sort, v, rel, Enc(h, fl, sort, v, path, seen).fault.code, seen)
    decreases h.Keys - seen, 0
  {
    rel := [];
    assert path + [] == path;
    match v
    case HNum(n) => JsNumberIsFloatText(n, fl);
    case At(id) =>
      if id !in seen {
        var inner := seen + {id};
        assert id in h.Keys - seen && id !in h.Keys - inner;
        match h[id]
        case ListNode(items) =>
          var i, tail := ItemLocated(h, fl, sort, items, 0, path, inner);
          StepThen(path, Index(i), tail);
          rel := [Index(i)] + tail;
        case DictNode(keys, vals) =>
          if AllStr(keys) {
            DictOrderMembers(keys, sort);
            DictOrderLength(keys, sort);
            var p, tail := FieldLocated(h, fl, sort, DictOrder(keys, sort), 0, vals, path, inner);
            var key := DictOrder(keys, sort)[p];
            StepThen(path, Member(key), tail);
            rel := [Member(key)] + tail;
          }
      }
    case _ =>
  }

  lemma {:induction false} ItemLocated(h: Heap, fl: ToFloat, sort: bool, items: seq<Ref>, i: nat, path: Path, seen: set<Id>)
      returns (j: nat, rel: Path)
    requires Closed(h) && i <= |items|
    requires forall j :: 0 <= j < |items| ==> RefOk(h, items[j])
    requires EncItems(h, fl, sort, items, i, path, seen).Err?
    requires forall j :: 0 <= j < i ==> CleanRef(h, fl, items[j], seen)
    ensures EncItems(h, fl, sort, items, i, path, seen).fault.path == path + [Index(j)] + rel
    ensures InItems(h, fl, sort, items, j, rel, EncItems(h, fl, sort, items, i, path, seen).fault.code, seen)
    decreases h.Keys - seen, 1 + |items| - i
  {
    EncCleanIff(h, fl, sort, items[i], path + [Index(i)], seen);
    if Enc(h, fl, sort, items[i], path + [Index(i)], seen).Err? {
      j := i;
      rel := FaultLocated(h, fl, sort, items[i], path + [Index(i)], seen);
    } else {
      j, rel := ItemLocated(h, fl, sort, items, i + 1, path, seen);
    }
  }

  lemma {:induction false} FieldLocated(h: Heap, fl: ToFloat, sort: bool, names: seq<Text>, i: nat, vals: map<Text, Ref>,
                                        path: Path, seen: set<Id>)
      returns (p: nat, rel: Path)
    requires Closed(h) && i <= |names|
    requires forall k :: k in names ==> k in vals
    requires forall k :: k in vals ==> RefOk(h, vals[k])
    requires EncFields(h, fl, sort, names, i, vals, path, seen).Err?
    requires forall j :: 0 <= j < i ==> names[j] !in FORBIDDEN && CleanRef(h, fl, vals[names[j]], seen)
    ensures p < |names|
    ensures EncFields(h, fl, sort, names, i, vals, path, seen).fault.path == path + [Member(names[p])] + rel
    ensures InFields(h, fl, sort, names, vals, p, names[p], rel, EncFields(h, fl, sort, names, i, vals, path, seen).fault.code, seen)
    decreases h.Keys - seen, 1 + |names| - i
  {
    ForbiddenKeysAre();
    p, rel := i, [];
    var here := path + [Member(names[i])];
    assert here + [] == here;
    if names[i] !in FORBIDDEN_KEYS {
      EncCleanIff(h, fl, sort, vals[names[i]], here, seen);
      if Enc(h, fl, sort, vals[names[i]], here, seen).Err? {
        rel := FaultLocated(h, fl, sort, vals[names[i]], here, seen);
      } else {
        p, rel := FieldLocated(h, fl, sort, names, i + 1, vals, path, seen);
      }
    }
  }
}
