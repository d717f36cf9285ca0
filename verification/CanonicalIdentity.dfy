/** What canonical text identifies: the value with objects as maps and numbers as doubles. */
module CanonicalIdentity {
  import opened Options
  import opened Utf16
  import opened KeyOrder
  import opened Numbers
  import opened Strings
  import opened CanonicalText

  /** A value without insertion order: objects are maps. */
  datatype Meaning =
    | MNull
    | MBool(b: bool)
    | MNum(d: Double)
    | MStr(t: Text)
    | MArr(items: seq<Meaning>)
    | MObj(vals: map<Text, Meaning>)

  ghost function Denote(v: Value): Meaning {
    match v
    case Null => MNull
    case Bool(b) => MBool(b)
    case Num(d) => MNum(d)
    case Str(t) => MStr(t)
    case Arr(items) => MArr(seq(|items|, i requires 0 <= i < |items| => Denote(items[i])))
    case Obj(keys, vals) => MObj(map k | k in vals :: Denote(vals[k]))
  }

  /** The value with the keys of every object sorted. */
  ghost function Canon(v: Value): Value {
    match v
    case Arr(items) => Arr(seq(|items|, i requires 0 <= i < |items| => Canon(items[i])))
    case Obj(keys, vals) => Obj(Sort(keys), map k | k in vals :: Canon(vals[k]))
    case _ => v
  }

  lemma {:induction false} CanonWf(v: Value)
    requires Wf(v)
    ensures Wf(Canon(v))
  {
    match v
    case Arr(items) =>
      forall i | 0 <= i < |items| ensures Wf(Canon(items[i])) { CanonWf(items[i]); }
    case Obj(keys, vals) =>
      SameMembers(keys, Sort(keys));
      DistinctByMultiset(keys, Sort(keys));
      forall k | k in vals ensures Wf(Canon(vals[k])) { CanonWf(vals[k]); }
    case _ =>
  }

  lemma {:induction false} CanonDenotes(v: Value)
    ensures Denote(Canon(v)) == Denote(v)
  {
    match v
    case Arr(items) =>
      forall i | 0 <= i < |items| ensures Denote(Canon(items[i])) == Denote(items[i]) { CanonDenotes(items[i]); }
      assert Denote(Canon(v)).items == Denote(v).items;
    case Obj(keys, vals) =>
      forall k | k in vals ensures Denote(Canon(vals[k])) == Denote(vals[k]) { CanonDenotes(vals[k]); }
      assert Denote(Canon(v)).vals == Denote(v).vals;
    case _ =>
  }

  /** Sorting while printing prints the sorted value. */
  lemma {:induction false} PutCanon(v: Value, k: Text)
    requires Wf(v)
    ensures Wf(Canon(v)) && Put(v, true, k) == Put(Canon(v), false, k)
    decreases v, if v.Obj? then |v.keys| + 1 else 0
  {
    CanonWf(v);
    match v
    case Arr(items) =>
      PutItemsCanon(items, Canon(v).items, true, [RBRACKET] + k);
    case Obj(keys, vals) =>
      SameMembers(keys, Sort(keys));
      PutFieldsCanon(v, Sort(keys), true, [RBRACE] + k);
    case _ =>
  }

  lemma {:induction false} PutItemsCanon(items: seq<Value>, canon: seq<Value>, first: bool, k: Text)
    requires |canon| == |items|
    requires forall i :: 0 <= i < |items| ==> Wf(items[i]) && canon[i] == Canon(items[i]) && Wf(canon[i])
    ensures PutItems(items, first, true, k) == PutItems(canon, first, false, k)
    decreases items, 0
  {
    if items != [] {
      PutItemsCanon(items[1..], canon[1..], false, k);
      PutCanon(items[0], PutItems(items[1..], false, true, k));
    }
  }

  lemma {:induction false} PutFieldsCanon(v: Value, keys: seq<Text>, first: bool, k: Text)
    requires Wf(v) && v.Obj? && Wf(Canon(v))
    requires forall key :: key in keys ==> key in v.vals
    ensures PutFields(v, keys, first, true, k) == PutFields(Canon(v), keys, first, false, k)
    decreases v, |keys|
  {
    if keys != [] {
      PutFieldsCanon(v, keys[1..], false, k);
      PutCanon(v.vals[keys[0]], PutFields(v, keys[1..], false, true, k));
    }
  }

  /** The parser reads canonical text back, whatever follows it. */
  lemma ParsePrinted(v: Value, sort: bool, k: Text)
    requires Wf(v) && EndsNumeral(k)
    ensures ParseValue(Put(v, sort, k)) == Some((if sort then Canon(v) else v, k))
  {
    if sort {
      PutCanon(v, k);
      ParsePut(Canon(v), k);
    } else {
      ParsePut(v, k);
    }
  }

  /** Unique decodability: text followed by anything that does not extend a numeral determines the
      value (objects as maps) and where it ends. */
  lemma UniquelyDecodable(v: Value, w: Value, j: Text, k: Text)
    requires Wf(v) && Wf(w) && EndsNumeral(j) && EndsNumeral(k)
    requires Put(v, true, j) == Put(w, true, k)
    ensures Canon(v) == Canon(w) && Denote(v) == Denote(w) && j == k
  {
    ParsePrinted(v, true, j);
    ParsePrinted(w, true, k);
    CanonDenotes(v);
    CanonDenotes(w);
  }

  /** At no depth do two keys of one object have the same code units. */
  ghost predicate TieFree(v: Value) {
    match v
    case Arr(items) => forall i :: 0 <= i < |items| ==> TieFree(items[i])
    case Obj(keys, vals) => TieFreeKeys(keys) && forall k :: k in vals ==> TieFree(vals[k])
    case _ => true
  }

  lemma SameItems(v: Value, w: Value)
    requires v.Arr? && Denote(v) == Denote(w)
    ensures w.Arr? && |w.items| == |v.items|
    ensures forall i :: 0 <= i < |v.items| ==> Denote(v.items[i]) == Denote(w.items[i])
  {
    assert |v.items| == |Denote(v).items| == |Denote(w).items|;
    forall i | 0 <= i < |v.items| ensures Denote(v.items[i]) == Denote(w.items[i]) {
      assert Denote(v).items[i] == Denote(w).items[i];
    }
  }

  lemma SameFields(v: Value, w: Value)
    requires v.Obj? && Denote(v) == Denote(w)
    ensures w.Obj? && w.vals.Keys == v.vals.Keys
    ensures forall k :: k in v.vals ==> Denote(v.vals[k]) == Denote(w.vals[k])
  {
    assert v.vals.Keys == Denote(v).vals.Keys == w.vals.Keys;
    forall k | k in v.vals ensures Denote(v.vals[k]) == Denote(w.vals[k]) {
      assert Denote(v).vals[k] == Denote(w).vals[k];
    }
  }

  lemma SameCanonArr(v: Value, w: Value)
    requires v.Arr? && w.Arr? && |v.items| == |w.items|
    requires forall i :: 0 <= i < |v.items| ==> Canon(v.items[i]) == Canon(w.items[i])
    ensures Canon(v) == Canon(w)
  {
    assert Canon(v).items == Canon(w).items;
  }

  lemma CanonField(v: Value, k: Text)
    requires v.Obj? && k in v.vals
    ensures Canon(v).Obj? && k in Canon(v).vals && Canon(v).vals[k] == Canon(v.vals[k])
  {
  }

  lemma CanonShape(v: Value)
    requires v.Obj?
    ensures Canon(v).Obj? && Canon(v).keys == Sort(v.keys) && Canon(v).vals.Keys == v.vals.Keys
  {
  }

  lemma SameCanonObj(v: Value, w: Value)
    requires v.Obj? && w.Obj? && v.vals.Keys == w.vals.Keys && Sort(v.keys) == Sort(w.keys)
    requires forall k :: k in v.vals ==> Canon(v.vals[k]) == Canon(w.vals[k])
    ensures Canon(v) == Canon(w)
  {
    CanonShape(v);
    CanonShape(w);
    forall k | k in v.vals ensures Canon(v).vals[k] == Canon(w).vals[k] {
      CanonField(v, k);
      CanonField(w, k);
    }
    SameMap(Canon(v).vals, Canon(w).vals);
  }

  lemma SameMap<K, V>(a: map<K, V>, b: map<K, V>)
    requires a.Keys == b.Keys && forall k :: k in a.Keys ==> a[k] == b[k]
    ensures a == b
  {
  }

  /** Equal maps print equally, whatever their insertion order and at every depth. */
  lemma {:induction false} MeaningFixesCanon(v: Value, w: Value)
    requires Wf(v) && Wf(w) && TieFree(v)
    requires Denote(v) == Denote(w)
    ensures Canon(v) == Canon(w)
  {
    match v
    case Arr(items) =>
      SameItems(v, w);
      forall i | 0 <= i < |items| ensures Canon(items[i]) == Canon(w.items[i]) {
        MeaningFixesCanon(items[i], w.items[i]);
      }
      SameCanonArr(v, w);
    case Obj(keys, vals) =>
      SameFields(v, w);
      SortForgetsOrder(keys, w.keys);
      forall k | k in vals ensures Canon(vals[k]) == Canon(w.vals[k]) {
        MeaningFixesCanon(vals[k], w.vals[k]);
      }
      SameCanonObj(v, w);
    case _ =>
  }

  /** The identity: two values have the same canonical text exactly when they mean the same. */
  lemma SameTextIffSameMeaning(v: Value, w: Value)
    requires Wf(v) && Wf(w) && TieFree(v)
    ensures Print(v, true) == Print(w, true) <==> Denote(v) == Denote(w)
  {
    if Print(v, true) == Print(w, true) {
      UniquelyDecodable(v, w, [], []);
    }
    if Denote(v) == Denote(w) {
      MeaningFixesCanon(v, w);
      PutCanon(v, []);
      PutCanon(w, []);
    }
  }

  // ---- ties are exactly what order independence needs to exclude ----

  lemma TiedWithNonempty(keys: seq<Text>, i: nat)
    requires i < |keys|
    ensures TiedWith(keys, Units(keys[i])) != []
  {
    if i > 0 { TiedWithNonempty(keys[1..], i - 1); }
  }

  lemma MoveToFront(keys: seq<Text>, p: nat) returns (other: seq<Text>)
    requires Distinct(keys) && p < |keys|
    ensures other == [keys[p]] + (keys[..p] + keys[p + 1..])
    ensures Distinct(other) && forall k :: k in other <==> k in keys
  {
    var g := keys[p];
    other := [g] + (keys[..p] + keys[p + 1..]);
    assert keys == keys[..p] + [g] + keys[p + 1..];
    assert multiset(other) == multiset(keys);
    SameMembers(keys, other);
    DistinctByMultiset(keys, other);
  }

  /** Another insertion order of the same keys that sorts differently. */
  lemma ReorderTied(keys: seq<Text>, i: nat, j: nat) returns (other: seq<Text>)
    requires Distinct(keys) && i < j < |keys| && Tie(keys[i], keys[j])
    ensures Distinct(other) && (forall k :: k in other <==> k in keys)
    ensures Sort(other) != Sort(keys)
  {
    var u := Units(keys[i]);
    TiedWithNonempty(keys, i);
    var p := if TiedWith(keys, u)[0] == keys[i] then j else i;
    other := MoveToFront(keys, p);
    assert TiedWith(other, u)[0] == keys[p];
    SortStable(keys, u);
    SortStable(other, u);
  }

  lemma ReplaceItem(items: seq<Value>, i: nat, c: Value)
    requires i < |items| && Wf(Arr(items)) && Wf(c)
    requires Denote(c) == Denote(items[i]) && Canon(c) != Canon(items[i])
    ensures Wf(Arr(items[i := c])) && Denote(Arr(items[i := c])) == Denote(Arr(items))
    ensures Canon(Arr(items[i := c])) != Canon(Arr(items))
  {
    var v, w := Arr(items), Arr(items[i := c]);
    assert Denote(w).items == Denote(v).items;
    assert Canon(w).items[i] == Canon(c) && Canon(v).items[i] == Canon(items[i]);
  }

  lemma DenoteField(v: Value, k: Text)
    requires v.Obj? && k in v.vals
    ensures Denote(v).MObj? && k in Denote(v).vals && Denote(v).vals[k] == Denote(v.vals[k])
  {
  }

  lemma DenoteKeys(v: Value)
    requires v.Obj?
    ensures Denote(v).MObj? && Denote(v).vals.Keys == v.vals.Keys
  {
  }

  lemma SameDenoteObj(v: Value, w: Value)
    requires v.Obj? && w.Obj? && v.vals.Keys == w.vals.Keys
    requires forall k :: k in v.vals ==> Denote(v.vals[k]) == Denote(w.vals[k])
    ensures Denote(v) == Denote(w)
  {
    DenoteKeys(v);
    DenoteKeys(w);
    forall k | k in v.vals ensures Denote(v).vals[k] == Denote(w).vals[k] {
      DenoteField(v, k);
      DenoteField(w, k);
    }
    SameMap(Denote(v).vals, Denote(w).vals);
  }

  lemma ReplaceField(keys: seq<Text>, vals: map<Text, Value>, key: Text, c: Value)
    requires key in vals && Wf(Obj(keys, vals)) && Wf(c)
    requires Denote(c) == Denote(vals[key]) && Canon(c) != Canon(vals[key])
    ensures Wf(Obj(keys, vals[key := c])) && Denote(Obj(keys, vals[key := c])) == Denote(Obj(keys, vals))
    ensures Canon(Obj(keys, vals[key := c])) != Canon(Obj(keys, vals))
  {
    var v, w := Obj(keys, vals), Obj(keys, vals[key := c]);
    SameDenoteObj(w, v);
    CanonField(v, key);
    CanonField(w, key);
  }

  lemma {:induction false} TieBreaksOrder(v: Value) returns (w: Value)
    requires Wf(v) && !TieFree(v)
    ensures Wf(w) && Denote(w) == Denote(v) && Canon(w) != Canon(v)
  {
    match v {
      case Arr(items) =>
        var i :| 0 <= i < |items| && !TieFree(items[i]);
        var c := TieBreaksOrder(items[i]);
        ReplaceItem(items, i, c);
        w := Arr(items[i := c]);
      case Obj(keys, vals) =>
        if !TieFreeKeys(keys) {
          var i: nat, j: nat :| i < j < |keys| && Tie(keys[i], keys[j]);
          var other := ReorderTied(keys, i, j);
          w := Obj(other, vals);
        } else {
          var key :| key in vals && !TieFree(vals[key]);
          var c := TieBreaksOrder(vals[key]);
          ReplaceField(keys, vals, key, c);
          w := Obj(keys, vals[key := c]);
        }
    }
  }

  /** A value prints the same in every insertion order exactly when none of its objects holds a tie. */
  lemma OrderIndependentIffTieFree(v: Value)
    requires Wf(v)
    ensures TieFree(v) <==>
            (forall w :: Wf(w) && Denote(w) == Denote(v) ==> Print(w, true) == Print(v, true))
  {
    if TieFree(v) {
      forall w | Wf(w) && Denote(w) == Denote(v) ensures Print(w, true) == Print(v, true) {
        SameTextIffSameMeaning(v, w);
      }
    } else {
      var w := TieBreaksOrder(v);
      if Print(w, true) == Print(v, true) {
        UniquelyDecodable(w, v, [], []);
      }
    }
  }

  /** No key of any object holds a split surrogate pair. */
  ghost predicate NoSplitKeys(v: Value) {
    match v
    case Arr(items) => forall i :: 0 <= i < |items| ==> NoSplitKeys(items[i])
    case Obj(keys, vals) =>
      && (forall i :: 0 <= i < |keys| ==> !HasSplitPair(keys[i]))
      && forall k :: k in vals ==> NoSplitKeys(vals[k])
    case _ => true
  }

  lemma {:induction false} NoSplitKeysTieFree(v: Value)
    requires Wf(v) && NoSplitKeys(v)
    ensures TieFree(v)
  {
    match v
    case Arr(items) =>
      forall i | 0 <= i < |items| ensures TieFree(items[i]) { NoSplitKeysTieFree(items[i]); }
    case Obj(keys, vals) =>
      forall i, j | 0 <= i < j < |keys| ensures !Tie(keys[i], keys[j]) {
        if Tie(keys[i], keys[j]) { UnitsInjective(keys[i], keys[j]); }
      }
      forall k | k in vals ensures TieFree(vals[k]) { NoSplitKeysTieFree(vals[k]); }
    case _ =>
  }

  /** The keys of the emitted object are strictly increasing in UTF-16 code units. */
  lemma EmittedKeysIncrease(v: Value)
    requires Wf(v) && v.Obj? && TieFree(v)
    ensures StrictlySorted(Canon(v).keys)
  {
    SortStrict(v.keys);
  }

  // ---- the text can always be encoded in UTF-8 ----

  lemma CharsEncodable(ds: seq<Digit>)
    ensures Encodable(Chars(ds))
  {
  }

  lemma EncodableAppend(a: Text, b: Text)
    requires Encodable(a) && Encodable(b)
    ensures Encodable(a + b)
  {
  }

  lemma MagnitudeEncodable(digits: seq<Digit>, exp: int)
    requires digits != []
    ensures Encodable(Magnitude(digits, exp))
  {
    var n := exp + |digits|;
    if |digits| <= n <= 21 {
    } else if 0 < n <= 21 {
      CharsEncodable(digits[..n]);
      CharsEncodable(digits[n..]);
      EncodableAppend(Chars(digits[..n]) + [DOT], Chars(digits[n..]));
    } else if -6 < n <= 0 {
      CharsEncodable(Zeros(-n) + digits);
    } else {
      assert Encodable(Mantissa(digits));
      assert Encodable(ExponentText(n - 1));
      EncodableAppend(Mantissa(digits), ExponentText(n - 1));
    }
  }

  lemma FloatTextEncodable(d: Double, k: Text)
    requires Encodable(k)
    ensures Encodable(FloatText(d) + k)
  {
    if d.Fin? {
      MagnitudeEncodable(d.digits, d.exp);
      EncodableAppend(if d.neg then [MINUS] else [], Magnitude(d.digits, d.exp));
    }
    EncodableAppend(FloatText(d), k);
  }

  lemma {:induction false} PutEncodable(v: Value, sort: bool, k: Text)
    requires Wf(v) && Encodable(k)
    ensures Encodable(Put(v, sort, k))
    decreases v, if v.Obj? then |v.keys| + 1 else 0
  {
    match v
    case Null => EncodableAppend(NULL_TEXT, k);
    case Bool(b) => EncodableAppend(if b then TRUE_TEXT else FALSE_TEXT, k);
    case Num(d) => FloatTextEncodable(d, k);
    case Str(t) =>
      EncodableAppend([QUOTE], k);
      PutCharsEncodable(t, [QUOTE] + k);
      EncodableAppend([QUOTE], PutChars(t, [QUOTE] + k));
    case Arr(items) =>
      EncodableAppend([RBRACKET], k);
      PutItemsEncodable(items, true, sort, [RBRACKET] + k);
      EncodableAppend([LBRACKET], PutItems(items, true, sort, [RBRACKET] + k));
    case Obj(keys, vals) =>
      SameMembers(keys, Sort(keys));
      var names := if sort then Sort(keys) else keys;
      EncodableAppend([RBRACE], k);
      PutFieldsEncodable(v, names, true, sort, [RBRACE] + k);
      EncodableAppend([LBRACE], PutFields(v, names, true, sort, [RBRACE] + k));
  }

  lemma {:induction false} PutItemsEncodable(items: seq<Value>, first: bool, sort: bool, k: Text)
    requires (forall i :: 0 <= i < |items| ==> Wf(items[i])) && Encodable(k)
    ensures Encodable(PutItems(items, first, sort, k))
    decreases items, 0
  {
    if items != [] {
      PutItemsEncodable(items[1..], false, sort, k);
      PutEncodable(items[0], sort, PutItems(items[1..], false, sort, k));
    }
  }

  lemma {:induction false} PutFieldsEncodable(v: Value, keys: seq<Text>, first: bool, sort: bool, k: Text)
    requires Wf(v) && v.Obj? && (forall key :: key in keys ==> key in v.vals) && Encodable(k)
    ensures Encodable(PutFields(v, keys, first, sort, k))
    decreases v, |keys|
  {
    if keys != [] {
      var rest := PutFields(v, keys[1..], false, sort, k);
      PutFieldsEncodable(v, keys[1..], false, sort, k);
      PutEncodable(v.vals[keys[0]], sort, rest);
      PutCharsEncodable(keys[0], [QUOTE] + ([COLON] + Put(v.vals[keys[0]], sort, rest)));
    }
  }
}
