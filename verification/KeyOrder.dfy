/** `keys.sort(key=_utf16_units)`: a stable sort by the lexicographic order of code units. */
module KeyOrder {
  import opened Utf16

  predicate Less(a: seq<int>, b: seq<int>) {
    b != [] && (a == [] || a[0] < b[0] || (a[0] == b[0] && Less(a[1..], b[1..])))
  }

  /** `a` may stand before `b` in a sorted list. */
  predicate KeyLess(a: Text, b: Text) { Less(Units(a), Units(b)) }

  predicate Tie(a: Text, b: Text) { Units(a) == Units(b) }

  /** At their first difference a has the smaller unit, or a is a proper prefix of b. */
  predicate SmallerAt(a: seq<int>, b: seq<int>, i: nat) {
    && i <= |a| && i < |b| && a[..i] == b[..i]
    && (i == |a| || a[i] < b[i])
  }

  /** The order of tuples of code units, as Python compares them. */
  lemma {:induction false} LessAtFirstDifference(a: seq<int>, b: seq<int>)
    ensures Less(a, b) <==> exists i: nat :: SmallerAt(a, b, i)
  {
    if a == [] {
      if b != [] { assert SmallerAt(a, b, 0); }
    } else if b != [] {
      if a[0] < b[0] { assert SmallerAt(a, b, 0); }
      LessAtFirstDifference(a[1..], b[1..]);
      assert a == [a[0]] + a[1..] && b == [b[0]] + b[1..];
      if i: nat :| SmallerAt(a[1..], b[1..], i) {
        if a[0] == b[0] {
          assert a[..i + 1] == [a[0]] + a[1..][..i] && b[..i + 1] == [b[0]] + b[1..][..i];
          assert SmallerAt(a, b, i + 1);
        }
      }
      if i: nat :| SmallerAt(a, b, i) {
        if i > 0 {
          assert a[0] == a[..i][0] == b[..i][0] == b[0];
          assert a[1..][..i - 1] == a[..i][1..] && b[1..][..i - 1] == b[..i][1..];
          assert SmallerAt(a[1..], b[1..], i - 1);
        }
      }
    }
  }

  lemma LessIrreflexive(a: seq<int>)
    ensures !Less(a, a)
  {
    if a != [] { LessIrreflexive(a[1..]); }
  }

  lemma {:induction false} LessTransitive(a: seq<int>, b: seq<int>, c: seq<int>)
    ensures Less(a, b) && Less(b, c) ==> Less(a, c)
    ensures Less(a, b) && !Less(c, b) ==> Less(a, c)
    ensures !Less(b, a) && Less(b, c) ==> Less(a, c)
  {
    if a != [] && b != [] && c != [] {
      LessTransitive(a[1..], b[1..], c[1..]);
    }
  }

  lemma {:induction false} LessTotal(a: seq<int>, b: seq<int>)
    ensures Less(a, b) || a == b || Less(b, a)
    ensures !(Less(a, b) && Less(b, a))
  {
    if a != [] && b != [] {
      LessTotal(a[1..], b[1..]);
      if a[0] == b[0] && a[1..] == b[1..] {
        assert a == [a[0]] + a[1..] && b == [b[0]] + b[1..];
      }
    }
  }

  function Insert(k: Text, sorted: seq<Text>): (r: seq<Text>)
    ensures multiset(r) == multiset(sorted) + multiset{k}
  {
    if sorted == [] || !KeyLess(sorted[0], k) then [k] + sorted
    else
      assert sorted == [sorted[0]] + sorted[1..];
      [sorted[0]] + Insert(k, sorted[1..])
  }

  function Sort(keys: seq<Text>): (r: seq<Text>)
    ensures multiset(r) == multiset(keys)
    ensures |r| == |keys|
  {
    if keys == [] then [] else
      assert keys == [keys[0]] + keys[1..];
      var r := Insert(keys[0], Sort(keys[1..]));
      assert |multiset(r)| == |multiset(keys)|;
      r
  }

  predicate Sorted(keys: seq<Text>) {
    forall i, j :: 0 <= i < j < |keys| ==> !KeyLess(keys[j], keys[i])
  }

  /** Every pair of keys is strictly ordered: the order "strictly increasing in code units". */
  predicate StrictlySorted(keys: seq<Text>) {
    forall i, j :: 0 <= i < j < |keys| ==> KeyLess(keys[i], keys[j])
  }

  predicate Distinct(keys: seq<Text>) {
    forall i, j :: 0 <= i < j < |keys| ==> keys[i] != keys[j]
  }

  /** No two keys have the same code units. */
  predicate TieFreeKeys(keys: seq<Text>) {
    forall i, j :: 0 <= i < j < |keys| ==> !Tie(keys[i], keys[j])
  }

  lemma SameMembers(a: seq<Text>, b: seq<Text>)
    requires multiset(a) == multiset(b)
    ensures forall k :: k in a <==> k in b
  {
    forall k ensures k in a <==> k in b {
      assert k in a <==> k in multiset(a);
      assert k in b <==> k in multiset(b);
    }
  }

  lemma {:induction false} InsertSorted(k: Text, sorted: seq<Text>)
    requires Sorted(sorted)
    ensures Sorted(Insert(k, sorted))
  {
    var r := Insert(k, sorted);
    if sorted == [] {
    } else if !KeyLess(sorted[0], k) {
      forall i, j | 0 <= i < j < |r| ensures !KeyLess(r[j], r[i]) {
        if i == 0 && j > 1 {
          LessTransitive(Units(sorted[j - 1]), Units(k), Units(sorted[0]));
          LessTotal(Units(sorted[0]), Units(sorted[j - 1]));
          LessTransitive(Units(sorted[0]), Units(sorted[j - 1]), Units(k));
        }
      }
    } else {
      var tail := Insert(k, sorted[1..]);
      InsertSorted(k, sorted[1..]);
      forall i, j | 0 <= i < j < |r| ensures !KeyLess(r[j], r[i]) {
        if i == 0 {
          assert r[j] in multiset(tail);
          assert r[j] == k || r[j] in multiset(sorted[1..]);
          if r[j] == k {
            LessTotal(Units(sorted[0]), Units(k));
          } else {
            var x :| 0 <= x < |sorted[1..]| && sorted[1..][x] == r[j];
            assert sorted[x + 1] == r[j];
          }
        }
      }
    }
  }

  lemma {:induction false} SortSorted(keys: seq<Text>)
    ensures Sorted(Sort(keys))
  {
    if keys != [] {
      SortSorted(keys[1..]);
      InsertSorted(keys[0], Sort(keys[1..]));
    }
  }

  lemma {:induction false} DistinctByMultiset(a: seq<Text>, b: seq<Text>)
    requires multiset(a) == multiset(b)
    ensures Distinct(a) ==> Distinct(b)
  {
    if Distinct(a) {
      forall i, j | 0 <= i < j < |b| ensures b[i] != b[j] {
        if b[i] == b[j] {
          assert b == b[..i] + [b[i]] + b[i + 1..j] + [b[j]] + b[j + 1..];
          assert multiset(b)[b[i]] >= 2;
          OccursOnce(a, b[i]);
          assert false;
        }
      }
    }
  }

  lemma {:induction false} OccursOnce(a: seq<Text>, k: Text)
    requires Distinct(a)
    ensures multiset(a)[k] <= 1
  {
    if a != [] {
      assert a == [a[0]] + a[1..];
      OccursOnce(a[1..], k);
      assert k == a[0] ==> k !in a[1..];
    }
  }

  /** A tie-free list of distinct keys is sorted strictly, by any two keys. */
  lemma StrictWhenTieFree(keys: seq<Text>)
    requires Sorted(keys) && TieFreeKeys(keys)
    ensures StrictlySorted(keys)
  {
    forall i, j | 0 <= i < j < |keys| ensures KeyLess(keys[i], keys[j]) {
      LessTotal(Units(keys[i]), Units(keys[j]));
    }
  }

  lemma TieFreeByMembers(a: seq<Text>, b: seq<Text>)
    requires Distinct(b)
    requires TieFreeKeys(a)
    requires forall k :: k in b ==> k in a
    ensures TieFreeKeys(b)
  {
    forall i, j | 0 <= i < j < |b| ensures !Tie(b[i], b[j]) {
      assert b[i] in a && b[j] in a;
      var x :| 0 <= x < |a| && a[x] == b[i];
      var y :| 0 <= y < |a| && a[y] == b[j];
      if x < y { assert !Tie(a[x], a[y]); } else { assert !Tie(a[y], a[x]); }
    }
  }

  /** Two strictly sorted lists of the same keys are the same list. */
  lemma {:induction false} StrictlySortedUnique(a: seq<Text>, b: seq<Text>)
    requires StrictlySorted(a) && StrictlySorted(b)
    requires forall k :: k in a <==> k in b
    ensures a == b
  {
    assert b != [] ==> b[0] in b;
    if a != [] {
      assert a[0] in b;
      assert b != [] && b[0] in a;
      var y :| 0 <= y < |b| && b[y] == a[0];
      var x :| 0 <= x < |a| && a[x] == b[0];
      if x > 0 && y > 0 {
        LessTotal(Units(a[0]), Units(a[x]));
        assert false;
      }
      assert a[0] == b[0];
      LessIrreflexive(Units(a[0]));
      forall k ensures k in a[1..] <==> k in b[1..] {
        TailMembers(a, k);
        TailMembers(b, k);
      }
      StrictlySortedUnique(a[1..], b[1..]);
      assert a == [a[0]] + a[1..] && b == [b[0]] + b[1..];
    }
  }

  lemma TailMembers(a: seq<Text>, k: Text)
    requires a != [] && StrictlySorted(a)
    ensures k in a[1..] <==> k in a && k != a[0]
  {
    if k in a[1..] {
      var i :| 0 <= i < |a[1..]| && a[1..][i] == k;
      assert KeyLess(a[0], a[i + 1]);
      LessIrreflexive(Units(a[0]));
    }
  }

  /** Sorting forgets the insertion order of tie-free keys. */
  lemma SortForgetsOrder(a: seq<Text>, b: seq<Text>)
    requires Distinct(a) && Distinct(b)
    requires forall k :: k in a <==> k in b
    requires TieFreeKeys(a)
    ensures Sort(a) == Sort(b)
    ensures StrictlySorted(Sort(a))
  {
    TieFreeByMembers(a, b);
    SortStrict(a);
    SortStrict(b);
    SameMembers(a, Sort(a));
    SameMembers(b, Sort(b));
    StrictlySortedUnique(Sort(a), Sort(b));
  }

  lemma SortStrict(a: seq<Text>)
    requires Distinct(a) && TieFreeKeys(a)
    ensures StrictlySorted(Sort(a))
  {
    SortSorted(a);
    SameMembers(a, Sort(a));
    DistinctByMultiset(a, Sort(a));
    TieFreeByMembers(a, Sort(a));
    StrictWhenTieFree(Sort(a));
  }

  /** Stability: keys that tie keep the order in which the dict was filled. */
  function TiedWith(keys: seq<Text>, u: seq<int>): seq<Text> {
    if keys == [] then []
    else (if Units(keys[0]) == u then [keys[0]] else []) + TiedWith(keys[1..], u)
  }

  lemma TiedCons(k: Text, keys: seq<Text>, u: seq<int>)
    ensures TiedWith([k] + keys, u) == (if Units(k) == u then [k] else []) + TiedWith(keys, u)
  {
    assert ([k] + keys)[1..] == keys;
  }

  lemma OneIsEmpty(a: seq<Text>, b: seq<Text>, c: seq<Text>)
    requires a == [] || b == []
    ensures a + (b + c) == b + (a + c)
  {
  }

  lemma {:induction false} InsertStable(k: Text, sorted: seq<Text>, u: seq<int>)
    ensures TiedWith(Insert(k, sorted), u) == (if Units(k) == u then [k] else []) + TiedWith(sorted, u)
  {
    if sorted == [] || !KeyLess(sorted[0], k) {
      TiedCons(k, sorted, u);
    } else {
      InsertStable(k, sorted[1..], u);
      TiedCons(sorted[0], Insert(k, sorted[1..]), u);
      LessIrreflexive(Units(k));
      OneIsEmpty(if Units(sorted[0]) == u then [sorted[0]] else [], if Units(k) == u then [k] else [],
                 TiedWith(sorted[1..], u));
    }
  }

  lemma {:induction false} SortStable(keys: seq<Text>, u: seq<int>)
    ensures TiedWith(Sort(keys), u) == TiedWith(keys, u)
  {
    if keys != [] {
      SortStable(keys[1..], u);
      InsertStable(keys[0], Sort(keys[1..]), u);
    }
  }
}
