/** Text as Python sees it (a sequence of code points, surrogates included) and its
    UTF-16 code units, the order in which JavaScript sorts object keys. */
module Utf16 {

  type CodePoint = c: int | 0 <= c < 0x11_0000 witness 0
  type Text = seq<CodePoint>

  predicate IsHigh(u: int) { 0xD800 <= u < 0xDC00 }
  predicate IsLow(u: int) { 0xDC00 <= u < 0xE000 }

  function UnitsOf(c: CodePoint): seq<int> {
    if c > 0xFFFF then
      var offset := c - 0x1_0000;
      [0xD800 + offset / 0x400, 0xDC00 + offset % 0x400]
    else [c]
  }

  function Units(t: Text): seq<int> {
    if t == [] then [] else UnitsOf(t[0]) + Units(t[1..])
  }

  /** Reading code units back: a high unit directly followed by a low one is one astral character. */
  function Decode(u: seq<int>): Text
    requires forall i :: 0 <= i < |u| ==> 0 <= u[i] <= 0xFFFF
  {
    if u == [] then []
    else if |u| >= 2 && IsHigh(u[0]) && IsLow(u[1]) then
      [0x1_0000 + (u[0] - 0xD800) * 0x400 + (u[1] - 0xDC00)] + Decode(u[2..])
    else [u[0]] + Decode(u[1..])
  }

  /** A high surrogate character directly followed by a low one: the pair that code units cannot
      tell from one astral character. */
  predicate SplitPairAt(t: Text, i: nat) {
    i + 1 < |t| && IsHigh(t[i]) && IsLow(t[i + 1])
  }

  ghost predicate HasSplitPair(t: Text) {
    exists i: nat :: SplitPairAt(t, i)
  }

  lemma UnitsAppend(a: Text, b: Text)
    ensures Units(a + b) == Units(a) + Units(b)
  {
    if a == [] {
      assert a + b == b;
    } else {
      assert (a + b)[1..] == a[1..] + b;
      UnitsAppend(a[1..], b);
    }
  }

  lemma {:induction false} UnitsInRange(t: Text)
    ensures forall i :: 0 <= i < |Units(t)| ==> 0 <= Units(t)[i] <= 0xFFFF
    ensures |Units(t)| >= |t|
    ensures t != [] ==> |Units(t)| > 0 && (IsLow(Units(t)[0]) <==> IsLow(t[0]))
  {
    if t != [] {
      UnitsInRange(t[1..]);
    }
  }

  /** The code units determine the text exactly when it holds no split pair. */
  lemma {:induction false} UnitsDecodeIff(t: Text)
    ensures forall i :: 0 <= i < |Units(t)| ==> 0 <= Units(t)[i] <= 0xFFFF
    ensures |Decode(Units(t))| <= |t|
    ensures Decode(Units(t)) == t <==> !HasSplitPair(t)
    ensures HasSplitPair(t) ==> |Decode(Units(t))| < |t|
  {
    UnitsInRange(t);
    if t == [] {
    } else {
      UnitsInRange(t[1..]);
      UnitsDecodeIff(t[1..]);
      SplitPairTail(t);
      var u := Units(t);
      if t[0] > 0xFFFF {
        assert u[2..] == Units(t[1..]);
        assert Decode(u) == [t[0]] + Decode(Units(t[1..]));
      } else {
        assert u[1..] == Units(t[1..]);
        if SplitPairAt(t, 0) {
          UnitsDecodeIff(t[2..]);
          UnitsInRange(t[2..]);
          assert t[1..][1..] == t[2..];
          assert u[2..] == Units(t[2..]);
          assert |Decode(u)| == 1 + |Decode(Units(t[2..]))| < |t|;
        } else {
          assert Decode(u) == [t[0]] + Decode(Units(t[1..]));
        }
      }
    }
  }

  lemma SplitPairTail(t: Text)
    requires t != []
    ensures HasSplitPair(t) <==> SplitPairAt(t, 0) || HasSplitPair(t[1..])
  {
    if HasSplitPair(t) && !SplitPairAt(t, 0) {
      var i: nat :| SplitPairAt(t, i);
      assert SplitPairAt(t[1..], i - 1);
    }
    if HasSplitPair(t[1..]) {
      var i: nat :| SplitPairAt(t[1..], i);
      assert SplitPairAt(t, i + 1);
    }
  }

  lemma UnitsInjective(a: Text, b: Text)
    requires !HasSplitPair(a) && !HasSplitPair(b)
    requires Units(a) == Units(b)
    ensures a == b
  {
    UnitsDecodeIff(a);
    UnitsDecodeIff(b);
  }

  /** Without the condition two different keys can tie: the pair D83D DE00 and the character 1F600. */
  lemma SplitPairTies()
    ensures [0xD83D, 0xDE00] != [0x1F600]
    ensures Units([0xD83D, 0xDE00]) == Units([0x1F600])
  {
    assert Units([0x1F600]) == UnitsOf(0x1F600) + Units([0x1F600][1..]);
    assert Units([0xD83D, 0xDE00]) == [0xD83D] + ([0xDE00] + Units([0xD83D, 0xDE00][1..][1..]));
  }

  /** The loop of the source; `utf16_length` is the length of its result. */
  method Utf16Units(text: Text) returns (units: seq<int>)
    ensures units == Units(text)
  {
    units := [];
    for i := 0 to |text|
      invariant units == Units(text[..i])
    {
      var codePoint := text[i];
      assert text[..i + 1] == text[..i] + [codePoint];
      UnitsAppend(text[..i], [codePoint]);
      assert Units([codePoint]) == UnitsOf(codePoint);
      if codePoint > 0xFFFF {
        var offset := codePoint - 0x1_0000;
        units := units + [0xD800 + offset / 0x400];
        units := units + [0xDC00 + offset % 0x400];
      } else {
        units := units + [codePoint];
      }
    }
    assert text[..|text|] == text;
  }
}
