/** String literals of well-formed `JSON.stringify` (section 25.5.2 of ECMA-262, QuoteJSONString),
    and the reader that inverts them. */
module Strings {
  import opened Options
  import opened Utf16

  const QUOTE: CodePoint := 0x22
  const BACKSLASH: CodePoint := 0x5C

  predicate IsSurrogate(c: int) { 0xD800 <= c <= 0xDFFF }

  /** The letter of the two-character escapes; 0 when there is none. */
  function ShortEscape(c: CodePoint): CodePoint {
    if c == 0x08 then 0x62
    else if c == 0x09 then 0x74
    else if c == 0x0A then 0x6E
    else if c == 0x0C then 0x66
    else if c == 0x0D then 0x72
    else if c == 0x22 then 0x22
    else if c == 0x5C then 0x5C
    else 0
  }

  function HexDigit(n: int): CodePoint
    requires 0 <= n < 16
  {
    if n < 10 then 0x30 + n else 0x61 + (n - 10)
  }

  function HexEscape(c: int): Text
    requires 0 <= c <= 0xFFFF
  {
    [BACKSLASH, 0x75, HexDigit(c / 0x1000), HexDigit(c / 0x100 % 0x10), HexDigit(c / 0x10 % 0x10), HexDigit(c % 0x10)]
  }

  function EscapeChar(c: CodePoint): (t: Text)
    ensures t != []
  {
    if ShortEscape(c) != 0 then [BACKSLASH, ShortEscape(c)]
    else if c < 0x20 || IsSurrogate(c) then HexEscape(c)
    else [c]
  }

  /** The escaped characters of t followed by k. */
  function PutChars(t: Text, k: Text): Text {
    if t == [] then k else EscapeChar(t[0]) + PutChars(t[1..], k)
  }

  /** The literal of t followed by k. */
  function PutString(t: Text, k: Text): Text {
    [QUOTE] + PutChars(t, [QUOTE] + k)
  }

  /** `_js_string`. */
  function JsString(t: Text): Text { PutString(t, []) }

  // ---- reading ----

  function HexValue(c: CodePoint): (r: int)
    ensures -1 <= r < 16
  {
    if 0x30 <= c <= 0x39 then c - 0x30 else if 0x61 <= c <= 0x66 then c - 0x61 + 10 else -1
  }

  function LongShort(c: CodePoint): int {
    if c == 0x62 then 0x08
    else if c == 0x74 then 0x09
    else if c == 0x6E then 0x0A
    else if c == 0x66 then 0x0C
    else if c == 0x72 then 0x0D
    else if c == 0x22 then 0x22
    else if c == 0x5C then 0x5C
    else -1
  }

  /** One (possibly escaped) character at the front of s; None at a quote, a raw control character
      or a malformed escape. */
  function ReadChar(s: Text): (r: Option<(CodePoint, Text)>)
    ensures r.Some? ==> |r.value.1| < |s|
  {
    if s == [] || s[0] == QUOTE || s[0] < 0x20 then None
    else if s[0] != BACKSLASH then Some((s[0], s[1..]))
    else if |s| >= 2 && LongShort(s[1]) >= 0 then Some((LongShort(s[1]), s[2..]))
    else if |s| >= 6 && s[1] == 0x75
            && HexValue(s[2]) >= 0 && HexValue(s[3]) >= 0 && HexValue(s[4]) >= 0 && HexValue(s[5]) >= 0 then
      Some((HexValue(s[2]) * 0x1000 + HexValue(s[3]) * 0x100 + HexValue(s[4]) * 0x10 + HexValue(s[5]), s[6..]))
    else None
  }

  /** Characters up to the closing quote, which is consumed. */
  function ReadChars(s: Text): (r: Option<(Text, Text)>)
    ensures r.Some? ==> |r.value.1| < |s|
    decreases |s|
  {
    if s != [] && s[0] == QUOTE then Some(([], s[1..]))
    else
      var (c, s1) :- ReadChar(s);
      var (t, rest) :- ReadChars(s1);
      Some(([c] + t, rest))
  }

  lemma HexDigitValue(n: int)
    requires 0 <= n < 16
    ensures HexValue(HexDigit(n)) == n
  {
  }

  /** Four nibbles are the number. */
  lemma Nibbles(c: nat)
    requires c <= 0xFFFF
    ensures c / 0x1000 < 16
    ensures c / 0x1000 * 0x1000 + c / 0x100 % 0x10 * 0x100 + c / 0x10 % 0x10 * 0x10 + c % 0x10 == c
  {
    var a := c / 0x10;
    var b := a / 0x10;
    assert c == a * 0x10 + c % 0x10 && a == b * 0x10 + a % 0x10;
    assert c / 0x100 == b;
    assert c / 0x1000 == b / 0x10;
    assert b == b / 0x10 * 0x10 + b % 0x10;
  }

  lemma ReadFour(a: CodePoint, b: CodePoint, c: CodePoint, d: CodePoint, k: Text)
    requires HexValue(a) >= 0 && HexValue(b) >= 0 && HexValue(c) >= 0 && HexValue(d) >= 0
    requires HexValue(a) * 0x1000 + HexValue(b) * 0x100 + HexValue(c) * 0x10 + HexValue(d) <= 0x10FFFF
    ensures ReadChar([BACKSLASH, 0x75, a, b, c, d] + k) ==
            Some((HexValue(a) * 0x1000 + HexValue(b) * 0x100 + HexValue(c) * 0x10 + HexValue(d), k))
  {
    var s := [BACKSLASH, 0x75, a, b, c, d] + k;
    assert s[6..] == k;
    assert LongShort(s[1]) == -1;
  }

  lemma ReadHexEscape(c: CodePoint, k: Text)
    requires c <= 0xFFFF
    ensures ReadChar(HexEscape(c) + k) == Some((c, k))
  {
    Nibbles(c);
    HexDigitValue(c / 0x1000);
    HexDigitValue(c / 0x100 % 0x10);
    HexDigitValue(c / 0x10 % 0x10);
    HexDigitValue(c % 0x10);
    ReadFour(HexDigit(c / 0x1000), HexDigit(c / 0x100 % 0x10), HexDigit(c / 0x10 % 0x10), HexDigit(c % 0x10), k);
  }

  lemma ReadCharEscaped(c: CodePoint, k: Text)
    ensures ReadChar(EscapeChar(c) + k) == Some((c, k))
  {
    if ShortEscape(c) == 0 && (c < 0x20 || IsSurrogate(c)) {
      ReadHexEscape(c, k);
    } else {
      var s := EscapeChar(c) + k;
      assert s[|EscapeChar(c)|..] == k;
    }
  }

  /** The reader recovers every string: lone surrogates, control characters, quotes, backslashes. */
  lemma {:induction false} ReadPutChars(t: Text, k: Text)
    ensures ReadChars(PutChars(t, [QUOTE] + k)) == Some((t, k))
  {
    if t == [] {
      assert ([QUOTE] + k)[1..] == k;
    } else {
      var rest := PutChars(t[1..], [QUOTE] + k);
      ReadCharEscaped(t[0], rest);
      ReadPutChars(t[1..], k);
      assert EscapeChar(t[0])[0] != QUOTE;
      assert [t[0]] + t[1..] == t;
    }
  }

  lemma {:induction false} PutCharsAppend(t: Text, j: Text, k: Text)
    ensures PutChars(t, j + k) == PutChars(t, j) + k
  {
    if t != [] {
      PutCharsAppend(t[1..], j, k);
    }
  }

  lemma {:induction false} PutCharsSnoc(t: Text, c: CodePoint, k: Text)
    ensures PutChars(t + [c], k) == PutChars(t, EscapeChar(c) + k)
  {
    if t == [] {
      assert (t + [c])[1..] == [];
    } else {
      assert (t + [c])[1..] == t[1..] + [c];
      PutCharsSnoc(t[1..], c, k);
    }
  }

  /** No raw control character and no surrogate: `encode("utf-8")` cannot fail. */
  predicate Encodable(t: Text) {
    forall i :: 0 <= i < |t| ==> t[i] >= 0x20 && !IsSurrogate(t[i])
  }

  lemma {:induction false} PutCharsEncodable(t: Text, k: Text)
    requires Encodable(k)
    ensures Encodable(PutChars(t, k))
  {
    if t != [] {
      PutCharsEncodable(t[1..], k);
    }
  }

  lemma PutCharsPrefix(t: Text, i: nat)
    requires i < |t|
    ensures PutChars(t[..i + 1], []) == PutChars(t[..i], []) + EscapeChar(t[i])
  {
    assert t[..i + 1] == t[..i] + [t[i]];
    PutCharsSnoc(t[..i], t[i], []);
    assert EscapeChar(t[i]) + [] == [] + EscapeChar(t[i]);
    PutCharsAppend(t[..i], [], EscapeChar(t[i]));
  }

  lemma PutStringParts(t: Text)
    ensures PutString(t, []) == [QUOTE] + PutChars(t, []) + [QUOTE]
  {
    assert [QUOTE] + [] == [] + [QUOTE];
    PutCharsAppend(t, [], [QUOTE]);
  }

  // ---- what a literal looks like, code point by code point ----

  /** p is what stands for the code point c between the quotes: two characters for seven of them, `\u` and
      four hex digits for the other controls and the surrogates, and c itself otherwise. */
  predicate Spells(p: Text, c: CodePoint) {
    if c == 0x08 then p == [0x5C, 0x62]
    else if c == 0x09 then p == [0x5C, 0x74]
    else if c == 0x0A then p == [0x5C, 0x6E]
    else if c == 0x0C then p == [0x5C, 0x66]
    else if c == 0x0D then p == [0x5C, 0x72]
    else if c == 0x22 then p == [0x5C, 0x22]
    else if c == 0x5C then p == [0x5C, 0x5C]
    else if c < 0x20 || 0xD800 <= c <= 0xDFFF then SpellsHex(p, c)
    else p == [c]
  }

  /** `0`..`9` or `a`..`f`. */
  predicate IsLowerHex(x: CodePoint) { 0x30 <= x <= 0x39 || 0x61 <= x <= 0x66 }

  function Nibble(x: CodePoint): int { if x <= 0x39 then x - 0x30 else x - 0x57 }

  predicate SpellsHex(p: Text, c: CodePoint) {
    && |p| == 6 && p[0] == 0x5C && p[1] == 0x75
    && IsLowerHex(p[2]) && IsLowerHex(p[3]) && IsLowerHex(p[4]) && IsLowerHex(p[5])
    && c == Nibble(p[2]) * 0x1000 + Nibble(p[3]) * 0x100 + Nibble(p[4]) * 0x10 + Nibble(p[5])
  }

  lemma HexDigitIs(n: int)
    requires 0 <= n < 16
    ensures IsLowerHex(HexDigit(n)) && Nibble(HexDigit(n)) == n
  {
  }

  lemma HexSpelled(c: CodePoint)
    requires c <= 0xFFFF
    ensures SpellsHex(HexEscape(c), c)
  {
    Nibbles(c);
    HexDigitIs(c / 0x1000);
    HexDigitIs(c / 0x100 % 0x10);
    HexDigitIs(c / 0x10 % 0x10);
    HexDigitIs(c % 0x10);
  }

  lemma CharSpelled(c: CodePoint)
    ensures Spells(EscapeChar(c), c)
  {
    if c <= 0xFFFF { HexSpelled(c); }
  }

  /** The literal of a text, to the last code point: a quote, the spelling of each character, a quote. */
  lemma StringForm(t: Text) returns (parts: seq<Text>)
    ensures |parts| == |t| && forall i :: 0 <= i < |t| ==> Spells(parts[i], t[i])
    ensures JsString(t) == [0x22] + Join(parts) + [0x22]
  {
    parts := SpellAll(t);
    PutStringParts(t);
  }

  lemma {:induction false} SpellAll(t: Text) returns (parts: seq<Text>)
    ensures |parts| == |t| && forall i :: 0 <= i < |t| ==> Spells(parts[i], t[i])
    ensures Join(parts) == PutChars(t, [])
  {
    if t == [] {
      parts := [];
    } else {
      var rest := SpellAll(t[1..]);
      CharSpelled(t[0]);
      parts := [EscapeChar(t[0])] + rest;
      assert parts[1..] == rest;
      assert forall i :: 0 < i < |t| ==> parts[i] == rest[i - 1] && t[i] == t[1..][i - 1];
    }
  }

  /** After the opening quote, part j + 1 spells character j. */
  predicate Spelling(parts: seq<Text>, t: Text) {
    && |parts| == |t| + 1 && parts[0] == [0x22]
    && forall i :: 0 <= i < |t| ==> Spells(parts[i + 1], t[i])
  }

  lemma OneMore(parts: seq<Text>, text: Text, i: nat)
    requires i < |text| && Join(parts) == [QUOTE] + PutChars(text[..i], []) && Spelling(parts, text[..i])
    ensures var more := parts + [EscapeChar(text[i])];
            Join(more) == [QUOTE] + PutChars(text[..i + 1], []) && Spelling(more, text[..i + 1])
  {
    JoinSnoc(parts, EscapeChar(text[i]));
    PutCharsPrefix(text, i);
    CharSpelled(text[i]);
    ThreeParts([QUOTE], PutChars(text[..i], []), EscapeChar(text[i]));
    assert text[..i + 1] == text[..i] + [text[i]];
  }

  lemma ThreeParts(a: Text, b: Text, c: Text)
    ensures a + b + c == a + (b + c)
  {
  }

  /** The loop of the source: parts are appended to a list that is joined at the end. */
  method JsStringParts(text: Text) returns (parts: seq<Text>)
    ensures Join(parts) == JsString(text)
    ensures |parts| == |text| + 2 && parts[0] == [0x22] && parts[|text| + 1] == [0x22]
    ensures forall i :: 0 <= i < |text| ==> Spells(parts[i + 1], text[i])
  {
    parts := [[QUOTE]];
    JoinSnoc([], [QUOTE]);
    for i := 0 to |text|
      invariant Join(parts) == [QUOTE] + PutChars(text[..i], [])
      invariant Spelling(parts, text[..i])
    {
      var codePoint := text[i];
      var escape := ShortEscape(codePoint);
      OneMore(parts, text, i);
      if escape != 0 {
        parts := parts + [[BACKSLASH, escape]];
      } else if codePoint < 0x20 || 0xD800 <= codePoint <= 0xDFFF {
        parts := parts + [HexEscape(codePoint)];
      } else {
        parts := parts + [[codePoint]];
      }
    }
    assert text[..|text|] == text;
    JoinSnoc(parts, [QUOTE]);
    parts := parts + [[QUOTE]];
    PutStringParts(text);
  }

  /** `"".join(parts)`. */
  function Join(parts: seq<Text>): Text {
    if parts == [] then [] else parts[0] + Join(parts[1..])
  }

  lemma {:induction false} JoinAppend(a: seq<Text>, b: seq<Text>)
    ensures Join(a + b) == Join(a) + Join(b)
  {
    if a == [] {
      assert a + b == b;
    } else {
      assert (a + b)[1..] == a[1..] + b;
      JoinAppend(a[1..], b);
    }
  }

  lemma JoinSnoc(parts: seq<Text>, t: Text)
    ensures Join(parts + [t]) == Join(parts) + t
  {
    JoinAppend(parts, [t]);
    assert [t][1..] == [];
  }
}
