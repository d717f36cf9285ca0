/** Decimal digits as characters, and the numbers they spell. */
module DigitStrings {
  import Numbers

  predicate IsDigit(c: char) { '0' <= c <= '9' }

  function DigitChar(d: Numbers.Digit): (c: char)
    ensures IsDigit(c)
  {
    '0' + d as char
  }

  function DigitString(ds: seq<Numbers.Digit>): (s: string)
    ensures |s| == |ds| && forall i :: 0 <= i < |s| ==> s[i] == DigitChar(ds[i])
  {
    seq(|ds|, i requires 0 <= i < |ds| => DigitChar(ds[i]))
  }

  /** The longest run of leading digits, `^(\d+)`. */
  function LeadingDigits(s: string): (ds: seq<Numbers.Digit>)
    ensures |ds| <= |s| && s[..|ds|] == DigitString(ds)
    ensures |ds| < |s| ==> !IsDigit(s[|ds|])
  {
    if s != [] && IsDigit(s[0]) then [(s[0] - '0') as Numbers.Digit] + LeadingDigits(s[1..]) else []
  }

  lemma {:induction false} LeadingOfDigits(ds: seq<Numbers.Digit>, rest: string)
    requires rest == [] || !IsDigit(rest[0])
    ensures LeadingDigits(DigitString(ds) + rest) == ds
  {
    var s := DigitString(ds) + rest;
    if ds == [] {
      assert s == rest;
    } else {
      assert s[1..] == DigitString(ds[1..]) + rest;
      LeadingOfDigits(ds[1..], rest);
    }
  }

  lemma {:induction false} NatZeros(k: nat, ds: seq<Numbers.Digit>)
    ensures Numbers.NatOf(Numbers.Zeros(k) + ds) == Numbers.NatOf(ds)
    decreases k + |ds|
  {
    var s := Numbers.Zeros(k) + ds;
    if ds != [] {
      assert s[..|s| - 1] == Numbers.Zeros(k) + ds[..|ds| - 1];
      NatZeros(k, ds[..|ds| - 1]);
    } else if k > 0 {
      assert s[..|s| - 1] == Numbers.Zeros(k - 1) + ds;
      NatZeros(k - 1, ds);
    }
  }

  predicate AllDigits(s: string) { forall i :: 0 <= i < |s| ==> IsDigit(s[i]) }

  /** `Number(s)` of a string of digits. */
  function Value(s: string): nat { Numbers.NatOf(LeadingDigits(s)) }

  lemma {:induction false} LeadingOfAll(s: string)
    requires AllDigits(s)
    ensures |LeadingDigits(s)| == |s|
  {
    if s != [] { LeadingOfAll(s[1..]); }
  }

  /** The last digit counts once, the digits before it ten times. */
  lemma ValueSnoc(s: string)
    requires s != [] && AllDigits(s)
    ensures Value(s) == Value(s[..|s| - 1]) * 10 + (s[|s| - 1] - '0') as int
  {
    var k := |s| - 1;
    LeadingOfAll(s);
    LeadingPrefix(s, k);
    LeadingAt(s, k);
  }

  lemma {:induction false} LeadingPrefix(s: string, k: nat)
    requires AllDigits(s) && k <= |s|
    ensures |LeadingDigits(s)| == |s| && LeadingDigits(s[..k]) == LeadingDigits(s)[..k]
  {
    LeadingOfAll(s);
    if k > 0 {
      LeadingPrefix(s[1..], k - 1);
      assert s[..k][1..] == s[1..][..k - 1];
    }
  }

  lemma {:induction false} LeadingAt(s: string, k: nat)
    requires AllDigits(s) && k < |s|
    ensures |LeadingDigits(s)| == |s| && LeadingDigits(s)[k] == (s[k] - '0') as int
  {
    LeadingOfAll(s);
    if k > 0 { LeadingAt(s[1..], k - 1); }
  }
}
