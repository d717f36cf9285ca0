/** The string operations the ledger tools use: trim, split, line endings, prefixes and suffixes. */
module LedgerText {

  /** What `String.prototype.trim` removes. */
  predicate IsSpace(c: char) {
    || c == ' ' || '\t' <= c <= '\r' || c == '\U{A0}' || c == '\U{1680}' || '\U{2000}' <= c <= '\U{200A}'
    || c == '\U{2028}' || c == '\U{2029}' || c == '\U{202F}' || c == '\U{205F}' || c == '\U{3000}' || c == '\U{FEFF}'
  }

  /** White space and line terminators (sections 12.2 and 12.3 of ECMA-262). */
  const WHITE_SPACE: set<char> := {
    '\U{9}', '\U{A}', '\U{B}', '\U{C}', '\U{D}', '\U{20}', '\U{A0}', '\U{1680}',
    '\U{2000}', '\U{2001}', '\U{2002}', '\U{2003}', '\U{2004}', '\U{2005}', '\U{2006}', '\U{2007}', '\U{2008}',
    '\U{2009}', '\U{200A}', '\U{2028}', '\U{2029}', '\U{202F}', '\U{205F}', '\U{3000}', '\U{FEFF}'
  }

  lemma SpaceIs(c: char)
    ensures IsSpace(c) <==> c in WHITE_SPACE
  {
  }

  function TrimLeft(s: string): string {
    if s != [] && IsSpace(s[0]) then TrimLeft(s[1..]) else s
  }

  function TrimRight(s: string): string {
    if s != [] && IsSpace(s[|s| - 1]) then TrimRight(s[..|s| - 1]) else s
  }

  function Trim(s: string): string { TrimRight(TrimLeft(s)) }

  predicate Blank(s: string) { forall i :: 0 <= i < |s| ==> IsSpace(s[i]) }

  predicate Framed(s: string) { s != [] && !IsSpace(s[0]) && !IsSpace(s[|s| - 1]) }

  predicate StartsWith(s: string, p: string) { |p| <= |s| && s[..|p|] == p }

  predicate EndsWith(s: string, p: string) { |p| <= |s| && s[|s| - |p|..] == p }

  function Split(s: string, sep: char): (parts: seq<string>)
    ensures parts != []
  {
    if s == [] then [[]]
    else
      var rest := Split(s[1..], sep);
      if s[0] == sep then [[]] + rest else [[s[0]] + rest[0]] + rest[1..]
  }

  /** `replace(/\r\n?/g, '\n')`. */
  function Normalise(s: string): string {
    if s == [] then []
    else if s[0] == '\r' then ['\n'] + Normalise(if |s| > 1 && s[1] == '\n' then s[2..] else s[1..])
    else [s[0]] + Normalise(s[1..])
  }

  lemma TailOfSum<T>(x: seq<T>, y: seq<T>)
    requires x != []
    ensures (x + y)[0] == x[0] && (x + y)[1..] == x[1..] + y
  {
  }

  lemma SumOfThree<T>(x: seq<T>, y: seq<T>, z: seq<T>)
    ensures x + (y + z) == x + y + z
  {
  }

  lemma {:induction false} SplitAppend(a: string, b: string, sep: char)
    ensures Split(a + [sep] + b, sep) == Split(a, sep) + Split(b, sep)
  {
    var s := a + [sep] + b;
    if a == [] {
      assert s[1..] == b;
    } else {
      SplitAppend(a[1..], b, sep);
      assert s[1..] == a[1..] + [sep] + b;
      TailOfSum(Split(a[1..], sep), Split(b, sep));
      SumOfThree([if a[0] == sep then [] else [a[0]] + Split(a[1..], sep)[0]],
                 if a[0] == sep then Split(a[1..], sep) else Split(a[1..], sep)[1..], Split(b, sep));
    }
  }

  lemma {:induction false} SplitWhole(s: string, sep: char)
    ensures Split(s, sep) == [s] <==> sep !in s
    ensures |Split(s, sep)| == 1 <==> sep !in s
  {
    if s != [] {
      SplitWhole(s[1..], sep);
      assert s == [s[0]] + s[1..];
    }
  }

  lemma HeadOfSum(a: string, b: string)
    requires a != []
    ensures (a + b)[0] == a[0] && (a + b)[1..] == a[1..] + b
    ensures |a| > 1 ==> (a + b)[1] == a[1] && (a + b)[2..] == a[2..] + b
  {
  }

  lemma {:induction false} NormaliseAppend(a: string, b: string)
    requires a == [] || a[|a| - 1] != '\r'
    ensures Normalise(a + b) == Normalise(a) + Normalise(b)
  {
    if a == [] {
      assert a + b == b;
    } else {
      HeadOfSum(a, b);
      if a[0] == '\r' && a[1] == '\n' {
        NormaliseAppend(a[2..], b);
      } else {
        NormaliseAppend(a[1..], b);
      }
      if a[0] == '\r' {
        SumOfThree(['\n'], Normalise(if a[1] == '\n' then a[2..] else a[1..]), Normalise(b));
      } else {
        SumOfThree([a[0]], Normalise(a[1..]), Normalise(b));
      }
    }
  }

  /** A line feed after a final carriage return belongs to it. */
  lemma {:induction false} NormaliseCrLf(a: string)
    ensures Normalise(a + ['\r', '\n']) == Normalise(a + ['\r'])
  {
    var s, t := a + ['\r', '\n'], a + ['\r'];
    if a == [] {
      assert s[2..] == [] && t[1..] == [];
    } else if a[0] == '\r' && |a| > 1 && a[1] == '\n' {
      assert s[2..] == a[2..] + ['\r', '\n'] && t[2..] == a[2..] + ['\r'];
      NormaliseCrLf(a[2..]);
    } else {
      assert s[1..] == a[1..] + ['\r', '\n'] && t[1..] == a[1..] + ['\r'];
      NormaliseCrLf(a[1..]);
    }
  }

  lemma {:induction false} NormaliseClean(s: string)
    requires '\r' !in s
    ensures Normalise(s) == s
  {
    if s != [] {
      NormaliseClean(s[1..]);
    }
  }

  lemma {:induction false} TrimRightAppend(a: string, b: string)
    ensures TrimRight(a + b) == if TrimRight(b) == [] then TrimRight(a) else a + TrimRight(b)
  {
    var s := a + b;
    if b == [] {
      assert s == a;
    } else if IsSpace(b[|b| - 1]) {
      assert s[..|s| - 1] == a + b[..|b| - 1];
      TrimRightAppend(a, b[..|b| - 1]);
    }
  }

  lemma {:induction false} TrimLeftAppend(a: string, b: string)
    ensures TrimLeft(a + b) == if TrimLeft(a) == [] then TrimLeft(b) else TrimLeft(a) + b
  {
    var s := a + b;
    if a == [] {
      assert s == b;
    } else if IsSpace(a[0]) {
      assert s[1..] == a[1..] + b;
      TrimLeftAppend(a[1..], b);
    }
  }

  lemma {:induction false} TrimLeftBlank(s: string)
    ensures TrimLeft(s) == [] <==> Blank(s)
    ensures TrimLeft(s) != [] ==> !IsSpace(TrimLeft(s)[0])
  {
    if s != [] && IsSpace(s[0]) {
      TrimLeftBlank(s[1..]);
      assert forall i :: 0 < i < |s| ==> s[i] == s[1..][i - 1];
    }
  }

  lemma {:induction false} TrimRightBlank(s: string)
    ensures TrimRight(s) == [] <==> Blank(s)
    ensures |TrimRight(s)| <= |s| && s[..|TrimRight(s)|] == TrimRight(s)
  {
    if s != [] && IsSpace(s[|s| - 1]) {
      TrimRightBlank(s[..|s| - 1]);
      var k := |TrimRight(s)|;
      assert s[..k] == s[..|s| - 1][..k];
      assert forall i :: 0 <= i < |s| - 1 ==> s[i] == s[..|s| - 1][i];
    }
  }

  /** Trimming first on the right changes nothing. */
  lemma {:induction false} TrimOfTrimRight(s: string)
    ensures Trim(TrimRight(s)) == Trim(s)
  {
    if s != [] && IsSpace(s[|s| - 1]) {
      var t := s[..|s| - 1];
      TrimOfTrimRight(t);
      assert s == t + [s[|s| - 1]];
      TrimLeftAppend(t, [s[|s| - 1]]);
      if TrimLeft(t) == [] {
        assert [s[|s| - 1]][1..] == [];
        assert TrimLeft(s) == [];
      } else {
        assert TrimLeft(s)[..|TrimLeft(s)| - 1] == TrimLeft(t);
      }
    } else {
      assert TrimRight(s) == s;
    }
  }

  lemma {:induction false} TrimRightKeeps(s: string, c: char)
    requires !IsSpace(c)
    ensures c in TrimRight(s) <==> c in s
  {
    if s != [] && IsSpace(s[|s| - 1]) {
      TrimRightKeeps(s[..|s| - 1], c);
      assert s == s[..|s| - 1] + [s[|s| - 1]];
    }
  }

  lemma TrimBlank(s: string)
    ensures Trim(s) == [] <==> Blank(s)
  {
    TrimLeftBlank(s);
    if TrimLeft(s) != [] { TrimRightBlank(TrimLeft(s)); }
  }

  lemma TrimSpaced(s: string)
    requires Framed(s)
    ensures Trim(s) == s && Trim(s + " ") == s && Trim(" " + s + " ") == s
  {
    var t := " " + s + " ";
    assert t[1..] == s + " ";
    assert (s + " ")[..|s|] == s;
  }
}
