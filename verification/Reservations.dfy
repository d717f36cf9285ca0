/** Migration prefixes and names: the next free prefix, slugs and default names. */
module Reservations {
  import opened Options
  import opened LedgerText
  import opened DigitStrings
  import Numbers

  // ---- prefixes ----

  /** `^[0-9]+[a-z]?$`. */
  predicate PrefixShape(s: string) {
    var n := |LeadingDigits(s)|;
    n > 0 && (|s| == n || (|s| == n + 1 && 'a' <= s[n] <= 'z'))
  }

  function Before(s: string, c: char): (r: Option<string>)
    ensures r.None? <==> c !in s
    ensures r.Some? ==> |r.value| < |s| && s[..|r.value|] == r.value && c !in r.value && s[|r.value|] == c
  {
    if s == [] then None
    else if s[0] == c then Some([])
    else
      var rest :- Before(s[1..], c);
      Some([s[0]] + rest)
  }

  function PrefixOf(filename: string): Option<string> {
    match Before(filename, '_')
    case None => None
    case Some(seg) => if PrefixShape(seg) then Some(seg) else None
  }

  function Larger(a: nat, b: nat): nat { if a < b then b else a }

  function NumberAt(file: string): nat { Numbers.NatOf(LeadingDigits(file)) }

  function MaxPrefix(files: seq<string>): nat {
    if files == [] then 0 else Larger(MaxPrefix(files[..|files| - 1]), NumberAt(files[|files| - 1]))
  }

  /** `maxNumericPrefix`: the greatest leading number of any file. */
  method MaxNumericPrefix(files: seq<string>) returns (max: nat)
    ensures max == MaxPrefix(files)
  {
    max := 0;
    for i := 0 to |files|
      invariant max == MaxPrefix(files[..i])
    {
      assert files[..i + 1][..i] == files[..i];
      max := Larger(max, NumberAt(files[i]));
    }
    assert files[..|files|] == files;
  }

  /** It is the greatest of the files' leading numbers, or 0. */
  lemma {:induction false} MaxPrefixBounds(files: seq<string>)
    ensures forall f :: f in files ==> NumberAt(f) <= MaxPrefix(files)
    ensures MaxPrefix(files) > 0 ==> exists f :: f in files && NumberAt(f) == MaxPrefix(files)
  {
    if files != [] {
      var k := |files| - 1;
      assert files == files[..k] + [files[k]];
      MaxPrefixBounds(files[..k]);
      assert files[k] in files;
    }
  }

  /** Zero-padded to at least three digits. */
  function Padded(n: nat): seq<Numbers.Digit> {
    var ds := Numbers.DigitsOf(n);
    if |ds| >= 3 then ds else Numbers.Zeros(3 - |ds|) + ds
  }

  function NextFreePrefix(files: seq<string>): string { DigitString(Padded(MaxPrefix(files) + 1)) }

  lemma PaddedValue(n: nat)
    ensures Numbers.NatOf(Padded(n)) == n && |Padded(n)| >= 3
  {
    Numbers.NatDigits(n);
    NatZeros(if |Numbers.DigitsOf(n)| >= 3 then 0 else 3 - |Numbers.DigitsOf(n)|, Numbers.DigitsOf(n));
  }

  /** A file whose prefix is all digits has exactly those leading digits. */
  lemma PrefixValue(f: string, ds: seq<Numbers.Digit>)
    ensures PrefixOf(f) == Some(DigitString(ds)) ==> NumberAt(f) == Numbers.NatOf(ds)
  {
    if PrefixOf(f) == Some(DigitString(ds)) {
      assert f == DigitString(ds) + f[|ds|..];
      LeadingOfDigits(ds, f[|ds|..]);
    }
  }

  /** The next prefix is well formed and no existing migration has it. */
  lemma NextPrefixFree(files: seq<string>)
    ensures PrefixShape(NextFreePrefix(files))
    ensures forall f :: f in files ==> PrefixOf(f) != Some(NextFreePrefix(files))
  {
    var n := MaxPrefix(files) + 1;
    PaddedValue(n);
    assert DigitString(Padded(n)) + [] == DigitString(Padded(n));
    LeadingOfDigits(Padded(n), []);
    MaxPrefixBounds(files);
    forall f | f in files ensures PrefixOf(f) != Some(NextFreePrefix(files)) {
      PrefixValue(f, Padded(n));
    }
  }

  /** Its number is one more than the greatest leading number, or 1 without files, in decimal digits, and
      zeros stand in front only up to three of them. */
  lemma NextPrefixNumber(files: seq<string>)
    ensures AllDigits(NextFreePrefix(files)) && |NextFreePrefix(files)| >= 3
    ensures |NextFreePrefix(files)| > 3 ==> NextFreePrefix(files)[0] != '0'
    ensures forall f :: f in files ==> NumberAt(f) < Value(NextFreePrefix(files))
    ensures Value(NextFreePrefix(files)) == 1 || exists f :: f in files && Value(NextFreePrefix(files)) == NumberAt(f) + 1
  {
    var n := MaxPrefix(files) + 1;
    PaddedValue(n);
    assert DigitString(Padded(n)) + [] == DigitString(Padded(n));
    LeadingOfDigits(Padded(n), []);
    MaxPrefixBounds(files);
  }

  // ---- the default filename ----

  predicate IsWord(c: char) { 'a' <= c <= 'z' || IsDigit(c) }

  const WORD_CHARS: set<char> := {
    '0', '1', '2', '3', '4', '5', '6', '7', '8', '9',
    'a', 'b', 'c', 'd', 'e', 'f', 'g', 'h', 'i', 'j', 'k', 'l', 'm',
    'n', 'o', 'p', 'q', 'r', 's', 't', 'u', 'v', 'w', 'x', 'y', 'z'
  }

  lemma WordIs(c: char)
    ensures IsWord(c) <==> c in WORD_CHARS
  {
  }

  /** Runs of other characters become one underscore. */
  function Collapse(s: string): string {
    if s == [] then []
    else if IsWord(s[0]) then [s[0]] + Collapse(s[1..])
    else
      var rest := Collapse(s[1..]);
      if rest != [] && rest[0] == '_' then rest else ['_'] + rest
  }

  function StripUnderscores(s: string): string
    decreases |s|
  {
    if s != [] && s[0] == '_' then StripUnderscores(s[1..])
    else if s != [] && s[|s| - 1] == '_' then StripUnderscores(s[..|s| - 1])
    else s
  }

  /** `slugify`, of a purpose already in lower case. */
  function Slugify(lowered: string): string { StripUnderscores(Collapse(lowered)) }

  predicate NameChars(s: string) { forall i :: 0 <= i < |s| ==> IsWord(s[i]) || s[i] == '_' }

  lemma {:induction false} CollapseChars(s: string)
    ensures NameChars(Collapse(s))
    ensures forall i :: 0 <= i < |Collapse(s)| - 1 ==> Collapse(s)[i] != '_' || Collapse(s)[i + 1] != '_'
  {
    if s != [] {
      CollapseChars(s[1..]);
      var rest := Collapse(s[1..]);
      assert IsWord(s[0]) ==> Collapse(s)[1..] == rest;
    }
  }

  lemma {:induction false} StripChars(s: string)
    requires NameChars(s)
    ensures NameChars(StripUnderscores(s))
    ensures StripUnderscores(s) != [] ==> StripUnderscores(s)[0] != '_' && StripUnderscores(s)[|StripUnderscores(s)| - 1] != '_'
    decreases |s|
  {
    if s != [] && s[0] == '_' {
      StripChars(s[1..]);
    } else if s != [] && s[|s| - 1] == '_' {
      StripChars(s[..|s| - 1]);
    }
  }

  /** The letters and digits of a text, in order. */
  function Words(s: string): string {
    if s == [] then [] else (if IsWord(s[0]) then [s[0]] else []) + Words(s[1..])
  }

  lemma {:induction false} WordsSnoc(s: string, c: char)
    requires !IsWord(c)
    ensures Words(s + [c]) == Words(s)
  {
    if s == [] {
      assert s + [c] == [c] && [c][1..] == [];
    } else {
      assert (s + [c])[1..] == s[1..] + [c];
      WordsSnoc(s[1..], c);
    }
  }

  lemma {:induction false} CollapseWords(s: string)
    ensures Words(Collapse(s)) == Words(s)
  {
    if s != [] {
      CollapseWords(s[1..]);
      var rest := Collapse(s[1..]);
      assert ([s[0]] + rest)[1..] == rest && (['_'] + rest)[1..] == rest;
    }
  }

  lemma WordsAfterUnderscore(s: string)
    requires s != [] && s[0] == '_'
    ensures Words(s) == Words(s[1..])
  {
  }

  lemma {:induction false} StripWords(s: string)
    ensures Words(StripUnderscores(s)) == Words(s)
    decreases |s|
  {
    if s != [] && s[0] == '_' {
      WordsAfterUnderscore(s);
      StripWords(s[1..]);
    } else if s != [] && s[|s| - 1] == '_' {
      assert s == s[..|s| - 1] + ['_'];
      WordsSnoc(s[..|s| - 1], '_');
      StripWords(s[..|s| - 1]);
    }
  }

  predicate NoDoubleUnderscore(s: string) { forall i :: 0 <= i < |s| - 1 ==> s[i] != '_' || s[i + 1] != '_' }

  lemma {:induction false} StripSingle(s: string)
    requires NoDoubleUnderscore(s)
    ensures NoDoubleUnderscore(StripUnderscores(s))
    decreases |s|
  {
    if s != [] && s[0] == '_' {
      StripSingle(s[1..]);
    } else if s != [] && s[|s| - 1] == '_' {
      StripSingle(s[..|s| - 1]);
    }
  }

  /** A slug keeps every letter and digit in order, separated by single underscores and none at the ends. */
  lemma SlugShape(lowered: string)
    ensures Words(Slugify(lowered)) == Words(lowered)
    ensures NameChars(Slugify(lowered)) && NoDoubleUnderscore(Slugify(lowered))
    ensures Slugify(lowered) != [] ==> IsWord(Slugify(lowered)[0]) && IsWord(Slugify(lowered)[|Slugify(lowered)| - 1])
  {
    CollapseWords(lowered);
    StripWords(Collapse(lowered));
    CollapseChars(lowered);
    StripChars(Collapse(lowered));
    StripSingle(Collapse(lowered));
  }

  function DefaultName(files: seq<string>, lowered: string): string {
    NextFreePrefix(files) + "_" + Slugify(lowered) + ".sql"
  }

  predicate Forward(file: string) { EndsWith(file, ".sql") && !EndsWith(file, "_down.sql") }

  /** The slug that makes a default name look like a down migration. */
  predicate DownSlug(slug: string) { slug == "down" || EndsWith(slug, "_down") }

  /** Letters and digits, underscores and the dot of the suffix. */
  predicate PlainChars(s: string) { forall i :: 0 <= i < |s| ==> IsWord(s[i]) || s[i] == '_' || s[i] == '.' }

  lemma DefaultNameParts(files: seq<string>, lowered: string)
    ensures NameChars(NextFreePrefix(files)) && '_' !in NextFreePrefix(files) && NextFreePrefix(files) != []
    ensures NameChars(Slugify(lowered))
  {
    PaddedValue(MaxPrefix(files) + 1);
    CollapseChars(lowered);
    StripChars(Collapse(lowered));
    assert forall i :: 0 <= i < |NextFreePrefix(files)| ==> IsDigit(NextFreePrefix(files)[i]);
  }

  lemma PlainFramed(s: string)
    requires s != [] && PlainChars(s)
    ensures Framed(s) && '|' !in s && '\n' !in s && '\r' !in s
  {
  }

  /** The default name has the next prefix, so it is new; its characters are plain. */
  lemma DefaultNameFits(files: seq<string>, lowered: string)
    ensures PrefixOf(DefaultName(files, lowered)) == Some(NextFreePrefix(files))
    ensures DefaultName(files, lowered) !in files
    ensures Framed(DefaultName(files, lowered)) && PlainChars(DefaultName(files, lowered))
  {
    NextPrefixFree(files);
    DefaultNameParts(files, lowered);
    NameCarries(NextFreePrefix(files), Slugify(lowered));
    PlainFramed(DefaultName(files, lowered));
  }

  /** A name put together from a prefix without underscores and a slug has that prefix and plain characters. */
  lemma PlainAppend(a: string, b: string)
    requires PlainChars(a) && PlainChars(b)
    ensures PlainChars(a + b)
  {
  }

  lemma NameCarries(next: string, slug: string)
    requires PrefixShape(next) && NameChars(next) && '_' !in next && NameChars(slug)
    ensures PrefixOf(next + "_" + slug + ".sql") == Some(next)
    ensures PlainChars(next + "_" + slug + ".sql")
  {
    assert next + "_" + slug + ".sql" == next + ("_" + slug + ".sql");
    BeforeIs(next, "_" + slug + ".sql", '_');
    PlainAppend(next, "_");
    PlainAppend(next + "_", slug);
    PlainAppend(next + "_" + slug, ".sql");
  }

  /** It is refused as a down migration exactly for a slug that ends so. */
  lemma DefaultNameForward(files: seq<string>, lowered: string)
    ensures EndsWith(DefaultName(files, lowered), ".sql")
    ensures Forward(DefaultName(files, lowered)) <==> !DownSlug(Slugify(lowered))
  {
    var stem, slug := NextFreePrefix(files) + "_" + Slugify(lowered), Slugify(lowered);
    assert stem[|stem| - |slug|..] == slug && stem[|stem| - |slug| - 1] == '_';
    DownEnding(stem, slug);
    assert (stem + ".sql")[|stem|..] == ".sql";
  }

  lemma BeforeIs(seg: string, rest: string, c: char)
    requires c !in seg && rest != [] && rest[0] == c
    ensures Before(seg + rest, c) == Some(seg)
  {
    var s := seg + rest;
    assert s[|seg|] == c;
  }

  lemma DownEnding(stem: string, slug: string)
    requires |stem| >= |slug| + 1 && stem[|stem| - |slug|..] == slug && stem[|stem| - |slug| - 1] == '_'
    ensures EndsWith(stem + ".sql", "_down.sql") <==> DownSlug(slug)
  {
    var s, n := stem + ".sql", |stem|;
    assert EndsWith(s, "_down.sql") <==> EndsWith(stem, "_down") by {
      if n >= 5 { assert s[|s| - 9..] == stem[n - 5..] + ".sql"; SuffixCancel(stem[n - 5..], "_down", ".sql"); }
    }
    if |slug| >= 5 {
      assert stem[n - 5..] == slug[|slug| - 5..];
    } else if |slug| == 4 {
      assert stem[n - 5..] == ['_'] + slug;
    }
  }

  lemma SuffixCancel(a: string, b: string, c: string)
    ensures a + c == b + c <==> a == b
  {
    if a + c == b + c {
      assert |a| == |b|;
      assert (a + c)[..|a|] == a && (b + c)[..|b|] == b;
    }
  }
}
