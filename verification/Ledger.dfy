/** Parsing the reservation ledger, and what appending one line does to the parse. */
module Ledger {
  import opened Options
  import opened LedgerText
  import opened DigitStrings
  import opened Reservations

  const MARKER: string := "<!-- BEGIN RESERVATIONS"

  datatype Reservation = Reservation(line: nat, prefix: string, filename: string, purpose: string)

  datatype Fault = FieldCount(got: nat) | BadPrefix | NotForward | Mismatch | EmptyPurpose

  datatype LedgerError = LedgerError(line: nat, fault: Fault)

  datatype Parsed = Parsed(reservations: seq<Reservation>, errors: seq<LedgerError>)

  datatype Entry = Nothing | Bad(fault: Fault) | Good(prefix: string, filename: string, purpose: string)

  predicate IsMarker(raw: string) { StartsWith(Trim(raw), MARKER) }

  function ReadFields(parts: seq<string>): Entry {
    if |parts| != 3 then Bad(FieldCount(|parts|))
    else
      var prefix, filename, purpose := Trim(parts[0]), Trim(parts[1]), Trim(parts[2]);
      if !PrefixShape(prefix) then Bad(BadPrefix)
      else if !Forward(filename) then Bad(NotForward)
      else if PrefixOf(filename) != Some(prefix) then Bad(Mismatch)
      else if purpose == "" then Bad(EmptyPurpose)
      else Good(prefix, filename, purpose)
  }

  /** One line below the marker. */
  function ReadLine(raw: string): Entry {
    var trimmed := Trim(raw);
    if trimmed == "" || StartsWith(trimmed, "#") || StartsWith(trimmed, "<!--") then Nothing
    else if '|' !in trimmed then Nothing
    else ReadFields(Split(trimmed, '|'))
  }

  // ---- what a line is ----

  function Bars(s: string): nat { if s == [] then 0 else (if s[0] == '|' then 1 else 0) + Bars(s[1..]) }

  lemma {:induction false} SplitCount(s: string)
    ensures |Split(s, '|')| == Bars(s) + 1
  {
    if s != [] { SplitCount(s[1..]); }
  }

  lemma {:induction false} NoBars(s: string)
    ensures Bars(s) == 0 <==> '|' !in s
  {
    if s != [] {
      NoBars(s[1..]);
      assert s == [s[0]] + s[1..];
    }
  }

  predicate Comment(trimmed: string) { StartsWith(trimmed, "#") || StartsWith(trimmed, "<!--") }

  /** A line is passed over exactly when it is blank, a comment or without a separator, and has the wrong
      number of fields exactly when it has separators but not two. */
  lemma LineSkipped(raw: string)
    ensures ReadLine(raw) == Nothing <==> Trim(raw) == "" || Comment(Trim(raw)) || '|' !in raw
    ensures !ReadLine(raw).Nothing? && Bars(Trim(raw)) != 2 ==> ReadLine(raw) == Bad(FieldCount(Bars(Trim(raw)) + 1))
    ensures ReadLine(raw).Bad? && ReadLine(raw).fault.FieldCount? ==> Bars(Trim(raw)) != 2
  {
    var trimmed := Trim(raw);
    SplitCount(trimmed);
    NoBars(trimmed);
    TrimKeepsBar(raw);
  }

  lemma TrimKeepsBar(s: string)
    ensures '|' in Trim(s) <==> '|' in s
  {
    TrimLeftKeepsBar(s);
    TrimRightKeeps(TrimLeft(s), '|');
  }

  lemma {:induction false} TrimLeftKeepsBar(s: string)
    ensures '|' in TrimLeft(s) <==> '|' in s
  {
    if s != [] && IsSpace(s[0]) {
      TrimLeftKeepsBar(s[1..]);
      assert s == [s[0]] + s[1..];
    }
  }

  /** A line of three fields that is no comment: the reservation, or the first fault in the order checked. */
  lemma LineOfThree(raw: string, a: string, b: string, c: string)
    requires '|' !in a && '|' !in b && '|' !in c && Trim(raw) == a + ['|'] + (b + ['|'] + c) && !Comment(Trim(raw))
    ensures ReadLine(raw) ==
            if !PrefixShape(Trim(a)) then Bad(BadPrefix)
            else if !EndsWith(Trim(b), ".sql") || EndsWith(Trim(b), "_down.sql") then Bad(NotForward)
            else if PrefixOf(Trim(b)) != Some(Trim(a)) then Bad(Mismatch)
            else if Blank(c) then Bad(EmptyPurpose)
            else Good(Trim(a), Trim(b), Trim(c))
  {
    SplitAppend(a, b + ['|'] + c, '|');
    SplitAppend(b, c, '|');
    SplitWhole(a, '|');
    SplitWhole(b, '|');
    SplitWhole(c, '|');
    TrimBlank(c);
    assert Trim(raw)[|a|] == '|';
    assert Split(Trim(raw), '|') == [a, b, c];
  }

  /** Entries start below the first line that begins, trimmed, with the marker. */
  lemma MarkerForm(raw: string)
    ensures IsMarker(raw) <==> exists rest :: Trim(raw) == "<!-- BEGIN RESERVATIONS" + rest
  {
    if IsMarker(raw) { assert Trim(raw) == MARKER + Trim(raw)[|MARKER|..]; }
    if rest :| Trim(raw) == "<!-- BEGIN RESERVATIONS" + rest { assert Trim(raw)[..|MARKER|] == MARKER; }
  }

  function Add(p: Parsed, line: nat, e: Entry): Parsed {
    match e
    case Nothing => p
    case Bad(fault) => p.(errors := p.errors + [LedgerError(line, fault)])
    case Good(prefix, filename, purpose) =>
      p.(reservations := p.reservations + [Reservation(line, prefix, filename, purpose)])
  }

  predicate Opened(lines: seq<string>) { exists i :: 0 <= i < |lines| && IsMarker(lines[i]) }

  /** The lines up to the last one, then the last one if the marker came before it. */
  function ParseLines(lines: seq<string>): Parsed {
    if lines == [] then Parsed([], [])
    else
      var k := |lines| - 1;
      var before := ParseLines(lines[..k]);
      if Opened(lines[..k]) then Add(before, k + 1, ReadLine(lines[k])) else before
  }

  function Lines(content: string): seq<string> { Split(Normalise(content), '\n') }

  function Parse(content: string): Parsed { ParseLines(Lines(content)) }

  /** `parseLedger`. */
  method ParseLedger(content: string) returns (reservations: seq<Reservation>, errors: seq<LedgerError>)
    ensures Parsed(reservations, errors) == Parse(content)
  {
    reservations, errors := [], [];
    var lines := Lines(content);
    var inEntries := false;
    for i := 0 to |lines|
      invariant Parsed(reservations, errors) == ParseLines(lines[..i])
      invariant inEntries <==> Opened(lines[..i])
    {
      assert lines[..i + 1][..i] == lines[..i] && lines[..i + 1][i] == lines[i];
      OpenedSnoc(lines, i);
      if !inEntries {
        if IsMarker(lines[i]) { inEntries := true; }
        continue;
      }
      match ReadLine(lines[i])
      case Nothing =>
      case Bad(fault) => errors := errors + [LedgerError(i + 1, fault)];
      case Good(prefix, filename, purpose) =>
        reservations := reservations + [Reservation(i + 1, prefix, filename, purpose)];
    }
    assert lines[..|lines|] == lines;
  }

  lemma OpenedSnoc(lines: seq<string>, i: nat)
    requires i < |lines|
    ensures Opened(lines[..i + 1]) <==> Opened(lines[..i]) || IsMarker(lines[i])
  {
    if k :| 0 <= k < i && IsMarker(lines[..i][k]) {
      assert IsMarker(lines[..i + 1][k]);
    }
    assert lines[..i + 1][i] == lines[i];
  }

  // ---- the appended line ----

  /** What `main` of the reserve tool appends, given the ledger as it is. */
  function EntryLine(file: string, prefix: string, purpose: string): string { prefix + " | " + file + " | " + purpose }

  predicate EndsLine(s: string) { s != [] && s[|s| - 1] == '\n' }

  function Appended(content: string, entry: string): string {
    if EndsLine(content) then content + entry + "\n" else content + "\n" + entry + "\n"
  }

  /** A name the line can carry: no field separator, no line break, no space at either end. */
  predicate PlainName(file: string) { Framed(file) && '|' !in file && '\n' !in file && '\r' !in file }

  lemma {:induction false} NoSpaceDigit(s: string)
    requires PrefixShape(s)
    ensures Framed(s) && '|' !in s && '\n' !in s && '\r' !in s && IsDigit(s[0])
  {
    var n := |LeadingDigits(s)|;
    assert forall i :: 0 <= i < n ==> s[i] == s[..n][i];
    assert s[0] == s[..n][0];
  }

  /** A line cut at its two outer separators. */
  function Joined(prefix: string, file: string, rest: string): string {
    (prefix + " ") + ['|'] + ((" " + file + " ") + ['|'] + rest)
  }

  lemma EntryIsJoined(prefix: string, file: string, purpose: string)
    ensures EntryLine(file, prefix, purpose) == Joined(prefix, file, " " + purpose)
  {
  }

  lemma JoinedTail(prefix: string, file: string, rest: string)
    ensures Joined(prefix, file, rest) == Joined(prefix, file, "") + rest
  {
  }

  lemma JoinedHead(prefix: string, file: string)
    requires PrefixShape(prefix)
    ensures Framed(Joined(prefix, file, "")) && Joined(prefix, file, "")[0] == prefix[0]
    ensures '|' in Joined(prefix, file, "")
  {
    NoSpaceDigit(prefix);
    var head := Joined(prefix, file, "");
    assert head[|head| - 1] == '|';
  }

  lemma TrimLeadingSpace(purpose: string)
    ensures TrimRight(" " + purpose) == if Blank(purpose) then "" else " " + TrimRight(purpose)
  {
    TrimRightAppend(" ", purpose);
    TrimRightBlank(purpose);
    TrimRightBlank(" ");
  }

  lemma FramedKept(head: string)
    requires Framed(head)
    ensures TrimLeft(head) == head && TrimRight(head) == head
  {
  }

  lemma TrimFramedHead(head: string, purpose: string)
    requires Framed(head)
    ensures Trim(head + (" " + purpose)) == head + if Blank(purpose) then "" else " " + TrimRight(purpose)
  {
    FramedKept(head);
    TrimLeftAppend(head, " " + purpose);
    TrimRightAppend(head, " " + purpose);
    TrimLeadingSpace(purpose);
  }

  lemma TrimEntry(prefix: string, file: string, purpose: string)
    requires PrefixShape(prefix)
    ensures Trim(EntryLine(file, prefix, purpose)) ==
            Joined(prefix, file, if Blank(purpose) then "" else " " + TrimRight(purpose))
  {
    JoinedHead(prefix, file);
    EntryIsJoined(prefix, file, purpose);
    JoinedTail(prefix, file, " " + purpose);
    TrimFramedHead(Joined(prefix, file, ""), purpose);
    JoinedTail(prefix, file, if Blank(purpose) then "" else " " + TrimRight(purpose));
  }

  lemma SplitEntry(prefix: string, file: string, rest: string)
    requires '|' !in prefix && '|' !in file
    ensures Split(Joined(prefix, file, rest), '|') == [prefix + " ", " " + file + " "] + Split(rest, '|')
  {
    SplitAppend(prefix + " ", (" " + file + " ") + ['|'] + rest, '|');
    SplitAppend(" " + file + " ", rest, '|');
    SplitWhole(prefix + " ", '|');
    SplitWhole(" " + file + " ", '|');
  }

  lemma TrimRest(purpose: string)
    ensures Trim(if Blank(purpose) then "" else " " + TrimRight(purpose)) == Trim(purpose)
  {
    TrimBlank(purpose);
    if !Blank(purpose) {
      assert (" " + TrimRight(purpose))[1..] == TrimRight(purpose);
      TrimOfTrimRight(purpose);
    }
  }

  lemma NotPrefixed(s: string, p: string)
    requires s != [] && p != [] && s[0] != p[0]
    ensures !StartsWith(s, p)
  {
    if |p| <= |s| { assert s[..|p|][0] == s[0]; }
  }

  /** A line that starts like a prefix and has a separator goes to its fields. */
  lemma ReachesFields(prefix: string, file: string, rest: string, raw: string)
    requires PrefixShape(prefix) && Trim(raw) == Joined(prefix, file, rest)
    ensures ReadLine(raw) == ReadFields(Split(Joined(prefix, file, rest), '|'))
  {
    JoinedHead(prefix, file);
    JoinedTail(prefix, file, rest);
    NoSpaceDigit(prefix);
    var trimmed := Trim(raw);
    assert IsDigit(trimmed[0]);
    NotPrefixed(trimmed, "#");
    NotPrefixed(trimmed, "<!--");
    assert '|' in Joined(prefix, file, "") + rest;
  }

  /** Exactly what the guard reads back from an appended line. */
  lemma ReadBack(prefix: string, file: string, purpose: string)
    requires PrefixShape(prefix) && PlainName(file) && PrefixOf(file) == Some(prefix)
    ensures ReadLine(EntryLine(file, prefix, purpose)) ==
            if '|' in purpose then Bad(FieldCount(|Split(TrimRight(purpose), '|')| + 2))
            else if !Forward(file) then Bad(NotForward)
            else if Blank(purpose) then Bad(EmptyPurpose)
            else Good(prefix, file, Trim(purpose))
  {
    var rest := if Blank(purpose) then "" else " " + TrimRight(purpose);
    NoSpaceDigit(prefix);
    TrimEntry(prefix, file, purpose);
    ReachesFields(prefix, file, rest, EntryLine(file, prefix, purpose));
    SplitEntry(prefix, file, rest);
    TrimSpaced(prefix);
    TrimSpaced(file);
    FieldsOf(prefix, file, rest, purpose);
  }

  lemma FieldsOf(prefix: string, file: string, rest: string, purpose: string)
    requires PrefixShape(prefix) && PrefixOf(file) == Some(prefix)
    requires Trim(prefix + " ") == prefix && Trim(" " + file + " ") == file
    requires rest == if Blank(purpose) then "" else " " + TrimRight(purpose)
    ensures ReadFields([prefix + " ", " " + file + " "] + Split(rest, '|')) ==
            if '|' in purpose then Bad(FieldCount(|Split(TrimRight(purpose), '|')| + 2))
            else if !Forward(file) then Bad(NotForward)
            else if Blank(purpose) then Bad(EmptyPurpose)
            else Good(prefix, file, Trim(purpose))
  {
    TrimRest(purpose);
    TrimBlank(purpose);
    RestSeparators(purpose);
    SplitWhole(rest, '|');
    SplitSpaced(TrimRight(purpose));
  }

  lemma RestSeparators(purpose: string)
    ensures '|' in (if Blank(purpose) then "" else " " + TrimRight(purpose)) <==> '|' in purpose
    ensures '|' in purpose ==> !Blank(purpose)
  {
    TrimRightKeeps(purpose, '|');
  }

  lemma SplitSpaced(s: string)
    ensures |Split(" " + s, '|')| == |Split(s, '|')|
  {
    assert (" " + s)[1..] == s;
  }

  // ---- appending to a whole ledger ----

  /** Normalised text ends its last line exactly when the raw text does, by either line ending. */
  lemma {:induction false} EndingKept(s: string)
    ensures EndsLine(Normalise(s)) <==> s != [] && (s[|s| - 1] == '\n' || s[|s| - 1] == '\r')
  {
    if |s| > 1 {
      var rest := if s[0] == '\r' && s[1] == '\n' then s[2..] else s[1..];
      EndingKept(rest);
      NormaliseNotEmpty(rest);
    }
  }

  lemma NormaliseNotEmpty(s: string)
    ensures Normalise(s) == [] <==> s == []
  {
  }

  /** The normalised text is the old one, its last line closed, and then the entry. */
  lemma NormaliseAppended(content: string, entry: string)
    requires '\r' !in entry
    ensures Normalise(Appended(content, entry)) ==
            (if EndsLine(Normalise(content)) then Normalise(content) else Normalise(content) + "\n") + (entry + "\n")
  {
    var tail := entry + "\n";
    NormaliseClean(tail);
    EndingKept(content);
    if EndsLine(content) {
      NormaliseAppend(content, tail);
      assert Appended(content, entry) == content + tail;
    } else {
      assert Appended(content, entry) == content + "\n" + tail;
      NormaliseAppend(content + "\n", tail);
      ClosedLine(content);
    }
  }

  lemma ClosedLine(content: string)
    requires !EndsLine(content)
    ensures Normalise(content + "\n") == if EndsLine(Normalise(content)) then Normalise(content) else Normalise(content) + "\n"
  {
    EndingKept(content);
    if content != [] && content[|content| - 1] == '\r' {
      var a := content[..|content| - 1];
      NormaliseCrLf(a);
      assert content == a + ['\r'] && content + "\n" == a + ['\r', '\n'];
    } else {
      NormaliseAppend(content, "\n");
      NormaliseClean("\n");
    }
  }

  /** Line by line: the old lines without the empty end, the entry, the empty end. */
  lemma LinesAppended(content: string, entry: string) returns (kept: seq<string>)
    requires '\r' !in entry && '\n' !in entry
    ensures Lines(Appended(content, entry)) == kept + [entry] + [""]
    ensures Lines(content) == kept || Lines(content) == kept + [""]
  {
    var n := Normalise(content);
    NormaliseAppended(content, entry);
    var body := if EndsLine(n) then n[..|n| - 1] else n;
    kept := Split(body, '\n');
    assert (if EndsLine(n) then n else n + "\n") == body + ['\n'];
    if EndsLine(n) { LineClosed(body); }
    LastLines(body, entry);
  }

  lemma LineClosed(body: string)
    ensures Split(body + ['\n'], '\n') == Split(body, '\n') + [""]
  {
    assert body + ['\n'] + [] == body + ['\n'];
    SplitAppend(body, [], '\n');
  }

  lemma LastLines(body: string, entry: string)
    requires '\n' !in entry
    ensures Split(body + ['\n'] + (entry + "\n"), '\n') == Split(body, '\n') + [entry] + [""]
  {
    SplitAppend(body, entry + "\n", '\n');
    LineClosed(entry);
    SplitWhole(entry, '\n');
  }

  lemma ParseSnoc(lines: seq<string>, raw: string)
    ensures ParseLines(lines + [raw]) ==
            if Opened(lines) then Add(ParseLines(lines), |lines| + 1, ReadLine(raw)) else ParseLines(lines)
  {
    var all := lines + [raw];
    assert all[..|all| - 1] == lines;
  }

  lemma OpenedEmpty(lines: seq<string>)
    ensures Opened(lines + [""]) <==> Opened(lines)
  {
    var all := lines + [""];
    assert !IsMarker("");
    OpenedSnoc(all, |lines|);
    assert all[..|lines|] == lines && all[..|lines| + 1] == all;
  }

  /** Appending to an opened ledger adds what its one line reads as, and nothing else. */
  lemma OpenedLonger(lines: seq<string>, raw: string)
    requires Opened(lines)
    ensures Opened(lines + [raw])
  {
    OpenedSnoc(lines + [raw], |lines|);
    assert (lines + [raw])[..|lines|] == lines && (lines + [raw])[..|lines| + 1] == lines + [raw];
  }

  lemma ReadEmpty()
    ensures ReadLine("") == Nothing
  {
  }

  /** A blank last line adds nothing. */
  lemma ParseBlank(lines: seq<string>)
    ensures ParseLines(lines + [""]) == ParseLines(lines)
  {
    ParseSnoc(lines, "");
    ReadEmpty();
  }

  lemma ParseEntry(kept: seq<string>, entry: string)
    requires Opened(kept)
    ensures ParseLines(kept + [entry] + [""]) == Add(ParseLines(kept), |kept| + 1, ReadLine(entry))
    ensures Opened(kept + [entry] + [""])
  {
    ParseSnoc(kept, entry);
    ParseBlank(kept + [entry]);
    OpenedLonger(kept, entry);
    OpenedLonger(kept + [entry], "");
  }

  lemma ParseKept(lines: seq<string>, kept: seq<string>)
    requires lines == kept || lines == kept + [""]
    ensures ParseLines(lines) == ParseLines(kept) && (Opened(lines) <==> Opened(kept))
  {
    if lines == kept + [""] {
      ParseBlank(kept);
      OpenedEmpty(kept);
    }
  }

  lemma LinesParsed(lines: seq<string>, next: seq<string>, kept: seq<string>, entry: string)
    requires Opened(lines) && (lines == kept || lines == kept + [""]) && next == kept + [entry] + [""]
    ensures ParseLines(next) == Add(ParseLines(lines), |kept| + 1, ReadLine(entry)) && Opened(next)
  {
    ParseKept(lines, kept);
    ParseEntry(kept, entry);
  }

  lemma ParseAppended(content: string, entry: string) returns (line: nat)
    requires '\r' !in entry && '\n' !in entry && Opened(Lines(content))
    ensures Parse(Appended(content, entry)) == Add(Parse(content), line, ReadLine(entry))
    ensures Opened(Lines(Appended(content, entry)))
  {
    var kept := LinesAppended(content, entry);
    line := |kept| + 1;
    LinesParsed(Lines(content), Lines(Appended(content, entry)), kept, entry);
  }

  /**
   * The ledger round trip, for a purpose without line breaks and any file with a conforming prefix:
   * the parse gains exactly one reservation, or exactly one error, and which one is decided here.
   */
  lemma RoundTrip(content: string, file: string, prefix: string, purpose: string) returns (line: nat)
    requires Opened(Lines(content)) && PlainName(file) && PrefixOf(file) == Some(prefix)
    requires '\n' !in purpose && '\r' !in purpose
    ensures var old_, next := Parse(content), Parse(Appended(content, EntryLine(file, prefix, purpose)));
            if '|' !in purpose && !Blank(purpose) && Forward(file)
            then next == Parsed(old_.reservations + [Reservation(line, prefix, file, Trim(purpose))], old_.errors)
            else next.reservations == old_.reservations && |next.errors| == |old_.errors| + 1
  {
    PrefixConforms(file);
    NoSpaceDigit(prefix);
    ReadBack(prefix, file, purpose);
    line := ParseAppended(content, EntryLine(file, prefix, purpose));
  }

  lemma PrefixConforms(file: string)
    requires PrefixOf(file).Some?
    ensures PrefixShape(PrefixOf(file).value)
  {
  }
}
