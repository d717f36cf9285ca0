/** The guard that cross-checks the ledger against the migrations on disk. */
module LedgerGuard {
  import opened Options
  import opened LedgerText
  import opened Reservations
  import opened Ledger

  datatype Problem =
    | Duplicate(filename: string, firstLine: nat, line: nat)
    | Unreserved(file: string)
    | Stale(line: nat, filename: string)
    | SharedPrefix(prefix: string, files: seq<string>)

  predicate Reserved(rs: seq<Reservation>, file: string) { exists i :: 0 <= i < |rs| && rs[i].filename == file }

  predicate NamedOnce(rs: seq<Reservation>) {
    forall i, j :: 0 <= i < j < |rs| ==> rs[i].filename != rs[j].filename
  }

  /** The files with a given prefix, in directory order. */
  function FilesWith(files: seq<string>, prefix: string): seq<string> {
    if files == [] then []
    else
      var k := |files| - 1;
      FilesWith(files[..k], prefix) + if PrefixOf(files[k]) == Some(prefix) then [files[k]] else []
  }

  lemma {:induction false} FilesWithMembers(files: seq<string>, prefix: string, f: string)
    ensures f in FilesWith(files, prefix) <==> f in files && PrefixOf(f) == Some(prefix)
  {
    if files != [] {
      FilesWithMembers(files[..|files| - 1], prefix, f);
      assert files == files[..|files| - 1] + [files[|files| - 1]];
    }
  }

  predicate PrefixesAllowed(files: seq<string>, allowed: set<string>) {
    forall i, j :: 0 <= i < j < |files| && PrefixOf(files[i]).Some? && PrefixOf(files[i]) == PrefixOf(files[j])
      ==> PrefixOf(files[i]).value in allowed
  }

  /** Reserved names and files match one to one, and every shared prefix is grandfathered. */
  predicate Healthy(rs: seq<Reservation>, files: seq<string>, allowed: set<string>) {
    && NamedOnce(rs)
    && (forall f :: f in files ==> Reserved(rs, f))
    && (forall r :: r in rs ==> r.filename in files)
    && PrefixesAllowed(files, allowed)
  }

  ghost predicate OneWith(files: seq<string>, prefix: string) {
    exists i :: 0 <= i < |files| && PrefixOf(files[i]) == Some(prefix)
  }

  ghost predicate TwoWith(files: seq<string>, prefix: string) {
    exists i, j :: 0 <= i < j < |files| && PrefixOf(files[i]) == Some(prefix) && PrefixOf(files[j]) == Some(prefix)
  }

  lemma OneSnoc(files: seq<string>, last: string, prefix: string)
    ensures OneWith(files + [last], prefix) <==> OneWith(files, prefix) || PrefixOf(last) == Some(prefix)
  {
    var all := files + [last];
    assert all[|files|] == last && forall i :: 0 <= i < |files| ==> all[i] == files[i];
  }

  lemma TwoSnoc(files: seq<string>, last: string, prefix: string)
    ensures TwoWith(files + [last], prefix) <==>
              TwoWith(files, prefix) || (OneWith(files, prefix) && PrefixOf(last) == Some(prefix))
  {
    var all := files + [last];
    assert all[|files|] == last && forall i :: 0 <= i < |files| ==> all[i] == files[i];
    if OneWith(files, prefix) && PrefixOf(last) == Some(prefix) {
      var i :| 0 <= i < |files| && PrefixOf(files[i]) == Some(prefix);
      assert PrefixOf(all[i]) == Some(prefix) && PrefixOf(all[|files|]) == Some(prefix);
    }
    if TwoWith(files, prefix) {
      var i, j :| 0 <= i < j < |files| && PrefixOf(files[i]) == Some(prefix) && PrefixOf(files[j]) == Some(prefix);
      assert PrefixOf(all[i]) == Some(prefix) && PrefixOf(all[j]) == Some(prefix);
    }
  }

  lemma {:induction false} SharedIffTwo(files: seq<string>, prefix: string)
    ensures FilesWith(files, prefix) != [] <==> OneWith(files, prefix)
    ensures |FilesWith(files, prefix)| > 1 <==> TwoWith(files, prefix)
  {
    if files != [] {
      var init, last := files[..|files| - 1], files[|files| - 1];
      assert files == init + [last];
      SharedIffTwo(init, prefix);
      OneSnoc(init, last, prefix);
      TwoSnoc(init, last, prefix);
    }
  }

  /** Line rs[j] repeats the name of rs[i], which is the first to have it. */
  predicate Repeats(rs: seq<Reservation>, i: nat, j: nat) {
    && i < j < |rs| && rs[i].filename == rs[j].filename
    && forall k :: 0 <= k < i ==> rs[k].filename != rs[j].filename
  }

  ghost predicate IsDuplicate(rs: seq<Reservation>, p: Problem) {
    p.Duplicate? && exists i: nat, j: nat :: Repeats(rs, i, j) && p == Duplicate(rs[j].filename, rs[i].line, rs[j].line)
  }

  /** Duplicate lines: one problem for each line after the first for the same file, naming both. */
  method FindDuplicates(rs: seq<Reservation>) returns (problems: seq<Problem>)
    ensures problems == [] <==> NamedOnce(rs)
    ensures forall p :: p in problems <==> IsDuplicate(rs, p)
  {
    problems := [];
    var seen: map<string, nat> := map[];
    for j := 0 to |rs|
      invariant Tracked(rs[..j], seen, problems)
    {
      TrackedStep(rs, j, seen, problems);
      if rs[j].filename in seen {
        problems := problems + [Duplicate(rs[j].filename, seen[rs[j].filename], rs[j].line)];
      } else {
        seen := seen[rs[j].filename := rs[j].line];
      }
    }
    assert rs[..|rs|] == rs;
  }

  /** What the loop knows after the lines rs: the first line of each name, and the duplicates. */
  ghost predicate Tracked(rs: seq<Reservation>, seen: map<string, nat>, problems: seq<Problem>) {
    && (forall f :: f in seen <==> Reserved(rs, f))
    && (forall f :: f in seen ==> FirstAt(rs, f, seen[f]))
    && (problems == [] <==> NamedOnce(rs))
    && (forall p :: p in problems <==> IsDuplicate(rs, p))
  }

  lemma TrackedStep(rs: seq<Reservation>, j: nat, seen: map<string, nat>, problems: seq<Problem>)
    requires j < |rs| && Tracked(rs[..j], seen, problems)
    ensures rs[j].filename in seen ==>
              Tracked(rs[..j + 1], seen, problems + [Duplicate(rs[j].filename, seen[rs[j].filename], rs[j].line)])
    ensures rs[j].filename !in seen ==> Tracked(rs[..j + 1], seen[rs[j].filename := rs[j].line], problems)
  {
    if rs[j].filename in seen { RepeatTracked(rs, j, seen, problems); } else { NewNameTracked(rs, j, seen, problems); }
  }

  lemma RepeatTracked(rs: seq<Reservation>, j: nat, seen: map<string, nat>, problems: seq<Problem>)
    requires j < |rs| && Tracked(rs[..j], seen, problems) && rs[j].filename in seen
    ensures Tracked(rs[..j + 1], seen, problems + [Duplicate(rs[j].filename, seen[rs[j].filename], rs[j].line)])
  {
    NamedOnceSnoc(rs, j);
    ReservedSnoc(rs, j);
    RepeatListed(rs, j, seen[rs[j].filename], problems);
  }

  lemma RepeatListed(rs: seq<Reservation>, j: nat, line: nat, problems: seq<Problem>)
    requires j < |rs| && FirstAt(rs[..j], rs[j].filename, line)
    requires forall p :: p in problems <==> IsDuplicate(rs[..j], p)
    ensures var more := problems + [Duplicate(rs[j].filename, line, rs[j].line)];
            more != [] && forall p :: p in more <==> IsDuplicate(rs[..j + 1], p)
  {
    DuplicateFound(rs, j, line);
    InSnoc(problems, Duplicate(rs[j].filename, line, rs[j].line));
  }

  lemma InSnoc<T>(s: seq<T>, x: T)
    ensures forall y :: y in s + [x] <==> y in s || y == x
  {
    assert (s + [x])[|s|] == x;
    forall y ensures y in s + [x] <==> y in s || y == x {
      if i :| 0 <= i < |s| && s[i] == y { assert (s + [x])[i] == y; }
    }
  }

  lemma NewNameTracked(rs: seq<Reservation>, j: nat, seen: map<string, nat>, problems: seq<Problem>)
    requires j < |rs| && Tracked(rs[..j], seen, problems) && rs[j].filename !in seen
    ensures Tracked(rs[..j + 1], seen[rs[j].filename := rs[j].line], problems)
  {
    NamedOnceSnoc(rs, j);
    ReservedSnoc(rs, j);
    NoDuplicate(rs, j);
  }

  /** The first reservation of the file is on that line. */
  ghost predicate FirstAt(rs: seq<Reservation>, file: string, line: nat) {
    exists i: nat :: i < |rs| && rs[i].filename == file && rs[i].line == line
                && forall k :: 0 <= k < i ==> rs[k].filename != file
  }

  lemma ReservedSnoc(rs: seq<Reservation>, j: nat)
    requires j < |rs|
    ensures forall f :: Reserved(rs[..j + 1], f) <==> Reserved(rs[..j], f) || rs[j].filename == f
    ensures forall f, line :: FirstAt(rs[..j], f, line) ==> FirstAt(rs[..j + 1], f, line)
    ensures !Reserved(rs[..j], rs[j].filename) ==> FirstAt(rs[..j + 1], rs[j].filename, rs[j].line)
  {
    var all := rs[..j + 1];
    assert all[j] == rs[j] && forall i :: 0 <= i < j ==> all[i] == rs[i] == rs[..j][i];
  }

  lemma DuplicateFound(rs: seq<Reservation>, j: nat, line: nat)
    requires j < |rs| && FirstAt(rs[..j], rs[j].filename, line)
    ensures forall p :: IsDuplicate(rs[..j + 1], p) <==>
              IsDuplicate(rs[..j], p) || p == Duplicate(rs[j].filename, line, rs[j].line)
  {
    var all, file := rs[..j + 1], rs[j].filename;
    assert all == rs[..j] + [rs[j]];
    var i: nat :| i < j && rs[..j][i].filename == file && rs[..j][i].line == line
             && forall k :: 0 <= k < i ==> rs[..j][k].filename != file;
    RepeatsSnoc(rs, j);
    assert Repeats(all, i, j);
    forall k: nat | Repeats(all, k, j) ensures k == i { assert !(k < i) && !(i < k); }
    forall p ensures IsDuplicate(all, p) <==> IsDuplicate(rs[..j], p) || p == Duplicate(file, line, rs[j].line) {
      DuplicateSplit(rs, j, p);
      assert RepeatsLast(rs, j, p) <==> p == Duplicate(file, line, rs[j].line);
    }
  }

  lemma RepeatsSnoc(rs: seq<Reservation>, j: nat)
    requires j < |rs|
    ensures forall i: nat, l: nat :: l < j ==> (Repeats(rs[..j + 1], i, l) <==> Repeats(rs[..j], i, l))
  {
    assert forall i :: 0 <= i < j ==> rs[..j + 1][i] == rs[..j][i];
  }

  ghost predicate RepeatsLast(rs: seq<Reservation>, j: nat, p: Problem)
    requires j < |rs|
  {
    exists i: nat :: Repeats(rs[..j + 1], i, j) && p == Duplicate(rs[j].filename, rs[i].line, rs[j].line)
  }

  lemma OldOrLast(rs: seq<Reservation>, j: nat, p: Problem)
    requires j < |rs| && IsDuplicate(rs[..j + 1], p)
    ensures IsDuplicate(rs[..j], p) || RepeatsLast(rs, j, p)
  {
    var all := rs[..j + 1];
    var i: nat, l: nat :| Repeats(all, i, l) && p == Duplicate(all[l].filename, all[i].line, all[l].line);
    assert all[i] == rs[i] && all[l] == rs[l];
    if l < j {
      RepeatsSnoc(rs, j);
      assert rs[..j][i] == rs[i] && rs[..j][l] == rs[l];
      assert Repeats(rs[..j], i, l);
    }
  }

  lemma OldStays(rs: seq<Reservation>, j: nat, p: Problem)
    requires j < |rs| && IsDuplicate(rs[..j], p)
    ensures IsDuplicate(rs[..j + 1], p)
  {
    var was, all := rs[..j], rs[..j + 1];
    var i: nat, l: nat :| Repeats(was, i, l) && p == Duplicate(was[l].filename, was[i].line, was[l].line);
    RepeatsSnoc(rs, j);
    assert was[i] == all[i] && was[l] == all[l];
    assert Repeats(all, i, l);
  }

  /** A duplicate of a longer list is an old one or one of its last line. */
  lemma DuplicateSplit(rs: seq<Reservation>, j: nat, p: Problem)
    requires j < |rs|
    ensures IsDuplicate(rs[..j + 1], p) <==> IsDuplicate(rs[..j], p) || RepeatsLast(rs, j, p)
  {
    if IsDuplicate(rs[..j + 1], p) { OldOrLast(rs, j, p); }
    if IsDuplicate(rs[..j], p) { OldStays(rs, j, p); }
    if RepeatsLast(rs, j, p) {
      var all := rs[..j + 1];
      var i: nat :| Repeats(all, i, j) && p == Duplicate(rs[j].filename, rs[i].line, rs[j].line);
      assert all[i] == rs[i] && all[j] == rs[j];
    }
  }

  lemma NoDuplicate(rs: seq<Reservation>, j: nat)
    requires j < |rs| && !Reserved(rs[..j], rs[j].filename)
    ensures forall p :: IsDuplicate(rs[..j + 1], p) <==> IsDuplicate(rs[..j], p)
  {
    var all := rs[..j + 1];
    forall i: nat ensures !Repeats(all, i, j) {
      if i < j { assert rs[..j][i].filename != rs[j].filename; }
    }
    forall p ensures IsDuplicate(rs[..j + 1], p) <==> IsDuplicate(rs[..j], p) {
      DuplicateSplit(rs, j, p);
    }
  }

  lemma NamedOnceSnoc(rs: seq<Reservation>, j: nat)
    requires j < |rs|
    ensures NamedOnce(rs[..j + 1]) <==> NamedOnce(rs[..j]) && !Reserved(rs[..j], rs[j].filename)
  {
    var all := rs[..j + 1];
    assert all[j] == rs[j] && forall i :: 0 <= i < j ==> all[i] == rs[i] == rs[..j][i];
  }

  method FindUnreserved(rs: seq<Reservation>, files: seq<string>) returns (problems: seq<Problem>)
    ensures forall p :: p in problems <==> p.Unreserved? && p.file in files && !Reserved(rs, p.file)
  {
    problems := [];
    for i := 0 to |files|
      invariant forall p :: p in problems <==> p.Unreserved? && p.file in files[..i] && !Reserved(rs, p.file)
    {
      assert files[..i + 1] == files[..i] + [files[i]];
      if !Reserved(rs, files[i]) { problems := problems + [Unreserved(files[i])]; }
    }
    assert files[..|files|] == files;
  }

  predicate IsStale(rs: seq<Reservation>, files: seq<string>, p: Problem) {
    p.Stale? && p.filename !in files && exists r :: r in rs && r.line == p.line && r.filename == p.filename
  }

  method FindStale(rs: seq<Reservation>, files: seq<string>) returns (problems: seq<Problem>)
    ensures problems == [] <==> forall r :: r in rs ==> r.filename in files
    ensures forall p :: p in problems <==> IsStale(rs, files, p)
  {
    problems := [];
    for i := 0 to |rs|
      invariant problems == [] <==> forall r :: r in rs[..i] ==> r.filename in files
      invariant forall p :: p in problems <==> IsStale(rs[..i], files, p)
    {
      assert rs[..i + 1] == rs[..i] + [rs[i]];
      if rs[i].filename !in files {
        problems := problems + [Stale(rs[i].line, rs[i].filename)];
      }
    }
    assert rs[..|rs|] == rs;
  }

  lemma FilesWithSnoc(files: seq<string>, i: nat)
    requires i < |files|
    ensures forall p :: FilesWith(files[..i + 1], p) ==
              FilesWith(files[..i], p) + if PrefixOf(files[i]) == Some(p) then [files[i]] else []
  {
    assert files[..i + 1][..i] == files[..i] && files[..i + 1][i] == files[i];
  }

  /** Files grouped by prefix in one pass, and the prefixes in the order they were met. */
  method GroupByPrefix(files: seq<string>) returns (byPrefix: map<string, seq<string>>, order: seq<string>)
    ensures forall p :: p in byPrefix <==> FilesWith(files, p) != []
    ensures forall p :: p in byPrefix ==> byPrefix[p] == FilesWith(files, p)
    ensures forall p :: p in order <==> p in byPrefix
  {
    byPrefix, order := map[], [];
    for i := 0 to |files|
      invariant forall p :: p in byPrefix <==> FilesWith(files[..i], p) != []
      invariant forall p :: p in byPrefix ==> byPrefix[p] == FilesWith(files[..i], p)
      invariant forall p :: p in order <==> p in byPrefix
    {
      FilesWithSnoc(files, i);
      var prefix := PrefixOf(files[i]);
      if prefix.Some? {
        var p := prefix.value;
        if p in byPrefix {
          byPrefix := byPrefix[p := byPrefix[p] + [files[i]]];
        } else {
          byPrefix, order := byPrefix[p := [files[i]]], order + [p];
        }
      }
    }
    assert files[..|files|] == files;
  }

  predicate IsShared(files: seq<string>, allowed: set<string>, p: Problem) {
    p.SharedPrefix? && p.files == FilesWith(files, p.prefix) && |p.files| > 1 && p.prefix !in allowed
  }

  /** One problem for every group of two or more that is not allowed. */
  method ReportShared(files: seq<string>, allowed: set<string>, byPrefix: map<string, seq<string>>, order: seq<string>)
      returns (problems: seq<Problem>)
    requires forall p :: p in byPrefix <==> FilesWith(files, p) != []
    requires forall p :: p in byPrefix ==> byPrefix[p] == FilesWith(files, p)
    requires forall p :: p in order <==> p in byPrefix
    ensures forall p :: p in problems <==> IsShared(files, allowed, p)
  {
    problems := [];
    for i := 0 to |order|
      invariant forall p :: p in problems <==> IsShared(files, allowed, p) && p.prefix in order[..i]
    {
      assert order[..i + 1] == order[..i] + [order[i]];
      assert order[i] in byPrefix;
      if |byPrefix[order[i]]| > 1 && order[i] !in allowed {
        problems := problems + [SharedPrefix(order[i], byPrefix[order[i]])];
      }
    }
    assert order[..|order|] == order;
  }

  /** The prefixes that more than one file has and that are not allowed, each with all its files. */
  method FindShared(files: seq<string>, allowed: set<string>) returns (problems: seq<Problem>)
    ensures forall p :: p in problems <==> IsShared(files, allowed, p)
    ensures problems == [] <==> PrefixesAllowed(files, allowed)
  {
    var byPrefix, order := GroupByPrefix(files);
    problems := ReportShared(files, allowed, byPrefix, order);
    NoSharedIffAllowed(files, allowed, problems);
  }

  lemma NoSharedIffAllowed(files: seq<string>, allowed: set<string>, problems: seq<Problem>)
    requires forall p :: p in problems <==> IsShared(files, allowed, p)
    ensures problems == [] <==> PrefixesAllowed(files, allowed)
  {
    if problems != [] {
      var p := problems[0];
      assert p in problems;
      SharedIffTwo(files, p.prefix);
    }
    if !PrefixesAllowed(files, allowed) {
      var i, j :| 0 <= i < j < |files| && PrefixOf(files[i]).Some? && PrefixOf(files[i]) == PrefixOf(files[j])
        && PrefixOf(files[i]).value !in allowed;
      var prefix := PrefixOf(files[i]).value;
      SharedIffTwo(files, prefix);
      assert SharedPrefix(prefix, FilesWith(files, prefix)) in problems;
    }
  }

  /** `findReservationProblems`: it finds nothing exactly when ledger and disk are healthy. */
  method FindProblems(rs: seq<Reservation>, files: seq<string>, allowed: set<string>) returns (problems: seq<Problem>)
    ensures problems == [] <==> Healthy(rs, files, allowed)
    ensures forall p :: p in problems <==>
              || IsDuplicate(rs, p)
              || (p.Unreserved? && p.file in files && !Reserved(rs, p.file))
              || IsStale(rs, files, p)
              || IsShared(files, allowed, p)
  {
    var duplicates := FindDuplicates(rs);
    var unreserved := FindUnreserved(rs, files);
    var stale := FindStale(rs, files);
    var shared := FindShared(files, allowed);
    assert unreserved == [] <==> forall f :: f in files ==> Reserved(rs, f) by {
      if f :| f in files && !Reserved(rs, f) { assert Unreserved(f) in unreserved; }
      if unreserved != [] { assert unreserved[0] in unreserved; }
    }
    problems := duplicates + unreserved + stale + shared;
  }

  /** What the guard accepts: a ledger that parses without error, healthy against the disk. */
  predicate Clean(content: string, files: seq<string>, allowed: set<string>) {
    Parse(content).errors == [] && Healthy(Parse(content).reservations, files, allowed)
  }

  lemma HealthyGrows(rs: seq<Reservation>, r: Reservation, files: seq<string>, allowed: set<string>)
    requires Healthy(rs, files, allowed) && r.filename !in files
    requires forall f :: f in files ==> PrefixOf(f) != PrefixOf(r.filename) || PrefixOf(f).None?
    ensures Healthy(rs + [r], files + [r.filename], allowed)
  {
    var all := rs + [r];
    assert all[|rs|] == r;
    forall f | f in files + [r.filename] ensures Reserved(all, f) {
      if f in files {
        assert Reserved(rs, f);
        var i :| 0 <= i < |rs| && rs[i].filename == f;
        assert all[i].filename == f;
      }
    }
    assert forall i :: 0 <= i < |rs| ==> rs[i] in rs;
  }

  /** The guard cares which files there are, not in which order the directory lists them. */
  lemma HealthyAnyOrder(rs: seq<Reservation>, files: seq<string>, other: seq<string>, allowed: set<string>)
    requires Healthy(rs, files, allowed) && multiset(files) == multiset(other)
    requires forall i, j :: 0 <= i < j < |other| ==> other[i] != other[j]
    ensures Healthy(rs, other, allowed)
  {
    assert forall f :: f in other <==> f in multiset(other);
    assert forall f :: f in files <==> f in multiset(files);
    forall i, j | 0 <= i < j < |other| && PrefixOf(other[i]).Some? && PrefixOf(other[i]) == PrefixOf(other[j])
      ensures PrefixOf(other[i]).value in allowed
    {
      assert other[i] in multiset(files) && other[j] in multiset(files);
      var k :| 0 <= k < |files| && files[k] == other[i];
      var l :| 0 <= l < |files| && files[l] == other[j];
      assert k < l || l < k;
    }
  }

  /**
   * Reserving the next prefix for a purpose and then creating the file keeps a clean guard clean,
   * in whatever order the directory lists the files.
   */
  lemma ReservingKeepsClean(content: string, files: seq<string>, after: seq<string>, allowed: set<string>,
                            lowered: string, purpose: string)
    requires Clean(content, files, allowed) && Opened(Lines(content))
    requires !Blank(purpose) && '|' !in purpose && '\n' !in purpose && '\r' !in purpose
    requires !DownSlug(Slugify(lowered))
    requires multiset(after) == multiset(files + [DefaultName(files, lowered)])
    requires forall i, j :: 0 <= i < j < |after| ==> after[i] != after[j]
    ensures Clean(Appended(content, EntryLine(DefaultName(files, lowered), NextFreePrefix(files), purpose)), after, allowed)
  {
    var file, prefix := DefaultName(files, lowered), NextFreePrefix(files);
    DefaultNameFits(files, lowered);
    DefaultNameForward(files, lowered);
    NextPrefixFree(files);
    PlainFramed(file);
    var line := RoundTrip(content, file, prefix, purpose);
    var r := Reservation(line, prefix, file, Trim(purpose));
    HealthyGrows(Parse(content).reservations, r, files, allowed);
    HealthyAnyOrder(Parse(content).reservations + [r], files + [file], after, allowed);
  }
}
