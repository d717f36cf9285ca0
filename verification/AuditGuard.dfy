/** The guard over accepted audit exceptions: its ledger, the audit reports, and their cross-check. */
module AuditGuard {
  import opened Options
  import opened DigitStrings
  import opened Calendar
  import Numbers
  import LedgerText

  const PROJECTS: seq<string> := [".", "src/admin-ui"]
  const SEVERITIES: seq<string> := ["info", "low", "moderate", "high", "critical"]
  const ISSUES: string := "https://github.com/diogenesmendes01/Maia-v2/issues/"
  const REPORT_VERSION: int := 2

  datatype Finding = Finding(project: string, pkg: string, advisory: string, severity: string, title: string)

  datatype Accepted = Accepted(project: string, pkg: string, advisory: string, maxSeverity: string, reason: string,
                               owner: string, issue: string, expires: string)

  /** The three parts that identify an advisory in a lockfile. */
  datatype Triple = Triple(project: string, pkg: string, advisory: string)

  function KeyOf(t: Triple): string { t.project + "|" + t.pkg + "|" + t.advisory }

  function OfFinding(f: Finding): Triple { Triple(f.project, f.pkg, f.advisory) }
  function OfAccepted(e: Accepted): Triple { Triple(e.project, e.pkg, e.advisory) }

  predicate IdChar(c: char) { IsDigit(c) || 'a' <= c <= 'z' }

  /** `GHSA-xxxx-xxxx-xxxx`. */
  predicate AdvisoryShape(s: string) {
    && |s| == 19 && s[..5] == "GHSA-" && s[9] == '-' && s[14] == '-'
    && forall i :: 5 <= i < 19 && i != 9 && i != 14 ==> IdChar(s[i])
  }

  predicate Validated(t: Triple) { t.project in PROJECTS && AdvisoryShape(t.advisory) }

  /** Two validated triples share a key only if they are the same, whatever the package names hold. */
  lemma KeyInjective(a: Triple, b: Triple)
    requires Validated(a) && Validated(b)
    ensures KeyOf(a) == KeyOf(b) <==> a == b
  {
    if KeyOf(a) == KeyOf(b) {
      var k := KeyOf(a);
      assert '|' !in a.project && '|' !in b.project;
      FirstBar(a);
      FirstBar(b);
      LastPart(a);
      LastPart(b);
      assert a.project == b.project;
      var n := |a.project| + 1;
      assert a.pkg == k[n..|k| - 20] && b.pkg == k[n..|k| - 20] by {
        MiddlePart(a);
        MiddlePart(b);
      }
    }
  }

  lemma FirstBar(t: Triple)
    requires '|' !in t.project
    ensures |t.project| < |KeyOf(t)| && KeyOf(t)[..|t.project|] == t.project && KeyOf(t)[|t.project|] == '|'
    ensures forall i :: 0 <= i < |t.project| ==> KeyOf(t)[i] != '|'
  {
    assert forall i :: 0 <= i < |t.project| ==> KeyOf(t)[i] == t.project[i];
  }

  lemma LastPart(t: Triple)
    requires |t.advisory| == 19
    ensures |KeyOf(t)| >= 21 + |t.project| && KeyOf(t)[|KeyOf(t)| - 19..] == t.advisory
  {
  }

  lemma MiddlePart(t: Triple)
    requires |t.advisory| == 19
    ensures |KeyOf(t)| >= 21 + |t.project| && KeyOf(t)[|t.project| + 1..|KeyOf(t)| - 20] == t.pkg
  {
    assert KeyOf(t) == (t.project + "|") + (t.pkg + ("|" + t.advisory));
  }

  // ---- findProblems ----

  /** `SEVERITIES.indexOf`. */
  function Rank(severity: string): (r: int)
    ensures -1 <= r < |SEVERITIES|
    ensures r == -1 <==> severity !in SEVERITIES
    ensures r >= 0 ==> SEVERITIES[r] == severity
  {
    if severity == "info" then 0 else if severity == "low" then 1 else if severity == "moderate" then 2
    else if severity == "high" then 3 else if severity == "critical" then 4 else -1
  }

  datatype Problem =
    | NoException(f: Finding)
    | UnknownSeverity(f: Finding)
    | AboveCeiling(f: Finding, e: Accepted)
    | Expired(e: Accepted)
    | Obsolete(e: Accepted)

  /** What is wrong between a finding and the exception it matches. */
  function Mismatches(f: Finding, e: Accepted, today: string): seq<Problem> {
    (if Rank(f.severity) < 0 then [UnknownSeverity(f)]
     else if Rank(f.severity) > Rank(e.maxSeverity) then [AboveCeiling(f, e)] else [])
    + if Less(e.expires, today) then [Expired(e)] else []
  }

  /** The exception a map filled in order keeps for a key. */
  function LastFor(es: seq<Accepted>, key: string): Option<Accepted> {
    if es == [] then None
    else if KeyOf(OfAccepted(es[|es| - 1])) == key then Some(es[|es| - 1])
    else LastFor(es[..|es| - 1], key)
  }

  predicate FindingClear(f: Finding, es: seq<Accepted>, today: string) {
    && LastFor(es, KeyOf(OfFinding(f))).Some?
    && Mismatches(f, LastFor(es, KeyOf(OfFinding(f))).value, today) == []
  }

  predicate StillFound(e: Accepted, fs: seq<Finding>) {
    exists i :: 0 <= i < |fs| && KeyOf(OfFinding(fs[i])) == KeyOf(OfAccepted(e))
  }

  method IndexByKey(es: seq<Accepted>) returns (byKey: map<string, Accepted>)
    ensures forall k :: k in byKey <==> LastFor(es, k).Some?
    ensures forall k :: k in byKey ==> LastFor(es, k) == Some(byKey[k])
  {
    byKey := map[];
    for i := 0 to |es|
      invariant forall k :: k in byKey <==> LastFor(es[..i], k).Some?
      invariant forall k :: k in byKey ==> LastFor(es[..i], k) == Some(byKey[k])
    {
      assert es[..i + 1][..i] == es[..i];
      byKey := byKey[KeyOf(OfAccepted(es[i])) := es[i]];
    }
    assert es[..|es|] == es;
  }

  /** What is reported of one finding: that no exception has its key, or what is wrong with the one that has. */
  predicate Says(p: Problem, f: Finding, es: seq<Accepted>, today: string) {
    match LastFor(es, KeyOf(OfFinding(f)))
    case None => p == NoException(f)
    case Some(e) =>
      || (p == UnknownSeverity(f) && f.severity !in SEVERITIES)
      || (p == AboveCeiling(f, e) && f.severity in SEVERITIES && Rank(f.severity) > Rank(e.maxSeverity))
      || (p == Expired(e) && Less(e.expires, today))
  }

  lemma MismatchesSay(f: Finding, es: seq<Accepted>, today: string, more: seq<Problem>)
    requires var e := LastFor(es, KeyOf(OfFinding(f)));
             more == if e.None? then [NoException(f)] else Mismatches(f, e.value, today)
    ensures forall p :: p in more <==> Says(p, f, es, today)
  {
  }

  method CheckFindings(fs: seq<Finding>, es: seq<Accepted>, byKey: map<string, Accepted>, today: string)
      returns (problems: seq<Problem>)
    requires forall k :: k in byKey <==> LastFor(es, k).Some?
    requires forall k :: k in byKey ==> LastFor(es, k) == Some(byKey[k])
    ensures problems == [] <==> forall f :: f in fs ==> FindingClear(f, es, today)
    ensures forall p :: p in problems <==> exists f :: f in fs && Says(p, f, es, today)
  {
    problems := [];
    for i := 0 to |fs|
      invariant problems == [] <==> forall f :: f in fs[..i] ==> FindingClear(f, es, today)
      invariant forall p :: p in problems <==> exists f :: f in fs[..i] && Says(p, f, es, today)
    {
      Snoc(fs, i);
      assert fs[i] in fs[..i + 1];
      var key := KeyOf(OfFinding(fs[i]));
      var more := if key !in byKey then [NoException(fs[i])] else Mismatches(fs[i], byKey[key], today);
      assert more == [] <==> FindingClear(fs[i], es, today);
      MismatchesSay(fs[i], es, today, more);
      problems := problems + more;
    }
    assert fs[..|fs|] == fs;
  }

  method CheckExceptions(fs: seq<Finding>, es: seq<Accepted>) returns (problems: seq<Problem>)
    ensures problems == [] <==> forall e :: e in es ==> StillFound(e, fs)
    ensures forall p :: p in problems <==> p.Obsolete? && p.e in es && !StillFound(p.e, fs)
  {
    var found := set f | f in fs :: KeyOf(OfFinding(f));
    problems := [];
    for i := 0 to |es|
      invariant problems == [] <==> forall e :: e in es[..i] ==> StillFound(e, fs)
      invariant forall p :: p in problems <==> p.Obsolete? && p.e in es[..i] && !StillFound(p.e, fs)
    {
      Snoc(es, i);
      assert es[i] in es[..i + 1];
      assert KeyOf(OfAccepted(es[i])) in found <==> StillFound(es[i], fs);
      if KeyOf(OfAccepted(es[i])) !in found {
        problems := problems + [Obsolete(es[i])];
      }
    }
    assert es[..|es|] == es;
  }

  /** `findProblems`, of any findings and exceptions. */
  method FindProblems(fs: seq<Finding>, es: seq<Accepted>, today: string) returns (problems: seq<Problem>)
    ensures problems == [] <==>
              (forall f :: f in fs ==> FindingClear(f, es, today)) && (forall e :: e in es ==> StillFound(e, fs))
    ensures forall p :: p in problems <==>
              (exists f :: f in fs && Says(p, f, es, today)) || (p.Obsolete? && p.e in es && !StillFound(p.e, fs))
  {
    var byKey := IndexByKey(es);
    var ofFindings := CheckFindings(fs, es, byKey, today);
    var obsolete := CheckExceptions(fs, es);
    problems := ofFindings + obsolete;
  }

  /** An unexpired exception for the same project, package and advisory whose ceiling covers the finding. */
  predicate Covers(e: Accepted, f: Finding, today: string) {
    && OfAccepted(e) == OfFinding(f)
    && 0 <= Rank(f.severity) <= Rank(e.maxSeverity)
    && !Less(e.expires, today)
  }

  predicate Covered(fs: seq<Finding>, es: seq<Accepted>, today: string) {
    && (forall f :: f in fs ==> exists e :: e in es && Covers(e, f, today))
    && (forall e :: e in es ==> exists f :: f in fs && OfFinding(f) == OfAccepted(e))
  }

  predicate DistinctKeys(es: seq<Accepted>) {
    forall i, j :: 0 <= i < j < |es| ==> KeyOf(OfAccepted(es[i])) != KeyOf(OfAccepted(es[j]))
  }

  lemma {:induction false} LastIsOnly(es: seq<Accepted>, key: string)
    requires DistinctKeys(es)
    ensures LastFor(es, key).Some? ==> LastFor(es, key).value in es && KeyOf(OfAccepted(LastFor(es, key).value)) == key
    ensures forall e :: e in es && KeyOf(OfAccepted(e)) == key ==> LastFor(es, key) == Some(e)
  {
    if es != [] {
      var k := |es| - 1;
      assert es == es[..k] + [es[k]];
      LastIsOnly(es[..k], key);
    }
  }

  /** On validated inputs, the map lookups by key say exactly that findings and exceptions cover each other. */
  lemma ClearIffCovered(fs: seq<Finding>, es: seq<Accepted>, today: string)
    requires DistinctKeys(es)
    requires forall f :: f in fs ==> Validated(OfFinding(f))
    requires forall e :: e in es ==> Validated(OfAccepted(e))
    ensures (forall f :: f in fs ==> FindingClear(f, es, today)) && (forall e :: e in es ==> StillFound(e, fs))
            <==> Covered(fs, es, today)
  {
    forall f | f in fs ensures FindingClear(f, es, today) <==> exists e :: e in es && Covers(e, f, today) {
      ClearIffSomeCovers(f, es, today);
    }
    forall e | e in es ensures StillFound(e, fs) <==> exists f :: f in fs && OfFinding(f) == OfAccepted(e) {
      forall f | f in fs ensures KeyOf(OfFinding(f)) == KeyOf(OfAccepted(e)) <==> OfFinding(f) == OfAccepted(e) {
        KeyInjective(OfFinding(f), OfAccepted(e));
      }
    }
  }

  lemma ClearIffSomeCovers(f: Finding, es: seq<Accepted>, today: string)
    requires DistinctKeys(es) && Validated(OfFinding(f))
    requires forall e :: e in es ==> Validated(OfAccepted(e))
    ensures FindingClear(f, es, today) <==> exists e :: e in es && Covers(e, f, today)
  {
    var key := KeyOf(OfFinding(f));
    LastIsOnly(es, key);
    forall e | e in es ensures KeyOf(OfAccepted(e)) == key <==> OfAccepted(e) == OfFinding(f) {
      KeyInjective(OfAccepted(e), OfFinding(f));
    }
    if FindingClear(f, es, today) {
      assert Covers(LastFor(es, key).value, f, today);
    }
  }

  // ---- validateLedger ----

  /** A JSON value of the ledger, as far as the guard looks at it. */
  datatype Field = Text(s: string) | OtherValue
  datatype Entry = NotAnObject | Object(fields: map<string, Field>)

  const REQUIRED: seq<string> :=
    ["project", "pkg", "advisory", "max_severity", "reason", "owner", "issue", "expires"]

  predicate Filled(fields: map<string, Field>, name: string) {
    name in fields && fields[name].Text? && LedgerText.Trim(fields[name].s) != ""
  }

  predicate IssueUrl(s: string) {
    && |s| > |ISSUES| && s[..|ISSUES|] == ISSUES && AllDigits(s[|ISSUES|..]) && s[|ISSUES|] != '0'
  }

  predicate AllFilled(row: Entry) { row.Object? && forall k :: 0 <= k < |REQUIRED| ==> Filled(row.fields, REQUIRED[k]) }

  function TextOf(fields: map<string, Field>, name: string): string {
    if name in fields && fields[name].Text? then fields[name].s else ""
  }

  function ReadRow(row: Entry): Accepted {
    var f := if row.Object? then row.fields else map[];
    Accepted(TextOf(f, "project"), TextOf(f, "pkg"), TextOf(f, "advisory"), TextOf(f, "max_severity"),
             TextOf(f, "reason"), TextOf(f, "owner"), TextOf(f, "issue"), TextOf(f, "expires"))
  }

  predicate WellFormed(e: Accepted) {
    && e.project in PROJECTS && e.maxSeverity in SEVERITIES && AdvisoryShape(e.advisory)
    && IssueUrl(e.issue) && IsCalendarDate(e.expires)
  }

  predicate GoodRow(row: Entry) {
    row.Object? && "severity" !in row.fields && AllFilled(row) && WellFormed(ReadRow(row))
  }

  datatype RowFault =
    | NotObject(index: nat)
    | RenamedField(index: nat)
    | Missing(index: nat, field: string)
    | BadProject(index: nat)
    | BadSeverity(index: nat)
    | BadAdvisory(index: nat)
    | BadIssue(index: nat)
    | BadExpires(index: nat)
    | DuplicateKey(index: nat)

  /** The required fields a row lacks, in order. */
  function MissingFields(i: nat, fields: map<string, Field>, from: nat): (faults: seq<RowFault>)
    requires from <= |REQUIRED|
    ensures faults == [] <==> forall k :: from <= k < |REQUIRED| ==> Filled(fields, REQUIRED[k])
    decreases |REQUIRED| - from
  {
    if from == |REQUIRED| then []
    else (if Filled(fields, REQUIRED[from]) then [] else [Missing(i, REQUIRED[from])]) + MissingFields(i, fields, from + 1)
  }

  /** Why a row is refused on its own. */
  function RowFaults(i: nat, row: Entry): (faults: seq<RowFault>)
    ensures faults == [] <==> GoodRow(row)
  {
    if row.NotAnObject? then [NotObject(i)]
    else if "severity" in row.fields then [RenamedField(i)]
    else
      var missing := MissingFields(i, row.fields, 0);
      if missing != [] then missing
      else
        var e := ReadRow(row);
        if e.project !in PROJECTS then [BadProject(i)]
        else if e.maxSeverity !in SEVERITIES then [BadSeverity(i)]
        else if !AdvisoryShape(e.advisory) then [BadAdvisory(i)]
        else if !IssueUrl(e.issue) then [BadIssue(i)]
        else if !IsCalendarDate(e.expires) then [BadExpires(i)]
        else []
  }

  /** The fault is true of the row. */
  predicate FaultOf(fault: RowFault, i: nat, row: Entry) {
    match fault
    case NotObject(k) => k == i && row.NotAnObject?
    case RenamedField(k) => k == i && row.Object? && "severity" in row.fields
    case Missing(k, name) => k == i && row.Object? && name in REQUIRED && !Filled(row.fields, name)
    case BadProject(k) => k == i && AllFilled(row) && ReadRow(row).project !in PROJECTS
    case BadSeverity(k) => k == i && AllFilled(row) && ReadRow(row).maxSeverity !in SEVERITIES
    case BadAdvisory(k) => k == i && AllFilled(row) && !AdvisoryShape(ReadRow(row).advisory)
    case BadIssue(k) => k == i && AllFilled(row) && !IssueUrl(ReadRow(row).issue)
    case BadExpires(k) => k == i && AllFilled(row) && !IsCalendarDate(ReadRow(row).expires)
    case DuplicateKey(_) => false
  }

  lemma {:induction false} MissingTrue(i: nat, row: Entry, from: nat)
    requires row.Object? && from <= |REQUIRED|
    ensures forall fault :: fault in MissingFields(i, row.fields, from) ==> FaultOf(fault, i, row)
    decreases |REQUIRED| - from
  {
    if from < |REQUIRED| { MissingTrue(i, row, from + 1); }
  }

  lemma OneFault(i: nat, row: Entry, fault: RowFault)
    requires RowFaults(i, row) == [fault] && row.Object? && "severity" !in row.fields && MissingFields(i, row.fields, 0) == []
    ensures FaultOf(fault, i, row)
  {
  }

  /** A row refused on its own is refused for a fault that it has. */
  lemma FaultsTrue(i: nat, row: Entry)
    ensures forall fault :: fault in RowFaults(i, row) ==> FaultOf(fault, i, row)
  {
    if row.Object? && "severity" !in row.fields {
      MissingTrue(i, row, 0);
      if MissingFields(i, row.fields, 0) == [] && RowFaults(i, row) != [] { OneFault(i, row, RowFaults(i, row)[0]); }
    }
  }

  // ---- the shapes, spelled out ----

  const ID_CHARS: set<char> := {
    '0', '1', '2', '3', '4', '5', '6', '7', '8', '9',
    'a', 'b', 'c', 'd', 'e', 'f', 'g', 'h', 'i', 'j', 'k', 'l', 'm',
    'n', 'o', 'p', 'q', 'r', 's', 't', 'u', 'v', 'w', 'x', 'y', 'z'
  }

  /** An issue is the link to one of this repository, by its number. */
  lemma IssueForm(s: string)
    ensures IssueUrl(s) <==>
            exists n: nat :: n > 0 && s == "https://github.com/diogenesmendes01/Maia-v2/issues/" + DigitString(Numbers.DigitsOf(n))
  {
    if IssueUrl(s) {
      var number := s[|ISSUES|..];
      var ds := LeadingDigits(number);
      LeadingOfAll(number);
      Numbers.DigitsNat(ds);
      assert s == ISSUES + number;
      assert s == ISSUES + DigitString(Numbers.DigitsOf(Numbers.NatOf(ds)));
    }
    if n: nat :| n > 0 && s == ISSUES + DigitString(Numbers.DigitsOf(n)) {
      assert s[|ISSUES|..] == DigitString(Numbers.DigitsOf(n));
    }
  }

  lemma ProjectIs(project: string)
    ensures project in PROJECTS <==> project == "." || project == "src/admin-ui"
  {
  }

  lemma SeverityIs(severity: string)
    ensures severity in SEVERITIES <==>
            || severity == "info" || severity == "low" || severity == "moderate" || severity == "high" || severity == "critical"
  {
  }

  lemma IdCharIs(x: char)
    ensures IdChar(x) <==> x in ID_CHARS
  {
  }

  predicate IdGroup(s: string) { |s| == 4 && forall i :: 0 <= i < 4 ==> s[i] in ID_CHARS }

  /** An advisory id is `GHSA-` and three groups of four digits or lower-case letters. */
  lemma AdvisoryForm(s: string)
    ensures AdvisoryShape(s) <==>
            exists a, b, c :: IdGroup(a) && IdGroup(b) && IdGroup(c) && s == "GHSA-" + a + "-" + b + "-" + c
  {
    forall x: char ensures IdChar(x) <==> x in ID_CHARS { IdCharIs(x); }
    if AdvisoryShape(s) { GroupsOf(s); }
    if a, b, c :| IdGroup(a) && IdGroup(b) && IdGroup(c) && s == "GHSA-" + a + "-" + b + "-" + c {
      GroupsMake(a, b, c);
    }
  }

  lemma GroupsMake(a: string, b: string, c: string)
    requires IdGroup(a) && IdGroup(b) && IdGroup(c) && forall x: char :: IdChar(x) <==> x in ID_CHARS
    ensures AdvisoryShape("GHSA-" + a + "-" + b + "-" + c)
  {
    var s := "GHSA-" + a + "-" + b + "-" + c;
    assert forall i :: 5 <= i < 9 ==> s[i] == a[i - 5];
    assert forall i :: 10 <= i < 14 ==> s[i] == b[i - 10];
    assert forall i :: 15 <= i < 19 ==> s[i] == c[i - 15];
  }

  lemma GroupsOf(s: string)
    requires AdvisoryShape(s) && forall x: char :: IdChar(x) <==> x in ID_CHARS
    ensures IdGroup(s[5..9]) && IdGroup(s[10..14]) && IdGroup(s[15..19])
    ensures s == "GHSA-" + s[5..9] + "-" + s[10..14] + "-" + s[15..19]
  {
    assert s == s[..5] + s[5..9] + [s[9]] + s[10..14] + [s[14]] + s[15..19];
  }

  /** A required field is there when it is a text that is not all white space. */
  lemma FilledForm(fields: map<string, Field>, name: string)
    ensures Filled(fields, name) <==>
            name in fields && fields[name].Text? && exists i :: 0 <= i < |fields[name].s| && !LedgerText.IsSpace(fields[name].s[i])
  {
    if name in fields && fields[name].Text? { LedgerText.TrimBlank(fields[name].s); }
  }


  predicate AllGood(rows: seq<Entry>) {
    rows == [] || (AllGood(rows[..|rows| - 1]) && GoodRow(rows[|rows| - 1]))
  }

  function ReadAll(rows: seq<Entry>): seq<Accepted> {
    if rows == [] then [] else ReadAll(rows[..|rows| - 1]) + [ReadRow(rows[|rows| - 1])]
  }

  /** Every row is well formed and no two have the same key. */
  predicate Intact(rows: seq<Entry>) { AllGood(rows) && DistinctKeys(ReadAll(rows)) }

  function Keys(es: seq<Accepted>): set<string> {
    if es == [] then {} else Keys(es[..|es| - 1]) + {KeyOf(OfAccepted(es[|es| - 1]))}
  }

  lemma {:induction false} KeysExact(es: seq<Accepted>, key: string)
    ensures key in Keys(es) <==> exists i :: 0 <= i < |es| && KeyOf(OfAccepted(es[i])) == key
  {
    if es != [] {
      var k := |es| - 1;
      KeysExact(es[..k], key);
      assert forall i :: 0 <= i < k ==> es[..k][i] == es[i];
    }
  }

  lemma DistinctSnoc(es: seq<Accepted>, e: Accepted)
    ensures DistinctKeys(es + [e]) <==> DistinctKeys(es) && KeyOf(OfAccepted(e)) !in Keys(es)
    ensures Keys(es + [e]) == Keys(es) + {KeyOf(OfAccepted(e))}
  {
    var all := es + [e];
    KeysExact(es, KeyOf(OfAccepted(e)));
    assert all[|es|] == e && all[..|es|] == es && forall i :: 0 <= i < |es| ==> all[i] == es[i];
  }

  lemma Snoc<T>(s: seq<T>, i: nat)
    requires i < |s|
    ensures s[..i + 1] == s[..i] + [s[i]]
  {
  }

  lemma IntactSnoc(rows: seq<Entry>, row: Entry)
    ensures ReadAll(rows + [row]) == ReadAll(rows) + [ReadRow(row)]
    ensures Intact(rows + [row]) <==> Intact(rows) && GoodRow(row) && KeyOf(OfAccepted(ReadRow(row))) !in Keys(ReadAll(rows))
  {
    AllGoodSnoc(rows, row);
    DistinctSnoc(ReadAll(rows), ReadRow(row));
  }

  lemma IntactStep(rows: seq<Entry>, i: nat)
    requires i < |rows|
    ensures ReadAll(rows[..i + 1]) == ReadAll(rows[..i]) + [ReadRow(rows[i])]
    ensures Intact(rows[..i + 1]) <==>
              Intact(rows[..i]) && GoodRow(rows[i]) && KeyOf(OfAccepted(ReadRow(rows[i]))) !in Keys(ReadAll(rows[..i]))
  {
    Snoc(rows, i);
    IntactSnoc(rows[..i], rows[i]);
  }

  lemma AllGoodSnoc(rows: seq<Entry>, row: Entry)
    ensures ReadAll(rows + [row]) == ReadAll(rows) + [ReadRow(row)]
    ensures AllGood(rows + [row]) <==> AllGood(rows) && GoodRow(row)
  {
    var all := rows + [row];
    assert all[..|all| - 1] == rows && all[|all| - 1] == row;
  }

  predicate AllWellFormed(es: seq<Accepted>) {
    es == [] || (AllWellFormed(es[..|es| - 1]) && WellFormed(es[|es| - 1]))
  }

  lemma WellFormedSnoc(es: seq<Accepted>, e: Accepted)
    ensures AllWellFormed(es + [e]) <==> AllWellFormed(es) && WellFormed(e)
  {
    assert (es + [e])[..|es|] == es;
  }

  lemma WellFormedValidated(e: Accepted)
    requires WellFormed(e)
    ensures Validated(OfAccepted(e))
  {
  }

  /** The triples of a list of exceptions, each validated. */
  predicate TriplesValidated(es: seq<Accepted>) { forall i :: 0 <= i < |es| ==> Validated(OfAccepted(es[i])) }

  lemma TriplesSnoc(es: seq<Accepted>, e: Accepted)
    requires TriplesValidated(es) && Validated(OfAccepted(e))
    ensures TriplesValidated(es + [e])
  {
  }

  /** The loop body of `validateLedger`: a row is kept, or refused with its faults. */
  method ConsiderRow(i: nat, row: Entry, kept: seq<Accepted>, seen: set<string>)
      returns (next: seq<Accepted>, keys: set<string>, faults: seq<RowFault>)
    requires AllWellFormed(kept) && TriplesValidated(kept) && DistinctKeys(kept) && seen == Keys(kept)
    ensures AllWellFormed(next) && TriplesValidated(next) && DistinctKeys(next) && keys == Keys(next)
    ensures faults == [] <==> GoodRow(row) && KeyOf(OfAccepted(ReadRow(row))) !in Keys(kept)
    ensures next == if faults == [] then kept + [ReadRow(row)] else kept
  {
    faults := RowFaults(i, row);
    if faults != [] { return kept, seen, faults; }
    var e := ReadRow(row);
    if KeyOf(OfAccepted(e)) in seen { return kept, seen, [DuplicateKey(i)]; }
    DistinctSnoc(kept, e);
    WellFormedSnoc(kept, e);
    WellFormedValidated(e);
    TriplesSnoc(kept, e);
    next, keys := kept + [e], seen + {KeyOf(OfAccepted(e))};
  }

  /** `validateLedger`: the rows it keeps are well formed under distinct keys; it keeps all of an intact ledger. */
  method ValidateLedger(rows: seq<Entry>) returns (kept: seq<Accepted>, errors: seq<RowFault>)
    ensures errors == [] <==> Intact(rows)
    ensures AllWellFormed(kept) && TriplesValidated(kept) && DistinctKeys(kept)
    ensures Intact(rows) ==> kept == ReadAll(rows)
  {
    kept, errors := [], [];
    var seen: set<string> := {};
    for i := 0 to |rows|
      invariant errors == [] <==> Intact(rows[..i])
      invariant errors == [] ==> kept == ReadAll(rows[..i])
      invariant AllWellFormed(kept) && TriplesValidated(kept) && DistinctKeys(kept) && seen == Keys(kept)
    {
      IntactStep(rows, i);
      var faults;
      kept, seen, faults := ConsiderRow(i, rows[i], kept, seen);
      errors := errors + faults;
    }
    assert rows[..|rows|] == rows;
  }

  // ---- reading a report ----

  /** One element of a package's `via`: a reference to another package, or an advisory. */
  datatype Via = Reference | Advisory(name: Option<string>, url: Option<string>, title: Option<string>, severity: Option<string>)

  /** A JSON value npm printed; `vulnerabilities` lists, in order, every `via` element of every package. */
  datatype Report =
    | NotAReport
    | Printed(hasError: bool, version: Option<int>, vulnerabilities: Option<seq<Via>>, hasMetadata: bool)

  /** A successful report of the one version this parser can read. */
  predicate Readable(r: Report) {
    r.Printed? && !r.hasError && r.version == Some(REPORT_VERSION) && r.vulnerabilities.Some? && r.hasMetadata
  }

  /** The first advisory id in a URL. */
  function AdvisoryIn(url: string): (r: Option<string>)
    ensures r.Some? ==> AdvisoryShape(r.value)
  {
    if |url| < 19 then None
    else if AdvisoryShape(url[..19]) then Some(url[..19])
    else AdvisoryIn(url[1..])
  }

  predicate AdvisoryAt(url: string, i: nat) { i + 19 <= |url| && AdvisoryShape(url[i..i + 19]) }

  predicate FirstAdvisory(url: string, i: nat) { AdvisoryAt(url, i) && forall j: nat :: j < i ==> !AdvisoryAt(url, j) }

  lemma LaterAdvisory(url: string, i: nat)
    requires url != []
    ensures AdvisoryAt(url, i + 1) <==> AdvisoryAt(url[1..], i)
  {
    if i + 20 <= |url| { assert url[i + 1..i + 1 + 19] == url[1..][i..i + 19]; }
  }

  /** An id anywhere in the URL is found, and what is found is the first in it. */
  lemma {:induction false} FindsAdvisory(url: string)
    ensures AdvisoryIn(url).Some? <==> exists i: nat :: AdvisoryAt(url, i)
    ensures AdvisoryIn(url).Some? ==> exists i: nat :: FirstAdvisory(url, i) && url[i..i + 19] == AdvisoryIn(url).value
  {
    if |url| >= 19 {
      assert url[0..0 + 19] == url[..19];
      if AdvisoryShape(url[..19]) {
        assert FirstAdvisory(url, 0);
      } else {
        FindsAdvisory(url[1..]);
        if i: nat :| FirstAdvisory(url[1..], i) && url[1..][i..i + 19] == AdvisoryIn(url[1..]).value {
          FirstLater(url, i);
        }
        if i: nat :| AdvisoryAt(url, i) {
          var k: nat := i - 1;
          LaterAdvisory(url, k);
        }
      }
    }
  }

  lemma FirstLater(url: string, i: nat)
    requires |url| >= 19 && !AdvisoryAt(url, 0) && FirstAdvisory(url[1..], i)
    ensures FirstAdvisory(url, i + 1) && url[i + 1..i + 1 + 19] == url[1..][i..i + 19]
  {
    LaterAdvisory(url, i);
    forall j: nat | j < i + 1 ensures !AdvisoryAt(url, j) {
      if j > 0 {
        var k: nat := j - 1;
        LaterAdvisory(url, k);
      }
    }
  }

  function Or(o: Option<string>, d: string): string { if o.Some? then o.value else d }

  function FindingOf(project: string, v: Via): Option<Finding> {
    if v.Reference? || v.url.None? then None
    else
      var advisory :- AdvisoryIn(v.url.value);
      Some(Finding(project, Or(v.name, "(desconhecido)"), advisory, Or(v.severity, "unknown"), Or(v.title, "")))
  }

  /** What an advisory becomes; without a severity it is one that no ceiling covers. */
  lemma FindingForm(project: string, v: Via)
    ensures FindingOf(project, v).Some? <==> v.Advisory? && v.url.Some? && exists i: nat :: AdvisoryAt(v.url.value, i)
    ensures FindingOf(project, v).Some? ==>
              var f := FindingOf(project, v).value;
              && f.project == project && Some(f.advisory) == AdvisoryIn(v.url.value)
              && f.pkg == (if v.name.Some? then v.name.value else "(desconhecido)")
              && f.title == (if v.title.Some? then v.title.value else "")
              && (v.severity.Some? ==> f.severity == v.severity.value)
              && (v.severity.None? ==> Rank(f.severity) < 0)
  {
    if v.Advisory? && v.url.Some? { FindsAdvisory(v.url.value); }
    SeverityIs("unknown");
  }

  /** Only an error-free report of version 2 with its two sections is read. */
  lemma ReadableForm(r: Report)
    ensures Readable(r) <==> exists vias :: r == Printed(false, Some(2), Some(vias), true)
  {
    if Readable(r) { assert r == Printed(false, Some(2), Some(r.vulnerabilities.value), true); }
  }

  predicate Listed(fs: seq<Finding>, t: Triple) { exists i :: 0 <= i < |fs| && OfFinding(fs[i]) == t }

  /** The reference: every advisory once, as first reported. */
  function FindingsIn(project: string, vias: seq<Via>): seq<Finding> {
    if vias == [] then []
    else
      var before := FindingsIn(project, vias[..|vias| - 1]);
      match FindingOf(project, vias[|vias| - 1])
      case None => before
      case Some(f) => if Listed(before, OfFinding(f)) then before else before + [f]
  }

  predicate AllValidated(fs: seq<Finding>) { forall i :: 0 <= i < |fs| ==> Validated(OfFinding(fs[i])) }

  lemma {:induction false} FindingsValidated(project: string, vias: seq<Via>)
    requires project in PROJECTS
    ensures AllValidated(FindingsIn(project, vias))
    ensures forall i :: 0 <= i < |vias| && FindingOf(project, vias[i]).Some? ==>
              Listed(FindingsIn(project, vias), OfFinding(FindingOf(project, vias[i]).value))
  {
    if vias != [] {
      var k := |vias| - 1;
      FindingsValidated(project, vias[..k]);
      var before, all := FindingsIn(project, vias[..k]), FindingsIn(project, vias);
      forall i | 0 <= i < |vias| && FindingOf(project, vias[i]).Some?
        ensures Listed(all, OfFinding(FindingOf(project, vias[i]).value))
      {
        var t := OfFinding(FindingOf(project, vias[i]).value);
        if i < k {
          assert vias[..k][i] == vias[i];
          ListedGrows(before, all, t);
        } else if !Listed(before, t) {
          assert OfFinding(all[|before|]) == t;
        }
      }
    }
  }

  lemma ListedGrows(fs: seq<Finding>, all: seq<Finding>, t: Triple)
    requires |fs| <= |all| && all[..|fs|] == fs && Listed(fs, t)
    ensures Listed(all, t)
  {
    var i :| 0 <= i < |fs| && OfFinding(fs[i]) == t;
    assert all[i] == all[..|fs|][i];
  }

  /** `parseAudit`, before sorting: the loop looks findings up by key, the reference by identity. */
  method ParseAudit(project: string, report: Report) returns (findings: seq<Finding>, readable: bool)
    requires project in PROJECTS
    ensures readable <==> Readable(report)
    ensures !readable ==> findings == []
    ensures readable ==> findings == FindingsIn(project, report.vulnerabilities.value)
  {
    findings := [];
    readable := Readable(report);
    if !readable { return; }
    var vias := report.vulnerabilities.value;
    var seen: set<string> := {};
    for i := 0 to |vias|
      invariant findings == FindingsIn(project, vias[..i])
      invariant forall k :: k in seen <==> KeyListed(findings, k)
    {
      assert vias[..i + 1][..i] == vias[..i] && vias[..i + 1][i] == vias[i];
      var finding := FindingOf(project, vias[i]);
      if finding.None? { continue; }
      FindingsValidated(project, vias[..i]);
      SeenIffListed(findings, finding.value);
      var key := KeyOf(OfFinding(finding.value));
      if key in seen { continue; }
      KeyListedSnoc(findings, finding.value);
      seen, findings := seen + {key}, findings + [finding.value];
    }
    assert vias[..|vias|] == vias;
  }

  predicate KeyListed(fs: seq<Finding>, key: string) { exists i :: 0 <= i < |fs| && KeyOf(OfFinding(fs[i])) == key }

  lemma KeyListedSnoc(fs: seq<Finding>, f: Finding)
    ensures forall k :: KeyListed(fs + [f], k) <==> KeyListed(fs, k) || KeyOf(OfFinding(f)) == k
  {
    var all := fs + [f];
    assert all[|fs|] == f && forall i :: 0 <= i < |fs| ==> all[i] == fs[i];
  }

  lemma SeenIffListed(fs: seq<Finding>, f: Finding)
    requires AllValidated(fs) && Validated(OfFinding(f))
    ensures KeyListed(fs, KeyOf(OfFinding(f))) <==> Listed(fs, OfFinding(f))
  {
    forall i | 0 <= i < |fs| ensures KeyOf(OfFinding(fs[i])) == KeyOf(OfFinding(f)) <==> OfFinding(fs[i]) == OfFinding(f) {
      KeyInjective(OfFinding(fs[i]), OfFinding(f));
    }
  }

  // ---- what deduplication drops ----

  /** A `via` that carries an advisory is accepted by an exception in force. */
  predicate ViaCovered(project: string, v: Via, es: seq<Accepted>, today: string) {
    v.Advisory? ==>
      && FindingOf(project, v).Some?
      && exists e :: e in es && Covers(e, FindingOf(project, v).value, today)
  }

  predicate EveryViaCovered(project: string, vias: seq<Via>, es: seq<Accepted>, today: string) {
    forall i :: 0 <= i < |vias| ==> ViaCovered(project, vias[i], es, today)
  }

  /** The severity is known and under the ceiling of every exception for the same advisory. */
  predicate UnderCeiling(f: Finding, es: seq<Accepted>) {
    forall e :: e in es && OfAccepted(e) == OfFinding(f) ==> 0 <= Rank(f.severity) <= Rank(e.maxSeverity)
  }

  /** Every advisory has an id, and a repeated one never reports more than its exceptions accept. */
  predicate NothingDropped(project: string, vias: seq<Via>, es: seq<Accepted>) {
    forall i :: 0 <= i < |vias| && vias[i].Advisory? ==>
      FindingOf(project, vias[i]).Some? && UnderCeiling(FindingOf(project, vias[i]).value, es)
  }

  /**
   * The guard looks at each advisory once, as first reported. When what it looks at is accepted, every
   * `via` of the report is accepted exactly when each has an id and no repetition is more severe.
   */
  lemma GreenCoversEveryVia(project: string, vias: seq<Via>, es: seq<Accepted>, today: string)
    requires project in PROJECTS && DistinctKeys(es)
    requires forall f :: f in FindingsIn(project, vias) ==> exists e :: e in es && Covers(e, f, today)
    ensures EveryViaCovered(project, vias, es, today) <==> NothingDropped(project, vias, es)
  {
    FindingsValidated(project, vias);
    forall i | 0 <= i < |vias| && vias[i].Advisory?
      ensures ViaCovered(project, vias[i], es, today) <==>
              FindingOf(project, vias[i]).Some? && UnderCeiling(FindingOf(project, vias[i]).value, es)
    {
      if FindingOf(project, vias[i]).Some? {
        var f := FindingOf(project, vias[i]).value;
        var g := ListedFinding(FindingsIn(project, vias), OfFinding(f));
        var e :| e in es && Covers(e, g, today);
        SameExceptionCovers(f, e, es, today);
      }
    }
  }

  lemma ListedFinding(fs: seq<Finding>, t: Triple) returns (f: Finding)
    requires Listed(fs, t)
    ensures f in fs && OfFinding(f) == t
  {
    var i :| 0 <= i < |fs| && OfFinding(fs[i]) == t;
    f := fs[i];
  }

  /** Under distinct keys the exception for an advisory is one, so its ceiling decides. */
  lemma SameExceptionCovers(f: Finding, e: Accepted, es: seq<Accepted>, today: string)
    requires DistinctKeys(es) && e in es && OfAccepted(e) == OfFinding(f) && !Less(e.expires, today)
    ensures (exists d :: d in es && Covers(d, f, today)) <==> UnderCeiling(f, es)
  {
    forall d | d in es && OfAccepted(d) == OfFinding(f) ensures d == e {
      var i :| 0 <= i < |es| && es[i] == d;
      var j :| 0 <= j < |es| && es[j] == e;
      assert i < j || j < i || i == j;
    }
    if UnderCeiling(f, es) { assert Covers(e, f, today); }
  }

  // ---- the whole guard ----

  datatype Verdict = Verdict(green: bool, findings: seq<Finding>, exceptions: seq<Accepted>)

  /** None stands for an audit that could not be run. */
  predicate Usable(r: Option<Report>) { r.Some? && Readable(r.value) }

  predicate AllUsable(reports: seq<Option<Report>>) { forall r :: r in reports ==> Usable(r) }

  lemma UsableSnoc(reports: seq<Option<Report>>, r: Option<Report>)
    ensures AllUsable(reports + [r]) <==> AllUsable(reports) && Usable(r)
  {
    assert r in reports + [r];
    assert forall q :: q in reports ==> q in reports + [r];
  }

  function FindingsFrom(project: string, r: Option<Report>): seq<Finding> {
    if Usable(r) then FindingsIn(project, r.value.vulnerabilities.value) else []
  }

  function Collected(reports: seq<Option<Report>>, n: nat): seq<Finding>
    requires n <= |reports| == |PROJECTS|
  {
    if n == 0 then [] else Collected(reports, n - 1) + FindingsFrom(PROJECTS[n - 1], reports[n - 1])
  }

  lemma AllValidatedAppend(a: seq<Finding>, b: seq<Finding>)
    requires AllValidated(a) && AllValidated(b)
    ensures AllValidated(a + b)
  {
  }

  lemma FromValidated(project: string, r: Option<Report>)
    requires project in PROJECTS
    ensures AllValidated(FindingsFrom(project, r))
  {
    if Usable(r) { FindingsValidated(project, r.value.vulnerabilities.value); }
  }

  lemma {:induction false} CollectedValidated(reports: seq<Option<Report>>, n: nat)
    requires n <= |reports| == |PROJECTS|
    ensures AllValidated(Collected(reports, n))
  {
    if n > 0 {
      CollectedValidated(reports, n - 1);
      FromValidated(PROJECTS[n - 1], reports[n - 1]);
      AllValidatedAppend(Collected(reports, n - 1), FindingsFrom(PROJECTS[n - 1], reports[n - 1]));
    }
  }

  // ---- what a green verdict covers ----

  function ViasOf(r: Option<Report>): seq<Via>
    requires Usable(r)
  {
    r.value.vulnerabilities.value
  }

  lemma {:induction false} CollectedHas(reports: seq<Option<Report>>, n: nat, i: nat)
    requires i < n <= |reports| == |PROJECTS|
    ensures forall f :: f in FindingsFrom(PROJECTS[i], reports[i]) ==> f in Collected(reports, n)
  {
    if i < n - 1 { CollectedHas(reports, n - 1, i); }
  }

  predicate EveryProjectCovered(reports: seq<Option<Report>>, es: seq<Accepted>, today: string)
    requires |reports| == |PROJECTS| && forall i :: 0 <= i < |reports| ==> Usable(reports[i])
  {
    forall i :: 0 <= i < |PROJECTS| ==> EveryViaCovered(PROJECTS[i], ViasOf(reports[i]), es, today)
  }

  predicate NowhereDropped(reports: seq<Option<Report>>, es: seq<Accepted>)
    requires |reports| == |PROJECTS| && forall i :: 0 <= i < |reports| ==> Usable(reports[i])
  {
    forall i :: 0 <= i < |PROJECTS| ==> NothingDropped(PROJECTS[i], ViasOf(reports[i]), es)
  }

  /**
   * On the very inputs that `EvaluateGuard` is green on: every `via` of every project is accepted
   * exactly when no project has an advisory without an id or a repetition above the ceiling.
   */
  lemma GreenMeansEveryVia(rows: seq<Entry>, reports: seq<Option<Report>>, today: string)
    requires |reports| == |PROJECTS| && Intact(rows) && AllUsable(reports)
    requires Covered(Collected(reports, |reports|), ReadAll(rows), today)
    ensures forall i :: 0 <= i < |reports| ==> Usable(reports[i])
    ensures EveryProjectCovered(reports, ReadAll(rows), today) <==> NowhereDropped(reports, ReadAll(rows))
  {
    EveryUsable(reports);
    EveryProject(reports, ReadAll(rows), today);
  }

  lemma EveryUsable(reports: seq<Option<Report>>)
    requires AllUsable(reports)
    ensures forall i :: 0 <= i < |reports| ==> Usable(reports[i])
  {
    assert forall i :: 0 <= i < |reports| ==> reports[i] in reports;
  }

  lemma EveryProject(reports: seq<Option<Report>>, es: seq<Accepted>, today: string)
    requires |reports| == |PROJECTS| && DistinctKeys(es) && forall i :: 0 <= i < |reports| ==> Usable(reports[i])
    requires forall f :: f in Collected(reports, |reports|) ==> exists e :: e in es && Covers(e, f, today)
    ensures EveryProjectCovered(reports, es, today) <==> NowhereDropped(reports, es)
  {
    forall i | 0 <= i < |PROJECTS|
      ensures EveryViaCovered(PROJECTS[i], ViasOf(reports[i]), es, today)
              <==> NothingDropped(PROJECTS[i], ViasOf(reports[i]), es)
    {
      CollectedHas(reports, |reports|, i);
      assert FindingsFrom(PROJECTS[i], reports[i]) == FindingsIn(PROJECTS[i], ViasOf(reports[i]));
      assert forall f :: f in FindingsIn(PROJECTS[i], ViasOf(reports[i])) ==> f in Collected(reports, |reports|);
      GreenCoversEveryVia(PROJECTS[i], ViasOf(reports[i]), es, today);
    }
  }

  // ---- two inputs on which the guard is green and a `via` is not covered ----

  function ReportOf(vias: seq<Via>): Option<Report> { Some(Printed(false, Some(REPORT_VERSION), Some(vias), true)) }

  /** The advisory as the exception accepts it. */
  function AcceptedVia(e: Accepted): Via { Advisory(Some(e.pkg), Some(e.advisory), None, Some(e.maxSeverity)) }

  function AcceptedFinding(e: Accepted): Finding { Finding(e.project, e.pkg, e.advisory, e.maxSeverity, "") }

  lemma AdvisoryItself(advisory: string)
    requires AdvisoryShape(advisory)
    ensures AdvisoryIn(advisory) == Some(advisory)
  {
    assert advisory[..19] == advisory;
  }

  lemma AcceptedViaFound(e: Accepted)
    requires AdvisoryShape(e.advisory)
    ensures FindingOf(e.project, AcceptedVia(e)) == Some(AcceptedFinding(e))
  {
    AdvisoryItself(e.advisory);
  }

  /** A second `via` that repeats the advisory or has no id adds no finding. */
  lemma NothingAdded(e: Accepted, extra: Via)
    requires AdvisoryShape(e.advisory)
    requires FindingOf(e.project, extra).Some? ==> OfFinding(FindingOf(e.project, extra).value) == OfAccepted(e)
    ensures FindingsIn(e.project, [AcceptedVia(e), extra]) == [AcceptedFinding(e)]
  {
    AcceptedViaFound(e);
    var first := [AcceptedVia(e)];
    assert [AcceptedVia(e), extra][..1] == first && first[..0] == [];
    assert FindingsIn(e.project, []) == [] && FindingsIn(e.project, first) == [AcceptedFinding(e)];
    assert OfFinding([AcceptedFinding(e)][0]) == OfAccepted(e);
  }

  lemma OneRowIntact(row: Entry)
    requires GoodRow(row)
    ensures Intact([row]) && ReadAll([row]) == [ReadRow(row)]
  {
    AllGoodSnoc([], row);
    assert [] + [row] == [row];
  }

  lemma OneCovered(e: Accepted, today: string)
    requires 0 <= Rank(e.maxSeverity) && !Less(e.expires, today)
    ensures Covered([AcceptedFinding(e)], [e], today)
  {
    assert Covers(e, AcceptedFinding(e), today) && e in [e] && AcceptedFinding(e) in [AcceptedFinding(e)];
  }

  lemma CollectedOfTwo(vias: seq<Via>)
    ensures AllUsable([ReportOf(vias), ReportOf([])])
    ensures Collected([ReportOf(vias), ReportOf([])], 2) == FindingsIn(PROJECTS[0], vias)
  {
    var reports := [ReportOf(vias), ReportOf([])];
    assert Collected(reports, 0) == [];
    assert Collected(reports, 1) == [] + FindingsFrom(PROJECTS[0], reports[0]);
    assert Collected(reports, 2) == Collected(reports, 1) + FindingsFrom(PROJECTS[1], reports[1]);
    assert FindingsIn(PROJECTS[1], []) == [];
  }

  /** With one good row and a report that repeats its advisory or adds one without an id, the guard is green. */
  lemma GreenWithExtra(row: Entry, extra: Via, today: string)
    requires GoodRow(row) && ReadRow(row).project == PROJECTS[0] && !Less(ReadRow(row).expires, today)
    requires var f := FindingOf(PROJECTS[0], extra); f.Some? ==> OfFinding(f.value) == OfAccepted(ReadRow(row))
    ensures var reports := [ReportOf([AcceptedVia(ReadRow(row)), extra]), ReportOf([])];
            && Intact([row]) && AllUsable(reports)
            && Covered(Collected(reports, 2), ReadAll([row]), today)
  {
    var e := ReadRow(row);
    OneRowIntact(row);
    NothingAdded(e, extra);
    CollectedOfTwo([AcceptedVia(e), extra]);
    OneCovered(e, today);
  }

  lemma SecondNotCovered(e: Accepted, extra: Via, today: string)
    requires !ViaCovered(PROJECTS[0], extra, [e], today)
    ensures !EveryViaCovered(PROJECTS[0], [AcceptedVia(e), extra], [e], today)
  {
    assert [AcceptedVia(e), extra][1] == extra;
  }

  /** The same advisory, as critical. */
  function RepeatedVia(e: Accepted): Via { Advisory(Some(e.pkg), Some(e.advisory), None, Some("critical")) }

  /** Green, although the advisory is reported again as critical, above what the row accepts. */
  lemma DroppedAboveCeiling(row: Entry, today: string)
    requires GoodRow(row) && ReadRow(row).project == PROJECTS[0] && !Less(ReadRow(row).expires, today)
    requires ReadRow(row).maxSeverity != "critical"
    ensures var vias := [AcceptedVia(ReadRow(row)), RepeatedVia(ReadRow(row))];
            var reports := [ReportOf(vias), ReportOf([])];
            && Intact([row]) && AllUsable(reports)
            && Covered(Collected(reports, 2), ReadAll([row]), today)
            && !EveryViaCovered(PROJECTS[0], vias, ReadAll([row]), today)
  {
    GoodRowParts(row);
    RepeatedCritical(ReadRow(row), today);
    GreenWithExtra(row, RepeatedVia(ReadRow(row)), today);
    ExtraNotCovered(row, RepeatedVia(ReadRow(row)), today);
  }

  lemma ExtraNotCovered(row: Entry, extra: Via, today: string)
    requires GoodRow(row) && !ViaCovered(PROJECTS[0], extra, [ReadRow(row)], today)
    ensures !EveryViaCovered(PROJECTS[0], [AcceptedVia(ReadRow(row)), extra], ReadAll([row]), today)
  {
    OneRowIntact(row);
    SecondNotCovered(ReadRow(row), extra, today);
  }

  lemma GoodRowParts(row: Entry)
    requires GoodRow(row)
    ensures AdvisoryShape(ReadRow(row).advisory) && ReadRow(row).maxSeverity in SEVERITIES
  {
  }

  lemma RepeatedCritical(e: Accepted, today: string)
    requires AdvisoryShape(e.advisory) && e.project == PROJECTS[0] && e.maxSeverity in SEVERITIES && e.maxSeverity != "critical"
    ensures FindingOf(PROJECTS[0], RepeatedVia(e)).Some?
    ensures OfFinding(FindingOf(PROJECTS[0], RepeatedVia(e)).value) == OfAccepted(e)
    ensures !ViaCovered(PROJECTS[0], RepeatedVia(e), [e], today)
  {
    AdvisoryItself(e.advisory);
    assert FindingOf(PROJECTS[0], RepeatedVia(e)) == Some(AcceptedFinding(e).(severity := "critical"));
    NotCritical(e.maxSeverity);
  }

  lemma NotCritical(severity: string)
    requires severity in SEVERITIES && severity != "critical"
    ensures Rank(severity) < Rank("critical")
  {
  }

  lemma Nameless(project: string, v: Via, es: seq<Accepted>, today: string)
    requires v.Advisory? && v.url.None?
    ensures FindingOf(project, v).None? && !ViaCovered(project, v, es, today)
  {
  }

  /** Green, although the report has an advisory without an id. */
  lemma DroppedWithoutId(row: Entry, name: Option<string>, severity: Option<string>, today: string)
    requires GoodRow(row) && ReadRow(row).project == PROJECTS[0] && !Less(ReadRow(row).expires, today)
    ensures var vias := [AcceptedVia(ReadRow(row)), Advisory(name, None, None, severity)];
            var reports := [ReportOf(vias), ReportOf([])];
            && Intact([row]) && AllUsable(reports)
            && Covered(Collected(reports, 2), ReadAll([row]), today)
            && !EveryViaCovered(PROJECTS[0], vias, ReadAll([row]), today)
  {
    var nameless := Advisory(name, None, None, severity);
    Nameless(PROJECTS[0], nameless, [ReadRow(row)], today);
    GreenWithExtra(row, nameless, today);
    ExtraNotCovered(row, nameless, today);
  }

  /** A row that the ledger check accepts. */
  const SAMPLE: Accepted :=
    Accepted(".", "esbuild", "GHSA-67mh-4wv8-2f99", "low", "dev only", "platform", ISSUES + "574", LAST_DAY)

  function RowOf(e: Accepted): Entry {
    Object(map["project" := Text(e.project), "pkg" := Text(e.pkg), "advisory" := Text(e.advisory),
               "max_severity" := Text(e.maxSeverity), "reason" := Text(e.reason), "owner" := Text(e.owner),
               "issue" := Text(e.issue), "expires" := Text(e.expires)])
  }

  /** It ends with something other than a space, so trimming leaves something. */
  predicate Inked(s: string) { s != [] && !LedgerText.IsSpace(s[|s| - 1]) }

  predicate AllInked(e: Accepted) {
    && Inked(e.project) && Inked(e.pkg) && Inked(e.advisory) && Inked(e.maxSeverity)
    && Inked(e.reason) && Inked(e.owner) && Inked(e.issue) && Inked(e.expires)
  }

  lemma InkedTrims(s: string)
    requires Inked(s)
    ensures LedgerText.Trim(s) != ""
  {
    LedgerText.TrimBlank(s);
  }

  lemma RowOfReads(e: Accepted)
    requires AllInked(e)
    ensures ReadRow(RowOf(e)) == e && AllFilled(RowOf(e)) && "severity" !in RowOf(e).fields
  {
    InkedTrims(e.project);
    InkedTrims(e.pkg);
    InkedTrims(e.advisory);
    InkedTrims(e.maxSeverity);
    InkedTrims(e.reason);
    InkedTrims(e.owner);
    InkedTrims(e.issue);
    InkedTrims(e.expires);
  }

  lemma SampleAdvisory()
    ensures AdvisoryShape(SAMPLE.advisory)
  {
    var s := "GHSA-67mh-4wv8-2f99";
    assert s[..5] == "GHSA-";
  }

  lemma SampleIssue()
    ensures IssueUrl(SAMPLE.issue)
  {
    assert SAMPLE.issue[..|ISSUES|] == ISSUES && SAMPLE.issue[|ISSUES|..] == "574";
  }

  lemma SampleInked()
    ensures AllInked(SAMPLE)
  {
  }

  lemma SampleWellFormed()
    ensures WellFormed(SAMPLE)
  {
    SampleAdvisory();
    SampleIssue();
    LastDayOf2026();
  }

  /** So there are rows to which the two results above apply, on any day up to the end of 2026. */
  lemma SampleRow(today: string)
    requires !Less(LAST_DAY, today)
    ensures GoodRow(RowOf(SAMPLE)) && ReadRow(RowOf(SAMPLE)) == SAMPLE
    ensures SAMPLE.project == PROJECTS[0] && SAMPLE.maxSeverity != "critical" && !Less(SAMPLE.expires, today)
  {
    SampleWellFormed();
    SampleInked();
    RowOfReads(SAMPLE);
    assert "low" != "critical";
  }

  /** The audits of all projects; a report that cannot be had or read contributes nothing but the failure. */
  method AuditAll(reports: seq<Option<Report>>) returns (findings: seq<Finding>, unread: bool)
    requires |reports| == |PROJECTS|
    ensures findings == Collected(reports, |reports|)
    ensures unread <==> !AllUsable(reports)
  {
    findings, unread := [], false;
    for i := 0 to |PROJECTS|
      invariant unread <==> !AllUsable(reports[..i])
      invariant findings == Collected(reports, i)
    {
      Snoc(reports, i);
      UsableSnoc(reports[..i], reports[i]);
      if reports[i].None? {
        unread := true;
        continue;
      }
      var more, readable := ParseAudit(PROJECTS[i], reports[i].value);
      if !readable { unread := true; }
      findings := findings + more;
    }
    assert reports[..|reports|] == reports;
  }

  /**
   * `evaluateGuard`. An unreadable report fails the guard whatever the ledger says; otherwise it is
   * green exactly when the ledger is intact and the findings and exceptions cover each other.
   */
  method EvaluateGuard(ledger: Option<seq<Entry>>, reports: seq<Option<Report>>, today: string) returns (v: Verdict)
    requires |reports| == |PROJECTS|
    ensures v.green <==>
              && ledger.Some? && Intact(ledger.value)
              && AllUsable(reports)
              && Covered(Collected(reports, |reports|), ReadAll(ledger.value), today)
    ensures ledger.Some? ==> v.findings == Collected(reports, |reports|)
    ensures v.green ==> v.exceptions == ReadAll(ledger.value)
  {
    if ledger.None? { return Verdict(false, [], []); }
    var exceptions, errors := ValidateLedger(ledger.value);
    var findings, unread := AuditAll(reports);
    if unread { return Verdict(false, findings, exceptions); }
    var covered := CrossCheck(findings, exceptions, reports, today);
    v := Verdict(errors == [] && covered, findings, exceptions);
  }

  /** The last step of the guard, on validated findings and exceptions. */
  method CrossCheck(findings: seq<Finding>, exceptions: seq<Accepted>, reports: seq<Option<Report>>, today: string)
      returns (green: bool)
    requires |reports| == |PROJECTS| && findings == Collected(reports, |reports|)
    requires TriplesValidated(exceptions) && DistinctKeys(exceptions)
    ensures green <==> Covered(findings, exceptions, today)
  {
    var problems := FindProblems(findings, exceptions, today);
    CollectedValidated(reports, |reports|);
    ClearIffCovered(findings, exceptions, today);
    green := problems == [];
  }
}
