/**
  Required contexts that a head will never report (scripts/detect_5265_missing_required_context.py):
  names without any report, and Python-version families whose newest run is an unexpanded template.
 */
module RequiredContexts {
  import opened Wrappers
  import opened Text

  datatype CheckRun = CheckRun(name: string, suite: int)

  // ---- the family of a required name ----

  const OPENING := " (Python "

  /** The start of the maximal run of digits that ends before `j`. */
  function DigitsStart(s: string, j: nat): (i: nat)
    requires j <= |s|
    ensures i <= j && (forall k :: i <= k < j ==> IsDigit(s[k])) && (0 < i ==> !IsDigit(s[i - 1]))
  {
    if 0 < j && IsDigit(s[j - 1]) then DigitsStart(s, j - 1) else j
  }

  /** `.+ \(Python `, read up to the version number. */
  predicate IsFamily(p: string) {
    |OPENING| < |p| && EndsWith(p, OPENING) && forall k :: 0 <= k < |p| - |OPENING| ==> p[k] != '\n'
  }

  /** Where the regex may stop: `$` also matches before a final line break. */
  function NameEnd(name: string): (e: nat)
    ensures e <= |name|
  {
    if name != "" && name[|name| - 1] == '\n' then |name| - 1 else |name|
  }

  /** Where the version number `\d+\.\d+\)` that ends at `e` starts. */
  function VersionStart(s: string, e: nat): (r: Option<nat>)
    requires e <= |s|
    ensures r.Some? ==> r.value <= e
  {
    if e == 0 || s[e - 1] != ')' then None
    else
      var minor := DigitsStart(s, e - 1);
      if minor == e - 1 || minor == 0 || s[minor - 1] != '.' then None
      else
        var major := DigitsStart(s, minor - 1);
        if major == minor - 1 then None else Some(major)
  }

  /** The `prefix` group of the family regex, read from the right end of the name. */
  function FamilyOf(name: string): (r: Option<string>)
    ensures r.Some? ==> r.value <= name && IsFamily(r.value)
  {
    var start := VersionStart(name, NameEnd(name));
    if start.Some? && IsFamily(name[..start.value]) then Some(name[..start.value]) else None
  }

  /** A version number lies in `s[a..e]`, its minor part from `b` on. */
  predicate IsVersionAt(s: string, a: nat, b: nat, e: nat) {
    a < b - 1 && b < e - 1 && e <= |s| && s[e - 1] == ')' && s[b - 1] == '.' &&
    AreDigits(s, a, b - 1) && AreDigits(s, b, e - 1)
  }

  predicate AreDigits(s: string, i: nat, j: nat)
    requires j <= |s|
  {
    forall k :: i <= k < j ==> IsDigit(s[k])
  }

  lemma {:induction false} VersionStartFits(s: string, e: nat)
    requires e <= |s| && VersionStart(s, e).Some?
    ensures exists b :: IsVersionAt(s, VersionStart(s, e).value, b, e)
  {
    assert IsVersionAt(s, VersionStart(s, e).value, DigitsStart(s, e - 1), e);
  }

  lemma {:induction false} VersionStartIs(s: string, a: nat, b: nat, e: nat)
    requires IsVersionAt(s, a, b, e) && (0 < a ==> !IsDigit(s[a - 1]))
    ensures VersionStart(s, e) == Some(a)
  {
    DigitsStartIs(s, b, e - 1);
    DigitsStartIs(s, a, b - 1);
  }

  predicate IsVersioned(name: string, p: string, major: string, minor: string) {
    IsNumeral(major) && IsNumeral(minor) &&
    (name == p + major + "." + minor + ")" || name == p + major + "." + minor + ")\n")
  }

  lemma {:induction false} DigitsStartIs(s: string, i: nat, j: nat)
    requires i <= j <= |s| && (forall k :: i <= k < j ==> IsDigit(s[k])) && (0 < i ==> !IsDigit(s[i - 1]))
    ensures DigitsStart(s, j) == i
  {
    var d := DigitsStart(s, j);
    assert 0 <= d <= j;
  }

  /** The reading from the right finds the family of exactly the names that the regex describes. */
  lemma {:induction false} FamilyIsRegex(name: string, p: string)
    ensures FamilyOf(name) == Some(p) <==> IsFamily(p) && exists major, minor :: IsVersioned(name, p, major, minor)
  {
    if FamilyOf(name) == Some(p) {
      FamilyIsVersioned(name, p);
    }
    if IsFamily(p) {
      forall major, minor | IsVersioned(name, p, major, minor) ensures FamilyOf(name) == Some(p) {
        VersionedIsFamily(name, p, major, minor);
      }
    }
  }

  lemma {:induction false} FamilyIsVersioned(name: string, p: string)
    requires FamilyOf(name) == Some(p)
    ensures exists major, minor :: IsVersioned(name, p, major, minor)
  {
    hide IsFamily, VersionStart, AreDigits, IsNumeral;
    var e := NameEnd(name);
    VersionStartFits(name, e);
    var a := |p|;
    var b: nat :| IsVersionAt(name, a, b, e);
    var major, minor := name[a..b - 1], name[b..e - 1];
    Numeral(name, a, b - 1);
    Numeral(name, b, e - 1);
    Cut(name, a, b, e);
    assert name == name[..e] + name[e..];
    if e < |name| {
      assert name[e..] == "\n";
      assert (p + major + "." + minor + ")") + "\n" == p + major + "." + minor + ")\n";
    } else {
      assert name[..e] == name;
    }
    assert IsVersioned(name, p, major, minor);
  }

  lemma {:induction false} Numeral(s: string, i: nat, j: nat)
    requires i < j <= |s| && AreDigits(s, i, j)
    ensures IsNumeral(s[i..j])
  {}

  lemma {:induction false} Cut(s: string, a: nat, b: nat, e: nat)
    requires IsVersionAt(s, a, b, e)
    ensures s[..e] == s[..a] + s[a..b - 1] + "." + s[b..e - 1] + ")"
  {}

  lemma {:induction false} VersionedIsFamily(name: string, p: string, major: string, minor: string)
    requires IsFamily(p) && IsVersioned(name, p, major, minor)
    ensures FamilyOf(name) == Some(p)
  {
    var tail := if name == p + major + "." + minor + ")" then "" else "\n";
    assert name == p + major + "." + minor + ")" + tail by {
      assert (p + major + "." + minor + ")") + "\n" == p + major + "." + minor + ")\n";
      assert (p + major + "." + minor + ")") + "" == p + major + "." + minor + ")";
    }
    ReadBack(name, p, major, minor, tail);
  }

  lemma {:induction false} ReadBack(name: string, p: string, major: string, minor: string, tail: string)
    requires IsFamily(p) && IsNumeral(major) && IsNumeral(minor) && (tail == "" || tail == "\n")
    requires name == p + major + "." + minor + ")" + tail
    ensures FamilyOf(name) == Some(p)
  {
    hide IsFamily, HasAt;
    var a := |p|;
    var b := a + |major| + 1;
    var e := b + |minor| + 1;
    assert NameEnd(name) == e;
    Paste(p, major, minor, tail);
    FamilyEndsInSpace(p);
    assert name[a - 1] == p[a - 1];
    VersionStartIs(name, a, b, e);
    assert name[..a] == p;
  }

  lemma {:induction false} Paste(p: string, major: string, minor: string, tail: string)
    requires IsNumeral(major) && IsNumeral(minor)
    ensures
      var a := |p|;
      var b := a + |major| + 1;
      IsVersionAt(p + major + "." + minor + ")" + tail, a, b, b + |minor| + 1)
  {
    var s := p + major + "." + minor + ")" + tail;
    var a := |p|;
    var b := a + |major| + 1;
    var e := b + |minor| + 1;
    forall k | a <= k < b - 1 ensures IsDigit(s[k]) {
      assert s[k] == major[k - a];
    }
    forall k | b <= k < e - 1 ensures IsDigit(s[k]) {
      assert s[k] == minor[k - b];
    }
  }

  lemma {:induction false} FamilyEndsInSpace(p: string)
    requires IsFamily(p)
    ensures p != "" && p[|p| - 1] == ' '
  {
    HasAtChar(p, |p| - |OPENING|, OPENING, |OPENING| - 1);
  }

  // ---- the newest run ----

  function FamilyRuns(runs: seq<CheckRun>, p: string): (r: seq<CheckRun>)
    ensures forall c :: c in r <==> c in runs && StartsWith(c.name, p)
  {
    if runs == [] then []
    else
      assert forall c :: c in runs <==> c == runs[0] || c in runs[1..];
      (if StartsWith(runs[0].name, p) then [runs[0]] else []) + FamilyRuns(runs[1..], p)
  }

  /** `max(..., key=suite)`: the first of the runs with the greatest suite. */
  function Newest(runs: seq<CheckRun>): (r: CheckRun)
    requires runs != []
    ensures r in runs && forall c :: c in runs ==> c.suite <= r.suite
  {
    if |runs| == 1 then runs[0]
    else
      assert forall c :: c in runs <==> c == runs[0] || c in runs[1..];
      var rest := Newest(runs[1..]);
      if runs[0].suite >= rest.suite then runs[0] else rest
  }

  predicate IsTemplate(c: CheckRun) {
    Contains(c.name, "${{")
  }

  /** The newest run of the family never got a concrete version. */
  predicate FamilyBlocked(runs: seq<CheckRun>, p: string) {
    FamilyRuns(runs, p) != [] && IsTemplate(Newest(FamilyRuns(runs, p)))
  }

  method FindMatrixFamilyBlocked(required: seq<string>, runs: seq<CheckRun>) returns (blocked: set<string>)
    ensures forall n :: n in blocked <==> n in required && FamilyOf(n).Some? && FamilyBlocked(runs, FamilyOf(n).value)
  {
    hide FamilyOf, FamilyRuns, Newest, IsTemplate;
    blocked := {};
    for i := 0 to |required|
      invariant forall n :: n in blocked <==>
        n in required[..i] && FamilyOf(n).Some? && FamilyBlocked(runs, FamilyOf(n).value)
    {
      var name := required[i];
      assert required[..i + 1] == required[..i] + [name];
      var family := FamilyOf(name);
      if family.None? {
        continue;
      }
      var familyRuns := FamilyRuns(runs, family.value);
      if familyRuns == [] {
        continue;
      }
      if IsTemplate(Newest(familyRuns)) {
        blocked := blocked + {name};
      }
    }
    assert required[..|required|] == required;
  }

  // ---- the verdict ----

  /** Names set through the status API, and the names of check runs. */
  function ReportedNames(statuses: seq<string>, runs: seq<CheckRun>): (r: set<string>) {
    (set s | s in statuses) + (set c | c in runs :: c.name)
  }

  function NeverReported(required: seq<string>, statuses: seq<string>, runs: seq<CheckRun>): set<string> {
    set n | n in required && n !in ReportedNames(statuses, runs)
  }

  /** The name will never be satisfied on this head. */
  predicate Blocked(required: seq<string>, statuses: seq<string>, runs: seq<CheckRun>, n: string) {
    n in required &&
    ((n !in statuses && forall c :: c in runs ==> c.name != n) ||
     (FamilyOf(n).Some? && FamilyBlocked(runs, FamilyOf(n).value)))
  }

  method Evaluate(required: seq<string>, statuses: seq<string>, runs: seq<CheckRun>, isDraft: Option<bool>)
    returns (verdict: set<string>)
    ensures isDraft == Some(true) ==> verdict == {}
    ensures isDraft != Some(true) ==> forall n :: n in verdict <==> Blocked(required, statuses, runs, n)
  {
    if isDraft == Some(true) {
      return {};
    }
    var byFamily := FindMatrixFamilyBlocked(required, runs);
    verdict := NeverReported(required, statuses, runs) + byFamily;
  }

  // ---- what changes a family's verdict ----

  lemma {:induction false} FamilyRunsAppend(a: seq<CheckRun>, b: seq<CheckRun>, p: string)
    ensures FamilyRuns(a + b, p) == FamilyRuns(a, p) + FamilyRuns(b, p)
  {
    if a == [] {
      assert a + b == b;
    } else {
      assert (a + b)[0] == a[0] && (a + b)[1..] == a[1..] + b;
      FamilyRunsAppend(a[1..], b, p);
    }
  }

  lemma {:induction false} NoneInFamily(runs: seq<CheckRun>, p: string)
    requires forall c :: c in runs ==> !StartsWith(c.name, p)
    ensures FamilyRuns(runs, p) == []
  {
    if runs == [] {
    } else {
      NoneInFamily(runs[1..], p);
    }
  }

  /** Runs of other jobs do not matter, however new they are and wherever they stand. */
  lemma {:induction false} OtherJobsDoNotMatter(before: seq<CheckRun>, others: seq<CheckRun>, after: seq<CheckRun>, p: string)
    requires forall c :: c in others ==> !StartsWith(c.name, p)
    ensures FamilyBlocked(before + others + after, p) <==> FamilyBlocked(before + after, p)
  {
    FamilyRunsAppend(before + others, after, p);
    FamilyRunsAppend(before, others, p);
    FamilyRunsAppend(before, after, p);
    NoneInFamily(others, p);
    assert FamilyRuns(before, p) + [] == FamilyRuns(before, p);
  }

  predicate IsNewest(runs: seq<CheckRun>, c: CheckRun) {
    c in runs && forall d :: d in runs ==> d.suite <= c.suite
  }

  /** The newest runs of the family do not disagree on whether the matrix was expanded. */
  predicate TopAgrees(runs: seq<CheckRun>, p: string) {
    var family := FamilyRuns(runs, p);
    forall c, d :: c in family && d in family && IsNewest(family, c) && IsNewest(family, d) ==>
      (IsTemplate(c) <==> IsTemplate(d))
  }

  /** No reordering of the runs changes the family's verdict. */
  ghost predicate OrderFree(runs: seq<CheckRun>, p: string) {
    forall other :: multiset(other) == multiset(runs) ==> (FamilyBlocked(other, p) <==> FamilyBlocked(runs, p))
  }

  /** The order of the check runs is immaterial exactly when the newest runs of the family agree. */
  lemma OrderIsImmaterial(runs: seq<CheckRun>, p: string)
    ensures OrderFree(runs, p) <==> TopAgrees(runs, p)
  {
    hide FamilyBlocked, StartsWith, IsTemplate;
    if TopAgrees(runs, p) {
      forall other | multiset(other) == multiset(runs) ensures FamilyBlocked(other, p) <==> FamilyBlocked(runs, p) {
        SameMembers(runs, other);
        AgreementDecides(runs, other, p);
      }
    }
    if OrderFree(runs, p) {
      var family := FamilyRuns(runs, p);
      forall c, d | c in family && d in family && IsNewest(family, c) && IsNewest(family, d)
        ensures IsTemplate(c) <==> IsTemplate(d)
      {
        var first := ToFront(runs, p, c);
        var second := ToFront(runs, p, d);
      }
    }
  }

  lemma SameMembers(a: seq<CheckRun>, b: seq<CheckRun>)
    requires multiset(a) == multiset(b)
    ensures forall c :: c in a <==> c in b
  {
    assert forall c :: c in a <==> c in multiset(a);
    assert forall c :: c in b <==> c in multiset(b);
  }

  lemma AgreementDecides(a: seq<CheckRun>, b: seq<CheckRun>, p: string)
    requires (forall c :: c in a <==> c in b) && TopAgrees(a, p)
    ensures FamilyBlocked(a, p) <==> FamilyBlocked(b, p)
  {
    hide StartsWith, IsTemplate;
    var fa, fb := FamilyRuns(a, p), FamilyRuns(b, p);
    assert forall c :: c in fa <==> c in fb;
    assert fa != [] ==> fa[0] in fb;
    assert fb != [] ==> fb[0] in fa;
    if fa != [] {
      var x, y := Newest(fa), Newest(fb);
      assert IsNewest(fa, x) && IsNewest(fa, y);
    }
  }

  /** Moved to the front, a newest run of the family is the one that decides. */
  lemma ToFront(runs: seq<CheckRun>, p: string, c: CheckRun) returns (other: seq<CheckRun>)
    requires IsNewest(FamilyRuns(runs, p), c)
    ensures multiset(other) == multiset(runs) && (FamilyBlocked(other, p) <==> IsTemplate(c))
  {
    hide StartsWith, IsTemplate;
    var i :| 0 <= i < |runs| && runs[i] == c;
    var rest := runs[..i] + runs[i + 1..];
    other := [c] + rest;
    assert runs == runs[..i] + [c] + runs[i + 1..];
    assert multiset(other) == multiset(runs);
    SameMembers(runs, other);
    var family := FamilyRuns(other, p);
    assert other[1..] == rest;
    assert family == [c] + FamilyRuns(rest, p);
    FirstOfNewest(family);
  }

  lemma FirstOfNewest(family: seq<CheckRun>)
    requires family != [] && IsNewest(family, family[0])
    ensures Newest(family) == family[0]
  {
    if |family| > 1 {
      assert Newest(family[1..]) in family;
    }
  }

  /** When they disagree, the order decides. */
  lemma {:induction false} TieIsDecidedByOrder(p: string, suite: int)
    ensures
      var concrete, template := CheckRun(p + "3.11)", suite), CheckRun(p + "${{", suite);
      '$' !in p ==> FamilyBlocked([template, concrete], p) && !FamilyBlocked([concrete, template], p)
  {
    var concrete, template := CheckRun(p + "3.11)", suite), CheckRun(p + "${{", suite);
    assert HasAt(p + "${{", |p|, "${{");
    assert StartsWith(p + "3.11)", p) && StartsWith(p + "${{", p);
    if '$' !in p {
      forall k ensures !HasAt(p + "3.11)", k, "${{") {
        if HasAt(p + "3.11)", k, "${{") {
          HasAtChar(p + "3.11)", k, "${{", 0);
        }
      }
      BothInFamily(template, concrete, p);
      BothInFamily(concrete, template, p);
    }
  }

  lemma {:induction false} BothInFamily(c: CheckRun, d: CheckRun, p: string)
    requires StartsWith(c.name, p) && StartsWith(d.name, p) && c.suite == d.suite
    ensures FamilyRuns([c, d], p) == [c, d] && Newest([c, d]) == c
  {
    var tail := [d];
    assert [c, d][1..] == tail && tail[1..] == [];
    assert FamilyRuns(tail, p) == [d];
    assert Newest(tail) == d;
  }

  /** A rerun with concrete versions in a newer suite unblocks the family; under its own name, the context. */
  lemma {:induction false} NewerConcreteRunUnblocks(
      required: seq<string>, statuses: seq<string>, runs: seq<CheckRun>, n: string, c: CheckRun)
    requires FamilyOf(n).Some? && c.name == n && !IsTemplate(c)
    requires forall d :: d in runs && StartsWith(d.name, FamilyOf(n).value) ==> d.suite < c.suite
    ensures !Blocked(required, statuses, runs + [c], n)
  {
  }

  // ---- the verdict in terms of the names ----

  /** A job name, ` (Python `, two numerals with a dot between them, and a bracket; a line feed may follow. */
  predicate IsMatrixName(name: string, job: string, major: string, minor: string) {
    job != "" && '\n' !in job && IsNumeral(major) && IsNumeral(minor) &&
    (name == job + " (Python " + major + "." + minor + ")" || name == job + " (Python " + major + "." + minor + ")\n")
  }

  predicate OfJob(c: CheckRun, job: string) {
    |job| + 9 <= |c.name| && c.name[..|job| + 9] == job + " (Python "
  }

  /** The first of the job's runs with the greatest suite still shows the unexpanded template. */
  predicate StuckAt(runs: seq<CheckRun>, job: string, i: nat) {
    i < |runs| && OfJob(runs[i], job) && ShowsTemplate(runs[i].name) &&
    forall k :: 0 <= k < |runs| && OfJob(runs[k], job) ==>
      if k < i then runs[k].suite < runs[i].suite else runs[k].suite <= runs[i].suite
  }

  predicate ShowsTemplate(name: string) {
    exists k :: 0 <= k && k + 3 <= |name| && name[k] == '$' && name[k + 1] == '{' && name[k + 2] == '{'
  }

  lemma FamilyIff(name: string, job: string)
    ensures FamilyOf(name) == Some(job + " (Python ") <==> exists major, minor :: IsMatrixName(name, job, major, minor)
  {
    hide FamilyOf, IsNumeral;
    var p := job + " (Python ";
    JobIff(job);
    FamilyIsRegex(name, p);
    if FamilyOf(name) == Some(p) {
      var major, minor :| IsVersioned(name, p, major, minor);
      assert IsMatrixName(name, job, major, minor);
    }
    forall major, minor | IsMatrixName(name, job, major, minor) ensures FamilyOf(name) == Some(p) {
      assert IsVersioned(name, p, major, minor);
    }
  }

  lemma JobIff(job: string)
    ensures IsFamily(job + " (Python ") <==> job != "" && '\n' !in job
  {
    var p := job + " (Python ";
    assert p[|p| - 9..] == OPENING;
    assert forall k :: 0 <= k < |job| ==> p[k] == job[k];
    assert '\n' in job ==> exists k :: 0 <= k < |job| && job[k] == '\n';
  }

  lemma OfJobIff(c: CheckRun, job: string)
    ensures OfJob(c, job) <==> StartsWith(c.name, job + " (Python ")
  {
    assert |job + " (Python "| == |job| + 9;
    assert |job| + 9 <= |c.name| ==> c.name[0..|job| + 9] == c.name[..|job| + 9];
  }

  lemma TemplateIff(c: CheckRun)
    ensures IsTemplate(c) <==> ShowsTemplate(c.name)
  {
    var name := c.name;
    if IsTemplate(c) {
      var k :| 0 <= k <= |name| && HasAt(name, k, "${{");
      HasAtChar(name, k, "${{", 0);
      HasAtChar(name, k, "${{", 1);
      HasAtChar(name, k, "${{", 2);
    }
    if k :| 0 <= k && k + 3 <= |name| && name[k] == '$' && name[k + 1] == '{' && name[k + 2] == '{' {
      assert name[k..k + 3] == "${{";
      assert HasAt(name, k, "${{");
    }
  }

  /** The place of the run that decides for the family. */
  lemma {:induction false} NewestAt(runs: seq<CheckRun>, p: string) returns (i: nat)
    requires FamilyRuns(runs, p) != []
    ensures i < |runs| && runs[i] == Newest(FamilyRuns(runs, p)) && StartsWith(runs[i].name, p)
    ensures forall k :: 0 <= k < |runs| && StartsWith(runs[k].name, p) ==>
      if k < i then runs[k].suite < runs[i].suite else runs[k].suite <= runs[i].suite
  {
    hide StartsWith, FamilyRuns, Newest;
    NoFamily(p);
    var c, rest := runs[0], runs[1..];
    FamilyStep(runs, p);
    assert forall k :: 0 < k < |runs| ==> runs[k] == rest[k - 1];
    if FamilyRuns(rest, p) == [] {
      i := 0;
      NoneBehind(rest, p);
      assert FamilyRuns(runs, p) == [c];
      NewestOne(c);
    } else {
      var j := NewestAt(rest, p);
      if StartsWith(c.name, p) {
        FirstOrRest(c, FamilyRuns(rest, p));
        i := if c.suite >= rest[j].suite then 0 else j + 1;
      } else {
        assert FamilyRuns(runs, p) == FamilyRuns(rest, p);
        i := j + 1;
      }
    }
  }

  lemma NoFamily(p: string)
    ensures FamilyRuns([], p) == []
  {}

  lemma NewestOne(c: CheckRun)
    ensures Newest([c]) == c
  {}

  lemma FamilyStep(runs: seq<CheckRun>, p: string)
    requires runs != []
    ensures FamilyRuns(runs, p) == (if StartsWith(runs[0].name, p) then [runs[0]] else []) + FamilyRuns(runs[1..], p)
  {
    hide StartsWith;
  }

  lemma NoneBehind(runs: seq<CheckRun>, p: string)
    requires FamilyRuns(runs, p) == []
    ensures forall k :: 0 <= k < |runs| ==> !StartsWith(runs[k].name, p)
  {
    hide StartsWith;
    forall k | 0 <= k < |runs| ensures !StartsWith(runs[k].name, p) {
      assert runs[k] in runs;
    }
  }

  lemma FirstOrRest(c: CheckRun, rest: seq<CheckRun>)
    requires rest != []
    ensures Newest([c] + rest) == if c.suite >= Newest(rest).suite then c else Newest(rest)
  {
    assert ([c] + rest)[1..] == rest;
  }

  /** A family is blocked exactly when its deciding run shows the template. */
  lemma StuckIff(runs: seq<CheckRun>, job: string)
    ensures FamilyBlocked(runs, job + " (Python ") <==> exists i: nat :: StuckAt(runs, job, i)
  {
    hide IsTemplate, ShowsTemplate, StartsWith, FamilyRuns, Newest;
    var p := job + " (Python ";
    forall k | 0 <= k < |runs| ensures OfJob(runs[k], job) <==> StartsWith(runs[k].name, p) {
      OfJobIff(runs[k], job);
    }
    if FamilyRuns(runs, p) == [] {
      NoneBehind(runs, p);
    } else {
      var i := NewestAt(runs, p);
      TemplateIff(runs[i]);
      if j: nat :| StuckAt(runs, job, j) {
        assert i == j;
      }
      if FamilyBlocked(runs, p) {
        assert StuckAt(runs, job, i);
      }
    }
  }

  /** A required name is blocked exactly when nothing reported it, or the first of the newest runs of its matrix job is a template. */
  lemma BlockedIff(required: seq<string>, statuses: seq<string>, runs: seq<CheckRun>, n: string)
    ensures Blocked(required, statuses, runs, n) <==>
      n in required &&
      ((n !in statuses && forall c :: c in runs ==> c.name != n) ||
       exists job, major, minor, i: nat :: IsMatrixName(n, job, major, minor) && StuckAt(runs, job, i))
  {
    hide FamilyOf, FamilyBlocked, IsMatrixName, StuckAt;
    if FamilyOf(n).Some? {
      var job := JobOf(n);
      FamilyIff(n, job);
      StuckIff(runs, job);
      if FamilyBlocked(runs, FamilyOf(n).value) {
        var major, minor :| IsMatrixName(n, job, major, minor);
        var i: nat :| StuckAt(runs, job, i);
      }
    }
    forall job, major, minor, i: nat | IsMatrixName(n, job, major, minor) && StuckAt(runs, job, i)
      ensures FamilyOf(n).Some? && FamilyBlocked(runs, FamilyOf(n).value)
    {
      FamilyIff(n, job);
      StuckIff(runs, job);
    }
  }

  lemma JobOf(n: string) returns (job: string)
    requires FamilyOf(n).Some?
    ensures FamilyOf(n) == Some(job + " (Python ")
  {
    hide FamilyOf;
    var p := FamilyOf(n).value;
    assert IsFamily(p);
    assert |OPENING| == 9 && p[|p| - 9..|p|] == OPENING;
    job := p[..|p| - 9];
    assert p == job + p[|p| - 9..|p|];
  }
}
