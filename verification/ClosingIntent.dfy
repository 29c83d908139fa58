/** The closing-intent contradiction detector and its no-escape claim. */
module ClosingIntent {
  import opened ClosingText

  // ---- sorted() ----

  lemma {:induction false} SomeLeast(s: set<nat>) returns (m: nat)
    requires s != {}
    ensures m in s && forall x :: x in s ==> m <= x
  {
    var first :| first in s;
    m := first;
    if s - {first} != {} {
      var rest := SomeLeast(s - {first});
      m := if rest < first then rest else first;
    }
    assert forall x :: x in s ==> x == first || x in s - {first};
  }

  function Least(s: set<nat>): (m: nat)
    requires s != {}
    ensures m in s && forall x :: x in s ==> m <= x
  {
    assert exists m :: m in s && forall x :: x in s ==> m <= x by {
      var m := SomeLeast(s);
    }
    var m :| m in s && forall x :: x in s ==> m <= x;
    m
  }

  /** `sorted(s)`. */
  function Sorted(s: set<nat>): (r: seq<nat>)
    ensures forall x :: x in r <==> x in s
    ensures forall i, j :: 0 <= i < j < |r| ==> r[i] < r[j]
  {
    if s == {} then []
    else
      var m := Least(s);
      var rest := Sorted(s - {m});
      assert forall x :: x in rest ==> m < x;
      [m] + rest
  }

  // ---- the five checks ----

  datatype Source = InBody | InCommit | InTitle

  datatype Finding = Finding(check: nat, issue: nat, source: Source)

  function Emit(check: nat, source: Source, issues: seq<nat>): (r: seq<Finding>)
    ensures |r| == |issues| && forall i :: 0 <= i < |r| ==> r[i] == Finding(check, issues[i], source)
  {
    seq(|issues|, i requires 0 <= i < |issues| => Finding(check, issues[i], source))
  }

  /** The sets that the checks compare. */
  datatype Reading = Reading(
    closing: set<nat>,          // broad vocabulary, author's reading
    nonclosing: set<nat>,       // part of / toward, author's reading
    discussed: set<nat>,        // discussing markers
    declared: set<nat>,         // canonical vocabulary, author's reading
    corroborated: set<nat>,     // canonical vocabulary, GitHub's reading
    negated: set<nat>)          // negated closing keywords, GitHub's reading

  function ReadText(s: string): Reading {
    Reading(
      Declared(Closing, AuthorReading(s)), Declared(NonClosing, AuthorReading(s)), Discussed(s),
      Declared(Canonical, AuthorReading(s)), Declared(Canonical, GithubReading(s)), Negated(s))
  }

  /** What a commit message or a title asserts on its own. */
  function Asserts(s: string): set<nat> {
    ReadText(s).closing - ReadText(s).discussed
  }

  function AssertedBy(messages: seq<string>): (r: set<nat>)
    ensures forall n :: n in r <==> exists m :: m in messages && n in Asserts(m)
  {
    if messages == [] then {} else Asserts(messages[0]) + AssertedBy(messages[1..])
  }

  function Engaged(b: Reading): set<nat> {
    b.declared + b.negated
  }

  function FalseNegatives(b: Reading, refs: set<nat>): set<nat> {
    b.closing - refs - b.discussed
  }

  function FalsePositives(b: Reading, refs: set<nat>): set<nat> {
    ((b.nonclosing - b.corroborated) + b.discussed) * refs
  }

  function Undeclared(b: Reading, refs: set<nat>): set<nat> {
    refs - (Engaged(b) + b.nonclosing + b.discussed)
  }

  function NegatedCommits(messages: seq<string>): seq<Finding> {
    if messages == [] then []
    else NegatedCommits(messages[..|messages| - 1])
         + Emit(5, InCommit, Sorted(ReadText(messages[|messages| - 1]).negated))
  }

  function Refs(refs: seq<nat>): set<nat> {
    set n | n in refs
  }

  function Contradictions(body: string, refs: seq<nat>, messages: seq<string>, title: string): seq<Finding> {
    var b, closing := ReadText(body), Refs(refs);
    Emit(1, InBody, Sorted(FalseNegatives(b, closing)))
    + Emit(2, InBody, Sorted(FalsePositives(b, closing)))
    + Emit(3, InBody, Sorted(Undeclared(b, closing)))
    + Emit(4, InCommit, Sorted(AssertedBy(messages) - Engaged(b)))
    + (if title != "" then Emit(4, InTitle, Sorted(Asserts(title) - Engaged(b))) else [])
    + Emit(5, InBody, Sorted(b.negated))
    + NegatedCommits(messages)
    + (if title != "" then Emit(5, InTitle, Sorted(ReadText(title).negated)) else [])
  }

  /** A loop `for n in sorted(issues): findings.append(...)`. */
  method Append(findings: seq<Finding>, check: nat, source: Source, issues: set<nat>) returns (more: seq<Finding>)
    ensures more == findings + Emit(check, source, Sorted(issues))
  {
    hide Sorted, Emit;
    more := findings;
    var order := Sorted(issues);
    EmitNothing(check, source);
    for i := 0 to |order|
      invariant more == findings + Emit(check, source, order[..i])
    {
      more := more + [Finding(check, order[i], source)];
      EmitOne(check, source, order[..i], order[i]);
      assert order[..i + 1] == order[..i] + [order[i]];
    }
    assert order[..|order|] == order;
  }

  lemma EmitNothing(check: nat, source: Source)
    ensures Emit(check, source, []) == []
  {}

  lemma EmitOne(check: nat, source: Source, issues: seq<nat>, n: nat)
    ensures Emit(check, source, issues + [n]) == Emit(check, source, issues) + [Finding(check, n, source)]
  {}

  /** The loop that collects what the commit messages assert. */
  method CollectAsserted(messages: seq<string>) returns (asserted: set<nat>)
    ensures asserted == AssertedBy(messages)
  {
    hide Asserts;
    asserted := {};
    for i := 0 to |messages|
      invariant forall n :: n in asserted <==> exists m :: m in messages[..i] && n in Asserts(m)
    {
      assert messages[..i + 1] == messages[..i] + [messages[i]];
      asserted := asserted + Asserts(messages[i]);
    }
    assert messages[..|messages|] == messages;
  }

  /** The loop that reports negated keywords of the commit messages. */
  method AppendNegatedCommits(findings: seq<Finding>, messages: seq<string>) returns (more: seq<Finding>)
    ensures more == findings + NegatedCommits(messages)
  {
    hide ReadText, Emit, Sorted;
    more := findings;
    for i := 0 to |messages|
      invariant more == findings + NegatedCommits(messages[..i])
    {
      assert messages[..i + 1][..i] == messages[..i];
      more := Append(more, 5, InCommit, ReadText(messages[i]).negated);
    }
    assert messages[..|messages|] == messages;
  }

  /** `check_contradictions`; an absent title is the empty one. */
  method CheckContradictions(body: string, refs: seq<nat>, messages: seq<string>, title: string)
    returns (findings: seq<Finding>)
    ensures findings == Contradictions(body, refs, messages, title)
  {
    hide ReadText, Emit, Sorted, AssertedBy, Asserts, Engaged, NegatedCommits, FalseNegatives, FalsePositives, Undeclared, Refs;
    var b, closing := ReadText(body), Refs(refs);
    findings := Append([], 1, InBody, FalseNegatives(b, closing));
    findings := Append(findings, 2, InBody, FalsePositives(b, closing));
    findings := Append(findings, 3, InBody, Undeclared(b, closing));
    var asserted := CollectAsserted(messages);
    findings := Append(findings, 4, InCommit, asserted - Engaged(b));
    if title != "" {
      findings := Append(findings, 4, InTitle, Asserts(title) - Engaged(b));
    }
    findings := Append(findings, 5, InBody, b.negated);
    findings := AppendNegatedCommits(findings, messages);
    if title != "" {
      findings := Append(findings, 5, InTitle, ReadText(title).negated);
    }
  }

  // ---- when an issue is reported ----

  lemma EmitHas(check: nat, source: Source, issues: set<nat>, f: Finding)
    ensures f in Emit(check, source, Sorted(issues)) <==> f.check == check && f.source == source && f.issue in issues
  {
    var order := Sorted(issues);
    var r := Emit(check, source, order);
    if f.check == check && f.source == source && f.issue in issues {
      var i :| 0 <= i < |order| && order[i] == f.issue;
      assert r[i] == f;
    }
  }

  lemma {:induction false} NegatedCommitsHas(messages: seq<string>, f: Finding)
    ensures f in NegatedCommits(messages)
      <==> f.check == 5 && f.source == InCommit && exists m :: m in messages && f.issue in ReadText(m).negated
  {
    hide ReadText, Emit, Sorted;
    if messages == [] {
    } else {
      var n := |messages| - 1;
      NegatedCommitsHas(messages[..n], f);
      EmitHas(5, InCommit, ReadText(messages[n]).negated, f);
      assert messages == messages[..n] + [messages[n]];
    }
  }

  // What each check reports, in terms of the texts alone.

  /** Some discussing marker of the text holds the number. */
  predicate Discusses(text: string, n: nat) {
    exists i :: 0 <= i <= |text| && DiscussingAt(text, i).Some? && n in DiscussingAt(text, i).value
  }

  /** A closing keyword for the issue stands, for GitHub, behind a negation. */
  predicate Negates(text: string, n: nat) {
    var s := GithubReading(text);
    exists i :: 0 <= i <= |s| && MatchAt(Closing, s, i).Some? && MatchAt(Closing, s, i).value.0 == n && NegatedBefore(s, i)
  }

  /** The text, on its own, declares that it closes the issue. */
  predicate Claims(text: string, n: nat) {
    Names(Closing, AuthorReading(text), n) && !Discusses(text, n)
  }

  /** The body has taken the issue up in the canonical form, or negates it. */
  predicate TakesUp(body: string, n: nat) {
    Names(Canonical, AuthorReading(body), n) || Negates(body, n)
  }

  lemma ReadingMeans(s: string, n: nat)
    ensures n in ReadText(s).closing <==> Names(Closing, AuthorReading(s), n)
    ensures n in ReadText(s).nonclosing <==> Names(NonClosing, AuthorReading(s), n)
    ensures n in ReadText(s).declared <==> Names(Canonical, AuthorReading(s), n)
    ensures n in ReadText(s).corroborated <==> Names(Canonical, GithubReading(s), n)
    ensures n in ReadText(s).discussed <==> Discusses(s, n)
    ensures n in ReadText(s).negated <==> Negates(s, n)
    ensures n in Asserts(s) <==> Claims(s, n)
  {
    hide Names, MatchAt, DiscussingAt, NegatedBefore, AuthorReading, GithubReading;
  }

  /** The list of findings holds exactly what the five checks report. */
  lemma FindingsAre(body: string, refs: seq<nat>, messages: seq<string>, title: string, f: Finding)
    ensures f in Contradictions(body, refs, messages, title) <==>
      var n := f.issue;
      match (f.check, f.source)
      case (1, InBody) => Names(Closing, AuthorReading(body), n) && n !in refs && !Discusses(body, n)
      case (2, InBody) =>
        n in refs && (Discusses(body, n) ||
                      (Names(NonClosing, AuthorReading(body), n) && !Names(Canonical, GithubReading(body), n)))
      case (3, InBody) =>
        n in refs && !TakesUp(body, n) && !Names(NonClosing, AuthorReading(body), n) && !Discusses(body, n)
      case (4, InCommit) => !TakesUp(body, n) && exists m :: m in messages && Claims(m, n)
      case (4, InTitle) => !TakesUp(body, n) && Claims(title, n)
      case (5, InBody) => Negates(body, n)
      case (5, InCommit) => exists m :: m in messages && Negates(m, n)
      case (5, InTitle) => Negates(title, n)
      case _ => false
  {
    hide ReadText, Emit, Sorted, AssertedBy, Asserts, Names, Discusses, Negates, Claims, AuthorReading, GithubReading;
    var b, closing, n := ReadText(body), Refs(refs), f.issue;
    ReadingMeans(body, n);
    ReadingMeans(title, n);
    EmptyTitleSaysNothing();
    forall m ensures (n in ReadText(m).negated <==> Negates(m, n)) && (n in Asserts(m) <==> Claims(m, n)) {
      ReadingMeans(m, n);
    }
    EmitHas(1, InBody, FalseNegatives(b, closing), f);
    EmitHas(2, InBody, FalsePositives(b, closing), f);
    EmitHas(3, InBody, Undeclared(b, closing), f);
    EmitHas(4, InCommit, AssertedBy(messages) - Engaged(b), f);
    EmitHas(4, InTitle, Asserts(title) - Engaged(b), f);
    EmitHas(5, InBody, b.negated, f);
    NegatedCommitsHas(messages, f);
    EmitHas(5, InTitle, ReadText(title).negated, f);
  }

  function Rank(f: Finding): nat {
    3 * f.check + (match f.source case InBody => 0 case InCommit => 1 case InTitle => 2)
  }

  /** By check, then body, commits, title; the issues of one check and source increase, but for the commits of check 5. */
  predicate InOrder(f: Finding, g: Finding) {
    Rank(f) < Rank(g) || (Rank(f) == Rank(g) && (f.issue < g.issue || (f.check == 5 && f.source == InCommit)))
  }

  predicate Ordered(fs: seq<Finding>, low: nat, high: nat) {
    (forall f :: f in fs ==> low <= Rank(f) <= high) && forall i, j :: 0 <= i < j < |fs| ==> InOrder(fs[i], fs[j])
  }

  lemma OrderedConcat(a: seq<Finding>, b: seq<Finding>, low: nat, mid: nat, high: nat)
    requires Ordered(a, low, mid) && Ordered(b, mid + 1, high) && low <= mid < high
    ensures Ordered(a + b, low, high)
  {
    hide Rank;
  }

  lemma EmitIsOrdered(check: nat, source: Source, issues: set<nat>)
    ensures var rank := Rank(Finding(check, 0, source)); Ordered(Emit(check, source, Sorted(issues)), rank, rank)
  {
    var r := Emit(check, source, Sorted(issues));
    forall f | f in r ensures Rank(f) == Rank(Finding(check, 0, source)) {
      EmitHas(check, source, issues, f);
    }
  }

  lemma {:induction false} NegatedCommitsAreOrdered(messages: seq<string>)
    ensures Ordered(NegatedCommits(messages), 16, 16)
  {
    forall f | f in NegatedCommits(messages) ensures f.check == 5 && f.source == InCommit {
      NegatedCommitsHas(messages, f);
    }
  }

  /** The findings come in the order of the checks. */
  lemma FindingsAreOrdered(body: string, refs: seq<nat>, messages: seq<string>, title: string)
    ensures Ordered(Contradictions(body, refs, messages, title), 3, 17)
  {
    hide Ordered, ReadText, Emit, Sorted, AssertedBy, Asserts, NegatedCommits, FalseNegatives, FalsePositives, Undeclared;
    var b, closing := ReadText(body), Refs(refs);
    EmitIsOrdered(1, InBody, FalseNegatives(b, closing));
    EmitIsOrdered(2, InBody, FalsePositives(b, closing));
    EmitIsOrdered(3, InBody, Undeclared(b, closing));
    EmitIsOrdered(4, InCommit, AssertedBy(messages) - Engaged(b));
    EmitIsOrdered(4, InTitle, Asserts(title) - Engaged(b));
    EmitIsOrdered(5, InBody, b.negated);
    NegatedCommitsAreOrdered(messages);
    EmitIsOrdered(5, InTitle, ReadText(title).negated);
    NothingIsOrdered(14);
    NothingIsOrdered(17);
    var one, two := Emit(1, InBody, Sorted(FalseNegatives(b, closing))), Emit(2, InBody, Sorted(FalsePositives(b, closing)));
    var three, commits := Emit(3, InBody, Sorted(Undeclared(b, closing))), Emit(4, InCommit, Sorted(AssertedBy(messages) - Engaged(b)));
    var fromTitle := if title != "" then Emit(4, InTitle, Sorted(Asserts(title) - Engaged(b))) else [];
    var five := Emit(5, InBody, Sorted(b.negated));
    OrderedWider(two, 6, 6, 4);
    OrderedWider(three, 9, 9, 7);
    OrderedWider(commits, 13, 13, 10);
    OrderedConcat(one, two, 3, 3, 6);
    OrderedConcat(one + two, three, 3, 6, 9);
    OrderedConcat(one + two + three, commits, 3, 9, 13);
    OrderedConcat(one + two + three + commits, fromTitle, 3, 13, 14);
    OrderedConcat(one + two + three + commits + fromTitle, five, 3, 14, 15);
    OrderedConcat(one + two + three + commits + fromTitle + five, NegatedCommits(messages), 3, 15, 16);
    OrderedConcat(one + two + three + commits + fromTitle + five + NegatedCommits(messages),
                  if title != "" then Emit(5, InTitle, Sorted(ReadText(title).negated)) else [], 3, 16, 17);
  }

  lemma NothingIsOrdered(rank: nat)
    ensures Ordered([], rank, rank)
  {}

  lemma OrderedWider(fs: seq<Finding>, low: nat, high: nat, lower: nat)
    requires Ordered(fs, low, high) && lower <= low
    ensures Ordered(fs, lower, high)
  {}

  ghost predicate Silent(body: string, refs: seq<nat>, messages: seq<string>, title: string, n: nat) {
    forall f :: f in Contradictions(body, refs, messages, title) ==> f.issue != n
  }

  /** The commit messages and the title claim nothing about `n` that the body does not take up, and negate nothing. */
  ghost predicate QuietElsewhere(body: string, messages: seq<string>, title: string, n: nat) {
    (forall m :: m in messages || m == title ==> !Negates(m, n) && (Claims(m, n) ==> TakesUp(body, n)))
  }

  /**
    The exact condition under which an issue passes without any finding: one that GitHub will close is
    declared, and one that it will not close is not claimed.
   */
  lemma {:induction false} SilentIff(body: string, refs: seq<nat>, messages: seq<string>, title: string, n: nat)
    ensures Silent(body, refs, messages, title, n) <==>
      !Negates(body, n) && QuietElsewhere(body, messages, title, n) &&
      if n in refs then
        !Discusses(body, n) &&
        (Names(Canonical, AuthorReading(body), n) || Names(NonClosing, AuthorReading(body), n)) &&
        (Names(NonClosing, AuthorReading(body), n) ==> Names(Canonical, GithubReading(body), n))
      else
        Names(Closing, AuthorReading(body), n) ==> Discusses(body, n)
  {
    hide Contradictions, Names, Discusses, Negates, Claims, AuthorReading, GithubReading, TakesUp;
    if Silent(body, refs, messages, title, n) {
      SilentMeans(body, refs, messages, title, n);
    } else {
      var f :| f in Contradictions(body, refs, messages, title) && f.issue == n;
      FindingsAre(body, refs, messages, title, f);
      TakesUpMeans(body, n);
    }
  }

  lemma TakesUpMeans(body: string, n: nat)
    ensures TakesUp(body, n) <==> Names(Canonical, AuthorReading(body), n) || Negates(body, n)
  {}

  lemma SilentMeans(body: string, refs: seq<nat>, messages: seq<string>, title: string, n: nat)
    requires Silent(body, refs, messages, title, n)
    ensures !Negates(body, n) && QuietElsewhere(body, messages, title, n)
    ensures n in refs ==>
      !Discusses(body, n) &&
      (Names(Canonical, AuthorReading(body), n) || Names(NonClosing, AuthorReading(body), n)) &&
      (Names(NonClosing, AuthorReading(body), n) ==> Names(Canonical, GithubReading(body), n))
    ensures n !in refs && Names(Closing, AuthorReading(body), n) ==> Discusses(body, n)
  {
    hide Contradictions, Names, Discusses, Negates, Claims, AuthorReading, GithubReading, TakesUp;
    TakesUpMeans(body, n);
    forall check, source
      ensures Finding(check, n, source) !in Contradictions(body, refs, messages, title)
    {
      assert Finding(check, n, source).issue == n;
    }
    FindingsAre(body, refs, messages, title, Finding(1, n, InBody));
    FindingsAre(body, refs, messages, title, Finding(2, n, InBody));
    FindingsAre(body, refs, messages, title, Finding(3, n, InBody));
    FindingsAre(body, refs, messages, title, Finding(4, n, InCommit));
    FindingsAre(body, refs, messages, title, Finding(4, n, InTitle));
    FindingsAre(body, refs, messages, title, Finding(5, n, InBody));
    FindingsAre(body, refs, messages, title, Finding(5, n, InCommit));
    FindingsAre(body, refs, messages, title, Finding(5, n, InTitle));
  }

  lemma NothingMatchesNothing(p: Pattern)
    ensures MatchAt(p, "", 0).None?
  {
    if MatchAt(p, "", 0).Some? {
      MatchAdvances(p, "", 0);
    }
  }

  /** An empty title matches nothing, so `if title:` only skips work. */
  lemma EmptyTitleSaysNothing()
    ensures Asserts("") == {} && ReadText("").negated == {}
  {
    hide Declared, MatchAt;
    assert AuthorReading("") == "";
    assert GithubReading("") == "";
    NothingMatchesNothing(Closing);
    assert forall n :: !Names(Closing, "", n);
  }

  /** What the detector's documentation claims: no issue is closed in silence. */
  lemma {:induction false} NoSilentClose(body: string, refs: seq<nat>, messages: seq<string>, title: string, n: nat)
    requires n in refs && Silent(body, refs, messages, title, n)
    ensures Names(Canonical, AuthorReading(body), n) || Names(Canonical, GithubReading(body), n)
    ensures forall i :: 0 <= i <= |body| && DiscussingAt(body, i).Some? ==> n !in DiscussingAt(body, i).value
    ensures var s := GithubReading(body);
            forall i :: 0 <= i <= |s| && MatchAt(Closing, s, i).Some? && MatchAt(Closing, s, i).value.0 == n
                        ==> !NegatedBefore(s, i)
  {
    hide MatchAt, DiscussingAt, NegatedBefore, Silent, AuthorReading, GithubReading;
    SilentIff(body, refs, messages, title, n);
  }

  /** Two texts say the same about an issue. */
  predicate SameOn(a: string, b: string, n: nat) {
    (Names(Closing, AuthorReading(a), n) <==> Names(Closing, AuthorReading(b), n)) &&
    (Names(NonClosing, AuthorReading(a), n) <==> Names(NonClosing, AuthorReading(b), n)) &&
    (Names(Canonical, AuthorReading(a), n) <==> Names(Canonical, AuthorReading(b), n)) &&
    (Names(Canonical, GithubReading(a), n) <==> Names(Canonical, GithubReading(b), n)) &&
    (Discusses(a, n) <==> Discusses(b, n)) && (Negates(a, n) <==> Negates(b, n))
  }

  /** An issue's findings depend on nothing but what the texts say about it. */
  lemma {:induction false} FindingsAreLocal(
      body: string, refs: seq<nat>, messages: seq<string>, title: string,
      body': string, refs': seq<nat>, messages': seq<string>, title': string, n: nat)
    requires SameOn(body, body', n) && SameOn(title, title', n) && (n in refs <==> n in refs')
    requires (exists m :: m in messages && Claims(m, n)) <==> (exists m :: m in messages' && Claims(m, n))
    requires (exists m :: m in messages && Negates(m, n)) <==> (exists m :: m in messages' && Negates(m, n))
    ensures forall f: Finding :: f.issue == n ==>
      (f in Contradictions(body, refs, messages, title) <==> f in Contradictions(body', refs', messages', title'))
  {
    hide Contradictions, Names, Discusses, Negates, AuthorReading, GithubReading;
    forall f: Finding | f.issue == n
      ensures f in Contradictions(body, refs, messages, title) <==> f in Contradictions(body', refs', messages', title')
    {
      FindingsAre(body, refs, messages, title, f);
      FindingsAre(body', refs', messages', title', f);
    }
  }
}
