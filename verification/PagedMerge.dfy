/**
  Merging the pages of one listing, with the server's `total_count` as the proof that none is missing
  (scripts/detect_5265_startup_failure_blocked_prs.py).
 */
module PagedMerge {
  import opened Wrappers
  import opened Text
  import opened PagedReader

  datatype Page<T> = Page(items: seq<T>, total: Option<int>)

  datatype ReadError = UndecodableOutput | IncompleteMerge

  function Concat<T>(pages: seq<Page<T>>): seq<T> {
    if pages == [] then [] else pages[0].items + Concat(pages[1..])
  }

  function LastTotal<T>(pages: seq<Page<T>>): Option<int> {
    if pages == [] then None
    else
      var last := pages[|pages| - 1];
      if last.total.Some? then last.total else LastTotal(pages[..|pages| - 1])
  }

  predicate Complete<T>(pages: seq<Page<T>>) {
    LastTotal(pages).Some? ==> LastTotal(pages).value == |Concat(pages)|
  }

  lemma {:induction false} ConcatAppend<T>(a: seq<Page<T>>, b: seq<Page<T>>)
    ensures Concat(a + b) == Concat(a) + Concat(b)
  {
    if a == [] {
      assert a + b == b;
    } else {
      assert (a + b)[0] == a[0] && (a + b)[1..] == a[1..] + b;
      ConcatAppend(a[1..], b);
    }
  }

  /** `_merge_paginated_pages`: every page's items in order, unless the last total says otherwise. */
  method MergePages<T>(pages: seq<Page<T>>) returns (r: Result<Page<T>, ReadError>)
    ensures r == if Complete(pages) then Ok(Page(Concat(pages), LastTotal(pages))) else Err(IncompleteMerge)
  {
    var merged: seq<T>, total: Option<int> := [], None;
    for i := 0 to |pages|
      invariant merged == Concat(pages[..i]) && total == LastTotal(pages[..i])
    {
      var page := pages[i];
      assert pages[..i + 1] == pages[..i] + [page];
      ConcatAppend(pages[..i], [page]);
      assert Concat([page]) == page.items;
      merged := merged + page.items;
      if page.total.Some? {
        total := page.total;
      }
    }
    assert pages[..|pages|] == pages;
    if total.Some? && total.value != |merged| {
      return Err(IncompleteMerge);
    }
    r := Ok(Page(merged, total));
  }

  // ---- completeness ----

  /** The pages of one listing as the server has them: each carries the true total. */
  predicate ServerPages<T(==)>(pages: seq<Page<T>>, population: seq<T>) {
    Concat(pages) == population && forall p :: p in pages ==> p.total == Some(|population|)
  }

  /** What is left of the pages when some are dropped. */
  function Received<T>(pages: seq<Page<T>>, keep: seq<bool>): seq<Page<T>>
    requires |pages| == |keep|
  {
    if pages == [] then []
    else (if keep[0] then [pages[0]] else []) + Received(pages[1..], keep[1..])
  }

  predicate OnlyEmptyDropped<T(==)>(pages: seq<Page<T>>, keep: seq<bool>)
    requires |pages| == |keep|
  {
    forall i :: 0 <= i < |pages| && !keep[i] ==> pages[i].items == []
  }

  lemma {:induction false} DroppingShortens<T>(pages: seq<Page<T>>, keep: seq<bool>)
    requires |pages| == |keep|
    ensures |Concat(Received(pages, keep))| <= |Concat(pages)|
    ensures |Concat(Received(pages, keep))| == |Concat(pages)| <==> OnlyEmptyDropped(pages, keep)
    ensures OnlyEmptyDropped(pages, keep) ==> Concat(Received(pages, keep)) == Concat(pages)
    ensures forall p :: p in Received(pages, keep) ==> p in pages
  {
    if pages == [] {
    } else {
      var rest, kept := pages[1..], keep[1..];
      DroppingShortens(rest, kept);
      ConcatAppend(if keep[0] then [pages[0]] else [], Received(rest, kept));
      assert Concat([pages[0]]) == pages[0].items;
      assert OnlyEmptyDropped(pages, keep) <==> (keep[0] || pages[0].items == []) && OnlyEmptyDropped(rest, kept) by {
        assert forall i :: 0 <= i < |rest| ==> rest[i] == pages[i + 1] && kept[i] == keep[i + 1];
        if OnlyEmptyDropped(pages, keep) {
          forall i | 0 <= i < |rest| && !kept[i] ensures rest[i].items == [] {
            assert pages[i + 1].items == [];
          }
        }
      }
    }
  }

  /** Whatever pages were lost, as long as one arrived: the merge is refused, or it is everything. */
  lemma {:induction false} MergeIsAllOrRefused<T>(pages: seq<Page<T>>, population: seq<T>, keep: seq<bool>)
    requires |pages| == |keep| && ServerPages(pages, population) && Received(pages, keep) != []
    ensures Complete(Received(pages, keep)) <==> OnlyEmptyDropped(pages, keep)
    ensures Complete(Received(pages, keep)) ==> Concat(Received(pages, keep)) == population
  {
    DroppingShortens(pages, keep);
    var got := Received(pages, keep);
    assert got[|got| - 1] in got;
  }

  // ---- the verdict ----

  datatype WorkflowRun = WorkflowRun(conclusion: Option<string>, jobs: Option<int>)

  predicate IsDeadRun(r: WorkflowRun) {
    r.conclusion == Some("startup_failure") && r.jobs == Some(0)
  }

  predicate IsPermanentlyBlocked(runs: seq<WorkflowRun>) {
    runs == [] || forall r :: r in runs ==> IsDeadRun(r)
  }

  /** From the text that `gh` printed to the full listing. */
  method ReadListing<T>(scan: string -> Option<nat>, load: string -> Page<T>, stdout: string)
    returns (r: Result<seq<T>, ReadError>)
    requires Advances(scan)
    ensures r == Listing(scan, load, stdout)
  {
    var texts := ParsePaginated(scan, stdout);
    if texts.None? {
      return Err(UndecodableOutput);
    }
    var merged := MergePages(Loaded(load, texts.value));
    match merged
    case Err(e) => r := Err(e);
    case Ok(page) => r := Ok(page.items);
  }

  function Loaded<T>(load: string -> Page<T>, texts: seq<string>): (r: seq<Page<T>>)
    ensures |r| == |texts| && forall i :: 0 <= i < |r| ==> r[i] == load(texts[i])
  {
    seq(|texts|, i requires 0 <= i < |texts| => load(texts[i]))
  }

  ghost function Listing<T>(scan: string -> Option<nat>, load: string -> Page<T>, stdout: string): Result<seq<T>, ReadError>
    requires Advances(scan)
  {
    var texts := Split(scan, Strip(stdout));
    if texts.None? then Err(UndecodableOutput)
    else
      var pages := Loaded(load, texts.value);
      if Complete(pages) then Ok(Concat(pages)) else Err(IncompleteMerge)
  }

  lemma {:induction false} PrefixIsReceived<T>(pages: seq<Page<T>>, n: nat)
    requires n <= |pages|
    ensures Received(pages, seq(|pages|, i => i < n)) == pages[..n]
    decreases |pages|
  {
    if pages == [] {
    } else {
      var keep := seq(|pages|, i => i < n);
      if n == 0 {
        NothingReceived(pages, keep);
      } else {
        PrefixIsReceived(pages[1..], n - 1);
        assert keep[1..] == seq(|pages[1..]|, i => i < n - 1);
        assert pages[..n] == [pages[0]] + pages[1..][..n - 1];
      }
    }
  }

  lemma {:induction false} NothingReceived<T>(pages: seq<Page<T>>, keep: seq<bool>)
    requires |pages| == |keep| && forall i :: 0 <= i < |keep| ==> !keep[i]
    ensures Received(pages, keep) == []
  {
    if pages == [] {
    } else {
      NothingReceived(pages[1..], keep[1..]);
    }
  }

  /**
    An interrupted fetch, cut anywhere after the first visible character, is refused or is complete:
    it never passes for a shorter listing.
   */
  lemma {:induction false} InterruptedReadIsSafe<T>(lang: string -> bool, scan: string -> Option<nat>, load: string -> Page<T>,
                                 stdout: string, k: nat, texts: seq<string>, population: seq<T>)
    requires SelfDelimiting(lang) && Scans(lang, scan)
    requires AllIn(lang, texts) && IsStream(stdout, texts) && ServerPages(Loaded(load, texts), population)
    requires k <= |stdout| && !Blank(stdout[..k])
    ensures Listing(scan, load, stdout[..k]).Err? || Listing(scan, load, stdout[..k]) == Ok(population)
  {
    hide IsStream, SelfDelimiting, Scans, Split, Strip, AllIn, Blank;
    AdvancesWhenScans(lang, scan);
    var cut := stdout[..k];
    var got := Split(scan, Strip(cut));
    if got.Some? {
      var some := got.value;
      ReadsExactlyThePages(lang, scan, cut, some);
      StartsNonblank(cut, some);
      CutStream(lang, stdout, k, texts, some);
      var pages, n := Loaded(load, texts), |some|;
      assert Loaded(load, some) == pages[..n];
      PrefixIsReceived(pages, n);
      MergeIsAllOrRefused(pages, population, seq(|pages|, i => i < n));
    }
  }

  lemma AdvancesWhenScans(lang: string -> bool, scan: string -> Option<nat>)
    requires Scans(lang, scan)
    ensures Advances(scan)
  {}

  /** The verdict on a head is never turned by lost pages. */
  lemma {:induction false} LostPagesNeverFlipTheVerdict(pages: seq<Page<WorkflowRun>>, population: seq<WorkflowRun>, keep: seq<bool>)
    requires |pages| == |keep| && ServerPages(pages, population) && Received(pages, keep) != []
    requires Complete(Received(pages, keep))
    ensures IsPermanentlyBlocked(Concat(Received(pages, keep))) <==> IsPermanentlyBlocked(population)
  {
    MergeIsAllOrRefused(pages, population, keep);
  }

  /** A head with runs is not blocked exactly when some run is no startup failure, or has jobs, or an unknown number of them. */
  lemma AliveIff(runs: seq<WorkflowRun>)
    ensures !IsPermanentlyBlocked(runs) <==>
      exists i :: 0 <= i < |runs| && (runs[i].conclusion != Some("startup_failure") || runs[i].jobs != Some(0))
  {
    if i :| 0 <= i < |runs| && (runs[i].conclusion != Some("startup_failure") || runs[i].jobs != Some(0)) {
      assert runs[i] in runs && !IsDeadRun(runs[i]);
    }
  }

  /** Without a single page there is no total to check against, and a healthy head reads as blocked. */
  lemma NoPageNoProof(scan: string -> Option<nat>, load: string -> Page<WorkflowRun>, stdout: string)
    requires Advances(scan) && Blank(stdout)
    ensures Listing(scan, load, stdout) == Ok([]) && IsPermanentlyBlocked([])
  {
    StripBlank(stdout);
  }

  // ---- pages read twice or out of order ----

  /** The pages that a reader got: those of the given numbers, in whatever order and however often. */
  function Picked<T>(pages: seq<Page<T>>, nos: seq<nat>): (r: seq<Page<T>>)
    requires forall k :: 0 <= k < |nos| ==> nos[k] < |pages|
    ensures |r| == |nos| && forall k :: 0 <= k < |r| ==> r[k] == pages[nos[k]]
  {
    if nos == [] then [] else [pages[nos[0]]] + Picked(pages, nos[1..])
  }

  predicate Distinct<T(==)>(s: seq<T>) {
    forall i, j :: 0 <= i < j < |s| ==> s[i] != s[j]
  }

  predicate NoPageTwice<T(==)>(pages: seq<Page<T>>, nos: seq<nat>)
    requires forall k :: 0 <= k < |nos| ==> nos[k] < |pages|
  {
    forall x, y :: 0 <= x < y < |nos| && nos[x] == nos[y] ==> pages[nos[x]].items == []
  }

  lemma DistinctHalves<T>(a: seq<T>, b: seq<T>)
    ensures Distinct(a + b) <==> Distinct(a) && Distinct(b) && forall v :: !(v in a && v in b)
  {
    var s := a + b;
    if Distinct(s) {
      assert forall i :: 0 <= i < |a| ==> a[i] == s[i];
      assert forall i :: 0 <= i < |b| ==> b[i] == s[|a| + i];
      forall i, j | 0 <= i < |a| && 0 <= j < |b| ensures a[i] != b[j] {
        assert s[i] != s[|a| + j];
      }
    }
    if Distinct(a) && Distinct(b) && forall v :: !(v in a && v in b) {
      forall i, j | 0 <= i < j < |s| ensures s[i] != s[j] {
        if j < |a| {
          assert s[i] == a[i] && s[j] == a[j];
        } else if i < |a| {
          assert s[i] in a && s[j] == b[j - |a|] && s[j] in b;
        } else {
          assert s[i] == b[i - |a|] && s[j] == b[j - |a|];
        }
      }
    }
  }

  lemma {:induction false} InSomePage<T>(pages: seq<Page<T>>, v: T)
    ensures v in Concat(pages) <==> exists i :: 0 <= i < |pages| && v in pages[i].items
  {
    if pages == [] {
    } else {
      InSomePage(pages[1..], v);
      if i :| 0 <= i < |pages| && v in pages[i].items {
        assert i > 0 ==> pages[1..][i - 1] == pages[i];
      }
      if i :| 0 <= i < |pages[1..]| && v in pages[1..][i].items {
        assert pages[i + 1] == pages[1..][i];
      }
    }
  }

  /** In a listing of distinct items each page is distinct, and no two pages share an item. */
  lemma {:induction false} OnePageEach<T>(pages: seq<Page<T>>, i: nat, j: nat)
    requires Distinct(Concat(pages)) && i < |pages| && j < |pages|
    ensures Distinct(pages[i].items)
    ensures i != j ==> forall v :: !(v in pages[i].items && v in pages[j].items)
  {
    var rest := pages[1..];
    DistinctHalves(pages[0].items, Concat(rest));
    forall k, v | 0 <= k < |rest| && v in rest[k].items ensures v !in pages[0].items {
      InSomePage(rest, v);
    }
    if i > 0 && j > 0 {
      OnePageEach(rest, i - 1, j - 1);
    } else if i > 0 {
      OnePageEach(rest, i - 1, i - 1);
      assert pages[i] == rest[i - 1];
    } else if j > 0 {
      assert pages[j] == rest[j - 1];
    }
  }

  /** The items read are distinct exactly when no page with items is read twice. */
  lemma {:induction false} DistinctIffOnce<T>(pages: seq<Page<T>>, nos: seq<nat>)
    requires Distinct(Concat(pages)) && forall k :: 0 <= k < |nos| ==> nos[k] < |pages|
    ensures Distinct(Concat(Picked(pages, nos))) <==> NoPageTwice(pages, nos)
    decreases |nos|
  {
    if nos != [] {
      var head, more := nos[0], nos[1..];
      DistinctIffOnce(pages, more);
      OnePageEach(pages, head, head);
      DistinctHalves(pages[head].items, Concat(Picked(pages, more)));
      SharedIffAgain(pages, head, more);
      OncePeels(pages, nos);
    } else {
      assert Concat(Picked(pages, nos)) == [];
    }
  }

  lemma OncePeels<T>(pages: seq<Page<T>>, nos: seq<nat>)
    requires nos != [] && forall k :: 0 <= k < |nos| ==> nos[k] < |pages|
    ensures NoPageTwice(pages, nos) <==>
      NoPageTwice(pages, nos[1..]) && (nos[0] in nos[1..] ==> pages[nos[0]].items == [])
  {
    var more := nos[1..];
    assert forall k :: 0 <= k < |more| ==> more[k] == nos[k + 1];
    if NoPageTwice(pages, nos) {
      forall x, y | 0 <= x < y < |more| && more[x] == more[y] ensures pages[more[x]].items == [] {
        assert nos[x + 1] == nos[y + 1];
      }
      if nos[0] in more {
        var y :| 0 <= y < |more| && more[y] == nos[0];
        assert nos[0] == nos[y + 1];
      }
    } else {
      var x, y :| 0 <= x < y < |nos| && nos[x] == nos[y] && pages[nos[x]].items != [];
      assert more[y - 1] == nos[y];
      assert x > 0 ==> more[x - 1] == nos[x];
    }
  }

  lemma SharedIffAgain<T>(pages: seq<Page<T>>, head: nat, more: seq<nat>)
    requires Distinct(Concat(pages)) && head < |pages| && forall k :: 0 <= k < |more| ==> more[k] < |pages|
    ensures (exists v :: v in pages[head].items && v in Concat(Picked(pages, more))) <==>
      head in more && pages[head].items != []
  {
    var got := Picked(pages, more);
    if v :| v in pages[head].items && v in Concat(got) {
      InSomePage(got, v);
      var k :| 0 <= k < |got| && v in got[k].items;
      OnePageEach(pages, head, more[k]);
      assert more[k] in more;
    }
    if head in more && pages[head].items != [] {
      var k :| 0 <= k < |more| && more[k] == head;
      var v := pages[head].items[0];
      assert got[k] == pages[head] && v in got[k].items;
      InSomePage(got, v);
    }
  }

  function Members<T>(s: seq<T>): set<T> {
    set v | v in s
  }

  lemma {:induction false} DistinctIsSet<T>(s: seq<T>)
    requires Distinct(s)
    ensures multiset(s) == multiset(Members(s)) && |Members(s)| == |s|
  {
    if s == [] {
      assert Members(s) == {};
    } else {
      var head, rest := s[0], s[1..];
      assert s == [head] + rest;
      DistinctHalves([head], rest);
      assert head in [head];
      DistinctIsSet(rest);
      assert Members(s) == Members(rest) + {head};
    }
  }

  lemma SameItems<T>(a: seq<T>, b: seq<T>)
    requires Distinct(a) && Distinct(b) && |a| == |b| && forall v :: v in a ==> v in b
    ensures multiset(a) == multiset(b)
  {
    DistinctIsSet(a);
    DistinctIsSet(b);
    var s, t := Members(a), Members(b);
    SubsetOfSameSize(s, t);
  }

  lemma SubsetOfSameSize<T>(s: set<T>, t: set<T>)
    requires s <= t && |s| == |t|
    ensures s == t
  {
    if v :| v in t && v !in s {
      assert s <= t - {v};
      SubsetIsSmaller(s, t - {v});
    }
  }

  lemma {:induction false} SubsetIsSmaller<T>(s: set<T>, t: set<T>)
    requires s <= t
    ensures |s| <= |t|
    decreases s
  {
    if s == {} {
    } else {
      var v :| v in s;
      SubsetIsSmaller(s - {v}, t - {v});
    }
  }

  lemma PermutationIsDistinct<T>(a: seq<T>, b: seq<T>)
    requires Distinct(b) && multiset(a) == multiset(b)
    ensures Distinct(a)
  {
    DistinctIsSet(b);
    if !Distinct(a) {
      var i, j :| 0 <= i < j < |a| && a[i] == a[j];
      RepeatCountsTwice(a, i, j);
    }
  }

  lemma RepeatCountsTwice<T>(a: seq<T>, i: nat, j: nat)
    requires i < j < |a| && a[i] == a[j]
    ensures multiset(a)[a[j]] >= 2
  {
    assert a == a[..j] + [a[j]] + a[j + 1..];
    assert a[i] in a[..j];
    assert multiset(a) == multiset(a[..j]) + multiset{a[j]} + multiset(a[j + 1..]);
  }

  lemma LastTotalIsTrue<T>(pages: seq<Page<T>>, population: seq<T>, nos: seq<nat>)
    requires ServerPages(pages, population) && nos != [] && forall k :: 0 <= k < |nos| ==> nos[k] < |pages|
    ensures LastTotal(Picked(pages, nos)) == Some(|population|)
  {
    var last := nos[|nos| - 1];
    assert Picked(pages, nos)[|nos| - 1] == pages[last] && pages[last] in pages;
  }

  lemma PickedAreListed<T>(pages: seq<Page<T>>, nos: seq<nat>)
    requires forall k :: 0 <= k < |nos| ==> nos[k] < |pages|
    ensures forall v :: v in Concat(Picked(pages, nos)) ==> v in Concat(pages)
  {
    hide Concat;
    var got := Picked(pages, nos);
    forall v | v in Concat(got) ensures v in Concat(pages) {
      InSomePage(got, v);
      var k :| 0 <= k < |got| && v in got[k].items;
      assert v in pages[nos[k]].items;
      InSomePage(pages, v);
    }
  }

  /**
    The total counts, it does not compare. For pages read in any order and any number of times, a merge
    that is accepted is the population, up to order, exactly when no page with items was read twice.
   */
  lemma AcceptedIffNoPageTwice<T>(pages: seq<Page<T>>, population: seq<T>, nos: seq<nat>)
    requires ServerPages(pages, population) && Distinct(population)
    requires nos != [] && forall k :: 0 <= k < |nos| ==> nos[k] < |pages|
    requires Complete(Picked(pages, nos))
    ensures multiset(Concat(Picked(pages, nos))) == multiset(population) <==> NoPageTwice(pages, nos)
  {
    hide Distinct, NoPageTwice, Concat;
    var items := Concat(Picked(pages, nos));
    DistinctIffOnce(pages, nos);
    LastTotalIsTrue(pages, population, nos);
    PickedAreListed(pages, nos);
    if NoPageTwice(pages, nos) {
      SameItems(items, population);
    } else if multiset(items) == multiset(population) {
      PermutationIsDistinct(items, population);
    }
  }

  /** A page read twice can stand in for one that was lost. */
  lemma DuplicateHidesLoss<T>(a: T, b: T)
    requires a != b
    ensures
      var first, second := Page([a], Some(2)), Page([b], Some(2));
      ServerPages([first, second], [a, b]) && Complete([first, first]) && Concat([first, first]) != [a, b]
  {
    var first, second := Page([a], Some(2)), Page([b], Some(2));
    ConcatTwo(first, second);
    ConcatTwo(first, first);
    assert [a] + [b] == [a, b] && ([a] + [a])[1] == a;
  }

  lemma ConcatTwo<T>(p: Page<T>, q: Page<T>)
    ensures Concat([p, q]) == p.items + q.items
  {
    var tail := [q];
    assert tail[1..] == [];
    assert Concat(tail) == q.items + Concat(tail[1..]) == q.items;
    assert [p, q] == [p] + tail;
    ConcatAppend([p], tail);
  }
}
