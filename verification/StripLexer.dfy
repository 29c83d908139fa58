/** The remover of comments and docstrings keeps the characters that a left-to-right lexer keeps. */
module StripLexer {
  import opened Wrappers
  import opened Text
  import opened Stripper

  // ---- the lexer ----

  /** The offsets a one-pass lexer keeps from `i` on, and the docstring it is in at the end of the line. */
  function Lex(line: string, i: nat, open: Option<Quote>): (r: (seq<nat>, Option<Quote>))
    requires i <= |line|
    decreases |line| - i
  {
    match open
    case Some(q) =>
      if QuoteAt(line, i, q) then Lex(line, i + 3, None)
      else if i < |line| then Lex(line, i + 1, open)
      else ([], open)
    case None =>
      if i == |line| || line[i] == '#' then ([], None)
      else if QuoteAt(line, i, Double) then Lex(line, i + 3, Some(Double))
      else if QuoteAt(line, i, Single) then Lex(line, i + 3, Some(Single))
      else
        var (kept, open1) := Lex(line, i + 1, None);
        ([i] + kept, open1)
  }

  // ---- the remover on offsets ----

  function Span(i: nat, j: nat): (ks: seq<nat>)
    requires i <= j
    ensures |ks| == j - i && forall x :: 0 <= x < |ks| ==> ks[x] == i + x
    decreases j - i
  {
    if i == j then [] else [i] + Span(i + 1, j)
  }

  predicate Within(ks: seq<nat>, n: nat) {
    forall x :: 0 <= x < |ks| ==> ks[x] < n
  }

  predicate Increasing(ks: seq<nat>) {
    forall x, y :: 0 <= x < y < |ks| ==> ks[x] < ks[y]
  }

  /** The characters of `line` at the offsets `ks`. */
  function Pick(line: string, ks: seq<nat>): (t: string)
    requires Within(ks, |line|)
    ensures |t| == |ks| && forall x :: 0 <= x < |t| ==> t[x] == line[ks[x]]
  {
    if ks == [] then "" else [line[ks[0]]] + Pick(line, ks[1..])
  }

  lemma PickIs(line: string, ks: seq<nat>, t: string)
    requires Within(ks, |line|) && |t| == |ks| && forall x :: 0 <= x < |t| ==> t[x] == line[ks[x]]
    ensures Pick(line, ks) == t
  {
  }

  /** `ts` without the stretch from `i` to `j`. */
  function Cut<T>(ts: seq<T>, i: nat, j: nat): (r: seq<T>)
    requires i <= j <= |ts|
    ensures |r| == |ts| - (j - i)
    ensures forall x :: 0 <= x < |r| ==> r[x] == if x < i then ts[x] else ts[x + j - i]
  {
    ts[..i] + ts[j..]
  }

  /** `StripLine` with every character remembering where it came from. */
  function StripKept(line: string, ks: seq<nat>): (seq<nat>, Option<Quote>)
    requires Within(ks, |line|)
    decreases |ks|
  {
    var t := Pick(line, ks);
    match Earliest(t)
    case None => (ks, None)
    case Some((i, marker)) =>
      if marker.Hash? then (ks[..i], None)
      else
        match Find(t, Sign(marker), i + 3)
        case None => (ks[..i], Some(marker.quote))
        case Some(c) => StripKept(line, Cut(ks, i, c + 3))
  }

  function Shift(r: Option<nat>, d: nat): Option<nat> {
    if r.None? then None else Some(r.value + d)
  }

  lemma HasAtRest(s: string, i: nat, k: nat, pat: string)
    requires i <= |s|
    ensures HasAt(s[i..], k, pat) <==> HasAt(s, i + k, pat)
  {
    if i + k + |pat| <= |s| {
      assert s[i..][k..k + |pat|] == s[i + k..i + k + |pat|];
    }
  }

  /** A search in the rest of a text is a search in the text from an offset. */
  lemma {:induction false} FindRest(s: string, i: nat, k: nat, pat: string)
    requires i + k <= |s|
    ensures Shift(Find(s[i..], pat, k), i) == Find(s, pat, i + k)
    decreases |s| - k
  {
    hide HasAt;
    HasAtRest(s, i, k, pat);
    if !HasAt(s, i + k, pat) && i + k < |s| {
      FindRest(s, i, k + 1, pat);
    }
  }

  /** One turn of the loop, with the closing quote searched from an offset. */
  lemma StripLineTurn(s: string, i: nat, marker: Marker, c: Option<nat>)
    requires Earliest(s) == Some((i, marker))
    requires marker.Triple? ==> c == Find(s, Sign(marker), i + 3)
    ensures marker.Hash? ==> StripLine(s) == (s[..i], None)
    ensures marker.Triple? && c.None? ==> StripLine(s) == (s[..i], Some(marker.quote))
    ensures marker.Triple? && c.Some? ==> StripLine(s) == StripLine(Cut(s, i, c.value + 3))
  {
    hide StripLine, Earliest, Find, MarkerFree, MarkerAt, HasAt;
    if marker.Triple? {
      FindRest(s, i + 3, 0, Sign(marker));
      var c0 := Find(s[i + 3..], Sign(marker), 0);
      StripLineStep(s, i, marker, c0);
      if c0.Some? {
        assert s[..i] + s[i + 3..][c0.value + 3..] == Cut(s, i, c.value + 3);
      }
    } else {
      StripLineStep(s, i, marker, None);
    }
  }

  lemma CutPick(line: string, ks: seq<nat>, i: nat, j: nat)
    requires Within(ks, |line|) && i <= j <= |ks|
    ensures Within(Cut(ks, i, j), |line|) && Pick(line, Cut(ks, i, j)) == Cut(Pick(line, ks), i, j)
  {
    PickIs(line, Cut(ks, i, j), Cut(Pick(line, ks), i, j));
  }

  lemma {:induction false} StripKeptTurn(line: string, ks: seq<nat>, i: nat, marker: Marker, c: Option<nat>)
    requires Within(ks, |line|)
    requires Earliest(Pick(line, ks)) == Some((i, marker))
    requires marker.Triple? ==> c == Find(Pick(line, ks), Sign(marker), i + 3)
    ensures marker.Hash? ==> StripKept(line, ks) == (ks[..i], None)
    ensures marker.Triple? && c.None? ==> StripKept(line, ks) == (ks[..i], Some(marker.quote))
    ensures marker.Triple? && c.Some? ==> StripKept(line, ks) == StripKept(line, Cut(ks, i, c.value + 3))
  {
    hide Earliest, Find, MarkerFree, MarkerAt, HasAt, Pick, Cut;
  }

  lemma StripKeptEnd(line: string, ks: seq<nat>)
    requires Within(ks, |line|) && Earliest(Pick(line, ks)).None?
    ensures StripKept(line, ks) == (ks, None)
  {
    hide Earliest, Find, MarkerFree, MarkerAt, HasAt, Pick;
  }

  /** The characters at the kept offsets are the output of the loop. */
  lemma {:induction false} KeptIsStripped(line: string, ks: seq<nat>)
    requires Within(ks, |line|)
    ensures var (kept, open) := StripKept(line, ks);
            Within(kept, |line|) && StripLine(Pick(line, ks)) == (Pick(line, kept), open)
    decreases |ks|
  {
    hide StripLine, StripKept, Earliest, Find, MarkerFree, MarkerAt, HasAt, Cut;
    var t := Pick(line, ks);
    if Earliest(t).None? {
      StripLineEnd(t);
      StripKeptEnd(line, ks);
    } else {
      var (i, marker) := Earliest(t).value;
      if marker.Hash? {
        StripLineTurn(t, i, marker, None);
        StripKeptTurn(line, ks, i, marker, None);
        PickIs(line, ks[..i], t[..i]);
      } else {
        var c := Find(t, Sign(marker), i + 3);
        StripLineTurn(t, i, marker, c);
        StripKeptTurn(line, ks, i, marker, c);
        if c.None? {
          PickIs(line, ks[..i], t[..i]);
        } else {
          CutPick(line, ks, i, c.value + 3);
          KeptIsStripped(line, Cut(ks, i, c.value + 3));
        }
      }
    }
  }

  lemma PrefixOrder(ks: seq<nat>, i: nat)
    requires i < |ks| && Increasing(ks)
    ensures Increasing(ks[..i]) && ks[i] !in ks[..i] && forall k :: k in ks[..i] ==> k in ks
  {
  }

  lemma CutOrder(ks: seq<nat>, i: nat, j: nat)
    requires i < j <= |ks| && Increasing(ks)
    ensures Increasing(Cut(ks, i, j)) && ks[i] !in Cut(ks, i, j) && forall k :: k in Cut(ks, i, j) ==> k in ks
  {
  }

  /** `kept` is some of `ks` in order, without the offset of the marker at `i`. */
  predicate KeptOf(kept: seq<nat>, ks: seq<nat>) {
    Increasing(kept) && forall k :: k in kept ==> k in ks
  }

  /** The kept offsets are some of `ks` in order, and the offset of the earliest marker is not among them. */
  lemma {:induction false} KeptInOrder(line: string, ks: seq<nat>)
    requires Within(ks, |line|) && Increasing(ks)
    ensures KeptOf(StripKept(line, ks).0, ks)
    ensures var first := Earliest(Pick(line, ks)); first.Some? ==> ks[first.value.0] !in StripKept(line, ks).0
    decreases |ks|
  {
    hide StripKept, Earliest, Find, MarkerFree, MarkerAt, HasAt, Cut, Increasing, Pick;
    var t := Pick(line, ks);
    if Earliest(t).None? {
      StripKeptEnd(line, ks);
    } else {
      var (i, marker) := Earliest(t).value;
      var c := if marker.Hash? then None else Find(t, Sign(marker), i + 3);
      StripKeptTurn(line, ks, i, marker, c);
      if c.None? {
        PrefixOrder(ks, i);
      } else {
        CutPick(line, ks, i, c.value + 3);
        CutOrder(ks, i, c.value + 3);
        KeptInOrder(line, Cut(ks, i, c.value + 3));
      }
    }
  }

  // ---- seams ----

  /** A triple quote of `t` begins before offset `p` and ends after it. */
  predicate Straddles(t: string, p: nat) {
    exists k :: p - 3 < k < p && (QuoteAt(t, k, Double) || QuoteAt(t, k, Single))
  }

  /** No cut that the loop makes in `s` joins two pieces into a new triple quote. */
  predicate SeamFree(s: string)
    decreases |s|
  {
    match Earliest(s)
    case None => true
    case Some((i, marker)) =>
      marker.Hash? ||
      match Find(s, Sign(marker), i + 3)
      case None => true
      case Some(c) => !Straddles(Cut(s, i, c + 3), i) && SeamFree(Cut(s, i, c + 3))
  }

  // ---- the lexer between two markers ----

  predicate PlainUntil(line: string, i: nat, j: nat) {
    forall k :: i <= k < j ==> !MarkerAt(line, k)
  }

  lemma HashHere(line: string, i: nat)
    requires i < |line|
    ensures HasAt(line, i, "#") <==> line[i] == '#'
  {
    assert line[i..i + 1] == [line[i]];
  }

  lemma LexCode(line: string, i: nat)
    requires i < |line| && !MarkerAt(line, i)
    ensures var (kept, open) := Lex(line, i + 1, None); Lex(line, i, None) == ([i] + kept, open)
  {
    HashHere(line, i);
  }

  lemma {:induction false} LexPlain(line: string, i: nat, j: nat)
    requires i <= j <= |line| && PlainUntil(line, i, j)
    ensures var (kept, open) := Lex(line, j, None); Lex(line, i, None) == (Span(i, j) + kept, open)
    decreases j - i
  {
    hide Lex, MarkerAt;
    var kept := Lex(line, j, None).0;
    if i < j {
      LexCode(line, i);
      LexPlain(line, i + 1, j);
      assert Span(i, j) + kept == [i] + (Span(i + 1, j) + kept);
    } else {
      assert Span(i, j) + kept == kept;
    }
  }

  lemma {:induction false} LexDocstring(line: string, i: nat, q: Quote)
    requires i <= |line|
    ensures Lex(line, i, Some(q)) == match Find(line, Spell(q), i) case None => ([], Some(q)) case Some(c) => Lex(line, c + 3, None)
    decreases |line| - i
  {
    if !QuoteAt(line, i, q) && i < |line| {
      LexDocstring(line, i + 1, q);
    }
  }

  lemma LexAtHash(line: string, i: nat)
    requires HasAt(line, i, "#")
    ensures Lex(line, i, None) == ([], None)
  {
    HasAtChar(line, i, "#", 0);
  }

  lemma LexAtQuote(line: string, i: nat, q: Quote)
    requires QuoteAt(line, i, q)
    ensures Lex(line, i, None) == Lex(line, i + 3, Some(q))
  {
    HasAtChar(line, i, Spell(q), 0);
    if q.Single? && QuoteAt(line, i, Double) {
      HasAtChar(line, i, Spell(Double), 0);
    }
  }

  // ---- the loop in the middle of a line ----

  /** The loop holds the offsets `head`, whose text has no marker, and all of the line from `j` on. */
  ghost predicate Halfway(line: string, head: seq<nat>, j: nat) {
    j <= |line| && Increasing(head) && Within(head, j) && MarkerFree(Pick(line, head))
    && !Straddles(Pick(line, head) + line[j..], |head|)
  }

  function Held(head: seq<nat>, j: nat, n: nat): seq<nat>
    requires j <= n
  {
    head + Span(j, n)
  }

  lemma {:induction false} HeldText(line: string, head: seq<nat>, j: nat)
    requires j <= |line| && Increasing(head) && Within(head, j)
    ensures var ks := Held(head, j, |line|);
            Within(ks, |line|) && Increasing(ks) && Pick(line, ks) == Pick(line, head) + line[j..]
  {
    PickIs(line, Held(head, j, |line|), Pick(line, head) + line[j..]);
  }

  lemma TailHas(front: string, line: string, j: nat, k: nat, pat: string)
    requires j <= |line|
    ensures HasAt(front + line[j..], |front| + k, pat) <==> HasAt(line, j + k, pat)
  {
    var t := front + line[j..];
    HasAtRest(t, |front|, k, pat);
    HasAtRest(line, j, k, pat);
    assert t[|front|..] == line[j..];
  }

  lemma TailFind(front: string, line: string, j: nat, k: nat, pat: string)
    requires j + k <= |line|
    ensures Shift(Find(front + line[j..], pat, |front| + k), j) == Shift(Find(line, pat, j + k), |front|)
  {
    hide Find;
    var t := front + line[j..];
    assert t[|front|..] == line[j..];
    FindRest(t, |front|, k, pat);
    FindRest(line, j, k, pat);
  }

  lemma FrontHas(front: string, rest: string, k: nat, pat: string)
    requires k + |pat| <= |front|
    ensures HasAt(front + rest, k, pat) <==> HasAt(front, k, pat)
  {
    assert (front + rest)[k..k + |pat|] == front[k..k + |pat|];
  }

  /** Nothing in the scanned front is a marker, so the loop and the lexer stop at the same place. */
  lemma FrontClean(front: string, rest: string, k: nat)
    requires MarkerFree(front) && !Straddles(front + rest, |front|) && k < |front|
    ensures !MarkerAt(front + rest, k)
  {
    assert !MarkerAt(front, k);
    FrontHas(front, rest, k, "#");
    if k + 3 <= |front| {
      FrontHas(front, rest, k, Spell(Double));
      FrontHas(front, rest, k, Spell(Single));
    }
  }

  lemma TailMarker(front: string, line: string, j: nat, k: nat)
    requires j <= |line|
    ensures MarkerAt(front + line[j..], |front| + k) <==> MarkerAt(line, j + k)
  {
    TailHas(front, line, j, k, "#");
    TailHas(front, line, j, k, Spell(Double));
    TailHas(front, line, j, k, Spell(Single));
  }

  lemma TailPlain(front: string, line: string, j: nat, end: nat)
    requires j <= end <= |line|
    requires forall k :: |front| <= k < |front| + end - j ==> !MarkerAt(front + line[j..], k)
    ensures PlainUntil(line, j, end)
  {
    hide MarkerAt;
    forall k | j <= k < end ensures !MarkerAt(line, k) {
      TailMarker(front, line, j, k - j);
    }
  }

  lemma NotInFront(front: string, rest: string)
    requires MarkerFree(front) && !Straddles(front + rest, |front|)
    ensures var first := Earliest(front + rest); first.Some? ==> |front| <= first.value.0
  {
    hide Earliest, MarkerAt, HasAt;
    var first := Earliest(front + rest);
    forall k | 0 <= k < |front| ensures !MarkerAt(front + rest, k) {
      FrontClean(front, rest, k);
    }
  }

  lemma PlainToTheEnd(line: string, front: string, j: nat)
    requires j <= |line| && Earliest(front + line[j..]).None?
    ensures PlainUntil(line, j, |line|)
  {
    hide Earliest, MarkerAt, HasAt;
    TailPlain(front, line, j, |line|);
  }

  lemma StopsAtMarker(line: string, front: string, j: nat, i: nat, marker: Marker)
    requires j <= |line| && |front| <= i && Earliest(front + line[j..]) == Some((i, marker))
    ensures j + i - |front| <= |line| && PlainUntil(line, j, j + i - |front|)
    ensures HasAt(line, j + i - |front|, Sign(marker))
  {
    hide Earliest, MarkerAt, HasAt;
    TailPlain(front, line, j, j + i - |front|);
    TailHas(front, line, j, i - |front|, Sign(marker));
  }

  lemma {:induction false} SeamFreeTurn(s: string, i: nat, marker: Marker, c: Option<nat>)
    requires Earliest(s) == Some((i, marker))
    requires marker.Triple? ==> c == Find(s, Sign(marker), i + 3)
    ensures marker.Hash? || c.None? ==> SeamFree(s)
    ensures marker.Triple? && c.Some? ==>
      (SeamFree(s) <==> !Straddles(Cut(s, i, c.value + 3), i) && SeamFree(Cut(s, i, c.value + 3)))
  {
    hide Earliest, Find, MarkerFree, MarkerAt, HasAt, Cut, Straddles;
  }

  lemma SeamFreeEnd(s: string)
    requires Earliest(s).None?
    ensures SeamFree(s)
  {
    hide Earliest, Find, MarkerFree, MarkerAt, HasAt, Cut, Straddles;
  }

  /** The loop and the lexer keep the same offsets from here on, as far as the line stays seam-free. */
  predicate SameFrom(line: string, head: seq<nat>, j: nat)
    requires j <= |line| && Within(head, j)
  {
    StripKept(line, Held(head, j, |line|)).0 == head + Lex(line, j, None).0
  }

  predicate SameOpen(line: string, head: seq<nat>, j: nat)
    requires j <= |line| && Within(head, j)
  {
    StripKept(line, Held(head, j, |line|)).1 == Lex(line, j, None).1
  }

  lemma SameAtEnd(line: string, head: seq<nat>, j: nat)
    requires Halfway(line, head, j) && Earliest(Pick(line, head) + line[j..]).None?
    ensures SameFrom(line, head, j) && SameOpen(line, head, j)
  {
    hide StripKept, Earliest, Find, MarkerFree, MarkerAt, HasAt, Straddles;
    HeldText(line, head, j);
    StripKeptEnd(line, Held(head, j, |line|));
    PlainToTheEnd(line, Pick(line, head), j);
    LexPlain(line, j, |line|);
    assert Span(j, |line|) + [] == Span(j, |line|);
  }

  /** The offsets before a stop at offset `i` of the held text. */
  lemma HeldPrefix(head: seq<nat>, j: nat, n: nat, i: nat)
    requires j <= n && |head| <= i <= |head| + n - j
    ensures Held(head, j, n)[..i] == head + Span(j, j + i - |head|)
  {
  }

  lemma {:induction false} KeptAtStop(line: string, head: seq<nat>, j: nat, i: nat, marker: Marker)
    requires Halfway(line, head, j) && Earliest(Pick(line, head) + line[j..]) == Some((i, marker))
    requires marker.Triple? ==> Find(Pick(line, head) + line[j..], Sign(marker), i + 3).None?
    ensures |head| <= i <= |head| + |line| - j
    ensures StripKept(line, Held(head, j, |line|))
         == (head + Span(j, j + i - |head|), if marker.Hash? then None else Some(marker.quote))
  {
    hide StripKept, Earliest, Find, MarkerFree, MarkerAt, HasAt, Straddles, Pick;
    HeldText(line, head, j);
    StripKeptTurn(line, Held(head, j, |line|), i, marker, None);
    NotInFront(Pick(line, head), line[j..]);
    HeldPrefix(head, j, |line|, i);
  }

  lemma LexToMarker(line: string, front: string, j: nat, i: nat, marker: Marker)
    requires j <= |line| && |front| <= i && Earliest(front + line[j..]) == Some((i, marker))
    ensures var e := j + i - |front|;
            j <= e && e + |Sign(marker)| <= |line| && HasAt(line, e, Sign(marker))
            && Lex(line, j, None) == (Span(j, e) + Lex(line, e, None).0, Lex(line, e, None).1)
  {
    hide Earliest, MarkerAt, Lex;
    StopsAtMarker(line, front, j, i, marker);
    LexPlain(line, j, j + i - |front|);
  }

  /** A docstring that is not closed in the held text is not closed in the line. */
  lemma LexUnclosed(line: string, front: string, j: nat, i: nat, q: Quote)
    requires |front| <= i && j + i - |front| + 3 <= |line| && QuoteAt(line, j + i - |front|, q)
    requires Find(front + line[j..], Spell(q), i + 3).None?
    ensures Lex(line, j + i - |front|, None) == ([], Some(q))
  {
    hide Find, HasAt, Lex;
    LexAtQuote(line, j + i - |front|, q);
    TailFind(front, line, j, i - |front| + 3, Spell(q));
    LexDocstring(line, j + i - |front| + 3, q);
  }

  lemma {:induction false} LexAtStop(line: string, front: string, j: nat, i: nat, marker: Marker)
    requires j <= |line| && |front| <= i && Earliest(front + line[j..]) == Some((i, marker))
    requires marker.Triple? ==> Find(front + line[j..], Sign(marker), i + 3).None?
    ensures j + i - |front| <= |line|
    ensures Lex(line, j, None) == (Span(j, j + i - |front|), if marker.Hash? then None else Some(marker.quote))
  {
    hide Earliest, Find, HasAt, Lex, Span, MarkerAt, MarkerFree;
    LexToMarker(line, front, j, i, marker);
    LexStops(line, front, j, i, marker);
  }

  lemma LexStops(line: string, front: string, j: nat, i: nat, marker: Marker)
    requires |front| <= i && j <= |line| && j + i - |front| + |Sign(marker)| <= |line|
    requires HasAt(line, j + i - |front|, Sign(marker))
    requires marker.Triple? ==> Find(front + line[j..], Sign(marker), i + 3).None?
    requires var e := j + i - |front|;
             Lex(line, j, None) == (Span(j, e) + Lex(line, e, None).0, Lex(line, e, None).1)
    ensures Lex(line, j, None) == (Span(j, j + i - |front|), if marker.Hash? then None else Some(marker.quote))
  {
    hide Find, HasAt, Lex, Span;
    StopEndsLexing(line, front, j, i, marker);
    LexEnds(line, j, j + i - |front|, if marker.Hash? then None else Some(marker.quote));
  }

  lemma StopEndsLexing(line: string, front: string, j: nat, i: nat, marker: Marker)
    requires |front| <= i && j <= |line| && j + i - |front| + |Sign(marker)| <= |line|
    requires HasAt(line, j + i - |front|, Sign(marker))
    requires marker.Triple? ==> Find(front + line[j..], Sign(marker), i + 3).None?
    ensures Lex(line, j + i - |front|, None) == ([], if marker.Hash? then None else Some(marker.quote))
  {
    hide Find, HasAt, Lex;
    match marker
    case Hash => LexAtHash(line, j + i - |front|);
    case Triple(q) => LexUnclosed(line, front, j, i, q);
  }

  lemma {:induction false} LexEnds(line: string, j: nat, e: nat, open: Option<Quote>)
    requires j <= e <= |line| && Lex(line, j, None) == (Span(j, e) + Lex(line, e, None).0, Lex(line, e, None).1)
    requires Lex(line, e, None) == ([], open)
    ensures Lex(line, j, None) == (Span(j, e), open)
  {
    hide Lex;
    var ks := Span(j, e);
    assert ks + [] == ks;
  }

  lemma {:induction false} SameAtStop(line: string, head: seq<nat>, j: nat, i: nat, marker: Marker)
    requires Halfway(line, head, j) && Earliest(Pick(line, head) + line[j..]) == Some((i, marker))
    requires marker.Triple? ==> Find(Pick(line, head) + line[j..], Sign(marker), i + 3).None?
    ensures SameFrom(line, head, j) && SameOpen(line, head, j)
  {
    hide StripKept, Earliest, Find, MarkerFree, MarkerAt, HasAt, Straddles, Lex, Pick;
    KeptAtStop(line, head, j, i, marker);
    LexAtStop(line, Pick(line, head), j, i, marker);
  }

  lemma LexAtCut(line: string, front: string, j: nat, i: nat, marker: Marker, c: nat)
    requires j <= |line| && |front| <= i && Earliest(front + line[j..]) == Some((i, marker)) && marker.Triple?
    requires Find(front + line[j..], Sign(marker), i + 3) == Some(c)
    ensures j + i - |front| < j + c - |front| + 3 <= |line|
    ensures var (kept, open) := Lex(line, j + c - |front| + 3, None);
            Lex(line, j, None) == (Span(j, j + i - |front|) + kept, open)
  {
    hide Earliest, Find, MarkerFree, MarkerAt, HasAt, Lex;
    LexToMarker(line, front, j, i, marker);
    var e := j + i - |front|;
    LexAtQuote(line, e, marker.quote);
    TailFind(front, line, j, i - |front| + 3, Sign(marker));
    LexDocstring(line, e + 3, marker.quote);
  }

  lemma KeptAtCut(line: string, head: seq<nat>, j: nat, i: nat, marker: Marker, c: nat)
    requires Halfway(line, head, j) && |head| <= i && j + i - |head| < j + c - |head| + 3 <= |line|
    requires Earliest(Pick(line, head) + line[j..]) == Some((i, marker)) && marker.Triple?
    requires Find(Pick(line, head) + line[j..], Sign(marker), i + 3) == Some(c)
    ensures Within(head + Span(j, j + i - |head|), j + c - |head| + 3)
    ensures StripKept(line, Held(head, j, |line|))
         == StripKept(line, Held(head + Span(j, j + i - |head|), j + c - |head| + 3, |line|))
  {
    hide StripKept, Earliest, Find, MarkerFree, MarkerAt, HasAt, Straddles, Pick;
    HeldText(line, head, j);
    StripKeptTurn(line, Held(head, j, |line|), i, marker, Some(c));
    CutHeld(head, j, |line|, i, c + 3, j + c - |head| + 3);
  }

  /** After a cut the loop is halfway again, unless the cut made a seam. */
  lemma {:induction false} AfterCut(line: string, head: seq<nat>, j: nat, i: nat, marker: Marker, c: nat)
    returns (head1: seq<nat>, j1: nat)
    requires Halfway(line, head, j)
    requires Earliest(Pick(line, head) + line[j..]) == Some((i, marker)) && marker.Triple?
    requires Find(Pick(line, head) + line[j..], Sign(marker), i + 3) == Some(c)
    ensures j < j1 <= |line| && Increasing(head1) && Within(head1, j1) && MarkerFree(Pick(line, head1)) && |head1| == i
    ensures Pick(line, head1) + line[j1..] == Cut(Pick(line, head) + line[j..], i, c + 3)
    ensures SameFrom(line, head, j) <==> SameFrom(line, head1, j1)
    ensures SameOpen(line, head, j) <==> SameOpen(line, head1, j1)
  {
    hide StripKept, Earliest, Find, MarkerFree, MarkerAt, HasAt, Straddles, Lex, Pick;
    var front := Pick(line, head);
    var t := front + line[j..];
    NotInFront(front, line[j..]);
    LexAtCut(line, front, j, i, marker, c);
    KeptAtCut(line, head, j, i, marker, c);
    head1, j1 := head + Span(j, j + i - |head|), j + c - |head| + 3;
    PickIs(line, head1, t[..i]);
    PrefixMarkerFree(t, i);
    CutText(front, line, j, i, c + 3, j1);
    var lexed := Lex(line, j1, None).0;
    assert head + (Span(j, j + i - |head|) + lexed) == head1 + lexed;
  }

  lemma CutText(front: string, line: string, j: nat, i: nat, d: nat, j1: nat)
    requires j <= |line| && |front| <= i <= d <= |front| + |line| - j && j1 == j + d - |front|
    ensures (front + line[j..])[..i] + line[j1..] == Cut(front + line[j..], i, d)
  {
  }

  lemma CutHeld(head: seq<nat>, j: nat, n: nat, i: nat, d: nat, j1: nat)
    requires j <= n && |head| <= i <= d <= |head| + n - j && j1 == j + d - |head|
    ensures Cut(Held(head, j, n), i, d) == Held(head + Span(j, j + i - |head|), j1, n)
  {
  }

  /** A cut that makes a seam costs the loop a character that the lexer has already kept. */
  lemma {:induction false} SeamDiffers(line: string, head: seq<nat>, j: nat)
    requires j <= |line| && Increasing(head) && Within(head, j)
    requires Straddles(Pick(line, head) + line[j..], |head|)
    ensures !SameFrom(line, head, j)
  {
    var front := Pick(line, head);
    var t := front + line[j..];
    var ks := Held(head, j, |line|);
    HeldText(line, head, j);
    EarliestInFront(t, |head|);
    KeptInOrder(line, ks);
    hide StripKept, Earliest, Find, MarkerFree, MarkerAt, HasAt, Straddles, Lex;
    var p := Earliest(t).value.0;
    assert (head + Lex(line, j, None).0)[p] == ks[p];
  }

  lemma EarliestInFront(t: string, p: nat)
    requires Straddles(t, p)
    ensures Earliest(t).Some? && Earliest(t).value.0 < p
  {
    hide Earliest;
    var k :| p - 3 < k < p && (QuoteAt(t, k, Double) || QuoteAt(t, k, Single));
    assert MarkerAt(t, k);
  }

  lemma {:induction false} SeamExactFrom(line: string, head: seq<nat>, j: nat)
    requires Halfway(line, head, j)
    ensures SameFrom(line, head, j) <==> SeamFree(Pick(line, head) + line[j..])
    ensures SeamFree(Pick(line, head) + line[j..]) ==> SameOpen(line, head, j)
    decreases |line| - j
  {
    hide StripKept, Earliest, Find, MarkerFree, MarkerAt, HasAt, Straddles, Lex, SeamFree, SameFrom, SameOpen, Pick;
    var t := Pick(line, head) + line[j..];
    if Earliest(t).None? {
      SameAtEnd(line, head, j);
      SeamFreeEnd(t);
    } else {
      var (i, marker) := Earliest(t).value;
      if marker.Hash? {
        SeamFreeTurn(t, i, marker, None);
        SameAtStop(line, head, j, i, marker);
      } else {
        var c := Find(t, Sign(marker), i + 3);
        SeamFreeTurn(t, i, marker, c);
        if c.None? {
          SameAtStop(line, head, j, i, marker);
        } else {
          var head1, j1 := AfterCut(line, head, j, i, marker, c.value);
          if Straddles(Cut(t, i, c.value + 3), i) {
            SeamDiffers(line, head1, j1);
          } else {
            SeamExactFrom(line, head1, j1);
          }
        }
      }
    }
  }

  // ---- whole lines and whole files ----

  /** `StripFrom` on offsets. */
  function KeptFrom(line: string, open: Option<Quote>): (r: (seq<nat>, Option<Quote>)) {
    match open
    case None => StripKept(line, Span(0, |line|))
    case Some(q) =>
      match Find(line, Spell(q), 0)
      case None => ([], open)
      case Some(i) => StripKept(line, Span(i + 3, |line|))
  }

  predicate SeamFreeFrom(line: string, open: Option<Quote>) {
    match open
    case None => SeamFree(line)
    case Some(q) =>
      match Find(line, Spell(q), 0)
      case None => true
      case Some(i) => SeamFree(line[i + 3..])
  }

  lemma {:induction false} KeptTail(line: string, j: nat)
    requires j <= |line|
    ensures var (kept, open) := StripKept(line, Span(j, |line|));
            Within(kept, |line|) && Increasing(kept) && StripLine(line[j..]) == (Pick(line, kept), open)
  {
    hide StripKept, StripLine;
    PickIs(line, Span(j, |line|), line[j..]);
    KeptIsStripped(line, Span(j, |line|));
    KeptInOrder(line, Span(j, |line|));
  }

  /** Each output line is a subsequence of its source line. */
  lemma {:induction false} OutputIsSubsequence(line: string, open: Option<Quote>)
    ensures var (kept, open1) := KeptFrom(line, open);
            Within(kept, |line|) && Increasing(kept) && StripFrom(line, open) == (Pick(line, kept), open1)
  {
    hide StripKept, StripLine;
    if open.None? {
      KeptTail(line, 0);
      assert line[0..] == line;
    } else {
      var i := Find(line, Spell(open.value), 0);
      StripFromDocstring(line, open.value, i);
      if i.Some? {
        KeptTail(line, i.value + 3);
      }
    }
  }

  lemma {:induction false} SeamExactTail(line: string, j: nat)
    requires j <= |line|
    ensures StripKept(line, Span(j, |line|)).0 == Lex(line, j, None).0 <==> SeamFree(line[j..])
    ensures SeamFree(line[j..]) ==> StripKept(line, Span(j, |line|)).1 == Lex(line, j, None).1
  {
    hide StripKept, Lex, SeamFree;
    assert [] + line[j..] == line[j..];
    assert MarkerFree("");
    assert Pick(line, []) == [];
    SeamExactFrom(line, [], j);
    assert Held([], j, |line|) == Span(j, |line|);
    var lexed := Lex(line, j, None).0;
    assert [] + lexed == lexed;
  }

  /** On one line the loop keeps the lexer's offsets exactly when it makes no seam. */
  lemma SeamExact(line: string, open: Option<Quote>)
    ensures KeptFrom(line, open).0 == Lex(line, 0, open).0 <==> SeamFreeFrom(line, open)
    ensures SeamFreeFrom(line, open) ==> KeptFrom(line, open).1 == Lex(line, 0, open).1
  {
    hide StripKept, SeamFree, Find;
    if open.None? {
      SeamExactTail(line, 0);
      assert line[0..] == line;
    } else {
      LexDocstring(line, 0, open.value);
      var i := Find(line, Spell(open.value), 0);
      if i.Some? {
        SeamExactTail(line, i.value + 3);
      }
    }
  }

  function KeptLines(lines: seq<string>, open: Option<Quote>): (r: seq<seq<nat>>)
    ensures |r| == |lines|
  {
    if lines == [] then []
    else
      var (kept, open1) := KeptFrom(lines[0], open);
      [kept] + KeptLines(lines[1..], open1)
  }

  /** The lexer on a whole file. */
  function LexLines(lines: seq<string>, open: Option<Quote>): (r: seq<seq<nat>>)
    ensures |r| == |lines|
  {
    if lines == [] then []
    else
      var (kept, open1) := Lex(lines[0], 0, open);
      [kept] + LexLines(lines[1..], open1)
  }

  predicate SeamFreeLines(lines: seq<string>, open: Option<Quote>) {
    lines == []
    || (SeamFreeFrom(lines[0], open) && SeamFreeLines(lines[1..], KeptFrom(lines[0], open).1))
  }

  lemma {:induction false} KeptLinesAreStripped(lines: seq<string>, open: Option<Quote>)
    ensures forall i :: 0 <= i < |lines| ==>
      Within(KeptLines(lines, open)[i], |lines[i]|) && Increasing(KeptLines(lines, open)[i])
      && StripLines(lines, open)[i] == Pick(lines[i], KeptLines(lines, open)[i])
  {
    if lines == [] {
    } else {
      hide KeptFrom, StripFrom;
      OutputIsSubsequence(lines[0], open);
      KeptLinesAreStripped(lines[1..], KeptFrom(lines[0], open).1);
    }
  }

  /** On a file, carrying docstrings from line to line, the two agree exactly when no line has a seam. */
  lemma {:induction false} SeamExactLines(lines: seq<string>, open: Option<Quote>)
    ensures KeptLines(lines, open) == LexLines(lines, open) <==> SeamFreeLines(lines, open)
  {
    if lines == [] {
    } else {
      hide KeptFrom, Lex, SeamFreeFrom;
      SeamExact(lines[0], open);
      var k, l := KeptLines(lines, open), LexLines(lines, open);
      assert k[0] == KeptFrom(lines[0], open).0 && l[0] == Lex(lines[0], 0, open).0;
      assert k[1..] == KeptLines(lines[1..], KeptFrom(lines[0], open).1);
      assert l[1..] == LexLines(lines[1..], Lex(lines[0], 0, open).1);
      if SeamFreeFrom(lines[0], open) {
        SeamExactLines(lines[1..], KeptFrom(lines[0], open).1);
        assert k == [k[0]] + k[1..] && l == [l[0]] + l[1..];
      }
    }
  }

  /** Hence the text that is left of a seam-free file is the text of the lexer. */
  lemma StripIsLexing(lines: seq<string>)
    requires SeamFreeLines(lines, None)
    ensures forall i :: 0 <= i < |lines| ==>
      Within(LexLines(lines, None)[i], |lines[i]|) && StripLines(lines, None)[i] == Pick(lines[i], LexLines(lines, None)[i])
  {
    hide StripLines, KeptLines, LexLines;
    SeamExactLines(lines, None);
    KeptLinesAreStripped(lines, None);
  }

  // ---- a line with a seam ----

  const SEAM_LINE := "\"'''x'''\"\""

  lemma EarliestIs(s: string, i: nat, q: Quote)
    requires QuoteAt(s, i, q) && s[i] != '#' && s[i] == Spell(q)[0]
    requires forall k :: 0 <= k < i ==> !MarkerAt(s, k)
    ensures Earliest(s) == Some((i, Triple(q)))
  {
    HashHere(s, i);
    if QuoteAt(s, i, Double) { HasAtChar(s, i, Spell(Double), 0); }
    if QuoteAt(s, i, Single) { HasAtChar(s, i, Spell(Single), 0); }
    assert MarkerAt(s, i);
  }

  lemma SeamLineMarks()
    ensures |SEAM_LINE| == 10 && SEAM_LINE[1] == '\'' && QuoteAt(SEAM_LINE, 1, Single) && !MarkerAt(SEAM_LINE, 0)
    ensures !QuoteAt(SEAM_LINE, 4, Single) && QuoteAt(SEAM_LINE, 5, Single)
    ensures !MarkerAt(SEAM_LINE, 8) && !MarkerAt(SEAM_LINE, 9)
    ensures Cut(SEAM_LINE, 1, 8) == Spell(Double)
  {
    var line := SEAM_LINE;
    assert line[1..4] == Spell(Single) && line[5..8] == Spell(Single);
    assert line[0..1][0] == '"' && line[0..3][1] == '\'' && line[0..3][0] == '"';
    assert line[4..7][0] == 'x';
    assert line[8..9][0] == '"' && line[9..10][0] == '"';
  }

  /** A lone pair of quotes around a docstring: the loop opens a docstring there, the lexer does not. */
  lemma {:induction false} SeamWitness()
    ensures !SeamFree(SEAM_LINE) && StripLine(SEAM_LINE) == ("", Some(Double)) && Lex(SEAM_LINE, 0, None).1 == None
  {
    hide StripLine, SeamFree, Earliest, MarkerAt, HasAt, Cut;
    SeamLineMarks();
    EarliestIs(SEAM_LINE, 1, Single);
    var c := Find(SEAM_LINE, Spell(Single), 4);
    assert c == Some(5);
    SeamFreeTurn(SEAM_LINE, 1, Triple(Single), c);
    StripLineTurn(SEAM_LINE, 1, Triple(Single), c);
    JoinedLine();
    LexPlain(SEAM_LINE, 0, 1);
    LexAtQuote(SEAM_LINE, 1, Single);
    LexDocstring(SEAM_LINE, 4, Single);
    LexPlain(SEAM_LINE, 8, 10);
  }

  lemma JoinedLine()
    ensures Straddles(Spell(Double), 1) && StripLine(Spell(Double)) == ("", Some(Double))
  {
    var joined := Spell(Double);
    assert joined[0..3] == joined;
    assert QuoteAt(joined, 0, Double);
    EarliestIs(joined, 0, Double);
    StripLineTurn(joined, 0, Triple(Double), Find(joined, Spell(Double), 3));
  }
}
