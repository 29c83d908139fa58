/**
  The line-level remover of comments and docstrings.

  The loop cuts the earliest marker out, joins what is left and scans the joined line again. Its
  partner is a lexer that reads a line once, from left to right, and never goes back.
 */
module Stripper {
  import opened Wrappers
  import opened Text

  datatype Quote = Double | Single

  datatype Marker = Hash | Triple(quote: Quote)

  function Spell(q: Quote): (s: string)
    ensures |s| == 3
  {
    if q.Double? then "\"\"\"" else "'''"
  }

  function Sign(m: Marker): string {
    if m.Hash? then "#" else Spell(m.quote)
  }

  predicate QuoteAt(s: string, i: int, q: Quote) {
    HasAt(s, i, Spell(q))
  }

  predicate MarkerAt(s: string, i: int) {
    HasAt(s, i, "#") || QuoteAt(s, i, Double) || QuoteAt(s, i, Single)
  }

  predicate MarkerFree(s: string) {
    forall i :: 0 <= i <= |s| ==> !MarkerAt(s, i)
  }

  function Nearer(a: Option<(nat, Marker)>, i: Option<nat>, m: Marker): Option<(nat, Marker)> {
    if i.Some? && (a.None? || i.value < a.value.0) then Some((i.value, m)) else a
  }

  /** The marker that begins first, with its offset. */
  function Earliest(s: string): (r: Option<(nat, Marker)>)
    ensures r.None? ==> MarkerFree(s)
    ensures r.Some? ==> r.value.0 + |Sign(r.value.1)| <= |s|
    ensures r.Some? ==> HasAt(s, r.value.0, Sign(r.value.1)) && MarkerAt(s, r.value.0)
    ensures r.Some? ==> forall k :: 0 <= k < r.value.0 ==> !MarkerAt(s, k)
  {
    var none: Option<(nat, Marker)> := None;
    var hash := Nearer(none, Find(s, "#", 0), Hash);
    var double := Nearer(hash, Find(s, Spell(Double), 0), Triple(Double));
    Nearer(double, Find(s, Spell(Single), 0), Triple(Single))
  }

  /** What is left of a line that begins in code, and the triple quote it leaves open. */
  function StripLine(s: string): (string, Option<Quote>)
    decreases |s|
  {
    match Earliest(s)
    case None => (s, None)
    case Some((i, marker)) =>
      if marker.Hash? then (s[..i], None)
      else
        var rest := s[i + 3..];
        match Find(rest, Sign(marker), 0)
        case None => (s[..i], Some(marker.quote))
        case Some(c) => StripLine(s[..i] + rest[c + 3..])
  }

  function StripFrom(line: string, open: Option<Quote>): (string, Option<Quote>) {
    match open
    case None => StripLine(line)
    case Some(q) =>
      match Find(line, Spell(q), 0)
      case None => ("", open)
      case Some(i) => StripLine(line[i + 3..])
  }

  function StripLines(lines: seq<string>, open: Option<Quote>): (out: seq<string>)
    ensures |out| == |lines|
  {
    if lines == [] then []
    else
      var (piece, open1) := StripFrom(lines[0], open);
      [piece] + StripLines(lines[1..], open1)
  }

  function OpenAfter(lines: seq<string>, open: Option<Quote>): Option<Quote> {
    if lines == [] then open else OpenAfter(lines[1..], StripFrom(lines[0], open).1)
  }

  lemma {:induction false} StripAppend(lines: seq<string>, line: string, open: Option<Quote>)
    ensures StripLines(lines + [line], open) == StripLines(lines, open) + [StripFrom(line, OpenAfter(lines, open)).0]
    ensures OpenAfter(lines + [line], open) == StripFrom(line, OpenAfter(lines, open)).1
  {
    hide StripFrom;
    if lines == [] {
      assert [line][1..] == [];
      assert lines + [line] == [line];
    } else {
      assert (lines + [line])[0] == lines[0] && (lines + [line])[1..] == lines[1..] + [line];
      StripAppend(lines[1..], line, StripFrom(lines[0], open).1);
    }
  }

  /** What the loop does in one turn. */
  lemma {:induction false} StripLineStep(s: string, i: nat, marker: Marker, c: Option<nat>)
    requires Earliest(s) == Some((i, marker))
    requires marker.Triple? ==> c == Find(s[i + 3..], Sign(marker), 0)
    ensures marker.Hash? ==> StripLine(s) == (s[..i], None)
    ensures marker.Triple? && c.None? ==> StripLine(s) == (s[..i], Some(marker.quote))
    ensures marker.Triple? && c.Some? ==> StripLine(s) == StripLine(s[..i] + s[i + 3..][c.value + 3..])
  {
    hide Find, MarkerFree, MarkerAt, HasAt, Earliest;
  }

  /** What an excision takes away: both quotes, so at least six characters. */
  lemma ExcisionShortens(s: string, i: nat, q: Quote, c: nat)
    requires HasAt(s, i, Spell(q)) && HasAt(s[i + 3..], c, Spell(q))
    ensures |s[..i] + s[i + 3..][c + 3..]| <= |s| - 6
  {
    hide Spell;
  }

  lemma {:induction false} StripLineEnd(s: string)
    requires Earliest(s).None?
    ensures StripLine(s) == (s, None)
  {
  }

  lemma {:induction false} StripFromDocstring(line: string, q: Quote, i: Option<nat>)
    requires i == Find(line, Spell(q), 0)
    ensures StripFrom(line, Some(q)) == if i.None? then ("", Some(q)) else StripLine(line[i.value + 3..])
  {
  }

  /** The inner loop of `_strip_comments_and_docstrings`. */
  method StripRest(code: string) returns (piece: string, open: Option<Quote>)
    ensures (piece, open) == StripLine(code)
  {
    hide StripLine, MarkerFree, Earliest, Find, HasAt, MarkerAt;
    var line := code;
    piece, open := "", None;
    while true
      invariant piece == "" && open == None && StripLine(line) == StripLine(code)
      decreases |line|
    {
      var first := Earliest(line);
      if first.None? {
        StripLineEnd(line);
        piece := piece + line;
        assert piece == line;
        break;
      }
      var (idx, marker) := first.value;
      if marker.Hash? {
        StripLineStep(line, idx, marker, None);
        piece := piece + line[..idx];
        assert piece == line[..idx];
        break;
      }
      var prefix, rest := line[..idx], line[idx + 3..];
      var close := Find(rest, Sign(marker), 0);
      StripLineStep(line, idx, marker, close);
      if close.None? {
        piece := piece + prefix;
        assert piece == prefix;
        open := Some(marker.quote);
        break;
      }
      ExcisionShortens(line, idx, marker.quote, close.value);
      line := prefix + rest[close.value + 3..];
    }
  }

  /** `_strip_comments_and_docstrings`. */
  method StripCommentsAndDocstrings(lines: seq<string>) returns (out: seq<string>)
    ensures out == StripLines(lines, None)
  {
    hide StripLines, OpenAfter, StripLine, MarkerFree, Find;
    out := [];
    var open: Option<Quote> := None;
    StripNothing();
    for i := 0 to |lines|
      invariant out == StripLines(lines[..i], None) && open == OpenAfter(lines[..i], None)
    {
      assert lines[..i + 1] == lines[..i] + [lines[i]];
      StripAppend(lines[..i], lines[i], None);
      var line := lines[i];
      var idx: Option<nat> := Some(0);
      if open.Some? {
        idx := Find(line, Spell(open.value), 0);
        StripFromDocstring(line, open.value, idx);
        if idx.Some? {
          line := line[idx.value + 3..];
          open := None;
        }
      }
      var piece := "";
      if idx.Some? {
        piece, open := StripRest(line);
      }
      out := out + [piece];
    }
    assert lines[..|lines|] == lines;
  }

  lemma {:induction false} StripNothing()
    ensures StripLines([], None) == [] && OpenAfter([], None) == None
  {
  }

  // ---- laws with no side condition ----

  lemma {:induction false} PrefixMarkerFree(s: string, i: nat)
    requires i <= |s|
    requires forall k :: 0 <= k < i ==> !MarkerAt(s, k)
    ensures MarkerFree(s[..i])
  {
    var p := s[..i];
    forall k | 0 <= k <= |p| ensures !MarkerAt(p, k) {
      if MarkerAt(p, k) {
        if HasAt(p, k, "#") { HasAtInside("", p, s[i..], k, "#"); }
        if QuoteAt(p, k, Double) { HasAtInside("", p, s[i..], k, Spell(Double)); }
        if QuoteAt(p, k, Single) { HasAtInside("", p, s[i..], k, Spell(Single)); }
        assert "" + p + s[i..] == s;
        assert MarkerAt(s, k);
      }
    }
  }

  lemma {:induction false} LineMarkerFree(s: string)
    ensures MarkerFree(StripLine(s).0)
    decreases |s|
  {
    if Earliest(s).None? {
    } else {
      hide MarkerFree, StripLine;
      var (i, marker) := Earliest(s).value;
      PrefixMarkerFree(s, i);
      var c := if marker.Hash? then None else Find(s[i + 3..], Sign(marker), 0);
      StripLineStep(s, i, marker, c);
      if c.Some? {
        LineMarkerFree(s[..i] + s[i + 3..][c.value + 3..]);
      }
    }
  }

  lemma {:induction false} CleanLine(s: string)
    requires MarkerFree(s)
    ensures StripLine(s) == (s, None)
  {
  }

  /** No output line holds a `#` or a triple quote. */
  lemma {:induction false} OutputMarkerFree(lines: seq<string>, open: Option<Quote>)
    ensures forall i :: 0 <= i < |lines| ==> MarkerFree(StripLines(lines, open)[i])
  {
    if lines == [] {
    } else {
      FromMarkerFree(lines[0], open);
      OutputMarkerFree(lines[1..], StripFrom(lines[0], open).1);
    }
  }

  lemma {:induction false} FromMarkerFree(line: string, open: Option<Quote>)
    ensures MarkerFree(StripFrom(line, open).0)
  {
    if open.Some? {
      var i := Find(line, Spell(open.value), 0);
      if i.Some? {
        LineMarkerFree(line[i.value + 3..]);
      }
    } else {
      LineMarkerFree(line);
    }
  }

  lemma {:induction false} CleanIsFixed(lines: seq<string>)
    requires forall l :: l in lines ==> MarkerFree(l)
    ensures StripLines(lines, None) == lines
  {
    if lines == [] {
    } else {
      assert lines[0] in lines;
      CleanLine(lines[0]);
      CleanIsFixed(lines[1..]);
    }
  }

  /** Stripping what was stripped changes nothing. */
  lemma {:induction false} StripIsIdempotent(lines: seq<string>)
    ensures StripLines(StripLines(lines, None), None) == StripLines(lines, None)
  {
    OutputMarkerFree(lines, None);
    CleanIsFixed(StripLines(lines, None));
  }
}
