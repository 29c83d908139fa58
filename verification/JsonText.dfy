/**
  JSON objects delimit themselves (RFC 8259, sections 2, 4 and 7): the closing brace that ends one is
  found by counting the braces that stand outside strings.
 */
module JsonText {
  import opened Wrappers
  import opened Text
  import opened PagedReader

  // ---- values and their text ----

  /** A number, `true`, `false` and `null` are words. */
  datatype Json = Word(text: string) | Str(chars: string) | Arr(items: seq<Json>) | Obj(members: seq<Member>)
  datatype Member = Member(key: string, value: Json)

  predicate PlainWord(t: string) {
    forall c :: c in t ==> c != '"' && c != '{' && c != '}'
  }

  predicate WellFormed(v: Json) {
    match v
    case Word(t) => PlainWord(t)
    case Str(_) => true
    case Arr(items) => forall i :: i in items ==> WellFormed(i)
    case Obj(members) => forall m :: m in members ==> WellFormed(m.value)
  }

  function Escape(chars: string): string {
    if chars == "" then ""
    else (if chars[0] == '"' || chars[0] == '\\' then ['\\', chars[0]] else [chars[0]]) + Escape(chars[1..])
  }

  function Quote(chars: string): string {
    "\"" + Escape(chars) + "\""
  }

  function Render(v: Json): string {
    match v
    case Word(t) => t
    case Str(chars) => Quote(chars)
    case Arr(items) => "[" + RenderItems(items) + "]"
    case Obj(members) => "{" + RenderMembers(members) + "}"
  }

  function RenderItems(items: seq<Json>): string {
    if items == [] then ""
    else Render(items[0]) + (if |items| == 1 then "" else ", ") + RenderItems(items[1..])
  }

  function RenderMembers(members: seq<Member>): string {
    if members == [] then ""
    else
      Quote(members[0].key) + ": " + Render(members[0].value) + (if |members| == 1 then "" else ", ") +
      RenderMembers(members[1..])
  }

  // ---- the scanner ----

  /** Outside strings at some brace depth, or inside a string, perhaps just after a backslash. */
  datatype State = Out(depth: nat) | In(depth: nat, escaped: bool)

  function Next(w: State, c: char): State {
    match w
    case In(d, escaped) => if !escaped && c == '"' then Out(d) else In(d, !escaped && c == '\\')
    case Out(d) =>
      if c == '"' then In(d, false)
      else if c == '{' then Out(d + 1)
      else if c == '}' && d > 0 then Out(d - 1)
      else w
  }

  /** How much of `s` is read until the outermost brace closes. */
  function ScanFrom(w: State, s: string): (r: Option<nat>)
    ensures r.Some? ==> 0 < r.value <= |s|
    decreases |s|
  {
    if s == "" then None
    else
      var v := Next(w, s[0]);
      if v == Out(0) then Some(1)
      else
        var rest := ScanFrom(v, s[1..]);
        if rest.Some? then Some(rest.value + 1) else None
  }

  function ScanObject(s: string): (r: Option<nat>)
    ensures r.Some? ==> 0 < r.value <= |s|
  {
    if s != "" && s[0] == '{' then ScanFrom(Out(0), s) else None
  }

  predicate IsObjectText(t: string) {
    ScanObject(t) == Some(|t|)
  }

  /** The scanner looks no further than the closing brace. */
  lemma {:induction false} ScanIsLocal(w: State, s: string, t: string)
    requires ScanFrom(w, s).Some? && s[..ScanFrom(w, s).value] <= t
    ensures ScanFrom(w, t) == ScanFrom(w, s)
    decreases |s|
  {
    var n := ScanFrom(w, s).value;
    assert s[..n][0] == t[0];
    if Next(w, s[0]) != Out(0) {
      assert s[1..][..n - 1] == s[..n][1..];
      assert t[..n] == s[..n] && t[1..][..n - 1] == t[..n][1..];
      ScanIsLocal(Next(w, s[0]), s[1..], t[1..]);
    }
  }

  lemma {:induction false} ScanEndsInBrace(w: State, s: string)
    requires w.depth > 0 && ScanFrom(w, s).Some?
    ensures s[ScanFrom(w, s).value - 1] == '}'
    decreases |s|
  {
    var v := Next(w, s[0]);
    if v != Out(0) {
      ScanEndsInBrace(v, s[1..]);
    }
  }

  /** Object texts satisfy what the page reader asks of documents, whatever stands between the braces. */
  lemma ObjectsDelimitThemselves()
    ensures SelfDelimiting(IsObjectText) && Scans(IsObjectText, ScanObject)
  {
    forall a, b | IsObjectText(a) && IsObjectText(b) && a <= b ensures a == b {
      assert a[..|a|] == a;
      ScanIsLocal(Out(0), a, b);
    }
    forall t | IsObjectText(t) ensures t != "" && !IsSpace(t[0]) && !IsSpace(t[|t| - 1]) {
      ObjectEndsInBrace(t);
    }
    forall s | ScanObject(s).Some? ensures IsObjectText(s[..ScanObject(s).value]) {
      var t := s[..ScanObject(s).value];
      ScanIsLocal(Out(0), s, t);
    }
    forall s: string, n | 0 <= n <= |s| && IsObjectText(s[..n]) ensures ScanObject(s).Some? {
      var t := s[..n];
      assert t[..|t|] == t;
      ScanIsLocal(Out(0), t, s);
    }
  }

  lemma ObjectEndsInBrace(t: string)
    requires IsObjectText(t)
    ensures t[|t| - 1] == '}'
  {
    ScanEndsInBrace(Out(1), t[1..]);
  }

  // ---- rendered values are object texts ----

  function Run(w: State, s: string): State
    decreases |s|
  {
    if s == "" then w else Run(Next(w, s[0]), s[1..])
  }

  predicate Stays(w: State, s: string)
    decreases |s|
  {
    s == "" || (Next(w, s[0]).depth > 0 && Stays(Next(w, s[0]), s[1..]))
  }

  /** Read at depth `d`, the text closes everything that it opens and nothing else. */
  predicate Neutral(d: nat, s: string) {
    Stays(Out(d), s) && Run(Out(d), s) == Out(d)
  }

  lemma {:induction false} RunAppend(w: State, a: string, b: string)
    ensures Run(w, a + b) == Run(Run(w, a), b)
    ensures Stays(w, a + b) <==> Stays(w, a) && Stays(Run(w, a), b)
    decreases |a|
  {
    if a == "" {
      assert a + b == b;
    } else {
      assert (a + b)[0] == a[0] && (a + b)[1..] == a[1..] + b;
      RunAppend(Next(w, a[0]), a[1..], b);
    }
  }

  lemma {:induction false} ScanThrough(w: State, a: string, b: string)
    requires Stays(w, a) && ScanFrom(Run(w, a), b).Some?
    ensures ScanFrom(w, a + b) == Some(|a| + ScanFrom(Run(w, a), b).value)
    decreases |a|
  {
    if a == "" {
      assert a + b == b;
    } else {
      assert (a + b)[0] == a[0] && (a + b)[1..] == a[1..] + b;
      ScanThrough(Next(w, a[0]), a[1..], b);
    }
  }

  lemma NeutralAppend(d: nat, a: string, b: string)
    requires Neutral(d, a) && Neutral(d, b)
    ensures Neutral(d, a + b)
  {
    RunAppend(Out(d), a, b);
  }

  lemma {:induction false} NeutralWord(d: nat, t: string)
    requires d > 0 && PlainWord(t)
    ensures Neutral(d, t)
  {
    if t == "" {
    } else {
      assert t[0] in t;
      var rest := t[1..];
      assert forall c :: c in rest ==> c in t;
      NeutralWord(d, rest);
    }
  }

  lemma {:induction false} EscapeStaysInside(d: nat, chars: string)
    requires d > 0
    ensures Stays(In(d, false), Escape(chars)) && Run(In(d, false), Escape(chars)) == In(d, false)
  {
    if chars == "" {
    } else {
      var rest := Escape(chars[1..]);
      EscapeStaysInside(d, chars[1..]);
      if chars[0] == '"' || chars[0] == '\\' {
        assert (['\\', chars[0]] + rest)[1..] == [chars[0]] + rest;
        assert ([chars[0]] + rest)[1..] == rest;
      } else {
        assert ([chars[0]] + rest)[1..] == rest;
      }
    }
  }

  lemma NeutralQuote(d: nat, chars: string)
    requires d > 0
    ensures Neutral(d, Quote(chars))
  {
    var body := Escape(chars);
    EscapeStaysInside(d, chars);
    RunAppend(In(d, false), body, "\"");
    assert "\""[1..] == "";
    assert Quote(chars)[1..] == body + "\"";
  }

  lemma {:induction false} NeutralValue(d: nat, v: Json)
    requires d > 0 && WellFormed(v)
    ensures Neutral(d, Render(v))
    decreases v
  {
    match v
    case Word(t) => NeutralWord(d, t);
    case Str(chars) => NeutralQuote(d, chars);
    case Arr(items) =>
      NeutralItems(d, items);
      NeutralWord(d, "[");
      NeutralWord(d, "]");
      NeutralAppend(d, "[", RenderItems(items));
      NeutralAppend(d, "[" + RenderItems(items), "]");
    case Obj(members) =>
      NeutralMembers(d + 1, members);
      ObjectCloses(d, RenderMembers(members));
  }

  lemma ObjectCloses(d: nat, inside: string)
    requires Neutral(d + 1, inside)
    ensures d > 0 ==> Neutral(d, "{" + inside + "}")
    ensures d == 0 ==> IsObjectText("{" + inside + "}")
  {
    var t := "{" + inside + "}";
    assert t[1..] == inside + "}" && "}"[1..] == "";
    RunAppend(Out(d + 1), inside, "}");
    if d == 0 {
      ScanThrough(Out(1), inside, "}");
    }
  }

  lemma {:induction false} NeutralItems(d: nat, items: seq<Json>)
    requires d > 0 && forall i :: i in items ==> WellFormed(i)
    ensures Neutral(d, RenderItems(items))
    decreases items
  {
    if items == [] {
    } else {
      var sep := if |items| == 1 then "" else ", ";
      var head := Render(items[0]);
      NeutralValue(d, items[0]);
      NeutralWord(d, sep);
      NeutralItems(d, items[1..]);
      NeutralAppend(d, head, sep);
      NeutralAppend(d, head + sep, RenderItems(items[1..]));
    }
  }

  lemma {:induction false} NeutralMembers(d: nat, members: seq<Member>)
    requires d > 0 && forall m :: m in members ==> WellFormed(m.value)
    ensures Neutral(d, RenderMembers(members))
    decreases members
  {
    if members == [] {
    } else {
      var sep := if |members| == 1 then "" else ", ";
      var key, head := Quote(members[0].key), Render(members[0].value);
      NeutralQuote(d, members[0].key);
      NeutralWord(d, ": ");
      NeutralValue(d, members[0].value);
      NeutralWord(d, sep);
      NeutralMembers(d, members[1..]);
      NeutralAppend(d, key, ": ");
      NeutralAppend(d, key + ": ", head);
      NeutralAppend(d, key + ": " + head, sep);
      NeutralAppend(d, key + ": " + head + sep, RenderMembers(members[1..]));
    }
  }

  /** A rendered object is an object text, whatever braces, quotes and backslashes its strings hold. */
  lemma RenderedObjectIsDocument(v: Json)
    requires WellFormed(v) && v.Obj?
    ensures IsObjectText(Render(v))
  {
    NeutralMembers(1, v.members);
    ObjectCloses(0, RenderMembers(v.members));
  }

  function RenderAll(pages: seq<Json>): (r: seq<string>)
    ensures |r| == |pages| && forall i :: 0 <= i < |r| ==> r[i] == Render(pages[i])
  {
    seq(|pages|, i requires 0 <= i < |pages| => Render(pages[i]))
  }

  /** Pages printed as JSON objects are read back one by one, with or without white space between them. */
  lemma PrintedPagesReadBack(pages: seq<Json>, stdout: string)
    requires forall v :: v in pages ==> WellFormed(v) && v.Obj?
    requires IsStream(stdout, RenderAll(pages))
    ensures Split(ScanObject, Strip(stdout)) == Some(RenderAll(pages))
  {
    ObjectsDelimitThemselves();
    forall t | t in RenderAll(pages) ensures IsObjectText(t) {
      var i :| 0 <= i < |pages| && RenderAll(pages)[i] == t;
      RenderedObjectIsDocument(pages[i]);
    }
    ReadsExactlyThePages(IsObjectText, ScanObject, stdout, RenderAll(pages));
  }

  // ---- decoders that accept less ----

  /** A language of objects, such as the texts that a real decoder accepts, delimits itself as well. */
  lemma ObjectLanguagesDelimitThemselves(lang: string -> bool)
    requires forall t :: lang(t) ==> IsObjectText(t)
    ensures SelfDelimiting(lang)
  {
    ObjectsDelimitThemselves();
    forall a, b | lang(a) && lang(b) && a <= b ensures a == b {
      assert IsObjectText(a) && IsObjectText(b);
    }
    forall t | lang(t) ensures t != "" && !IsSpace(t[0]) && !IsSpace(t[|t| - 1]) {
      assert IsObjectText(t);
    }
  }

  /** So with any decoder of objects the reader returns exactly the pages, whatever else it rejects. */
  lemma AnyObjectDecoderReads(lang: string -> bool, scan: string -> Option<nat>, stdout: string, texts: seq<string>)
    requires (forall t :: lang(t) ==> IsObjectText(t)) && Scans(lang, scan)
    ensures Split(scan, Strip(stdout)) == Some(texts) <==> AllIn(lang, texts) && IsStream(stdout, texts)
  {
    hide Split, IsStream, Strip;
    ObjectLanguagesDelimitThemselves(lang);
    ReadsExactlyThePages(lang, scan, stdout, texts);
  }
}
