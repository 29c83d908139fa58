/** No comment that names the BLOCKING marker on its first line is passed over in silence. */
module MarkerLaws {
  import opened Wrappers
  import opened Text
  import opened Markers

  lemma SpaceIsNoWord(c: char)
    requires IsSpace(c)
    ensures !IsWord(c) && !IsDecoration(c)
  {
  }

  // ---- the role prefix survives ----

  lemma BracketEndIs(s: string, i: nat, j: nat)
    requires i <= j <= |s| && (forall k :: i <= k < j ==> s[k] != ']') && (j < |s| ==> s[j] == ']')
    ensures BracketEnd(s, i) == j
  {
  }

  lemma SamePrefixHas(s: string, t: string, n: nat, k: nat, pat: string)
    requires n <= |s| && n <= |t| && s[..n] == t[..n] && k + |pat| <= n
    ensures HasAt(s, k, pat) <==> HasAt(t, k, pat)
  {
    assert s[k..k + |pat|] == s[..n][k..k + |pat|];
    assert t[k..k + |pat|] == t[..n][k..k + |pat|];
  }

  /** A line that opens like a role prefix: `]` at `j`, the dash at `k`, and a space after it. */
  predicate RoleShape(line: string, j: nat, k: nat) {
    3 < j && j + 3 < k && k + 1 < |line|
    && HasAt(line, 0, "**[") && HasAt(line, j, "]**") && (forall x :: 3 <= x < j ==> line[x] != ']')
    && (forall x :: j + 3 <= x < k ==> IsSpace(line[x])) && line[k] == DASH && IsSpace(line[k + 1])
  }

  lemma RoleShapeEnd(line: string, j: nat, k: nat)
    requires RoleShape(line, j, k)
    ensures RolePrefixEnd(line) == Some(SkipSpaces(line, k + 1))
  {
    HasAtChar(line, j, "]**", 0);
    BracketEndIs(line, 3, j);
    assert !IsSpace(DASH);
    SkipSpacesIs(line, j + 3, k);
  }

  lemma RoleShapeOf(line: string) returns (j: nat, k: nat)
    requires RolePrefixEnd(line).Some?
    ensures RoleShape(line, j, k) && RolePrefixEnd(line) == Some(SkipSpaces(line, k + 1))
  {
    j := BracketEnd(line, 3);
    k := SkipSpaces(line, j + 3);
  }

  lemma RoleShapeKept(line: string, m: string, n: nat, j: nat, k: nat)
    requires RoleShape(line, j, k) && k + 1 < n <= |line| && n <= |m| && m[..n] == line[..n]
    ensures RoleShape(m, j, k)
  {
    SamePrefixHas(line, m, n, 0, "**[");
    SamePrefixHas(line, m, n, j, "]**");
    assert forall x :: 0 <= x < n ==> m[x] == m[..n][x] == line[..n][x] == line[x];
  }

  /** Whatever follows a role prefix, the prefix is found again, with the white space after it. */
  lemma RolePrefixStable(line: string, rest: string)
    requires RolePrefixEnd(line).Some?
    ensures var i := RolePrefixEnd(line).value;
            RolePrefixEnd(line[..i] + rest) == Some(SkipSpaces(line[..i] + rest, i))
  {
    hide RolePrefixEnd, HasAt;
    var i := RolePrefixEnd(line).value;
    var m := line[..i] + rest;
    var j, k := RoleShapeOf(line);
    RoleShapeKept(line, m, i, j, k);
    RoleShapeEnd(m, j, k);
    assert forall x :: k + 1 <= x < i ==> m[x] == line[x];
    SkipSpacesIs(m, k + 1, SkipSpaces(m, i));
  }

  lemma NoRolePrefix(s: string)
    requires forall c :: c in s ==> !IsDecoration(c)
    ensures RolePrefixEnd(s).None?
  {
    assert s != "" ==> s[0] in s;
    assert |s| >= 3 ==> s[0..3][0] == s[0];
  }

  lemma RoleEndsInSpace(line: string)
    ensures var head := Undecorated(line[..KeywordStart(line)]);
            head != "" ==> !IsWord(head[|head| - 1])
  {
    hide RolePrefixEnd, IsSpace, IsWord;
    var i := KeywordStart(line);
    if i > 0 {
      var c := line[i - 1];
      SpaceIsNoWord(c);
      assert line[..i] == line[..i - 1] + [c];
      UndecoratedAppend(line[..i - 1], [c]);
      UndecoratedFixed([c]);
    }
  }

  /** The line split at its keyword, and the place of the keyword once the rest is undecorated. */
  lemma {:induction false} UndecoratedShape(line: string) returns (head: string, tail: string, k: nat)
    ensures line == head + tail && UndecoratedAfterRole(line) == head + Undecorated(tail)
    ensures k == KeywordStart(UndecoratedAfterRole(line)) && |head| <= k
    ensures forall x :: |head| <= x < k ==> IsSpace((head + Undecorated(tail))[x])
    ensures Undecorated(head) != "" ==> !IsWord(Undecorated(head)[|Undecorated(head)| - 1])
  {
    hide RolePrefixEnd, Undecorated, IsSpace, IsWord;
    var i := KeywordStart(line);
    head, tail := line[..i], line[i..];
    var m := UndecoratedAfterRole(line);
    k := KeywordStart(m);
    RoleEndsInSpace(line);
    if RolePrefixEnd(line).Some? {
      RolePrefixStable(line, Undecorated(tail));
    } else {
      assert m == Undecorated(line);
      NoRolePrefix(m);
    }
  }

  /** Stripping decoration after the role prefix twice is stripping it once. */
  lemma UndecoratedIsIdempotent(line: string)
    ensures UndecoratedAfterRole(UndecoratedAfterRole(line)) == UndecoratedAfterRole(line)
  {
    hide KeywordStart, RolePrefixEnd, Undecorated;
    var m := UndecoratedAfterRole(line);
    var head, tail, k := UndecoratedShape(line);
    var rest := m[k..];
    forall c | c in rest ensures !IsDecoration(c) {
      assert c in Undecorated(tail);
    }
    UndecoratedFixed(rest);
    assert m[..k] + rest == m;
  }

  // ---- a marker names itself ----

  /** The character after the word BLOCKING of a marker is no word character. */
  lemma MarkerBoundary(m: string, i: nat, keyword: string)
    requires keyword == BLOCKING || keyword == CLEARED
    requires i <= |m| && HeadMarkerAt(m, i, keyword).Some?
    ensures HasAt(m, i, BLOCKING) && i + 8 < |m| && !IsWord(m[i + 8])
  {
    HasAtChar(m, i, keyword, 0);
    if keyword == CLEARED {
      assert CLEARED == BLOCKING + "-CLEARED";
      HasAtSplit(m, i, BLOCKING, "-CLEARED");
      HasAtChar(m, i, keyword, 8);
    } else {
      var p := SkipSpaces(m, i + 8);
      HasAtChar(m, p, "(", 0);
      if p > i + 8 { SpaceIsNoWord(m[i + 8]); }
    }
  }

  lemma WordAt(s: string, k: nat)
    requires HasAt(s, k, BLOCKING) && k + 8 < |s| && !IsWord(s[k + 8]) && (k > 0 ==> !IsWord(s[k - 1]))
    ensures NamesBlocking(s)
  {
    HasAtChar(s, k, BLOCKING, 0);
    HasAtChar(s, k, BLOCKING, 7);
    assert IsBoundary(s, k) && IsBoundary(s, k + 8);
  }

  /** A marker at offset `w` of the undecorated rest is a bare word of the whole undecorated line. */
  lemma WordInWhole(a: string, v: string, w: nat)
    requires HasAt(v, w, BLOCKING) && w + 8 < |v| && !IsWord(v[w + 8])
    requires if w > 0 then !IsWord(v[w - 1]) else a != "" ==> !IsWord(a[|a| - 1])
    ensures NamesBlocking(a + v)
  {
    hide NamesBlocking, HasAt;
    var u := a + v;
    HasAtInside(a, v, "", w, BLOCKING);
    assert a + v + "" == u;
    WordAt(u, |a| + w);
  }

  lemma WordInRest(head: string, v: string, k: nat)
    requires |head| <= k && HasAt(head + v, k, BLOCKING) && k + 8 < |head + v| && !IsWord((head + v)[k + 8])
    requires forall x :: |head| <= x < k ==> IsSpace((head + v)[x])
    ensures var w := k - |head|;
            HasAt(v, w, BLOCKING) && w + 8 < |v| && !IsWord(v[w + 8]) && (w > 0 ==> !IsWord(v[w - 1]))
  {
    hide IsSpace, IsWord;
    var m, w := head + v, k - |head|;
    assert m[|head|..] == v;
    TailHasAt(m, |head|, v, w, BLOCKING);
    if w > 0 {
      SpaceIsNoWord(m[k - 1]);
    }
  }

  lemma {:induction false} MarkerShown(head: string, tail: string, v: string, k: nat, keyword: string)
    requires keyword == BLOCKING || keyword == CLEARED
    requires v == Undecorated(tail) && |head| <= k <= |head + v| && HeadMarkerAt(head + v, k, keyword).Some?
    requires forall x :: |head| <= x < k ==> IsSpace((head + v)[x])
    requires Undecorated(head) != "" ==> !IsWord(Undecorated(head)[|Undecorated(head)| - 1])
    ensures NamesBlocking(Undecorated(head + tail))
  {
    hide Undecorated, HeadMarkerAt, HasAt, NamesBlocking, IsSpace, IsWord;
    MarkerBoundary(head + v, k, keyword);
    WordInRest(head, v, k);
    WordInWhole(Undecorated(head), v, k - |head|);
    UndecoratedAppend(head, tail);
  }

  /** A line read as a marker still shows the bare word when all decoration is gone. */
  lemma {:induction false} MarkerNamesItself(line: string, keyword: string)
    requires keyword == BLOCKING || keyword == CLEARED
    requires var m := UndecoratedAfterRole(line); HeadMarkerAt(m, KeywordStart(m), keyword).Some?
    ensures NamesBlocking(Undecorated(line))
  {
    hide KeywordStart, UndecoratedAfterRole, Undecorated, HeadMarkerAt, HasAt, NamesBlocking, IsSpace, IsWord;
    var head, tail, k := UndecoratedShape(line);
    MarkerShown(head, tail, Undecorated(tail), k, keyword);
  }

  lemma TailHasAt(m: string, i: nat, v: string, w: nat, pat: string)
    requires i <= |m| && m[i..] == v && HasAt(m, i + w, pat)
    ensures HasAt(v, w, pat)
  {
    assert v[w..w + |pat|] == m[i + w..i + w + |pat|];
  }

  // ---- the trichotomy ----

  lemma EmptyIsNoMarker(comment: string)
    requires FirstNonemptyLine(comment) == ""
    ensures Raises(comment).None? && Clears(comment).None?
  {
    assert UndecoratedAfterRole("") == "" + Undecorated("") == "";
  }

  /** No comment both raises and clears. */
  lemma {:induction false} RaiseIsNotClear(comment: string)
    ensures Raises(comment).Some? ==> Clears(comment).None?
  {
    var m := MarkerLine(comment);
    if Raises(comment).Some? {
      BlockingIsNotCleared(m, KeywordStart(m));
    }
  }

  /** A comment names the marker exactly when it raises, clears or is reported as a near miss, and it is one of them. */
  lemma {:induction false} Trichotomy(comment: string)
    ensures NamesMarker(comment) <==> Raises(comment).Some? || Clears(comment).Some? || NearMiss(comment)
    ensures !(Raises(comment).Some? && Clears(comment).Some?)
    ensures NearMiss(comment) ==> Raises(comment).None? && Clears(comment).None?
  {
    hide HeadMarkerAt, KeywordStart, UndecoratedAfterRole, Undecorated, NamesBlocking;
    RaiseIsNotClear(comment);
    var line := FirstNonemptyLine(comment);
    if line == "" {
      EmptyIsNoMarker(comment);
    } else {
      if Raises(comment).Some? { MarkerNamesItself(line, BLOCKING); }
      if Clears(comment).Some? { MarkerNamesItself(line, CLEARED); }
    }
  }
}
