/** Writing UPDATE and INSERT on blocks back into the Markdown file: the splice loops
    over its lines. */
module WriteBack {
  import opened Bytes

  type Line = string

  // Sorting

  /** The first key, then the second, compare greater. */
  predicate Higher(a: (nat, nat), b: (nat, nat)) {
    a.0 > b.0 || (a.0 == b.0 && a.1 > b.1)
  }

  predicate Descending<T>(xs: seq<T>, key: T -> (nat, nat)) {
    forall i, j | 0 <= i < j < |xs| :: !Higher(key(xs[j]), key(xs[i]))
  }

  function Placed<T>(x: T, xs: seq<T>, key: T -> (nat, nat)): (r: seq<T>)
    ensures |r| == |xs| + 1
  {
    if |xs| == 0 then [x]
    else if Higher(key(xs[0]), key(x)) then [xs[0]] + Placed(x, xs[1..], key)
    else [x] + xs
  }

  /** `sort_by_key` by `Reverse` keys. */
  function SortedDown<T>(xs: seq<T>, key: T -> (nat, nat)): seq<T> {
    if |xs| == 0 then [] else Placed(xs[0], SortedDown(xs[1..], key), key)
  }

  lemma {:induction false} PlacedIs<T>(x: T, xs: seq<T>, key: T -> (nat, nat))
    ensures multiset(Placed(x, xs, key)) == multiset(xs) + multiset{x}
    ensures forall y | y in Placed(x, xs, key) :: y == x || y in xs
  {
    hide Higher;
    if |xs| > 0 {
      assert xs == [xs[0]] + xs[1..];
      if Higher(key(xs[0]), key(x)) {
        PlacedIs(x, xs[1..], key);
        Joined(xs[0], Placed(x, xs[1..], key));
      } else {
        Joined(x, xs);
      }
    }
  }

  lemma Joined<T>(x: T, xs: seq<T>)
    ensures multiset([x] + xs) == multiset(xs) + multiset{x}
  {
  }

  lemma {:induction false} PlacedDescends<T>(x: T, xs: seq<T>, key: T -> (nat, nat))
    requires Descending(xs, key)
    ensures Descending(Placed(x, xs, key), key)
  {
    if |xs| > 0 && Higher(key(xs[0]), key(x)) {
      PlacedDescends(x, xs[1..], key);
      PlacedIs(x, xs[1..], key);
      var rest := Placed(x, xs[1..], key);
      forall j | 0 <= j < |rest| ensures !Higher(key(rest[j]), key(xs[0])) {
        assert rest[j] in rest;
        if rest[j] != x {
          var k :| 0 <= k < |xs| - 1 && xs[1..][k] == rest[j];
          assert xs[k + 1] == rest[j];
        }
      }
    }
  }

  lemma EmptyDescends<T>(xs: seq<T>, key: T -> (nat, nat))
    requires xs == []
    ensures Descending(xs, key)
  {
  }

  lemma {:induction false} SortedDownIs<T>(xs: seq<T>, key: T -> (nat, nat))
    ensures Descending(SortedDown(xs, key), key) && multiset(SortedDown(xs, key)) == multiset(xs)
    ensures |SortedDown(xs, key)| == |xs|
    ensures forall x :: x in SortedDown(xs, key) <==> x in xs
  {
    hide Higher, Descending, Placed;
    if xs == [] {
      EmptyDescends(SortedDown(xs, key), key);
    }
    if |xs| > 0 {
      SortedDownIs(xs[1..], key);
      PlacedIs(xs[0], SortedDown(xs[1..], key), key);
      PlacedDescends(xs[0], SortedDown(xs[1..], key), key);
      assert xs == [xs[0]] + xs[1..];
    }
    forall x ensures x in SortedDown(xs, key) <==> x in xs {
      assert x in multiset(SortedDown(xs, key)) <==> x in multiset(xs);
    }
  }

  // UPDATE

  /** A block's lines, from 1, and what replaces them. */
  datatype LineEdit = LineEdit(startLine: nat, endLine: nat, text: Line)

  predicate Inside(e: LineEdit, n: nat) { 1 <= e.startLine <= e.endLine <= n }

  predicate Apart(a: LineEdit, b: LineEdit) { a.endLine < b.startLine || b.endLine < a.startLine }

  predicate AllApart(edits: seq<LineEdit>) {
    forall i, j | 0 <= i < j < |edits| :: Apart(edits[i], edits[j])
  }

  /** What stands in for line `i` when every span is replaced at once: its replacement
      where a span starts, nothing inside one, and the line itself elsewhere. */
  function Piece(lines: seq<Line>, edits: seq<LineEdit>, i: nat): seq<Line>
    requires i < |lines|
  {
    if |edits| == 0 then [lines[i]]
    else
      var e := edits[|edits| - 1];
      if e.startLine == i + 1 then [e.text]
      else if e.startLine <= i < e.endLine then []
      else Piece(lines, edits[..|edits| - 1], i)
  }

  function Substituted(lines: seq<Line>, edits: seq<LineEdit>, i: nat): seq<Line>
    requires i <= |lines|
    decreases |lines| - i
  {
    if i == |lines| then [] else Piece(lines, edits, i) + Substituted(lines, edits, i + 1)
  }

  function StartOf(): LineEdit -> (nat, nat) { (e: LineEdit) => (e.startLine, 0) }

  /** Above all spans, lines stay. */
  lemma {:induction false} PieceAbove(lines: seq<Line>, edits: seq<LineEdit>, i: nat)
    requires i < |lines| && forall e | e in edits :: i + 1 < e.startLine
    ensures Piece(lines, edits, i) == [lines[i]]
  {
    if |edits| > 0 {
      assert edits[|edits| - 1] in edits;
      PieceAbove(lines, edits[..|edits| - 1], i);
    }
  }

  lemma {:induction false} SubstitutedAbove(lines: seq<Line>, edits: seq<LineEdit>, i: nat, b: nat)
    requires i <= b <= |lines| && forall e | e in edits :: b < e.startLine
    ensures Substituted(lines, edits, i) == lines[i..b] + Substituted(lines, edits, b)
    decreases b - i
  {
    hide Piece;
    if i < b {
      PieceAbove(lines, edits, i);
      assert Substituted(lines, edits, i) == [lines[i]] + Substituted(lines, edits, i + 1);
      hide Substituted;
      SubstitutedAbove(lines, edits, i + 1, b);
      assert lines[i..b] == [lines[i]] + lines[i + 1..b];
    } else {
      assert lines[i..b] == [];
    }
  }

  lemma {:induction false} SubstitutedBelow(lines: seq<Line>, edits: seq<LineEdit>, e: LineEdit, i: nat)
    requires e.endLine <= i <= |lines| && e.startLine <= i
    ensures Substituted(lines, edits + [e], i) == Substituted(lines, edits, i)
    decreases |lines| - i
  {
    if i < |lines| {
      assert (edits + [e])[..|edits|] == edits;
      SubstitutedBelow(lines, edits, e, i + 1);
    }
  }

  lemma {:induction false} InsideSpan(lines: seq<Line>, edits: seq<LineEdit>, e: LineEdit, i: nat)
    requires Inside(e, |lines|) && e.startLine <= i <= e.endLine
    ensures Substituted(lines, edits + [e], i) == Substituted(lines, edits + [e], e.endLine)
    decreases e.endLine - i
  {
    if i < e.endLine {
      InsideSpan(lines, edits, e, i + 1);
      assert Piece(lines, edits + [e], i) == [];
    }
  }

  /** One splice, all spans below it done. */
  lemma {:induction false} SpliceStep(lines: seq<Line>, edits: seq<LineEdit>, e: LineEdit)
    requires Inside(e, |lines|) && forall x | x in edits :: e.endLine < x.startLine
    ensures var before := Substituted(lines, edits, 0);
      e.endLine <= |before| &&
      Substituted(lines, edits + [e], 0) == before[..e.startLine - 1] + [e.text] + before[e.endLine..]
  {
    var before, s := Substituted(lines, edits, 0), e.startLine - 1;
    var rest := Substituted(lines, edits, e.endLine);
    SubstitutedAbove(lines, edits, 0, e.endLine);
    assert before == lines[..e.endLine] + rest;
    SubstitutedAbove(lines, edits + [e], 0, s) by {
      assert forall x | x in edits + [e] :: s < x.startLine;
    }
    assert Piece(lines, edits + [e], s) == [e.text];
    InsideSpan(lines, edits, e, s + 1);
    SubstitutedBelow(lines, edits, e, e.endLine);
    assert before[..s] == lines[..s] && before[e.endLine..] == rest;
  }

  lemma SortedApart(edits: seq<LineEdit>, sorted: seq<LineEdit>, n: nat)
    requires AllApart(edits) && multiset(sorted) == multiset(edits) && Descending(sorted, StartOf())
    requires forall e | e in edits :: Inside(e, n)
    ensures AllApart(sorted) && forall i, j | 0 <= i < j < |sorted| :: sorted[j].endLine < sorted[i].startLine
  {
    forall i, j | 0 <= i < j < |sorted| ensures sorted[j].endLine < sorted[i].startLine {
      assert !Higher(StartOf()(sorted[j]), StartOf()(sorted[i]));
      var a, b := TwoSources(sorted, edits, i, j);
      assert Apart(edits[a], edits[b]) && edits[a] in edits && edits[b] in edits;
    }
  }

  function Without<T>(s: seq<T>, i: nat): (r: seq<T>)
    requires i < |s|
    ensures |r| == |s| - 1 && forall k | 0 <= k < |r| :: r[k] == s[if k < i then k else k + 1]
  {
    s[..i] + s[i + 1..]
  }

  lemma TakenOut<T>(s: seq<T>, i: nat)
    requires i < |s|
    ensures multiset(Without(s, i)) == multiset(s) - multiset{s[i]}
  {
    assert s == s[..i] + [s[i]] + s[i + 1..];
  }

  lemma SomewhereIn<T>(x: T, s: seq<T>, t: seq<T>) returns (k: nat)
    requires x in s && multiset(s) == multiset(t)
    ensures k < |t| && t[k] == x
  {
    assert x in multiset(t);
    k :| 0 <= k < |t| && t[k] == x;
  }

  /** Two places of a reordered list come from two places of the original. */
  lemma TwoSources<T>(sorted: seq<T>, xs: seq<T>, i: nat, j: nat) returns (a: nat, b: nat)
    requires multiset(sorted) == multiset(xs) && i < j < |sorted|
    ensures a < |xs| && b < |xs| && a != b && xs[a] == sorted[i] && xs[b] == sorted[j]
  {
    hide Without;
    a := SomewhereIn(sorted[i], sorted, xs);
    TakenOut(sorted, i);
    TakenOut(xs, a);
    assert Without(sorted, i)[j - 1] == sorted[j];
    var k := SomewhereIn(sorted[j], Without(sorted, i), Without(xs, a));
    b := if k < a then k else k + 1;
  }

  /** The order in which spans are given does not matter. */
  lemma {:induction false} PieceOf(lines: seq<Line>, edits: seq<LineEdit>, i: nat)
    requires i < |lines| && AllApart(edits) && forall e | e in edits :: Inside(e, |lines|)
    ensures forall e | e in edits && e.startLine == i + 1 :: Piece(lines, edits, i) == [e.text]
    ensures forall e | e in edits && e.startLine <= i < e.endLine :: Piece(lines, edits, i) == []
    ensures (forall e | e in edits :: !(e.startLine <= i + 1 <= e.endLine)) ==> Piece(lines, edits, i) == [lines[i]]
  {
    if |edits| > 0 {
      var n := |edits| - 1;
      assert edits == edits[..n] + [edits[n]] && edits[n] in edits;
      PieceOf(lines, edits[..n], i);
      forall e | e in edits[..n] ensures Apart(e, edits[n]) {
        var k :| 0 <= k < n && edits[k] == e;
      }
    }
  }

  lemma {:induction false} SameSubstitution(lines: seq<Line>, a: seq<LineEdit>, b: seq<LineEdit>, i: nat)
    requires i <= |lines| && AllApart(a) && AllApart(b) && forall e | e in a :: Inside(e, |lines|)
    requires forall e :: e in a <==> e in b
    ensures Substituted(lines, a, i) == Substituted(lines, b, i)
    decreases |lines| - i
  {
    hide Piece, AllApart;
    if i < |lines| {
      PieceOf(lines, a, i);
      PieceOf(lines, b, i);
      SameSubstitution(lines, a, b, i + 1);
    }
  }

  /** One replacement: a span is cut to the lines there are, and skipped if none is left. */
  function Replaced(lines: seq<Line>, e: LineEdit): seq<Line> {
    var start := if e.startLine == 0 then 0 else e.startLine - 1;
    var end := if e.endLine <= |lines| then e.endLine else |lines|;
    if start >= end then lines else lines[..start] + [e.text] + lines[end..]
  }

  /** The replacements one after the other. */
  function Edited(lines: seq<Line>, edits: seq<LineEdit>): seq<Line> {
    if |edits| == 0 then lines else Replaced(Edited(lines, edits[..|edits| - 1]), edits[|edits| - 1])
  }

  /** Whatever the spans, the lines are old ones and replacements, and there are not more. */
  lemma {:induction false} NoOtherLines(lines: seq<Line>, edits: seq<LineEdit>)
    ensures |Edited(lines, edits)| <= |lines|
    ensures forall l | l in Edited(lines, edits) :: l in lines || exists e | e in edits :: l == e.text
  {
    if |edits| > 0 {
      var n := |edits| - 1;
      NoOtherLines(lines, edits[..n]);
      assert edits == edits[..n] + [edits[n]] && edits[n] in edits;
    }
  }

  /** From the last span up, spans apart from each other are replaced all at once. */
  lemma {:induction false} EditedIsSubstituted(original: seq<Line>, sorted: seq<LineEdit>)
    requires forall e | e in sorted :: Inside(e, |original|)
    requires forall i, j | 0 <= i < j < |sorted| :: sorted[j].endLine < sorted[i].startLine
    ensures Edited(original, sorted) == Substituted(original, sorted, 0)
  {
    hide Substituted, Piece;
    if |sorted| == 0 {
      SubstitutedAbove(original, [], 0, |original|);
      NothingLeft(original);
    } else {
      var n := |sorted| - 1;
      var edit := sorted[n];
      EditedIsSubstituted(original, sorted[..n]);
      assert sorted == sorted[..n] + [edit] && edit in sorted;
      forall x | x in sorted[..n] ensures edit.endLine < x.startLine {
        var i :| 0 <= i < n && sorted[i] == x;
      }
      SpliceStep(original, sorted[..n], edit);
    }
  }

  /** The bottom-up loop of `apply_matched_edits`, for replacements: spans inside the
      file and apart from each other are replaced all at once, in whatever order they
      are given. */
  method SpliceEdits(original: seq<Line>, edits: seq<LineEdit>) returns (lines: seq<Line>)
    ensures lines == Edited(original, SortedDown(edits, StartOf()))
    ensures |lines| <= |original| && forall l | l in lines :: l in original || exists e | e in edits :: l == e.text
    ensures AllApart(edits) && (forall e | e in edits :: Inside(e, |original|)) ==> lines == Substituted(original, edits, 0)
  {
    hide Substituted, SortedDown, Descending;
    var sorted := SortedDown(edits, StartOf());
    SortedDownIs(edits, StartOf());
    lines := original;
    for k := 0 to |sorted|
      invariant lines == Edited(original, sorted[..k])
    {
      var edit := sorted[k];
      assert sorted[..k + 1][..k] == sorted[..k];
      var start := if edit.startLine == 0 then 0 else edit.startLine - 1;
      var end := if edit.endLine <= |lines| then edit.endLine else |lines|;
      if start >= end || start >= |lines| {
        continue;
      }
      lines := lines[..start] + [edit.text] + lines[end..];
    }
    assert sorted[..|sorted|] == sorted;
    NoOtherLines(original, sorted);
    if AllApart(edits) && forall e | e in edits :: Inside(e, |original|) {
      SortedApart(edits, sorted, |original|);
      EditedIsSubstituted(original, sorted);
      SameSubstitution(original, sorted, edits, 0);
    }
  }

  lemma {:induction false} NothingLeft(lines: seq<Line>)
    ensures Substituted(lines, [], |lines|) == []
  {
  }

  // DELETE

  /** The lines that go with a span: a blank line after it as well, or else one before it. */
  function Cut(lines: seq<Line>, e: LineEdit, blank: Line -> bool): (c: (nat, nat))
    ensures c.0 <= c.1 <= |lines|
  {
    var start := if e.startLine == 0 then 0 else e.startLine - 1;
    var end := if e.endLine <= |lines| then e.endLine else |lines|;
    if start >= end then (0, 0)
    else if end < |lines| && blank(lines[end]) then (start, end + 1)
    else if start > 0 && blank(lines[start - 1]) then (start - 1, end)
    else (start, end)
  }

  function WithoutCut<T>(s: seq<T>, c: (nat, nat)): seq<T>
    requires c.0 <= c.1 <= |s|
  {
    s[..c.0] + s[c.1..]
  }

  /** The removals one after the other. */
  function Removed(lines: seq<Line>, edits: seq<LineEdit>, blank: Line -> bool): seq<Line> {
    if |edits| == 0 then lines
    else
      var before := Removed(lines, edits[..|edits| - 1], blank);
      WithoutCut(before, Cut(before, edits[|edits| - 1], blank))
  }

  /** Which of the original lines are left. */
  ghost function Left(lines: seq<Line>, edits: seq<LineEdit>, blank: Line -> bool): (k: seq<nat>)
    ensures |k| == |Removed(lines, edits, blank)|
  {
    if |edits| == 0 then seq(|lines|, i => i)
    else
      var before := Removed(lines, edits[..|edits| - 1], blank);
      WithoutCut(Left(lines, edits[..|edits| - 1], blank), Cut(before, edits[|edits| - 1], blank))
  }

  ghost predicate Picks(left: seq<nat>, lines: seq<Line>, original: seq<Line>) {
    |left| == |lines| && (forall i | 0 <= i < |left| :: left[i] < |original| && lines[i] == original[left[i]]) &&
    forall i, j | 0 <= i < j < |left| :: left[i] < left[j]
  }

  lemma PicksCut(left: seq<nat>, lines: seq<Line>, original: seq<Line>, c: (nat, nat))
    requires Picks(left, lines, original) && c.0 <= c.1 <= |lines|
    ensures Picks(WithoutCut(left, c), WithoutCut(lines, c), original)
  {
    var now := WithoutCut(left, c);
    forall i | 0 <= i < |now| ensures now[i] == left[if i < c.0 then i else i + c.1 - c.0] {
    }
  }

  predicate Covers(e: LineEdit, i: nat) { e.startLine <= i + 1 <= e.endLine }

  predicate FrontLeft(left: seq<nat>, b: nat) { b <= |left| && forall k | 0 <= k < b :: left[k] == k }

  /** Above the lowest line touched, all lines are left, but perhaps for one blank line. */
  predicate FrontIntact(left: seq<nat>, original: seq<Line>, b: nat, blank: Line -> bool)
    requires b <= |original|
  {
    b > 0 ==> FrontLeft(left, b - 1) && (!blank(original[b - 1]) ==> FrontLeft(left, b))
  }

  /** Written lines are left exactly if no span covers them, and blank ones only then. */
  ghost predicate OnlySpansGone(left: seq<nat>, original: seq<Line>, edits: seq<LineEdit>, blank: Line -> bool) {
    forall i: nat | i < |original| ::
      (i in left ==> !exists e :: e in edits && Covers(e, i)) &&
      (i !in left && !blank(original[i]) ==> exists e :: e in edits && Covers(e, i))
  }

  /** Bottom-up, apart from each other, each on lines of the file and ending on a written one. */
  ghost predicate Deletable(original: seq<Line>, sorted: seq<LineEdit>, blank: Line -> bool) {
    (forall e | e in sorted :: Inside(e, |original|) && !blank(original[e.endLine - 1])) &&
    forall i, j | 0 <= i < j < |sorted| :: sorted[j].endLine < sorted[i].startLine
  }

  function TopOf(n: nat, sorted: seq<LineEdit>): int {
    if |sorted| == 0 then n else sorted[|sorted| - 1].startLine - 1
  }

  /** One removal takes the span and at most one blank line beside it. */
  lemma CutBounds(left: seq<nat>, lines: seq<Line>, original: seq<Line>, e: LineEdit, blank: Line -> bool)
    requires Picks(left, lines, original) && Inside(e, |original|) && FrontLeft(left, e.endLine)
    ensures var (c, s) := (Cut(lines, e, blank), e.startLine - 1);
      (c.0 == s || (c.0 == s - 1 && blank(original[s - 1]))) && (c.1 == e.endLine || (c.1 == e.endLine + 1 && blank(lines[e.endLine]))) &&
      c.1 - c.0 <= e.endLine - e.startLine + 2
  {
    var s := e.startLine - 1;
    assert s > 0 ==> lines[s - 1] == original[left[s - 1]];
  }

  lemma InCut<T>(s: seq<T>, c: (nat, nat), x: T)
    requires c.0 <= c.1 <= |s|
    ensures x in WithoutCut(s, c) <==> x in s[..c.0] || x in s[c.1..]
  {
  }

  lemma OutsideCut<T>(s: seq<T>, c: (nat, nat), k: nat)
    requires c.0 <= c.1 <= |s| && k < |s| && (k < c.0 || k >= c.1)
    ensures s[k] in WithoutCut(s, c)
  {
    assert WithoutCut(s, c)[if k < c.0 then k else k - c.1 + c.0] == s[k];
  }

  /** A line that stays was there, and below the cut or above it. */
  lemma StayingLine(left: seq<nat>, lines: seq<Line>, original: seq<Line>, e: LineEdit, c: (nat, nat), i: nat)
    requires Picks(left, lines, original) && 1 <= e.startLine <= e.endLine && FrontLeft(left, e.endLine)
    requires c.0 <= e.startLine - 1 < e.endLine <= c.1 <= |left| && i in WithoutCut(left, c)
    ensures i in left && !Covers(e, i)
  {
    InCut(left, c, i);
    if i in left[..c.0] {
      var k :| 0 <= k < c.0 && left[k] == i;
    } else {
      var k :| c.1 <= k < |left| && left[k] == i;
      assert left[e.endLine - 1] < left[k];
    }
  }

  /** A line that goes was between the bounds of the cut. */
  lemma GoingLine(left: seq<nat>, lines: seq<Line>, original: seq<Line>, e: LineEdit, blank: Line -> bool, i: nat)
    requires Picks(left, lines, original) && Inside(e, |original|) && FrontLeft(left, e.endLine) && i < |original|
    requires i in left && i !in WithoutCut(left, Cut(lines, e, blank))
    ensures Covers(e, i) || blank(original[i])
  {
    hide Cut, WithoutCut;
    var c := Cut(lines, e, blank);
    CutBounds(left, lines, original, e, blank);
    forall m | 0 <= m < |left| && (m < c.0 || m >= c.1) ensures left[m] in WithoutCut(left, c) {
      OutsideCut(left, c, m);
    }
    var k :| 0 <= k < |left| && left[k] == i;
    assert lines[k] == original[i];
  }

  /** What one removal drops. */
  lemma CutIs(left: seq<nat>, lines: seq<Line>, original: seq<Line>, e: LineEdit, blank: Line -> bool)
    requires Picks(left, lines, original) && Inside(e, |original|) && FrontLeft(left, e.endLine)
    ensures var (c, now) := (Cut(lines, e, blank), WithoutCut(left, Cut(lines, e, blank)));
      c.1 - c.0 <= e.endLine - e.startLine + 2 && FrontIntact(now, original, e.startLine - 1, blank) &&
      forall i: nat | i < |original| ::
        (i in now ==> i in left && !Covers(e, i)) && (i in left && i !in now ==> Covers(e, i) || blank(original[i]))
  {
    hide Cut, Picks, Covers;
    var c := Cut(lines, e, blank);
    CutBounds(left, lines, original, e, blank);
    assert |left| == |lines| by { PicksSize(left, lines, original); }
    var now := WithoutCut(left, c);
    forall i: nat | i in now ensures i in left && !Covers(e, i) {
      StayingLine(left, lines, original, e, c, i);
    }
    forall i: nat | i < |original| && i in left && i !in now ensures Covers(e, i) || blank(original[i]) {
      GoingLine(left, lines, original, e, blank, i);
    }
    assert FrontLeft(now, c.0);
  }

  lemma PicksSize(left: seq<nat>, lines: seq<Line>, original: seq<Line>)
    requires Picks(left, lines, original)
    ensures |left| == |lines|
  {
  }

  /** Only the spans so far and blank lines beside them are gone. */
  ghost predicate WellRemoved(original: seq<Line>, sorted: seq<LineEdit>, blank: Line -> bool) {
    var left := Left(original, sorted, blank);
    Picks(left, Removed(original, sorted, blank), original) && OnlySpansGone(left, original, sorted, blank) &&
    0 <= TopOf(|original|, sorted) <= |original| && FrontIntact(left, original, TopOf(|original|, sorted), blank) &&
    |Removed(original, sorted, blank)| + SpanLines(sorted) + |sorted| >= |original|
  }

  lemma RemovedStep(original: seq<Line>, done: seq<LineEdit>, e: LineEdit, blank: Line -> bool)
    requires Deletable(original, done + [e], blank) && WellRemoved(original, done, blank)
    ensures WellRemoved(original, done + [e], blank)
  {
    hide Picks, FrontLeft, Cut, WithoutCut, OnlySpansGone, FrontIntact, Deletable;
    var sorted := done + [e];
    var (lines, left) := (Removed(original, done, blank), Left(original, done, blank));
    assert sorted[..|done|] == done && sorted[|sorted| - 1] == e;
    FrontReaches(left, original, done, e, blank);
    CutIs(left, lines, original, e, blank);
    PicksCut(left, lines, original, Cut(lines, e, blank));
    CutSize(lines, Cut(lines, e, blank));
    assert Left(original, sorted, blank) == WithoutCut(left, Cut(lines, e, blank));
    StillOnlySpans(left, Left(original, sorted, blank), original, done, e, blank);
  }

  /** DELETE removes the lines of its blocks and no other written line. */
  lemma {:induction false} RemovedIs(original: seq<Line>, sorted: seq<LineEdit>, blank: Line -> bool)
    requires Deletable(original, sorted, blank)
    ensures WellRemoved(original, sorted, blank)
  {
    hide WellRemoved;
    if |sorted| == 0 {
      NothingRemoved(original, blank);
    } else {
      var n := |sorted| - 1;
      assert sorted == sorted[..n] + [sorted[n]];
      assert forall e | e in sorted[..n] :: e in sorted;
      RemovedIs(original, sorted[..n], blank);
      RemovedStep(original, sorted[..n], sorted[n], blank);
    }
  }

  function SpanLines(edits: seq<LineEdit>): int {
    if |edits| == 0 then 0
    else SpanLines(edits[..|edits| - 1]) + edits[|edits| - 1].endLine - edits[|edits| - 1].startLine + 1
  }

  lemma {:induction false} NothingRemoved(original: seq<Line>, blank: Line -> bool)
    ensures WellRemoved(original, [], blank)
  {
    var left := Left(original, [], blank);
    forall i: nat | i < |original| ensures i in left {
      assert left[i] == i;
    }
  }

  lemma FrontReaches(left: seq<nat>, original: seq<Line>, done: seq<LineEdit>, e: LineEdit, blank: Line -> bool)
    requires Deletable(original, done + [e], blank)
    requires 0 <= TopOf(|original|, done) <= |original| && FrontIntact(left, original, TopOf(|original|, done), blank)
    ensures FrontLeft(left, e.endLine) && Inside(e, |original|)
  {
    var sorted := done + [e];
    assert sorted[|done|] == e && e in sorted;
    if |done| > 0 {
      assert sorted[|done| - 1] == done[|done| - 1];
    }
  }

  lemma StillOnlySpans(left: seq<nat>, now: seq<nat>, original: seq<Line>, done: seq<LineEdit>, e: LineEdit, blank: Line -> bool)
    requires OnlySpansGone(left, original, done, blank)
    requires forall i: nat | i < |original| ::
      (i in now ==> i in left && !Covers(e, i)) && (i in left && i !in now ==> Covers(e, i) || blank(original[i]))
    ensures OnlySpansGone(now, original, done + [e], blank)
  {
    var all := done + [e];
    forall i: nat | i < |original|
      ensures (i in now ==> !exists x :: x in all && Covers(x, i)) &&
        (i !in now && !blank(original[i]) ==> exists x :: x in all && Covers(x, i))
    {
      assert e in all && forall x :: x in all <==> x in done || x == e;
    }
  }

  lemma CutSize(lines: seq<Line>, c: (nat, nat))
    requires c.0 <= c.1 <= |lines|
    ensures |WithoutCut(lines, c)| == |lines| - (c.1 - c.0)
  {
  }

  /** No two blank lines stand together. */
  predicate SingleBlanks(lines: seq<Line>, blank: Line -> bool) {
    forall i | 0 <= i < |lines| - 1 :: !blank(lines[i]) || !blank(lines[i + 1])
  }

  lemma CutKeepsSingle(lines: seq<Line>, e: LineEdit, blank: Line -> bool)
    requires SingleBlanks(lines, blank)
    ensures SingleBlanks(WithoutCut(lines, Cut(lines, e, blank)), blank)
  {
    var c := Cut(lines, e, blank);
    var left := WithoutCut(lines, c);
    forall i | 0 <= i < |left| - 1 ensures !blank(left[i]) || !blank(left[i + 1]) {
      if i + 1 < c.0 {
        assert left[i] == lines[i] && left[i + 1] == lines[i + 1];
      } else if i >= c.0 {
        var k := i + (c.1 - c.0);
        assert left[i] == lines[k] && left[i + 1] == lines[k + 1];
      } else {
        assert left[i] == lines[i] && left[i + 1] == lines[c.1];
      }
    }
  }

  lemma {:induction false} RemovedKeepsSingle(lines: seq<Line>, edits: seq<LineEdit>, blank: Line -> bool)
    requires SingleBlanks(lines, blank)
    ensures SingleBlanks(Removed(lines, edits, blank), blank)
  {
    if |edits| > 0 {
      hide SingleBlanks, Cut, WithoutCut;
      RemovedKeepsSingle(lines, edits[..|edits| - 1], blank);
      CutKeepsSingle(Removed(lines, edits[..|edits| - 1], blank), edits[|edits| - 1], blank);
    }
  }

  /** The bottom-up loop of `apply_matched_edits`, for removals. If every span ends on a
      written line, and they are apart, then exactly the written lines
      outside them are left, in their order, and at most one blank line more is gone for
      each. Whatever the spans, no two blank lines are brought together. */
  method SpliceDeletes(original: seq<Line>, edits: seq<LineEdit>, blank: Line -> bool) returns (lines: seq<Line>)
    ensures lines == Removed(original, SortedDown(edits, StartOf()), blank)
    ensures AllApart(edits) && (forall e | e in edits :: Inside(e, |original|) && !blank(original[e.endLine - 1])) ==>
      (exists left: seq<nat> :: Picks(left, lines, original) && OnlySpansGone(left, original, edits, blank)) &&
      |lines| + SpanLines(SortedDown(edits, StartOf())) + |edits| >= |original|
    ensures SingleBlanks(original, blank) ==> SingleBlanks(lines, blank)
  {
    hide SortedDown, Cut, WithoutCut, OnlySpansGone, Picks, AllApart, SingleBlanks;
    var sorted := SortedDown(edits, StartOf());
    lines := original;
    for k := 0 to |sorted|
      invariant lines == Removed(original, sorted[..k], blank)
    {
      assert sorted[..k + 1][..k] == sorted[..k];
      lines := RemoveSpan(lines, sorted[k], blank);
    }
    assert sorted[..|sorted|] == sorted;
    if AllApart(edits) && forall e | e in edits :: Inside(e, |original|) && !blank(original[e.endLine - 1]) {
      DeletedIs(original, edits, blank);
    }
    if SingleBlanks(original, blank) {
      RemovedKeepsSingle(original, sorted, blank);
    }
  }

  /** The body of the loop. */
  method RemoveSpan(lines: seq<Line>, edit: LineEdit, blank: Line -> bool) returns (r: seq<Line>)
    ensures r == WithoutCut(lines, Cut(lines, edit, blank))
  {
    var start := if edit.startLine == 0 then 0 else edit.startLine - 1;
    var end := if edit.endLine <= |lines| then edit.endLine else |lines|;
    if start >= end || start >= |lines| {
      return lines;
    }
    var removeStart, removeEnd := start, end;
    if removeEnd < |lines| && blank(lines[removeEnd]) {
      removeEnd := removeEnd + 1;
    } else if removeStart > 0 && blank(lines[removeStart - 1]) {
      removeStart := removeStart - 1;
    }
    r := lines[..removeStart] + lines[removeEnd..];
  }

  lemma DeletedIs(original: seq<Line>, edits: seq<LineEdit>, blank: Line -> bool)
    requires AllApart(edits) && forall e | e in edits :: Inside(e, |original|) && !blank(original[e.endLine - 1])
    ensures var lines := Removed(original, SortedDown(edits, StartOf()), blank);
      (exists left: seq<nat> :: Picks(left, lines, original) && OnlySpansGone(left, original, edits, blank)) &&
      |lines| + SpanLines(SortedDown(edits, StartOf())) + |edits| >= |original|
  {
    hide SortedDown, Descending, Left, OnlySpansGone, Picks, FrontIntact, Removed, SpanLines;
    var sorted := SortedDown(edits, StartOf());
    SortedDownIs(edits, StartOf());
    SortedApart(edits, sorted, |original|);
    assert forall e | e in sorted :: e in edits;
    RemovedIs(original, sorted, blank);
    SameSpans(Left(original, sorted, blank), original, sorted, edits, blank);
  }

  lemma SameSpans(left: seq<nat>, original: seq<Line>, a: seq<LineEdit>, b: seq<LineEdit>, blank: Line -> bool)
    requires OnlySpansGone(left, original, a, blank) && forall e :: e in a <==> e in b
    ensures OnlySpansGone(left, original, b, blank)
  {
    forall i: nat | i < |original|
      ensures (i in left ==> !exists e :: e in b && Covers(e, i)) &&
        (i !in left && !blank(original[i]) ==> exists e :: e in b && Covers(e, i))
    {
      assert (exists e :: e in a && Covers(e, i)) <==> exists e :: e in b && Covers(e, i);
    }
  }

  // INSERT

  /** A rendered row, the line after which it goes, and its place in VALUES. */
  datatype Insertion = Insertion(at: nat, row: nat, text: Line)

  function PlaceOf(): Insertion -> (nat, nat) { (x: Insertion) => (x.at, x.row) }

  /** Where a line of the new file comes from. */
  datatype Mark = Original(i: nat) | New(x: Insertion) | Pad

  function NoPads(marks: seq<Mark>): seq<Mark> {
    if |marks| == 0 then [] else (if marks[0].Pad? then [] else [marks[0]]) + NoPads(marks[1..])
  }

  lemma {:induction false} NoPadsConcat(a: seq<Mark>, b: seq<Mark>)
    ensures NoPads(a + b) == NoPads(a) + NoPads(b)
  {
    if |a| == 0 {
      assert a + b == b;
    } else {
      assert (a + b)[1..] == a[1..] + b && (a + b)[0] == a[0];
      NoPadsConcat(a[1..], b);
      Regroup(if a[0].Pad? then [] else [a[0]], NoPads(a[1..]), NoPads(b));
    }
  }

  /** The insertions at line `p`, the last one processed first. */
  function NewAt(done: seq<Insertion>, p: nat): seq<Mark> {
    if |done| == 0 then []
    else
      var x := done[|done| - 1];
      (if x.at == p then [New(x)] else []) + NewAt(done[..|done| - 1], p)
  }

  /** From line `p` on: the rows inserted there, the original line, and so on. */
  function Layout(n: nat, done: seq<Insertion>, p: nat): seq<Mark>
    requires p <= n
    decreases n - p
  {
    NewAt(done, p) + (if p < n then [Original(p)] + Layout(n, done, p + 1) else [])
  }

  function Originals(i: nat, j: nat): (m: seq<Mark>)
    requires i <= j
    ensures |m| == j - i
  {
    seq(j - i, k requires 0 <= k < j - i => Original(i + k))
  }

  lemma {:induction false} NewAtNone(done: seq<Insertion>, p: nat)
    requires forall x | x in done :: x.at != p
    ensures NewAt(done, p) == []
  {
    if |done| > 0 {
      assert done[|done| - 1] in done;
      NewAtNone(done[..|done| - 1], p);
    }
  }

  lemma {:induction false} LayoutAbove(n: nat, done: seq<Insertion>, p: nat, a: nat)
    requires p <= a <= n && forall x | x in done :: x.at >= a
    ensures Layout(n, done, p) == Originals(p, a) + Layout(n, done, a)
    decreases a - p
  {
    if p < a {
      NewAtNone(done, p);
      LayoutAbove(n, done, p + 1, a);
      assert Originals(p, a) == [Original(p)] + Originals(p + 1, a);
    } else {
      assert Originals(p, a) == [];
    }
  }

  lemma {:induction false} LayoutBelow(n: nat, done: seq<Insertion>, x: Insertion, p: nat)
    requires x.at < p <= n
    ensures Layout(n, done + [x], p) == Layout(n, done, p)
    decreases n - p
  {
    assert (done + [x])[..|done|] == done;
    if p < n {
      LayoutBelow(n, done, x, p + 1);
    }
  }

  lemma {:induction false} LayoutStep(n: nat, done: seq<Insertion>, x: Insertion)
    requires x.at <= n && forall y | y in done :: y.at >= x.at
    ensures Layout(n, done, 0) == Originals(0, x.at) + Layout(n, done, x.at)
    ensures Layout(n, done + [x], 0) == Originals(0, x.at) + [New(x)] + Layout(n, done, x.at)
  {
    hide Layout, Originals;
    LayoutAbove(n, done, 0, x.at);
    LayoutAbove(n, done + [x], 0, x.at);
    LayoutHere(n, done, x);
  }

  lemma {:induction false} LayoutHere(n: nat, done: seq<Insertion>, x: Insertion)
    requires x.at <= n
    ensures Layout(n, done + [x], x.at) == [New(x)] + Layout(n, done, x.at)
  {
    assert (done + [x])[..|done|] == done;
    assert NewAt(done + [x], x.at) == [New(x)] + NewAt(done, x.at);
    if x.at < n {
      LayoutBelow(n, done, x, x.at + 1);
    }
  }

  /** Each mark tells where its line comes from. */
  ghost predicate Marked(marks: seq<Mark>, lines: seq<Line>, original: seq<Line>) {
    |marks| == |lines| &&
    forall k | 0 <= k < |lines| ::
      match marks[k]
      case Original(i) => i < |original| && lines[k] == original[i]
      case New(x) => lines[k] == x.text
      case Pad => lines[k] == ""
  }

  function OnlyOriginals(marks: seq<Mark>): seq<Mark> {
    if |marks| == 0 then [] else (if marks[0].Original? then [marks[0]] else []) + OnlyOriginals(marks[1..])
  }

  lemma {:induction false} OnlyOriginalsConcat(a: seq<Mark>, b: seq<Mark>)
    ensures OnlyOriginals(a + b) == OnlyOriginals(a) + OnlyOriginals(b)
  {
    if |a| == 0 {
      assert a + b == b;
    } else {
      assert (a + b)[1..] == a[1..] + b && (a + b)[0] == a[0];
      OnlyOriginalsConcat(a[1..], b);
      Regroup(if a[0].Original? then [a[0]] else [], OnlyOriginals(a[1..]), OnlyOriginals(b));
    }
  }

  lemma {:induction false} NoOriginals(marks: seq<Mark>)
    requires forall m | m in marks :: !m.Original?
    ensures OnlyOriginals(marks) == []
  {
    if |marks| > 0 {
      assert marks[0] in marks;
      NoOriginals(marks[1..]);
    }
  }

  lemma {:induction false} AllOriginals(i: nat, j: nat)
    requires i <= j
    ensures OnlyOriginals(Originals(i, j)) == Originals(i, j)
    decreases j - i
  {
    if i < j {
      AllOriginals(i + 1, j);
      assert Originals(i, j)[1..] == Originals(i + 1, j);
      assert Originals(i, j) == [Original(i)] + Originals(i + 1, j);
    }
  }

  lemma OriginalsStay(marks: seq<Mark>, at: nat, newMarks: seq<Mark>)
    requires at <= |marks| && forall m | m in newMarks :: !m.Original?
    ensures OnlyOriginals(marks[..at] + newMarks + marks[at..]) == OnlyOriginals(marks)
  {
    hide OnlyOriginals;
    assert marks == marks[..at] + marks[at..];
    NoOriginals(newMarks);
    OnlyOriginalsConcat(marks[..at], marks[at..]);
    OnlyOriginalsConcat(marks[..at] + newMarks, marks[at..]);
    OnlyOriginalsConcat(marks[..at], newMarks);
  }

  /** An inserted row and the line next to it are not both written on. */
  ghost predicate Separated(marks: seq<Mark>, lines: seq<Line>, blank: Line -> bool) {
    |marks| == |lines| &&
    forall i, j | 0 <= i < j == i + 1 < |lines| && (marks[i].New? || marks[j].New?) :: blank(lines[i]) || blank(lines[j])
  }

  function Padding(needed: bool): seq<Line> { if needed then [""] else [] }

  function PaddingMark(needed: bool): seq<Mark> { if needed then [Pad] else [] }

  predicate LeadingBlank(lines: seq<Line>, at: nat, blank: Line -> bool)
    requires at <= |lines|
  {
    at > 0 && !blank(lines[at - 1])
  }

  predicate TrailingBlank(lines: seq<Line>, at: nat, blank: Line -> bool)
    requires at <= |lines|
  {
    at < |lines| && !blank(lines[at])
  }

  /** The lines after one insertion; a place beyond the end is the end. */
  function Inserted(lines: seq<Line>, x: Insertion, blank: Line -> bool): seq<Line> {
    var at := if x.at <= |lines| then x.at else |lines|;
    lines[..at] + (Padding(LeadingBlank(lines, at, blank)) + [x.text] + Padding(TrailingBlank(lines, at, blank))) + lines[at..]
  }

  function Spliced(lines: seq<Line>, xs: seq<Insertion>, blank: Line -> bool): seq<Line> {
    if |xs| == 0 then lines else Inserted(Spliced(lines, xs[..|xs| - 1], blank), xs[|xs| - 1], blank)
  }

  /** Where the lines after one insertion come from. */
  function MarksInserted(lines: seq<Line>, marks: seq<Mark>, x: Insertion, blank: Line -> bool): (m: seq<Mark>)
    requires |marks| == |lines|
    ensures |m| == |Inserted(lines, x, blank)|
  {
    var at := if x.at <= |lines| then x.at else |lines|;
    marks[..at] + (PaddingMark(LeadingBlank(lines, at, blank)) + [New(x)] + PaddingMark(TrailingBlank(lines, at, blank))) + marks[at..]
  }

  function MarksSpliced(lines: seq<Line>, xs: seq<Insertion>, blank: Line -> bool): (m: seq<Mark>)
    ensures |m| == |Spliced(lines, xs, blank)|
  {
    if |xs| == 0 then Originals(0, |lines|)
    else MarksInserted(Spliced(lines, xs[..|xs| - 1], blank), MarksSpliced(lines, xs[..|xs| - 1], blank), xs[|xs| - 1], blank)
  }

  lemma SplicedOneMore(lines: seq<Line>, xs: seq<Insertion>, k: nat, blank: Line -> bool)
    requires k < |xs|
    ensures Spliced(lines, xs[..k + 1], blank) == Inserted(Spliced(lines, xs[..k], blank), xs[k], blank)
    ensures MarksSpliced(lines, xs[..k + 1], blank) ==
      MarksInserted(Spliced(lines, xs[..k], blank), MarksSpliced(lines, xs[..k], blank), xs[k], blank)
  {
    hide Inserted, MarksInserted;
    assert xs[..k + 1][..k] == xs[..k];
  }

  lemma SeparatedPart(marks: seq<Mark>, lines: seq<Line>, i: nat, j: nat, blank: Line -> bool)
    requires Separated(marks, lines, blank) && i <= j <= |lines|
    ensures Separated(marks[i..j], lines[i..j], blank)
  {
    var (m, l) := (marks[i..j], lines[i..j]);
    forall a, b | 0 <= a < b == a + 1 < |l| && (m[a].New? || m[b].New?) ensures blank(l[a]) || blank(l[b]) {
      var (x, y) := (a + i, b + i);
      assert m[a] == marks[x] && m[b] == marks[y] && l[a] == lines[x] && l[b] == lines[y];
    }
  }

  /** Two stretches that meet at a blank line, or at no row. */
  lemma SeparatedJoin(m1: seq<Mark>, l1: seq<Line>, m2: seq<Mark>, l2: seq<Line>, blank: Line -> bool)
    requires Separated(m1, l1, blank) && Separated(m2, l2, blank)
    requires l1 != [] && l2 != [] ==> blank(l1[|l1| - 1]) || blank(l2[0])
    ensures Separated(m1 + m2, l1 + l2, blank)
  {
    var (m, l, n) := (m1 + m2, l1 + l2, |l1|);
    forall a, b | 0 <= a < b == a + 1 < |l| && (m[a].New? || m[b].New?) ensures blank(l[a]) || blank(l[b]) {
      if b < n {
        assert m[a] == m1[a] && m[b] == m1[b];
      } else if a >= n {
        var (x, y) := (a - n, b - n);
        assert m[a] == m2[x] && m[b] == m2[y] && l[a] == l2[x] && l[b] == l2[y];
      }
    }
  }

  /** What one insertion does to the marks. */
  lemma InsertedMarks(original: seq<Line>, lines: seq<Line>, marks: seq<Mark>, x: Insertion, blank: Line -> bool)
      returns (at: nat, newMarks: seq<Mark>)
    requires Marked(marks, lines, original) && Separated(marks, lines, blank) && blank("")
    ensures |marks| == |lines| && at == if x.at <= |lines| then x.at else |lines|
    ensures var m := marks[..at] + newMarks + marks[at..];
      Marked(m, Inserted(lines, x, blank), original) && Separated(m, Inserted(lines, x, blank), blank) &&
      OnlyOriginals(m) == OnlyOriginals(marks)
    ensures newMarks == [New(x)] || newMarks == [New(x), Pad] || newMarks == [Pad, New(x)] || newMarks == [Pad, New(x), Pad]
    ensures MarksInserted(lines, marks, x, blank) == marks[..at] + newMarks + marks[at..]
    ensures exists l :: Marked(newMarks, l, original) && Inserted(lines, x, blank) == lines[..at] + l + lines[at..]
  {
    hide OnlyOriginals, Separated, LeadingBlank, TrailingBlank;
    at := if x.at <= |lines| then x.at else |lines|;
    var (lead, trail) := (LeadingBlank(lines, at, blank), TrailingBlank(lines, at, blank));
    newMarks := PaddingMark(lead) + [New(x)] + PaddingMark(trail);
    var l := Padding(lead) + [x.text] + Padding(trail);
    assert Marked(newMarks, l, original);
    MarkedSplice(original, lines, marks, at, l, newMarks);
    OriginalsStay(marks, at, newMarks);
    SeparatedInserted(lines, marks, at, x, blank);
  }

  lemma SeparatedInserted(lines: seq<Line>, marks: seq<Mark>, at: nat, x: Insertion, blank: Line -> bool)
    requires |marks| == |lines| && Separated(marks, lines, blank) && at <= |lines| && blank("")
    ensures var (lead, trail) := (LeadingBlank(lines, at, blank), TrailingBlank(lines, at, blank));
      Separated(marks[..at] + (PaddingMark(lead) + [New(x)] + PaddingMark(trail)) + marks[at..],
                lines[..at] + (Padding(lead) + [x.text] + Padding(trail)) + lines[at..], blank)
  {
    hide Separated, LeadingBlank, TrailingBlank, Padding, PaddingMark;
    var (lead, trail) := (LeadingBlank(lines, at, blank), TrailingBlank(lines, at, blank));
    var (m, l) := (PaddingMark(lead) + [New(x)] + PaddingMark(trail), Padding(lead) + [x.text] + Padding(trail));
    SeparatedPart(marks, lines, 0, at, blank);
    SeparatedPart(marks, lines, at, |lines|, blank);
    OneSeparated(x, lead, trail, blank);
    assert marks[at..|lines|] == marks[at..] && lines[at..|lines|] == lines[at..];
    PaddedMeets(lines, at, x, blank);
    SeparatedJoin(marks[..at], lines[..at], m, l, blank);
    SeparatedJoin(marks[..at] + m, lines[..at] + l, marks[at..], lines[at..], blank);
  }

  lemma PaddedMeets(lines: seq<Line>, at: nat, x: Insertion, blank: Line -> bool)
    requires at <= |lines| && blank("")
    ensures var l := Padding(LeadingBlank(lines, at, blank)) + [x.text] + Padding(TrailingBlank(lines, at, blank));
      |l| > 0 && (at > 0 ==> blank(lines[at - 1]) || blank(l[0])) && (at < |lines| ==> blank(l[|l| - 1]) || blank(lines[at]))
  {
  }

  lemma OneSeparated(x: Insertion, lead: bool, trail: bool, blank: Line -> bool)
    requires blank("")
    ensures Separated(PaddingMark(lead) + [New(x)] + PaddingMark(trail), Padding(lead) + [x.text] + Padding(trail), blank)
  {
  }

  /** Line `k` stands between written lines. */
  predicate Between(lines: seq<Line>, k: nat, blank: Line -> bool) {
    0 < k < |lines| - 1 && !blank(lines[k - 1]) && !blank(lines[k + 1])
  }

  /** Every line added besides the rows stands between two written lines. */
  ghost predicate NeededPads(marks: seq<Mark>, lines: seq<Line>, blank: Line -> bool) {
    |marks| == |lines| &&
    forall k | 0 <= k < |lines| && marks[k].Pad? ::
      lines[k] == "" && Between(lines, k, blank)
  }

  /** What stands between written lines still does, if `mid` goes in beside it with a written line there. */
  lemma BetweenBefore(lines: seq<Line>, at: nat, mid: seq<Line>, k: nat, blank: Line -> bool)
    requires k < at <= |lines| && |mid| > 0 && Between(lines, k, blank) && (k + 1 == at ==> !blank(mid[0]))
    ensures Between(lines[..at] + mid + lines[at..], k, blank) && (lines[..at] + mid + lines[at..])[k] == lines[k]
  {
    var l := lines[..at] + mid + lines[at..];
    assert l[k - 1] == lines[k - 1] && l[k + 1] == if k + 1 < at then lines[k + 1] else mid[0];
  }

  lemma BetweenAfter(lines: seq<Line>, at: nat, mid: seq<Line>, k: nat, blank: Line -> bool)
    requires at <= k < |lines| && |mid| > 0 && Between(lines, k, blank) && (k == at ==> !blank(mid[|mid| - 1]))
    ensures Between(lines[..at] + mid + lines[at..], k + |mid|, blank)
    ensures (lines[..at] + mid + lines[at..])[k + |mid|] == lines[k]
  {
    var (l, n) := (lines[..at] + mid + lines[at..], |mid|);
    assert l[k + n + 1] == lines[k + 1] && l[k + n - 1] == if k > at then lines[k - 1] else mid[n - 1];
  }

  /** The padding of a row stands between it and the written line it is for. */
  lemma BetweenNew(lines: seq<Line>, at: nat, x: Insertion, k: nat, blank: Line -> bool)
    requires at <= |lines| && !blank(x.text)
    requires var (lead, trail) := (LeadingBlank(lines, at, blank), TrailingBlank(lines, at, blank));
      k < |Padding(lead) + [x.text] + Padding(trail)| && (PaddingMark(lead) + [New(x)] + PaddingMark(trail))[k].Pad?
    ensures var mid := Padding(LeadingBlank(lines, at, blank)) + [x.text] + Padding(TrailingBlank(lines, at, blank));
      mid[k] == "" && Between(lines[..at] + mid + lines[at..], at + k, blank)
  {
    var lead := LeadingBlank(lines, at, blank);
    var mid := Padding(lead) + [x.text] + Padding(TrailingBlank(lines, at, blank));
    var l := lines[..at] + mid + lines[at..];
    if lead && k == 0 {
      assert l[at + 1] == x.text && l[at - 1] == lines[at - 1];
    } else {
      assert k == |mid| - 1 && l[at + k - 1] == x.text && l[at + k + 1] == lines[at];
    }
  }

  lemma PadStays(lines: seq<Line>, marks: seq<Mark>, at: nat, mid: seq<Line>, midMarks: seq<Mark>, k: nat, blank: Line -> bool)
    requires NeededPads(marks, lines, blank) && at <= |lines| && |midMarks| == |mid| > 0
    requires at > 0 && marks[at - 1].Pad? ==> !blank(mid[0])
    requires at < |lines| && marks[at].Pad? ==> !blank(mid[|mid| - 1])
    requires k < |lines| + |mid| && !(at <= k < at + |mid|) && (marks[..at] + midMarks + marks[at..])[k].Pad?
    ensures var l := lines[..at] + mid + lines[at..]; l[k] == "" && Between(l, k, blank)
  {
    hide Between;
    var n := |mid|;
    if k < at {
      assert (marks[..at] + midMarks + marks[at..])[k] == marks[k];
      BetweenBefore(lines, at, mid, k, blank);
    } else {
      assert (marks[..at] + midMarks + marks[at..])[k] == marks[k - n];
      BetweenAfter(lines, at, mid, k - n, blank);
    }
  }

  /** A row goes beside a blank line without padding there. */
  lemma RowAtPad(lines: seq<Line>, at: nat, x: Insertion, blank: Line -> bool)
    requires at <= |lines| && !blank(x.text)
    ensures var mid := Padding(LeadingBlank(lines, at, blank)) + [x.text] + Padding(TrailingBlank(lines, at, blank));
      |mid| > 0 && (at > 0 && blank(lines[at - 1]) ==> !blank(mid[0])) && (at < |lines| && blank(lines[at]) ==> !blank(mid[|mid| - 1]))
  {
  }

  lemma PadInserted(lines: seq<Line>, marks: seq<Mark>, x: Insertion, blank: Line -> bool)
    requires NeededPads(marks, lines, blank) && blank("") && !blank(x.text)
    ensures NeededPads(MarksInserted(lines, marks, x, blank), Inserted(lines, x, blank), blank)
  {
    hide Between, Padding, PaddingMark, LeadingBlank, TrailingBlank;
    var at := if x.at <= |lines| then x.at else |lines|;
    var (lead, trail) := (LeadingBlank(lines, at, blank), TrailingBlank(lines, at, blank));
    var (m, l) := (MarksInserted(lines, marks, x, blank), Inserted(lines, x, blank));
    var (mid, midMarks) := (Padding(lead) + [x.text] + Padding(trail), PaddingMark(lead) + [New(x)] + PaddingMark(trail));
    SameSize(lead, x, trail);
    RowAtPad(lines, at, x, blank);
    forall k | 0 <= k < |l| && m[k].Pad? ensures l[k] == "" && Between(l, k, blank) {
      if at <= k < at + |mid| {
        assert m[k] == midMarks[k - at] && l[k] == mid[k - at];
        BetweenNew(lines, at, x, k - at, blank);
      } else {
        PadStays(lines, marks, at, mid, midMarks, k, blank);
      }
    }
  }

  lemma SameSize(lead: bool, x: Insertion, trail: bool)
    ensures |Padding(lead) + [x.text] + Padding(trail)| == |PaddingMark(lead) + [New(x)] + PaddingMark(trail)|
  {
  }

  lemma {:induction false} PadsAreNeeded(original: seq<Line>, xs: seq<Insertion>, blank: Line -> bool)
    requires blank("") && forall x | x in xs :: !blank(x.text)
    ensures NeededPads(MarksSpliced(original, xs, blank), Spliced(original, xs, blank), blank)
  {
    if |xs| > 0 {
      hide NeededPads, Inserted, MarksInserted;
      var n := |xs| - 1;
      PadsAreNeeded(original, xs[..n], blank);
      PadInserted(Spliced(original, xs[..n], blank), MarksSpliced(original, xs[..n], blank), xs[n], blank);
    }
  }

  predicate InFile(xs: seq<Insertion>, n: nat) { forall x | x in xs :: x.at <= n }

  /** The body of the loop. */
  method InsertRow(lines: seq<Line>, x: Insertion, blank: Line -> bool) returns (r: seq<Line>)
    ensures r == Inserted(lines, x, blank)
  {
    var at := if x.at <= |lines| then x.at else |lines|;
    var needsLeading := at > 0 && !blank(lines[at - 1]);
    var needsTrailing := at < |lines| && !blank(lines[at]);
    var newLines := [x.text];
    if needsTrailing {
      newLines := newLines + [""];
    }
    if needsLeading {
      newLines := [""] + newLines;
    }
    assert newLines == Padding(needsLeading) + [x.text] + Padding(needsTrailing);
    r := lines[..at] + newLines + lines[at..];
  }

  /** The insertion loop, bottom up: the original lines survive in their order, nothing
      but blank lines is added to the rows, no row touches written lines, and unless rows
      are blank themselves, blank lines are added only where written ones would touch. If all
      rows go inside the file, every row stands at its line, and rows at the same line
      stand in VALUES order. `blank` is the test `trim().is_empty()`. */
  method SpliceInsertions(original: seq<Line>, insertions: seq<Insertion>, blank: Line -> bool)
      returns (lines: seq<Line>, ghost marks: seq<Mark>)
    requires blank("")
    ensures lines == Spliced(original, SortedDown(insertions, PlaceOf()), blank)
    ensures marks == MarksSpliced(original, SortedDown(insertions, PlaceOf()), blank)
    ensures Marked(marks, lines, original) && Separated(marks, lines, blank)
    ensures OnlyOriginals(marks) == Originals(0, |original|)
    ensures (forall x | x in insertions :: !blank(x.text)) ==> NeededPads(marks, lines, blank)
    ensures InFile(insertions, |original|) ==> NoPads(marks) == Layout(|original|, SortedDown(insertions, PlaceOf()), 0)
  {
    hide NeededPads, Layout, SortedDown, NoPads, NewAt, Untouched, Originals, Descending, Higher, Spliced, OnlyOriginals, Separated, Inserted, Marked;
    hide MarksSpliced, MarksInserted;
    var sorted := SortedDown(insertions, PlaceOf());
    SortedDownIs(insertions, PlaceOf());
    lines := original;
    marks := Originals(0, |original|);
    StartSplicing(original, sorted, blank);
    for k := 0 to |sorted|
      invariant lines == Spliced(original, sorted[..k], blank) && marks == MarksSpliced(original, sorted[..k], blank)
      invariant Marked(marks, lines, original) && Separated(marks, lines, blank)
      invariant OnlyOriginals(marks) == Originals(0, |original|)
      invariant InFile(sorted, |original|) ==>
        NoPads(marks) == Layout(|original|, sorted[..k], 0) && Untouched(marks, sorted[k..])
    {
      var x := sorted[k];
      assert x in sorted;
      ghost var at, newMarks := InsertedMarks(original, lines, marks, x, blank);
      SplicedOneMore(original, sorted, k, blank);
      if InFile(sorted, |original|) {
        ghost var l :| Marked(newMarks, l, original) && Inserted(lines, x, blank) == lines[..at] + l + lines[at..];
        OneNew(newMarks, x);
        InsertStep(original, lines, marks, sorted, k, l, newMarks);
        assert sorted[..k + 1] == sorted[..k] + [x];
      }
      lines := InsertRow(lines, x, blank);
      marks := marks[..at] + newMarks + marks[at..];
    }
    assert sorted[..|sorted|] == sorted;
    if forall x | x in insertions :: !blank(x.text) {
      PadsAreNeeded(original, sorted, blank);
    }
  }

  lemma StartSplicing(original: seq<Line>, sorted: seq<Insertion>, blank: Line -> bool)
    ensures Spliced(original, sorted[..0], blank) == original
    ensures MarksSpliced(original, sorted[..0], blank) == Originals(0, |original|)
    ensures Marked(Originals(0, |original|), original, original) && Separated(Originals(0, |original|), original, blank)
    ensures OnlyOriginals(Originals(0, |original|)) == Originals(0, |original|)
    ensures InFile(sorted, |original|) ==>
      NoPads(Originals(0, |original|)) == Layout(|original|, sorted[..0], 0) && Untouched(Originals(0, |original|), sorted[0..])
  {
    hide Layout, NoPads, Untouched;
    AllOriginals(0, |original|);
    assert sorted[0..] == sorted && sorted[..0] == [];
    if InFile(sorted, |original|) {
      StartLayout(|original|, sorted);
    }
  }

  // Rows at the same place

  predicate AtPlace(m: Mark, p: nat) { m.New? && m.x.at == p }

  /** The rows at place `p` stand in VALUES order. */
  ghost predicate InValuesOrder(marks: seq<Mark>, p: nat) {
    forall i, j | 0 <= i < j < |marks| && AtPlace(marks[i], p) && AtPlace(marks[j], p) :: marks[i].x.row <= marks[j].x.row
  }

  predicate NoneAt(marks: seq<Mark>, p: nat) { forall m | m in marks :: !AtPlace(m, p) }

  lemma StaysOutOfOrder(a: seq<Mark>, n: seq<Mark>, b: seq<Mark>, p: nat)
    requires !InValuesOrder(a + b, p)
    ensures !InValuesOrder(a + n + b, p)
  {
    var (was, now) := (a + b, a + n + b);
    var i, j :| 0 <= i < j < |was| && AtPlace(was[i], p) && AtPlace(was[j], p) && was[i].x.row > was[j].x.row;
    var x := if i < |a| then i else i + |n|;
    var y := if j < |a| then j else j + |n|;
    assert now[x] == was[i] && now[y] == was[j] && x < y;
  }

  lemma OthersKeepOrder(a: seq<Mark>, n: seq<Mark>, b: seq<Mark>, p: nat)
    requires InValuesOrder(a + b, p) && NoneAt(n, p)
    ensures InValuesOrder(a + n + b, p)
  {
    var (was, now) := (a + b, a + n + b);
    forall i | |a| <= i < |a| + |n| ensures !AtPlace(now[i], p) {
      assert now[i] == n[i - |a|];
    }
    forall i, j | 0 <= i < j < |now| && AtPlace(now[i], p) && AtPlace(now[j], p) ensures now[i].x.row <= now[j].x.row {
      var x := if i < |a| then i else i - |n|;
      var y := if j < |a| then j else j - |n|;
      assert was[x] == now[i] && was[y] == now[j];
    }
  }

  /** A row put before all others of its place, and no later one in VALUES, keeps the order. */
  lemma FrontKeepsOrder(a: seq<Mark>, b: seq<Mark>, lead: bool, trail: bool, x: Insertion)
    requires InValuesOrder(a + b, x.at) && NoneAt(a, x.at)
    requires forall m | m in b && AtPlace(m, x.at) :: x.row <= m.x.row
    ensures InValuesOrder(a + (PaddingMark(lead) + [New(x)] + PaddingMark(trail)) + b, x.at)
  {
    var (n, at) := (PaddingMark(lead) + [New(x)] + PaddingMark(trail), x.at);
    var (was, now) := (a + b, a + n + b);
    forall i | 0 <= i < |a| ensures !AtPlace(now[i], at) {
      assert now[i] == a[i] && a[i] in a;
    }
    forall i, j | 0 <= i < j < |now| && AtPlace(now[i], at) && AtPlace(now[j], at) ensures now[i].x.row <= now[j].x.row {
      if j >= |a| + |n| {
        assert now[j] == b[j - |a| - |n|] && now[j] in b && now[j] == was[j - |n|];
        if i >= |a| + |n| {
          assert now[i] == was[i - |n|];
        }
      }
    }
  }

  lemma {:induction false} NewComeFrom(lines: seq<Line>, xs: seq<Insertion>, blank: Line -> bool)
    ensures forall m | m in MarksSpliced(lines, xs, blank) && m.New? :: m.x in xs
  {
    hide Spliced, LeadingBlank, TrailingBlank;
    if |xs| > 0 {
      var n := |xs| - 1;
      NewComeFrom(lines, xs[..n], blank);
      assert xs == xs[..n] + [xs[n]] && xs[n] in xs;
      var (before, was) := (Spliced(lines, xs[..n], blank), MarksSpliced(lines, xs[..n], blank));
      var at := if xs[n].at <= |before| then xs[n].at else |before|;
      assert was == was[..at] + was[at..];
    }
  }

  /** Bottom-up order, with every row of VALUES once. */
  ghost predicate Queued(sorted: seq<Insertion>) {
    Descending(sorted, PlaceOf()) && forall i, j | 0 <= i < j < |sorted| :: sorted[i].at != sorted[j].at || sorted[i].row != sorted[j].row
  }

  lemma SortedIsQueued(xs: seq<Insertion>)
    requires forall i, j | 0 <= i < j < |xs| :: xs[i].at != xs[j].at || xs[i].row != xs[j].row
    ensures Queued(SortedDown(xs, PlaceOf()))
  {
    hide SortedDown, Descending;
    var sorted := SortedDown(xs, PlaceOf());
    SortedDownIs(xs, PlaceOf());
    forall i, j | 0 <= i < j < |sorted| ensures sorted[i].at != sorted[j].at || sorted[i].row != sorted[j].row {
      var a, b := TwoSources(sorted, xs, i, j);
      var (x, y) := (if a < b then a else b, if a < b then b else a);
      assert xs[x].at != xs[y].at || xs[x].row != xs[y].row;
    }
  }

  lemma QueuedDown(sorted: seq<Insertion>, i: nat, j: nat)
    requires Queued(sorted) && i < j < |sorted|
    ensures sorted[i].at > sorted[j].at || (sorted[i].at == sorted[j].at && sorted[i].row > sorted[j].row)
  {
    assert !Higher(PlaceOf()(sorted[j]), PlaceOf()(sorted[i]));
  }

  /** The rows of a place are the ones from `k` on that have it. */
  ghost predicate GroupAt(sorted: seq<Insertion>, k: nat) {
    Queued(sorted) && k + 1 < |sorted| && sorted[k].at == sorted[k + 1].at && (k > 0 ==> sorted[k - 1].at != sorted[k].at)
  }

  lemma NoneYet(lines: seq<Line>, sorted: seq<Insertion>, k: nat, blank: Line -> bool)
    requires GroupAt(sorted, k)
    ensures NoneAt(MarksSpliced(lines, sorted[..k], blank), sorted[k].at)
  {
    hide MarksSpliced, Queued;
    NewComeFrom(lines, sorted[..k], blank);
    forall x | x in sorted[..k] ensures x.at != sorted[k].at {
      var i :| 0 <= i < k && sorted[i] == x;
      QueuedDown(sorted, k - 1, k);
      if i < k - 1 {
        QueuedDown(sorted, i, k - 1);
      }
    }
  }

  /** After `t` insertions the place's rows are in order, and the next one goes before them. */
  ghost predicate InOrderSoFar(lines: seq<Line>, sorted: seq<Insertion>, p: nat, t: nat, blank: Line -> bool)
    requires t <= |sorted|
  {
    var m := MarksSpliced(lines, sorted[..t], blank);
    InValuesOrder(m, p) && (t < |sorted| && sorted[t].at == p ==> p <= |m| && NoneAt(m[..p], p))
  }

  lemma InOrderStep(lines: seq<Line>, sorted: seq<Insertion>, p: nat, t: nat, blank: Line -> bool)
    requires Queued(sorted) && t < |sorted| && sorted[t].at <= p && InOrderSoFar(lines, sorted, p, t, blank)
    ensures InOrderSoFar(lines, sorted, p, t + 1, blank)
  {
    hide MarksSpliced, Spliced, InValuesOrder, Queued, LeadingBlank, TrailingBlank;
    var (l, m, x) := (Spliced(lines, sorted[..t], blank), MarksSpliced(lines, sorted[..t], blank), sorted[t]);
    SplicedOneMore(lines, sorted, t, blank);
    var at := if x.at <= |l| then x.at else |l|;
    assert m == m[..at] + m[at..];
    if x.at == p {
      RowsBelow(lines, sorted, p, t, blank);
      FrontKeepsOrder(m[..p], m[p..], LeadingBlank(l, p, blank), TrailingBlank(l, p, blank), x);
      assert MarksInserted(l, m, x, blank)[..p] == m[..p];
    } else {
      OthersKeepOrder(m[..at], PaddingMark(LeadingBlank(l, at, blank)) + [New(x)] + PaddingMark(TrailingBlank(l, at, blank)), m[at..], p);
      if t + 1 < |sorted| {
        QueuedDown(sorted, t, t + 1);
      }
    }
  }

  lemma RowsBelow(lines: seq<Line>, sorted: seq<Insertion>, p: nat, t: nat, blank: Line -> bool)
    requires Queued(sorted) && t < |sorted| && sorted[t].at == p
    ensures forall m | m in MarksSpliced(lines, sorted[..t], blank) && AtPlace(m, p) :: sorted[t].row <= m.x.row
  {
    hide MarksSpliced, Queued;
    NewComeFrom(lines, sorted[..t], blank);
    forall x | x in sorted[..t] ensures x.at == p ==> sorted[t].row <= x.row {
      var i :| 0 <= i < t && sorted[i] == x;
      QueuedDown(sorted, i, t);
    }
  }

  lemma {:induction false} InOrderOn(lines: seq<Line>, sorted: seq<Insertion>, p: nat, t: nat, blank: Line -> bool)
    requires Queued(sorted) && t <= |sorted| && InOrderSoFar(lines, sorted, p, t, blank)
    requires forall i | t <= i < |sorted| :: sorted[i].at <= p
    ensures InValuesOrder(MarksSpliced(lines, sorted, blank), p)
    decreases |sorted| - t
  {
    hide MarksSpliced, InValuesOrder, Queued;
    if t < |sorted| {
      InOrderStep(lines, sorted, p, t, blank);
      InOrderOn(lines, sorted, p, t + 1, blank);
    } else {
      assert sorted[..t] == sorted;
    }
  }

  lemma {:induction false} OutOfOrderOn(lines: seq<Line>, sorted: seq<Insertion>, p: nat, t: nat, blank: Line -> bool)
    requires t <= |sorted| && !InValuesOrder(MarksSpliced(lines, sorted[..t], blank), p)
    ensures !InValuesOrder(MarksSpliced(lines, sorted, blank), p)
    decreases |sorted| - t
  {
    hide MarksSpliced, Spliced, InValuesOrder, LeadingBlank, TrailingBlank;
    if t < |sorted| {
      var (l, m, x) := (Spliced(lines, sorted[..t], blank), MarksSpliced(lines, sorted[..t], blank), sorted[t]);
      SplicedOneMore(lines, sorted, t, blank);
      var at := if x.at <= |l| then x.at else |l|;
      assert m == m[..at] + m[at..];
      StaysOutOfOrder(m[..at], PaddingMark(LeadingBlank(l, at, blank)) + [New(x)] + PaddingMark(TrailingBlank(l, at, blank)), m[at..], p);
      OutOfOrderOn(lines, sorted, p, t + 1, blank);
    } else {
      assert sorted[..t] == sorted;
    }
  }

  /** The places at which rows that share one come out in VALUES order: those inside the
      lines there are, and the next one if the last line is written on. */
  predicate KeepsOrder(lines: seq<Line>, p: nat, blank: Line -> bool) {
    p <= |lines| || (p == |lines| + 1 && |lines| > 0 && !blank(lines[|lines| - 1]))
  }

  /** Two or more rows at one place come out in VALUES order exactly if the place keeps
      order among the lines there when the first of them is inserted. */
  lemma PlaceOrderIff(lines: seq<Line>, sorted: seq<Insertion>, k: nat, blank: Line -> bool)
    requires GroupAt(sorted, k) && blank("")
    ensures InValuesOrder(MarksSpliced(lines, sorted, blank), sorted[k].at) <==>
      KeepsOrder(Spliced(lines, sorted[..k], blank), sorted[k].at, blank)
  {
    hide MarksSpliced, Spliced, InValuesOrder, Queued, InOrderSoFar;
    var p := sorted[k].at;
    NoneYet(lines, sorted, k, blank);
    forall i | k <= i < |sorted| ensures sorted[i].at <= p {
      if i > k { QueuedDown(sorted, k, i); }
    }
    var l := Spliced(lines, sorted[..k], blank);
    if p <= |l| {
      InsideStarts(lines, sorted, k, blank);
      InOrderOn(lines, sorted, p, k, blank);
    } else if KeepsOrder(l, p, blank) {
      NextStarts(lines, sorted, k, blank);
      InOrderOn(lines, sorted, p, k + 1, blank);
    } else {
      BeyondReverses(lines, sorted, k, blank);
      OutOfOrderOn(lines, sorted, p, k + 2, blank);
    }
  }

  lemma NoneInOrder(marks: seq<Mark>, p: nat)
    requires NoneAt(marks, p)
    ensures InValuesOrder(marks, p)
  {
    forall i | 0 <= i < |marks| ensures !AtPlace(marks[i], p) {
      assert marks[i] in marks;
    }
  }

  lemma InsideStarts(lines: seq<Line>, sorted: seq<Insertion>, k: nat, blank: Line -> bool)
    requires GroupAt(sorted, k) && sorted[k].at <= |Spliced(lines, sorted[..k], blank)|
    ensures InOrderSoFar(lines, sorted, sorted[k].at, k, blank)
  {
    hide MarksSpliced, InValuesOrder, Queued;
    NoneYet(lines, sorted, k, blank);
    NoneInOrder(MarksSpliced(lines, sorted[..k], blank), sorted[k].at);
  }

  /** The first of them goes to the end, and a place beyond the end is cut to it. */
  lemma FirstAtEnd(lines: seq<Line>, sorted: seq<Insertion>, k: nat, blank: Line -> bool)
    requires GroupAt(sorted, k) && sorted[k].at >= |Spliced(lines, sorted[..k], blank)|
    ensures var (l, m) := (Spliced(lines, sorted[..k], blank), MarksSpliced(lines, sorted[..k], blank));
      var lead := LeadingBlank(l, |l|, blank);
      Spliced(lines, sorted[..k + 1], blank) == l + Padding(lead) + [sorted[k].text] &&
      MarksSpliced(lines, sorted[..k + 1], blank) == m + PaddingMark(lead) + [New(sorted[k])]
  {
    hide MarksSpliced, Spliced, Queued;
    SplicedOneMore(lines, sorted, k, blank);
  }

  lemma NextStarts(lines: seq<Line>, sorted: seq<Insertion>, k: nat, blank: Line -> bool)
    requires GroupAt(sorted, k) && blank("")
    requires var l := Spliced(lines, sorted[..k], blank); sorted[k].at == |l| + 1 && LeadingBlank(l, |l|, blank)
    ensures InOrderSoFar(lines, sorted, sorted[k].at, k + 1, blank)
  {
    hide MarksSpliced, Spliced, Queued;
    var (m, p) := (MarksSpliced(lines, sorted[..k], blank), sorted[k].at);
    NoneYet(lines, sorted, k, blank);
    FirstAtEnd(lines, sorted, k, blank);
    var now := m + [Pad] + [New(sorted[k])];
    assert MarksSpliced(lines, sorted[..k + 1], blank) == now;
    assert now[..p] == m + [Pad];
    forall i | 0 <= i < |m| ensures !AtPlace(now[i], p) {
      assert now[i] == m[i] && m[i] in m;
    }
  }

  lemma BeyondReverses(lines: seq<Line>, sorted: seq<Insertion>, k: nat, blank: Line -> bool)
    requires GroupAt(sorted, k)
    requires !KeepsOrder(Spliced(lines, sorted[..k], blank), sorted[k].at, blank)
    ensures !InValuesOrder(MarksSpliced(lines, sorted[..k + 2], blank), sorted[k].at)
  {
    hide MarksSpliced, Spliced, Queued, InValuesOrder, LeadingBlank, KeepsOrder;
    var (l, l1, m1) := (Spliced(lines, sorted[..k], blank), Spliced(lines, sorted[..k + 1], blank), MarksSpliced(lines, sorted[..k + 1], blank));
    FirstFills(l, sorted[k].at, blank);
    FirstAtEnd(lines, sorted, k, blank);
    SplicedOneMore(lines, sorted, k + 1, blank);
    QueuedDown(sorted, k, k + 1);
    assert m1[|m1| - 1] == New(sorted[k]);
    InsertedAtEnd(l1, m1, sorted[k + 1], blank);
    LastTwoReversed(m1, LeadingBlank(l1, |l1|, blank), sorted[k], sorted[k + 1]);
  }

  lemma InsertedAtEnd(lines: seq<Line>, marks: seq<Mark>, x: Insertion, blank: Line -> bool)
    requires |marks| == |lines| && x.at >= |lines|
    ensures MarksInserted(lines, marks, x, blank) ==
      marks + (PaddingMark(LeadingBlank(lines, |lines|, blank)) + [New(x)] + PaddingMark(false))
  {
    assert marks[..|lines|] == marks && marks[|lines|..] == [];
  }

  /** Past such a place the lines still end after the first row is there. */
  lemma FirstFills(l: seq<Line>, p: nat, blank: Line -> bool)
    requires !KeepsOrder(l, p, blank)
    ensures p > |l| + |Padding(LeadingBlank(l, |l|, blank))|
  {
  }

  lemma LastTwoReversed(marks: seq<Mark>, lead: bool, y: Insertion, x: Insertion)
    requires |marks| > 0 && marks[|marks| - 1] == New(y) && y.at == x.at && y.row > x.row
    ensures !InValuesOrder(marks + (PaddingMark(lead) + [New(x)] + PaddingMark(false)), x.at)
  {
    var m := marks + (PaddingMark(lead) + [New(x)] + PaddingMark(false));
    var (i, j) := (|marks| - 1, |m| - 1);
    assert m[i] == New(y) && m[j] == New(x);
  }

  /** A place beyond the end of the file, from spans older than the file, is cut to the
      end: then two rows at the same place come out in reverse. */
  lemma StalePlaceReverses(blank: Line -> bool, first: Line, second: Line)
    requires blank("") && !blank("a") && !blank(second)
    ensures Spliced(["a"], SortedDown([Insertion(5, 0, first), Insertion(5, 1, second)], PlaceOf()), blank) ==
      ["a", "", second, "", first]
  {
    var x, y := Insertion(5, 0, first), Insertion(5, 1, second);
    assert SortedDown([x, y], PlaceOf()) == [y, x] by {
      assert [x, y][1..] == [y] && [y][1..] == [];
      assert SortedDown([], PlaceOf()) == [] && Placed(y, [], PlaceOf()) == [y];
      assert SortedDown([y], PlaceOf()) == [y];
      assert Higher(PlaceOf()(y), PlaceOf()(x));
      assert Placed(x, [y], PlaceOf()) == [y] + Placed(x, [], PlaceOf());
      assert SortedDown([x, y], PlaceOf()) == Placed(x, SortedDown([y], PlaceOf()), PlaceOf());
    }
    assert [y, x][..1] == [y] && [y][..0] == [];
    assert Spliced(["a"], [], blank) == ["a"];
    assert Spliced(["a"], [y], blank) == ["a", "", second];
  }

  lemma {:induction false} OneNew(marks: seq<Mark>, x: Insertion)
    requires marks == [New(x)] || marks == [New(x), Pad] || marks == [Pad, New(x)] || marks == [Pad, New(x), Pad]
    ensures NoPads(marks) == [New(x)]
  {
    assert NoPads([Pad]) == [] by { assert [Pad][1..] == []; }
    assert NoPads([New(x)]) == [New(x)] by { assert [New(x)][1..] == []; }
    assert NoPads([New(x), Pad]) == [New(x)] by { assert [New(x), Pad][1..] == [Pad]; }
    assert NoPads([Pad, New(x)]) == [New(x)] by { assert [Pad, New(x)][1..] == [New(x)]; }
    assert NoPads([Pad, New(x), Pad]) == [New(x)] by { assert [Pad, New(x), Pad][1..] == [New(x), Pad]; }
  }

  lemma {:induction false} OriginalsHaveNoPads(i: nat, j: nat)
    requires i <= j
    ensures NoPads(Originals(i, j)) == Originals(i, j)
    decreases j - i
  {
    if i < j {
      OriginalsHaveNoPads(i + 1, j);
      assert Originals(i, j)[1..] == Originals(i + 1, j);
      assert Originals(i, j) == [Original(i)] + Originals(i + 1, j);
    }
  }

  /** Up to the place of each insertion still to come, the lines are the original ones. */
  ghost predicate Untouched(marks: seq<Mark>, left: seq<Insertion>) {
    forall x | x in left :: x.at <= |marks| && marks[..x.at] == Originals(0, x.at)
  }

  lemma {:induction false} StartLayout(n: nat, all: seq<Insertion>)
    requires forall x | x in all :: x.at <= n
    ensures NoPads(Originals(0, n)) == Layout(n, [], 0)
    ensures Untouched(Originals(0, n), all)
  {
    LayoutAbove(n, [], 0, n);
    OriginalsHaveNoPads(0, n);
    assert Layout(n, [], n) == [];
  }

  lemma MarkedSplice(original: seq<Line>, lines: seq<Line>, marks: seq<Mark>, at: nat, newLines: seq<Line>, newMarks: seq<Mark>)
    requires Marked(marks, lines, original) && Marked(newMarks, newLines, original) && at <= |lines|
    ensures Marked(marks[..at] + newMarks + marks[at..], lines[..at] + newLines + lines[at..], original)
  {
  }

  lemma {:induction false} LayoutSplice(n: nat, marks: seq<Mark>, done: seq<Insertion>, x: Insertion, newMarks: seq<Mark>)
    requires x.at <= n && x.at <= |marks| && marks[..x.at] == Originals(0, x.at) && forall y | y in done :: y.at >= x.at
    requires NoPads(marks) == Layout(n, done, 0) && NoPads(newMarks) == [New(x)]
    ensures NoPads(marks[..x.at] + newMarks + marks[x.at..]) == Layout(n, done + [x], 0)
  {
    hide Layout, NoPads, Originals;
    var at := x.at;
    LayoutStep(n, done, x);
    assert marks == marks[..at] + marks[at..];
    NoPadsConcat(marks[..at], marks[at..]);
    NoPadsConcat(marks[..at] + newMarks, marks[at..]);
    NoPadsConcat(marks[..at], newMarks);
    OriginalsHaveNoPads(0, at);
    var o, c, l := Originals(0, at), NoPads(marks[at..]), Layout(n, done, at);
    assert o + c == o + l;
    assert c == (o + c)[|o|..] && l == (o + l)[|o|..];
    assert o + [New(x)] + c == o + [New(x)] + l;
  }

  lemma OriginalsPrefix(a: nat, b: nat)
    requires a <= b
    ensures Originals(0, b)[..a] == Originals(0, a)
  {
    var x, y := Originals(0, b)[..a], Originals(0, a);
    assert |x| == |y| && forall k | 0 <= k < a :: x[k] == y[k];
  }

  lemma {:induction false} InsertStep(original: seq<Line>, lines: seq<Line>, marks: seq<Mark>, sorted: seq<Insertion>, k: nat,
                   newLines: seq<Line>, newMarks: seq<Mark>)
    requires k < |sorted| && Descending(sorted, PlaceOf()) && forall x | x in sorted :: x.at <= |original|
    requires Marked(marks, lines, original) && NoPads(marks) == Layout(|original|, sorted[..k], 0)
    requires Untouched(marks, sorted[k..])
    requires Marked(newMarks, newLines, original) && NoPads(newMarks) == [New(sorted[k])]
    ensures var at := sorted[k].at;
      var m := marks[..at] + newMarks + marks[at..];
      at <= |lines| && Marked(m, lines[..at] + newLines + lines[at..], original) &&
      NoPads(m) == Layout(|original|, sorted[..k] + [sorted[k]], 0) && Untouched(m, sorted[k + 1..])
  {
    hide Layout, NoPads, Originals;
    var x := sorted[k];
    assert x in sorted[k..] && x in sorted;
    assert |marks| == |lines|;
    MarkedSplice(original, lines, marks, x.at, newLines, newMarks);
    forall y | y in sorted[..k] ensures y.at >= x.at {
      var i :| 0 <= i < k && sorted[i] == y;
      assert !Higher(PlaceOf()(sorted[k]), PlaceOf()(sorted[i]));
    }
    LayoutSplice(|original|, marks, sorted[..k], x, newMarks);
    StillAbove(marks, sorted, k, newMarks);
  }

  lemma StillAbove(marks: seq<Mark>, sorted: seq<Insertion>, k: nat, newMarks: seq<Mark>)
    requires k < |sorted| && Descending(sorted, PlaceOf())
    requires sorted[k].at <= |marks| && marks[..sorted[k].at] == Originals(0, sorted[k].at)
    ensures var m := marks[..sorted[k].at] + newMarks + marks[sorted[k].at..];
      Untouched(m, sorted[k + 1..])
  {
    hide Originals;
    var x := sorted[k];
    var m := marks[..x.at] + newMarks + marks[x.at..];
    forall y | y in sorted[k + 1..] ensures y.at <= |m| && m[..y.at] == Originals(0, y.at) {
      var i :| 0 <= i < |sorted| - k - 1 && sorted[k + 1..][i] == y;
      assert sorted[k + 1 + i] == y && !Higher(PlaceOf()(y), PlaceOf()(x));
      assert m[..y.at] == marks[..x.at][..y.at];
      OriginalsPrefix(y.at, x.at);
    }
  }

  lemma {:induction false} NewAtIs(done: seq<Insertion>, p: nat)
    ensures forall m :: m in NewAt(done, p) <==> m.New? && m.x in done && m.x.at == p
  {
    if |done| > 0 {
      var n := |done| - 1;
      NewAtIs(done[..n], p);
      assert done == done[..n] + [done[n]];
    }
  }

  /** At one line stand exactly the rows that go there, in VALUES order. */
  lemma {:induction false} RowsInOrder(done: seq<Insertion>, p: nat)
    requires Descending(done, PlaceOf())
    ensures forall m :: m in NewAt(done, p) <==> m.New? && m.x in done && m.x.at == p
    ensures forall i | 0 <= i < |NewAt(done, p)| :: NewAt(done, p)[i].New?
    ensures forall i, j | 0 <= i < j < |NewAt(done, p)| :: NewAt(done, p)[i].x.row <= NewAt(done, p)[j].x.row
  {
    hide Higher;
    NewAtIs(done, p);
    assert forall i | 0 <= i < |NewAt(done, p)| :: NewAt(done, p)[i] in NewAt(done, p);
    if |done| > 0 {
      var n := |done| - 1;
      RowsInOrder(done[..n], p);
      if done[n].at == p {
        LastRowIsFirst(done, n, p);
      }
    }
  }

  lemma LastRowIsFirst(done: seq<Insertion>, n: nat, p: nat)
    requires Descending(done, PlaceOf()) && n < |done| && done[n].at == p
    ensures forall m | m in NewAt(done[..n], p) :: m.New? && done[n].row <= m.x.row
  {
    NewAtIs(done[..n], p);
    forall m | m in NewAt(done[..n], p) ensures m.New? && done[n].row <= m.x.row {
      var i :| 0 <= i < n && done[..n][i] == m.x;
      assert !Higher(PlaceOf()(done[n]), PlaceOf()(done[i]));
    }
  }
}
