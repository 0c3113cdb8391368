/** The interval index: section tree, depth-first numbering, and what comparing the
    numbers means. Slot 0 is the document, slot `i` the `i`-th node. */
module SectionIndex {
  import opened Bytes

  /** A Markdown node: its heading depth, and whether it becomes a block. */
  datatype Node = Node(depth: Option<nat>, kept: bool)

  /** The fields of a block that `build_blocks` numbers. */
  datatype Block = Block(id: nat, slot: nat, pre: nat, post: nat)

  predicate Heading(nodes: seq<Node>, x: nat) {
    1 <= x <= |nodes| && nodes[x - 1].depth.Some?
  }

  function Depth(nodes: seq<Node>, x: nat): nat
    requires Heading(nodes, x)
  {
    nodes[x - 1].depth.value
  }

  /** `b` lies in the section of `a`: `a` is a heading before `b`, and every heading
      after `a` up to and including `b` is strictly deeper. Everything is in the document. */
  predicate Under(nodes: seq<Node>, a: nat, b: nat)
    ensures Under(nodes, a, b) ==> a < b <= |nodes|
  {
    a < b <= |nodes| &&
    (a == 0 || (Heading(nodes, a) && forall h: nat | a < h <= b && Heading(nodes, h) :: Depth(nodes, h) > Depth(nodes, a)))
  }

  /** The innermost section around `b`. */
  function ParentFrom(nodes: seq<Node>, b: nat, x: nat): (p: nat)
    requires x < b <= |nodes|
    ensures p <= x && Under(nodes, p, b)
    ensures forall y: nat | p < y <= x :: !Under(nodes, y, b)
  {
    if Under(nodes, x, b) then x else ParentFrom(nodes, b, x - 1)
  }

  function Parent(nodes: seq<Node>, b: nat): (p: nat)
    requires 1 <= b <= |nodes|
    ensures p < b && Under(nodes, p, b) && forall y: nat | p < y < b :: !Under(nodes, y, b)
  {
    ParentFrom(nodes, b, b - 1)
  }

  function Level(nodes: seq<Node>, b: nat): nat
    requires b <= |nodes|
  {
    if b == 0 then 0 else Level(nodes, Parent(nodes, b)) + 1
  }

  /** The first slot after the section of `a`. */
  function EndFrom(nodes: seq<Node>, a: nat, b: nat): (e: nat)
    requires a < b <= |nodes| + 1
    requires forall m: nat | a < m < b :: Under(nodes, a, m)
    ensures b <= e <= |nodes| + 1 && forall m: nat | a < m <= |nodes| :: Under(nodes, a, m) <==> m < e
    decreases |nodes| + 1 - b
  {
    if b <= |nodes| && Under(nodes, a, b) then EndFrom(nodes, a, b + 1) else b
  }

  function End(nodes: seq<Node>, a: nat): (e: nat)
    requires a <= |nodes|
    ensures a < e <= |nodes| + 1 && forall m: nat | a < m <= |nodes| :: Under(nodes, a, m) <==> m < e
  {
    EndFrom(nodes, a, a + 1)
  }

  /** The depth-first entry and exit numbers in closed form. */
  function Pre(nodes: seq<Node>, a: nat): int
    requires a <= |nodes|
  {
    2 * a - Level(nodes, a)
  }

  function Post(nodes: seq<Node>, a: nat): int
    requires a <= |nodes|
  {
    2 * End(nodes, a) - Level(nodes, a) - 1
  }

  // Sections nest

  lemma Nested(nodes: seq<Node>, a: nat, m: nat, b: nat)
    requires Under(nodes, a, b) && a < m <= b
    ensures Under(nodes, a, m)
  {
  }

  lemma Chained(nodes: seq<Node>, a: nat, m: nat, b: nat)
    requires Under(nodes, a, m) && Under(nodes, m, b)
    ensures Under(nodes, a, b)
  {
    if a != 0 {
      forall h: nat | a < h <= b && Heading(nodes, h) ensures Depth(nodes, h) > Depth(nodes, a) {
      }
    }
  }

  lemma EndsWithin(nodes: seq<Node>, a: nat, m: nat)
    requires Under(nodes, a, m)
    ensures End(nodes, m) <= End(nodes, a)
  {
    if m + 1 < End(nodes, m) {
      Chained(nodes, a, m, End(nodes, m) - 1);
    }
  }

  lemma {:induction false} Deeper(nodes: seq<Node>, a: nat, b: nat)
    requires Under(nodes, a, b)
    ensures Level(nodes, a) < Level(nodes, b)
    ensures a != Parent(nodes, b) ==> Level(nodes, a) + 1 < Level(nodes, b)
    decreases b
  {
    var p := Parent(nodes, b);
    if a != p {
      Nested(nodes, a, p, b);
      Deeper(nodes, a, p);
    }
  }

  /** What follows a section is no deeper than the section's head, and lies where the head lies. */
  lemma {:induction false} AfterSection(nodes: seq<Node>, a: nat)
    requires 1 <= a <= |nodes| && End(nodes, a) <= |nodes|
    ensures var e := End(nodes, a);
      Under(nodes, Parent(nodes, e), a) && Level(nodes, e) <= Level(nodes, a) &&
      (Level(nodes, e) == Level(nodes, a) <==> Parent(nodes, e) == Parent(nodes, a))
  {
    var e := End(nodes, a);
    var p := Parent(nodes, e);
    assert !Under(nodes, a, e);
    if p > a {
      assert Under(nodes, a, p);
      Chained(nodes, a, p, e);
    }
    Nested(nodes, p, a, e);
    Deeper(nodes, p, a);
  }

  // The numbering

  lemma {:induction false} LevelBound(nodes: seq<Node>, a: nat)
    requires a <= |nodes|
    ensures Level(nodes, a) <= a
    decreases a
  {
    if a > 0 {
      LevelBound(nodes, Parent(nodes, a));
    }
  }

  lemma PreStep(nodes: seq<Node>, a: nat)
    requires a < |nodes|
    ensures Level(nodes, a + 1) <= Level(nodes, a) + 1
    ensures Level(nodes, a + 1) == Level(nodes, a) + 1 <==> Parent(nodes, a + 1) == a
    ensures Pre(nodes, a) < Pre(nodes, a + 1)
  {
    var p := Parent(nodes, a + 1);
    if p != a {
      Nested(nodes, p, a, a + 1);
      Deeper(nodes, p, a);
    }
  }

  /** Entry numbers strictly increase in document order. */
  lemma {:induction false} PreIncreases(nodes: seq<Node>, a: nat, b: nat)
    requires a < b <= |nodes|
    ensures Pre(nodes, a) < Pre(nodes, b)
    decreases b
  {
    PreStep(nodes, b - 1);
    if a < b - 1 {
      PreIncreases(nodes, a, b - 1);
    }
  }

  lemma Bounds(nodes: seq<Node>, a: nat)
    requires a <= |nodes|
    ensures 0 <= Pre(nodes, a) < Post(nodes, a) <= 2 * |nodes| + 1
  {
    LevelBound(nodes, a);
  }

  /** A section that ends before `b` has its exit number before the entry number of `b`. */
  lemma EndsBefore(nodes: seq<Node>, a: nat, b: nat)
    requires a < b <= |nodes| && !Under(nodes, a, b)
    ensures Post(nodes, a) < Pre(nodes, b)
  {
    var e := End(nodes, a);
    assert 1 <= a && e <= b;
    AfterSection(nodes, a);
    if e < b {
      PreIncreases(nodes, e, b);
    }
  }

  lemma SectionInside(nodes: seq<Node>, a: nat, b: nat)
    requires Under(nodes, a, b)
    ensures Pre(nodes, a) < Pre(nodes, b) && Post(nodes, b) < Post(nodes, a)
  {
    PreIncreases(nodes, a, b);
    Deeper(nodes, a, b);
    EndsWithin(nodes, a, b);
  }

  /** The comparison `contains` makes on the intervals is containment of sections. */
  lemma ContainsIffUnder(nodes: seq<Node>, a: nat, b: nat)
    requires a <= |nodes| && b <= |nodes|
    ensures Pre(nodes, a) < Pre(nodes, b) && Post(nodes, b) < Post(nodes, a) <==> Under(nodes, a, b)
  {
    if Under(nodes, a, b) {
      SectionInside(nodes, a, b);
    } else if a < b {
      EndsBefore(nodes, a, b);
      Bounds(nodes, b);
    } else if b < a {
      PreIncreases(nodes, b, a);
    }
  }

  lemma NumbersDiffer(nodes: seq<Node>, a: nat, b: nat)
    requires a <= |nodes| && b <= |nodes|
    ensures a != b ==> Pre(nodes, a) != Pre(nodes, b) && Post(nodes, a) != Post(nodes, b)
    ensures Pre(nodes, a) != Post(nodes, b)
  {
    Bounds(nodes, a);
    Bounds(nodes, b);
    if a < b {
      PreIncreases(nodes, a, b);
      if Under(nodes, a, b) { SectionInside(nodes, a, b); } else { EndsBefore(nodes, a, b); }
    } else if b < a {
      PreIncreases(nodes, b, a);
      if Under(nodes, b, a) { SectionInside(nodes, b, a); } else { EndsBefore(nodes, b, a); }
    }
  }

  ghost function Numbers(nodes: seq<Node>, k: nat): (s: set<int>)
    requires k <= |nodes| + 1
  {
    if k == 0 then {} else Numbers(nodes, k - 1) + {Pre(nodes, k - 1), Post(nodes, k - 1)}
  }

  /** Some slot below `k` has the number. */
  ghost predicate Numbered(nodes: seq<Node>, k: nat, t: int)
    requires k <= |nodes| + 1
  {
    exists a: nat :: a < k && (t == Pre(nodes, a) || t == Post(nodes, a))
  }

  lemma {:induction false} NumbersMember(nodes: seq<Node>, k: nat, t: int)
    requires k <= |nodes| + 1
    ensures t in Numbers(nodes, k) <==> Numbered(nodes, k, t)
  {
    hide Pre, Post;
    if k > 0 {
      NumbersMember(nodes, k - 1, t);
      if Numbered(nodes, k, t) {
        var a: nat :| a < k && (t == Pre(nodes, a) || t == Post(nodes, a));
        assert a < k - 1 ==> Numbered(nodes, k - 1, t);
      } else {
        assert t != Pre(nodes, k - 1) && t != Post(nodes, k - 1);
        assert !Numbered(nodes, k - 1, t) by {
          if a: nat :| a < k - 1 && (t == Pre(nodes, a) || t == Post(nodes, a)) {
            assert a < k;
          }
        }
      }
    }
  }

  lemma {:induction false} NumberIsNew(nodes: seq<Node>, k: nat)
    requires k <= |nodes|
    ensures Pre(nodes, k) !in Numbers(nodes, k) && Post(nodes, k) !in Numbers(nodes, k)
  {
    hide Pre, Post, Numbers;
    NumbersMember(nodes, k, Pre(nodes, k));
    NumbersMember(nodes, k, Post(nodes, k));
    forall a: nat | a < k
      ensures Pre(nodes, k) != Pre(nodes, a) && Pre(nodes, k) != Post(nodes, a)
      ensures Post(nodes, k) != Pre(nodes, a) && Post(nodes, k) != Post(nodes, a)
    {
      NumbersDiffer(nodes, a, k);
      NumbersDiffer(nodes, k, a);
    }
  }

  lemma {:induction false} NumbersSize(nodes: seq<Node>, k: nat)
    requires k <= |nodes| + 1
    ensures |Numbers(nodes, k)| == 2 * k
  {
    hide Pre, Post, Numbers;
    NumbersSplit(nodes, k);
    if k > 0 {
      NumbersSize(nodes, k - 1);
      NumberIsNew(nodes, k - 1);
      NumbersDiffer(nodes, k - 1, k - 1);
      TwoMore(Numbers(nodes, k - 1), Pre(nodes, k - 1), Post(nodes, k - 1));
    }
  }

  lemma NumbersSplit(nodes: seq<Node>, k: nat)
    requires k <= |nodes| + 1
    ensures if k == 0 then Numbers(nodes, k) == {}
      else Numbers(nodes, k) == Numbers(nodes, k - 1) + {Pre(nodes, k - 1), Post(nodes, k - 1)}
  {
    hide Pre, Post;
  }

  lemma TwoMore(s: set<int>, x: int, y: int)
    requires x !in s && y !in s && x != y
    ensures |s + {x, y}| == |s| + 2
  {
    assert s + {x, y} == s + {x} + {y};
  }

  lemma SameSize(s: set<int>, t: set<int>)
    requires s <= t && |s| == |t|
    ensures s == t
  {
    assert |t - s| == |t| - |s|;
  }

  /** The numbers of the `n + 1` slots are exactly 0..2n+1. With `NumbersDiffer`, each is used once. */
  lemma NumbersAreAll(nodes: seq<Node>, t: nat)
    ensures t < 2 * (|nodes| + 1) <==> Numbered(nodes, |nodes| + 1, t)
  {
    hide Numbers, Pre, Post;
    var n := |nodes| + 1;
    forall i | i in Numbers(nodes, n) ensures i in UpTo(2 * n) {
      NumbersMember(nodes, n, i);
      var a: nat :| a < n && (i == Pre(nodes, a) || i == Post(nodes, a));
      Bounds(nodes, a);
    }
    NumbersSize(nodes, n);
    SameSize(Numbers(nodes, n), UpTo(2 * n));
    NumbersMember(nodes, n, t);
    assert t in UpTo(2 * n) <==> t in Numbers(nodes, n);
  }

  // Navigation

  /** `first_child` looks for entry number `pre + 1`: that is the first slot whose parent is `a`. */
  lemma FirstChildIs(nodes: seq<Node>, a: nat, c: nat)
    requires a <= |nodes| && 1 <= c <= |nodes|
    ensures Pre(nodes, c) == Pre(nodes, a) + 1 <==>
      Parent(nodes, c) == a && forall x: nat | 1 <= x < c :: Parent(nodes, x) != a
  {
    if a < |nodes| {
      PreStep(nodes, a);
      if c < a + 1 {
        if c < a { PreIncreases(nodes, c, a); }
      } else if c > a + 1 {
        PreIncreases(nodes, a + 1, c);
        if Parent(nodes, c) == a {
          Nested(nodes, a, a + 1, c);
        }
      } else if Parent(nodes, c) == a {
        forall x: nat | 1 <= x < c ensures Parent(nodes, x) != a {
        }
      }
    } else if c < a {
      PreIncreases(nodes, c, a);
    }
  }

  /** Slots between `a` and the end of its section have `a` or something inside it as parent. */
  lemma InsideParent(nodes: seq<Node>, a: nat, x: nat)
    requires a <= |nodes| && a < x < End(nodes, a)
    ensures x <= |nodes| && Parent(nodes, x) >= a
  {
    assert Under(nodes, a, x);
  }

  /** `next_sibling` looks for entry number `post + 1`: that is the next slot with the same parent. */
  lemma NextSiblingIs(nodes: seq<Node>, a: nat, c: nat)
    requires 1 <= a <= |nodes| && 1 <= c <= |nodes|
    ensures Pre(nodes, c) == Post(nodes, a) + 1 <==>
      a < c && Parent(nodes, c) == Parent(nodes, a) && forall x: nat | a < x < c :: Parent(nodes, x) != Parent(nodes, a)
  {
    var e := End(nodes, a);
    if c < e {
      BeforeEnd(nodes, a, c);
    } else {
      AfterSection(nodes, a);
      if c == e {
        forall x: nat | a < x < c ensures Parent(nodes, x) != Parent(nodes, a) {
          InsideParent(nodes, a, x);
        }
      } else {
        PreIncreases(nodes, e, c);
        LaterSibling(nodes, a, c);
      }
    }
  }

  lemma BeforeEnd(nodes: seq<Node>, a: nat, c: nat)
    requires 1 <= a <= |nodes| && 1 <= c < End(nodes, a)
    ensures Pre(nodes, c) < Post(nodes, a) && !(a < c && Parent(nodes, c) == Parent(nodes, a))
  {
    Bounds(nodes, a);
    Bounds(nodes, c);
    if c > a {
      InsideParent(nodes, a, c);
      SectionInside(nodes, a, c);
    } else if c < a {
      PreIncreases(nodes, c, a);
    }
  }

  /** A sibling further on than the end of the section has another one there before it. */
  lemma LaterSibling(nodes: seq<Node>, a: nat, c: nat)
    requires 1 <= a <= |nodes| && End(nodes, a) < c <= |nodes|
    ensures Parent(nodes, c) == Parent(nodes, a) ==> Parent(nodes, End(nodes, a)) == Parent(nodes, a)
  {
    var e, q := End(nodes, a), Parent(nodes, a);
    if Parent(nodes, c) == q {
      Nested(nodes, q, e, c);
      AfterSection(nodes, a);
      assert Parent(nodes, e) <= q;
    }
  }

  // Phase 1: the section tree

  /** The slots up to `k` whose parent is `p`, in order. */
  function ChildList(nodes: seq<Node>, p: nat, k: nat): (c: seq<nat>)
    requires k <= |nodes|
  {
    if k == 0 then [] else ChildList(nodes, p, k - 1) + (if Parent(nodes, k) == p then [k] else [])
  }

  lemma ParentIs(nodes: seq<Node>, b: nat, p: nat)
    requires Under(nodes, p, b) && forall y: nat | p < y < b :: !Under(nodes, y, b)
    ensures Parent(nodes, b) == p
  {
    assert !(Parent(nodes, b) < p);
  }

  /** The section of `x` is still open behind slot `k`. */
  predicate OpenAt(nodes: seq<Node>, x: nat, k: nat) {
    x <= k <= |nodes| && (x == 0 || (x == k && Heading(nodes, x)) || Under(nodes, x, k))
  }

  ghost predicate OnStack(stack: seq<(nat, nat)>, x: nat) {
    exists i :: 0 <= i < |stack| && stack[i].0 == x
  }

  /** The open sections behind slot `k`, outermost first. A heading of depth 0 takes
      the document off the stack for good. */
  ghost predicate Stacked(nodes: seq<Node>, k: nat, stack: seq<(nat, nat)>) {
    (forall i, j | 0 <= i < j < |stack| :: stack[i].0 < stack[j].0 && stack[i].1 < stack[j].1) &&
    (forall i | 0 <= i < |stack| :: OpenAt(nodes, stack[i].0, k) &&
      stack[i].1 == if stack[i].0 == 0 then 0 else Depth(nodes, stack[i].0)) &&
    forall x: nat | 1 <= x && OpenAt(nodes, x, k) :: OnStack(stack, x)
  }

  function Top(stack: seq<(nat, nat)>): nat {
    if |stack| == 0 then 0 else stack[|stack| - 1].0
  }

  lemma OpenOrUnder(nodes: seq<Node>, x: nat, k: nat)
    requires 1 <= x <= k < |nodes|
    ensures Under(nodes, x, k + 1) ==> OpenAt(nodes, x, k)
    ensures nodes[k].depth.None? && OpenAt(nodes, x, k) ==> Under(nodes, x, k + 1)
  {
    if Under(nodes, x, k + 1) && x < k {
      Nested(nodes, x, k, k + 1);
    }
  }

  lemma BelowTop(nodes: seq<Node>, k: nat, stack: seq<(nat, nat)>, x: nat)
    requires Stacked(nodes, k, stack) && OnStack(stack, x)
    ensures x <= Top(stack)
  {
    var i :| 0 <= i < |stack| && stack[i].0 == x;
    if i < |stack| - 1 {
      assert stack[i].0 < stack[|stack| - 1].0;
    }
  }

  lemma StackedPlain(nodes: seq<Node>, k: nat, stack: seq<(nat, nat)>)
    requires k < |nodes| && Stacked(nodes, k, stack) && nodes[k].depth.None?
    ensures Stacked(nodes, k + 1, stack) && Parent(nodes, k + 1) == Top(stack)
  {
    hide Under;
    forall x: nat | 1 <= x && OpenAt(nodes, x, k + 1) ensures OnStack(stack, x) {
      assert x <= k;
      OpenOrUnder(nodes, x, k);
      assert OpenAt(nodes, x, k);
    }
    forall i | 0 <= i < |stack| ensures OpenAt(nodes, stack[i].0, k + 1) {
      assert OpenAt(nodes, stack[i].0, k);
      if stack[i].0 != 0 {
        OpenOrUnder(nodes, stack[i].0, k);
      }
    }
    var next := k + 1;
    forall y: nat | Top(stack) < y < next ensures !Under(nodes, y, next) {
      OpenOrUnder(nodes, y, k);
      if OnStack(stack, y) {
        BelowTop(nodes, k, stack, y);
      }
    }
    TopIsAround(nodes, k, stack);
    ParentIs(nodes, k + 1, Top(stack));
  }

  lemma TopIsAround(nodes: seq<Node>, k: nat, stack: seq<(nat, nat)>)
    requires k < |nodes| && Stacked(nodes, k, stack) && nodes[k].depth.None?
    ensures Under(nodes, Top(stack), k + 1)
  {
    if Top(stack) != 0 {
      OpenOrUnder(nodes, Top(stack), k);
    }
  }

  /** The pops of a heading: `stack` is what is left of `before`. */
  ghost predicate Popped(nodes: seq<Node>, k: nat, before: seq<(nat, nat)>, stack: seq<(nat, nat)>) {
    k < |nodes| && Stacked(nodes, k, before) && nodes[k].depth.Some? && stack <= before &&
    var d := nodes[k].depth.value;
    (forall i | |stack| <= i < |before| :: before[i].1 >= d) && (|stack| > 0 ==> stack[|stack| - 1].1 < d)
  }

  lemma StackedHeading(nodes: seq<Node>, k: nat, before: seq<(nat, nat)>, stack: seq<(nat, nat)>)
    requires Popped(nodes, k, before, stack)
    ensures Stacked(nodes, k + 1, stack + [(k + 1, nodes[k].depth.value)])
  {
    hide Under;
    var grown := stack + [(k + 1, nodes[k].depth.value)];
    forall x: nat | 1 <= x && OpenAt(nodes, x, k + 1) ensures OnStack(grown, x) {
      if x == k + 1 {
        assert grown[|stack|].0 == x;
      } else {
        HeadingCloses(nodes, k, before, stack, x);
        var i :| 0 <= i < |stack| && stack[i].0 == x;
        assert grown[i].0 == x;
      }
    }
    forall i | 0 <= i < |stack| ensures OpenAt(nodes, stack[i].0, k + 1) && grown[i] == before[i] {
      assert stack[i] == before[i];
      if stack[i].0 != 0 {
        HeadingCloses(nodes, k, before, stack, stack[i].0);
      }
    }
  }

  lemma LeftBelowTop(nodes: seq<Node>, k: nat, before: seq<(nat, nat)>, stack: seq<(nat, nat)>, x: nat)
    requires Popped(nodes, k, before, stack) && OnStack(stack, x)
    ensures x <= Top(stack)
  {
    var i :| 0 <= i < |stack| && stack[i].0 == x;
    if i < |stack| - 1 {
      assert before[i].0 < before[|stack| - 1].0;
    }
  }

  lemma HeadingParent(nodes: seq<Node>, k: nat, before: seq<(nat, nat)>, stack: seq<(nat, nat)>)
    requires Popped(nodes, k, before, stack)
    ensures Parent(nodes, k + 1) == Top(stack)
  {
    var p := Top(stack);
    assert Under(nodes, p, k + 1) by {
      if p != 0 {
        assert stack[|stack| - 1] == before[|stack| - 1];
        HeadingCloses(nodes, k, before, stack, p);
      }
    }
    var next := k + 1;
    forall y: nat | p < y < next ensures !Under(nodes, y, next) {
      HeadingCloses(nodes, k, before, stack, y);
      if OnStack(stack, y) {
        LeftBelowTop(nodes, k, before, stack, y);
      }
    }
    ParentIs(nodes, k + 1, p);
  }

  lemma HeadingCloses(nodes: seq<Node>, k: nat, before: seq<(nat, nat)>, stack: seq<(nat, nat)>, x: nat)
    requires Popped(nodes, k, before, stack) && 1 <= x <= k
    ensures Under(nodes, x, k + 1) <==> OnStack(stack, x)
  {
    if Under(nodes, x, k + 1) {
      assert OpenAt(nodes, x, k);
      var i :| 0 <= i < |before| && before[i].0 == x;
      assert before[i].1 == Depth(nodes, x) < Depth(nodes, k + 1);
      assert stack[i].0 == x;
    }
    if i :| 0 <= i < |stack| && stack[i].0 == x {
      assert before[i] == stack[i] && OpenAt(nodes, x, k);
      assert stack[i].1 < nodes[k].depth.value;
    }
  }

  method BuildTree(nodes: seq<Node>) returns (children: seq<seq<nat>>)
    ensures |children| == |nodes| + 1
    ensures forall p: nat | p <= |nodes| :: children[p] == ChildList(nodes, p, |nodes|)
  {
    hide Stacked, Under, ChildList, Parent, Level;
    NoChildrenYet(nodes, 0, 0);
    children := [[]];
    var stack: seq<(nat, nat)> := [(0, 0)];
    StackedStart(nodes);
    for k := 0 to |nodes|
      invariant |children| == k + 1 && Stacked(nodes, k, stack)
      invariant forall p: nat | p <= k :: children[p] == ChildList(nodes, p, k)
    {
      var slot := |children|;
      children := children + [[]];
      NoChildrenYet(nodes, slot, k);
      var before := stack;
      if nodes[k].depth.Some? {
        var depth := nodes[k].depth.value;
        while |stack| > 0 && stack[|stack| - 1].1 >= depth
          invariant stack <= before && forall i | |stack| <= i < |before| :: before[i].1 >= depth
        {
          stack := stack[..|stack| - 1];
        }
        StackedHeading(nodes, k, before, stack);
        HeadingParent(nodes, k, before, stack);
      } else {
        StackedPlain(nodes, k, stack);
      }
      var parent := if |stack| == 0 then 0 else stack[|stack| - 1].0;
      ghost var was := children;
      children := children[parent := children[parent] + [slot]];
      ChildrenGrow(nodes, k, was, children);
      if nodes[k].depth.Some? {
        stack := stack + [(slot, nodes[k].depth.value)];
      }
    }
  }

  lemma ChildrenGrow(nodes: seq<Node>, k: nat, was: seq<seq<nat>>, children: seq<seq<nat>>)
    requires k < |nodes| && |was| == k + 2 && children == was[Parent(nodes, k + 1) := was[Parent(nodes, k + 1)] + [k + 1]]
    requires forall p: nat | p <= k + 1 :: was[p] == ChildList(nodes, p, k)
    ensures forall p: nat | p <= k + 1 :: children[p] == ChildList(nodes, p, k + 1)
  {
    hide Parent;
  }

  lemma StackedStart(nodes: seq<Node>)
    ensures Stacked(nodes, 0, [(0, 0)])
  {
  }

  lemma {:induction false} NoChildrenYet(nodes: seq<Node>, p: nat, k: nat)
    requires k <= p && k <= |nodes|
    ensures ChildList(nodes, p, k) == []
  {
    if k > 0 {
      NoChildrenYet(nodes, p, k - 1);
    }
  }

  // Phase 2: the numbers

  lemma {:induction false} ChildPrefix(nodes: seq<Node>, p: nat, k: nat, m: nat)
    requires k <= m <= |nodes|
    ensures ChildList(nodes, p, k) <= ChildList(nodes, p, m)
  {
    if k < m {
      ChildPrefix(nodes, p, k, m - 1);
    }
  }

  lemma {:induction false} NextChild(nodes: seq<Node>, v: nat)
    requires 1 <= v <= |nodes|
    ensures var s, c := Parent(nodes, v), ChildList(nodes, Parent(nodes, v), |nodes|);
      var i := |ChildList(nodes, s, v - 1)|;
      i < |c| && c[i] == v && |ChildList(nodes, s, v)| == i + 1
  {
    ChildPrefix(nodes, Parent(nodes, v), v, |nodes|);
  }

  lemma {:induction false} NoMoreChildren(nodes: seq<Node>, s: nat, v: nat, m: nat)
    requires s <= |nodes| && End(nodes, s) <= v && v - 1 <= m <= |nodes|
    ensures ChildList(nodes, s, m) == ChildList(nodes, s, v - 1)
  {
    if m > v - 1 {
      NoMoreChildren(nodes, s, v, m - 1);
      assert !Under(nodes, s, m);
    }
  }

  /** The open slots of the traversal before slot `v` is entered: a path from the
      document down, each with the number of its children entered so far. */
  ghost predicate OnPath(nodes: seq<Node>, v: nat, dfs: seq<(nat, nat)>)
    ensures OnPath(nodes, v, dfs) ==> 1 <= v <= |nodes| + 1
  {
    1 <= v <= |nodes| + 1 &&
    (forall j | 0 <= j < |dfs| :: dfs[j].0 < v && Level(nodes, dfs[j].0) == j && v <= End(nodes, dfs[j].0) &&
      dfs[j].1 == |ChildList(nodes, dfs[j].0, v - 1)|) &&
    forall j | 0 < j < |dfs| :: dfs[j].0 >= 1 && Parent(nodes, dfs[j].0) == dfs[j - 1].0
  }

  ghost predicate Left(nodes: seq<Node>, v: nat, dfs: seq<(nat, nat)>, x: nat, post: seq<nat>)
    requires x <= |nodes| && |post| == |nodes| + 1
  {
    (exists j :: 0 <= j < |dfs| && dfs[j].0 == x) || (End(nodes, x) <= v && post[x] == Post(nodes, x))
  }

  lemma {:induction false} PathAscends(nodes: seq<Node>, v: nat, dfs: seq<(nat, nat)>, i: nat, j: nat)
    requires OnPath(nodes, v, dfs) && i < j < |dfs|
    ensures Under(nodes, dfs[i].0, dfs[j].0)
    decreases j - i
  {
    var p := Parent(nodes, dfs[j].0);
    if i < j - 1 {
      PathAscends(nodes, v, dfs, i, j - 1);
      Chained(nodes, dfs[i].0, p, dfs[j].0);
    }
  }

  /** While the innermost open section has not ended, the next slot is its child. */
  lemma NextIsChild(nodes: seq<Node>, v: nat, dfs: seq<(nat, nat)>, post: seq<nat>)
    requires OnPath(nodes, v, dfs) && |dfs| > 0 && |post| == |nodes| + 1
    requires forall x: nat | x < v :: Left(nodes, v, dfs, x, post)
    requires v < End(nodes, dfs[|dfs| - 1].0)
    ensures v <= |nodes| && Parent(nodes, v) == dfs[|dfs| - 1].0
  {
    hide Under, ParentFrom, Parent, Level, EndFrom, End, Post, ChildList;
    var s := dfs[|dfs| - 1].0;
    assert Under(nodes, s, v);
    var p := Parent(nodes, v);
    if p != s {
      assert Left(nodes, v, dfs, p, post);
      assert Under(nodes, p, v);
      var j :| 0 <= j < |dfs| && dfs[j].0 == p;
      PathAscends(nodes, v, dfs, j, |dfs| - 1);
    }
  }

  lemma Entered(nodes: seq<Node>, v: nat, dfs: seq<(nat, nat)>, dfs2: seq<(nat, nat)>)
    requires OnPath(nodes, v, dfs) && |dfs| > 0 && v <= |nodes| && Parent(nodes, v) == dfs[|dfs| - 1].0
    requires dfs2 == dfs[|dfs| - 1 := (dfs[|dfs| - 1].0, dfs[|dfs| - 1].1 + 1)] + [(v, 0)]
    ensures OnPath(nodes, v + 1, dfs2) && Pre(nodes, v) == 2 * v - |dfs|
  {
    var last := |dfs| - 1;
    NoChildrenYet(nodes, v, v);
    forall j | 0 <= j < last
      ensures v < End(nodes, dfs[j].0) && ChildList(nodes, dfs[j].0, v) == ChildList(nodes, dfs[j].0, v - 1)
    {
      PathAscends(nodes, v, dfs, j, last);
      Chained(nodes, dfs[j].0, dfs[last].0, v);
    }
  }

  method Number(nodes: seq<Node>, children: seq<seq<nat>>) returns (pre: seq<nat>, post: seq<nat>)
    requires 2 * (|nodes| + 1) <= 0x1_0000_0000 && |children| == |nodes| + 1
    requires forall p: nat | p <= |nodes| :: children[p] == ChildList(nodes, p, |nodes|)
    ensures |pre| == |nodes| + 1 && |post| == |nodes| + 1
    ensures forall a: nat | a <= |nodes| :: pre[a] == Pre(nodes, a) && post[a] == Post(nodes, a)
  {
    hide Under, Level, EndFrom, End, ParentFrom, Parent, ChildList, OnPath, Left, Pre, Post;
    pre := seq(|children|, _ => 0);
    post := seq(|children|, _ => 0);
    var counter := 1;
    var dfs: seq<(nat, nat)> := [(0, 0)];
    ghost var v := 1;
    Start(nodes);
    while |dfs| > 0
      invariant OnPath(nodes, v, dfs) && |pre| == |nodes| + 1 && |post| == |nodes| + 1
      invariant counter == (2 * v - |dfs|) % 0x1_0000_0000 && |dfs| <= v
      invariant forall x: nat | x < v :: pre[x] == Pre(nodes, x) && Left(nodes, v, dfs, x, post)
      decreases 2 * (|nodes| + 1 - v) + |dfs|
    {
      var (slot, i) := dfs[|dfs| - 1];
      Turn(nodes, v, dfs, post);
      if i < |children[slot]| {
        var child := children[slot][i];
        ghost var was := dfs;
        dfs := dfs[|dfs| - 1 := (slot, i + 1)];
        pre := pre[child := counter];
        counter := (counter + 1) % 0x1_0000_0000;
        dfs := dfs + [(child, 0)];
        Entered(nodes, v, was, dfs);
        StillLeft(nodes, v, was, dfs, post);
        v := v + 1;
      } else {
        ghost var was, had := dfs, post;
        post := post[slot := counter];
        counter := (counter + 1) % 0x1_0000_0000;
        dfs := dfs[..|dfs| - 1];
        Done(nodes, v, was, had);
      }
    }
    Finished(nodes, v, dfs, post);
  }

  lemma Finished(nodes: seq<Node>, v: nat, dfs: seq<(nat, nat)>, post: seq<nat>)
    requires 1 <= v <= |nodes| + 1 && dfs == [] && |post| == |nodes| + 1
    requires forall x: nat | x < v :: Left(nodes, v, dfs, x, post)
    ensures v == |nodes| + 1 && forall a: nat | a <= |nodes| :: post[a] == Post(nodes, a)
  {
    hide End, Post;
    assert Left(nodes, v, dfs, 0, post);
    DocumentEnds(nodes);
    forall a: nat | a <= |nodes| ensures post[a] == Post(nodes, a) {
      assert Left(nodes, v, dfs, a, post);
    }
  }

  lemma Start(nodes: seq<Node>)
    ensures OnPath(nodes, 1, [(0, 0)]) && Pre(nodes, 0) == 0
    ensures forall post: seq<nat> | |post| == |nodes| + 1 :: Left(nodes, 1, [(0, 0)], 0, post)
  {
    hide End, Post;
    var dfs: seq<(nat, nat)> := [(0, 0)];
    assert dfs[0].0 == 0;
    assert OnPath(nodes, 1, dfs) by { Begins(nodes); }
  }

  lemma Begins(nodes: seq<Node>)
    ensures OnPath(nodes, 1, [(0, 0)])
  {
  }

  lemma DocumentEnds(nodes: seq<Node>)
    ensures End(nodes, 0) == |nodes| + 1
  {
    assert |nodes| > 0 ==> Under(nodes, 0, |nodes|);
  }

  /** Either the next child of the innermost open slot is the next slot, or its section ends here. */
  lemma {:induction false} Turn(nodes: seq<Node>, v: nat, dfs: seq<(nat, nat)>, post: seq<nat>)
    requires OnPath(nodes, v, dfs) && |dfs| > 0 && |post| == |nodes| + 1
    requires forall x: nat | x < v :: Left(nodes, v, dfs, x, post)
    ensures var (slot, i) := dfs[|dfs| - 1];
      slot <= |nodes| && var c := ChildList(nodes, slot, |nodes|);
      if i < |c| then v <= |nodes| && c[i] == v && Parent(nodes, v) == slot else End(nodes, slot) == v
  {
    var (slot, i) := dfs[|dfs| - 1];
    if v < End(nodes, slot) {
      NextIsChild(nodes, v, dfs, post);
      NextChild(nodes, v);
    } else {
      NoMoreChildren(nodes, slot, v, |nodes|);
    }
  }

  lemma StillLeft(nodes: seq<Node>, v: nat, dfs: seq<(nat, nat)>, dfs2: seq<(nat, nat)>, post: seq<nat>)
    requires |dfs| > 0 && v <= |nodes| && |post| == |nodes| + 1
    requires dfs2 == dfs[|dfs| - 1 := (dfs[|dfs| - 1].0, dfs[|dfs| - 1].1 + 1)] + [(v, 0)]
    requires forall x: nat | x < v :: Left(nodes, v, dfs, x, post)
    ensures var next := v + 1; forall x: nat | x < next :: Left(nodes, next, dfs2, x, post)
  {
    hide End, Post;
    var next := v + 1;
    forall x: nat | x < next ensures Left(nodes, next, dfs2, x, post) {
      if x == v {
        assert dfs2[|dfs|].0 == v;
      } else {
        assert Left(nodes, v, dfs, x, post);
        if j :| 0 <= j < |dfs| && dfs[j].0 == x {
          assert dfs2[j].0 == x;
        }
      }
    }
  }

  lemma Done(nodes: seq<Node>, v: nat, dfs: seq<(nat, nat)>, post: seq<nat>)
    requires OnPath(nodes, v, dfs) && |dfs| > 0 && |post| == |nodes| + 1 && End(nodes, dfs[|dfs| - 1].0) == v
    requires 2 * v - |dfs| >= 0 && forall x: nat | x < v :: Left(nodes, v, dfs, x, post)
    ensures var post2, rest := post[dfs[|dfs| - 1].0 := 2 * v - |dfs|], dfs[..|dfs| - 1];
      forall x: nat | x < v :: Left(nodes, v, rest, x, post2)
    ensures OnPath(nodes, v, dfs[..|dfs| - 1])
  {
    hide Under, EndFrom, End, ParentFrom, ChildList;
    var s := dfs[|dfs| - 1].0;
    var rest := dfs[..|dfs| - 1];
    var post2 := post[s := 2 * v - |dfs|];
    forall x: nat | x < v ensures Left(nodes, v, rest, x, post2) {
      assert Left(nodes, v, dfs, x, post);
      if x != s {
        if j :| 0 <= j < |dfs| && dfs[j].0 == x {
          assert rest[j].0 == x;
        }
      }
    }
  }

  // Phase 3: the blocks

  /** The blocks of the first `k` nodes. */
  function Blocks(nodes: seq<Node>, k: nat): (b: seq<Block>)
    requires k <= |nodes|
  {
    if k == 0 then []
    else
      var before := Blocks(nodes, k - 1);
      if nodes[k - 1].kept then
        Bounds(nodes, k);
        before + [Block(|before|, k, Pre(nodes, k), Post(nodes, k))]
      else before
  }

  /** `build_blocks`. */
  method BuildBlocks(nodes: seq<Node>) returns (blocks: seq<Block>)
    requires 2 * (|nodes| + 1) <= 0x1_0000_0000
    ensures blocks == Blocks(nodes, |nodes|)
  {
    hide Pre, Post;
    blocks := [];
    if |nodes| == 0 {
      return;
    }
    var children := BuildTree(nodes);
    var pre, post := Number(nodes, children);
    var nextId := 0;
    for i := 0 to |nodes|
      invariant blocks == Blocks(nodes, i) && nextId == |blocks|
    {
      if nodes[i].kept {
        blocks := blocks + [Block(nextId, i + 1, pre[i + 1], post[i + 1])];
        nextId := nextId + 1;
      }
    }
  }

  /** Block ids count up from 0, and blocks stand in document order with increasing `pre`. */
  lemma {:induction false} BlocksInOrder(nodes: seq<Node>, k: nat)
    requires k <= |nodes|
    ensures forall i | 0 <= i < |Blocks(nodes, k)| :: var b := Blocks(nodes, k)[i];
      b.id == i && 1 <= b.slot <= k && nodes[b.slot - 1].kept && b.pre == Pre(nodes, b.slot) && b.post == Post(nodes, b.slot)
    ensures forall i, j | 0 <= i < j < |Blocks(nodes, k)| ::
      Blocks(nodes, k)[i].slot < Blocks(nodes, k)[j].slot && Blocks(nodes, k)[i].pre < Blocks(nodes, k)[j].pre
  {
    hide Pre, Post;
    if k > 0 {
      BlocksInOrder(nodes, k - 1);
      var before := Blocks(nodes, k - 1);
      forall i | 0 <= i < |before| ensures before[i].pre < Pre(nodes, k) {
        PreIncreases(nodes, before[i].slot, k);
      }
    }
  }

  lemma {:induction false} BlocksComplete(nodes: seq<Node>, k: nat, s: nat)
    requires 1 <= s <= k <= |nodes| && nodes[s - 1].kept
    ensures exists b :: b in Blocks(nodes, k) && b.slot == s
  {
    hide Pre, Post;
    if s < k {
      BlocksComplete(nodes, k - 1, s);
      var b :| b in Blocks(nodes, k - 1) && b.slot == s;
      assert b in Blocks(nodes, k);
    } else {
      var all := Blocks(nodes, k);
      assert all[|all| - 1].slot == s && all[|all| - 1] in all;
    }
  }

  predicate Contains(a: Block, b: Block) { a.pre < b.pre && b.post < a.post }

  /** `contains` holds between blocks iff the first is a heading before the second and
      every heading after it, up to and including the second, is strictly deeper. */
  lemma {:induction false} ContainsMeans(nodes: seq<Node>, a: Block, b: Block)
    requires a in Blocks(nodes, |nodes|) && b in Blocks(nodes, |nodes|)
    ensures Contains(a, b) <==>
      a.slot < b.slot && Heading(nodes, a.slot) &&
      forall h: nat | a.slot < h <= b.slot && Heading(nodes, h) :: Depth(nodes, h) > Depth(nodes, a.slot)
  {
    hide Pre, Post;
    BlocksInOrder(nodes, |nodes|);
    ContainsIffUnder(nodes, a.slot, b.slot);
  }

  /** `iter().find(|b| b.pre == target)`. */
  function FindPre(blocks: seq<Block>, target: int): (r: Option<Block>)
    ensures r.Some? ==> r.value in blocks && r.value.pre == target
    ensures r.None? ==> forall b | b in blocks :: b.pre != target
  {
    if |blocks| == 0 then None else if blocks[0].pre == target then Some(blocks[0]) else FindPre(blocks[1..], target)
  }

  /** The block of a slot, if the slot became one. */
  ghost predicate IsBlockOf(nodes: seq<Node>, r: Option<Block>, slot: nat)
    requires 1 <= slot <= |nodes|
  {
    if nodes[slot - 1].kept then r.Some? && r.value.slot == slot else r.None?
  }

  lemma {:induction false} FindPreIs(nodes: seq<Node>, slot: nat)
    requires 1 <= slot <= |nodes|
    ensures IsBlockOf(nodes, FindPre(Blocks(nodes, |nodes|), Pre(nodes, slot)), slot)
  {
    hide Pre, Post;
    BlocksInOrder(nodes, |nodes|);
    var r := FindPre(Blocks(nodes, |nodes|), Pre(nodes, slot));
    if r.Some? {
      NumbersDiffer(nodes, r.value.slot, slot);
    } else if nodes[slot - 1].kept {
      BlocksComplete(nodes, |nodes|, slot);
    }
  }

  predicate IsFirstChild(nodes: seq<Node>, a: nat, c: nat) {
    1 <= c <= |nodes| && Parent(nodes, c) == a && forall x: nat | 1 <= x < c :: Parent(nodes, x) != a
  }

  predicate IsNextSibling(nodes: seq<Node>, a: nat, c: nat) {
    1 <= a < c <= |nodes| && Parent(nodes, c) == Parent(nodes, a) &&
    forall x: nat | a < x < c :: Parent(nodes, x) != Parent(nodes, a)
  }

  /** `first_child` is the first slot with `b` as parent, if there is one and it became a block. */
  lemma {:induction false} FirstChildMeans(nodes: seq<Node>, b: Block, c: nat)
    requires b in Blocks(nodes, |nodes|)
    ensures IsFirstChild(nodes, b.slot, c) ==> IsBlockOf(nodes, FindPre(Blocks(nodes, |nodes|), b.pre + 1), c)
    ensures FindPre(Blocks(nodes, |nodes|), b.pre + 1).Some? ==>
      IsFirstChild(nodes, b.slot, FindPre(Blocks(nodes, |nodes|), b.pre + 1).value.slot)
  {
    hide Pre, Post, Parent, Blocks;
    BlocksInOrder(nodes, |nodes|);
    if IsFirstChild(nodes, b.slot, c) {
      FirstChildIs(nodes, b.slot, c);
      FindPreIs(nodes, c);
    }
    var r := FindPre(Blocks(nodes, |nodes|), b.pre + 1);
    if r.Some? {
      FirstChildIs(nodes, b.slot, r.value.slot);
    }
  }

  /** `next_sibling` is the next slot with the same parent, if there is one and it became a block. */
  lemma {:induction false} NextSiblingMeans(nodes: seq<Node>, b: Block, c: nat)
    requires b in Blocks(nodes, |nodes|)
    ensures IsNextSibling(nodes, b.slot, c) ==> IsBlockOf(nodes, FindPre(Blocks(nodes, |nodes|), b.post + 1), c)
    ensures FindPre(Blocks(nodes, |nodes|), b.post + 1).Some? ==>
      IsNextSibling(nodes, b.slot, FindPre(Blocks(nodes, |nodes|), b.post + 1).value.slot)
  {
    hide Pre, Post, Parent, Blocks;
    BlocksInOrder(nodes, |nodes|);
    if IsNextSibling(nodes, b.slot, c) {
      NextSiblingIs(nodes, b.slot, c);
      FindPreIs(nodes, c);
    }
    var r := FindPre(Blocks(nodes, |nodes|), b.post + 1);
    if r.Some? {
      NextSiblingIs(nodes, b.slot, r.value.slot);
    }
  }
}
