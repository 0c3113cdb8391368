/** Recursive CTEs: iterating on the rows of the last round only, and what that computes. */
module RecursiveCte {
  import opened Bytes
  import CatalogState

  type Row = CatalogState.Row

  type QueryOutput = CatalogState.QueryOutput

  /** The recursive branch, run with the CTE's name bound to some rows. */
  type Term = seq<Row> -> Result<QueryOutput>

  const MAX_ITERATIONS: nat := 10_000

  function Rows(rows: seq<Row>): set<Row> { set r | r in rows }

  /** `filter(|row| seen.insert(row))`. */
  function Unseen(rows: seq<Row>, seen: set<Row>): seq<Row> {
    if |rows| == 0 then []
    else if rows[0] in seen then Unseen(rows[1..], seen)
    else [rows[0]] + Unseen(rows[1..], seen + {rows[0]})
  }

  /** The rounds still to come, with `left` iterations allowed. */
  function Iterate(result: seq<Row>, working: seq<Row>, seen: set<Row>, all: bool, columns: nat, term: Term, left: nat):
      Result<seq<Row>>
    decreases left
  {
    if working == [] then Ok(result)
    else if left == 0 then Err
    else
      match term(working) case Err => Err case Ok(out) =>
        if |out.columns| != columns then Err
        else
          var added := if all then out.rows else Unseen(out.rows, seen);
          Iterate(result + added, added, if all then seen else seen + Rows(out.rows), all, columns, term, left - 1)
  }

  function Evaluated(anchor: QueryOutput, all: bool, term: Term): Result<seq<Row>> {
    Iterate(anchor.rows, anchor.rows, if all then {} else Rows(anchor.rows), all, |anchor.columns|, term, MAX_ITERATIONS)
  }

  lemma {:induction false} UnseenStep(rows: seq<Row>, seen: set<Row>, i: nat)
    requires i < |rows|
    ensures Unseen(rows[..i + 1], seen) ==
      Unseen(rows[..i], seen) + (if rows[i] in seen + Rows(rows[..i]) then [] else [rows[i]])
    decreases i
  {
    if i == 0 {
      assert rows[..1] == [rows[0]] && rows[..1][1..] == [] && rows[..0] == [];
      assert Rows([]) == {};
    } else {
      assert rows[1..][..i] == rows[..i + 1][1..] && rows[1..][..i - 1] == rows[..i][1..];
      assert rows[..i] == [rows[0]] + rows[1..][..i - 1];
      if rows[0] in seen {
        UnseenStep(rows[1..], seen, i - 1);
        assert seen + Rows(rows[1..][..i - 1]) == seen + Rows(rows[..i]);
      } else {
        UnseenStep(rows[1..], seen + {rows[0]}, i - 1);
        assert seen + {rows[0]} + Rows(rows[1..][..i - 1]) == seen + Rows(rows[..i]);
      }
    }
  }

  /** `filter(|row| all || seen.insert(row))` over the rows of a round. */
  method FilterNew(rows: seq<Row>, before: set<Row>, all: bool) returns (working: seq<Row>, seen: set<Row>)
    ensures working == if all then rows else Unseen(rows, before)
    ensures seen == if all then before else before + Rows(rows)
  {
    hide Unseen;
    working, seen := [], before;
    assert Unseen(rows[..0], before) == [] by { UnseenNone(before); }
    for i := 0 to |rows|
      invariant seen == if all then before else before + Rows(rows[..i])
      invariant working == if all then rows[..i] else Unseen(rows[..i], before)
    {
      UnseenStep(rows, before, i);
      assert rows[..i + 1] == rows[..i] + [rows[i]];
      if all {
        working := working + [rows[i]];
      } else if rows[i] !in seen {
        seen := seen + {rows[i]};
        working := working + [rows[i]];
      }
    }
    assert rows[..|rows|] == rows;
  }

  lemma {:induction false} UnseenNone(seen: set<Row>)
    ensures Unseen([], seen) == []
  {
  }

  /** `exec_recursive_cte`, after the anchor has run. */
  method ExecRecursiveCte(anchor: QueryOutput, all: bool, term: Term) returns (r: Result<seq<Row>>)
    ensures r == Evaluated(anchor, all, term)
  {
    hide Unseen, Rows;
    var result, working := anchor.rows, anchor.rows;
    var seen := if all then {} else Rows(anchor.rows);
    var iterations := 0;
    while working != []
      invariant iterations <= MAX_ITERATIONS
      invariant Iterate(result, working, seen, all, |anchor.columns|, term, MAX_ITERATIONS - iterations) ==
        Evaluated(anchor, all, term)
      decreases MAX_ITERATIONS - iterations
    {
      iterations := iterations + 1;
      if iterations > MAX_ITERATIONS {
        return Err;
      }
      var step := term(working);
      if step.Err? || |step.value.columns| != |anchor.columns| {
        return Err;
      }
      working, seen := FilterNew(step.value.rows, seen, all);
      result := result + working;
    }
    r := Ok(result);
  }

  // What UNION computes

  lemma RowsOfBoth(a: seq<Row>, b: seq<Row>)
    ensures Rows(a + b) == Rows(a) + Rows(b)
  {
  }

  lemma {:induction false} UnseenIs(rows: seq<Row>, seen: set<Row>)
    ensures Rows(Unseen(rows, seen)) == Rows(rows) - seen
    ensures forall i, j | 0 <= i < j < |Unseen(rows, seen)| :: Unseen(rows, seen)[i] != Unseen(rows, seen)[j]
    ensures forall r | r in Unseen(rows, seen) :: r !in seen
  {
    if |rows| > 0 {
      assert rows == [rows[0]] + rows[1..];
      if rows[0] in seen {
        UnseenIs(rows[1..], seen);
      } else {
        var rest := Unseen(rows[1..], seen + {rows[0]});
        UnseenIs(rows[1..], seen + {rows[0]});
        assert forall k | 0 <= k < |rest| :: rest[k] in rest;
        assert Rows([rows[0]] + rest) == {rows[0]} + Rows(rest);
      }
    }
  }

  /** Rows from place `n` on repeat no earlier row. */
  predicate NewFrom(rows: seq<Row>, n: nat) {
    forall i, j | 0 <= i < j < |rows| && n <= j :: rows[i] != rows[j]
  }

  /** No row an iteration of UNION adds repeats an earlier one. */
  lemma {:induction false} NothingRepeats(result: seq<Row>, working: seq<Row>, columns: nat, term: Term, left: nat, n: nat)
    requires NewFrom(result, n) && n <= |result|
    requires Iterate(result, working, Rows(result), false, columns, term, left).Ok?
    ensures var out := Iterate(result, working, Rows(result), false, columns, term, left).value;
      result <= out && NewFrom(out, n)
    decreases left
  {
    if working != [] {
      var rows := term(working).value.rows;
      var more := Unseen(rows, Rows(result));
      UnseenIs(rows, Rows(result));
      var next := result + more;
      RowsOfBoth(result, more);
      assert Rows(next) == Rows(result) + Rows(rows);
      forall i, j | 0 <= i < j < |next| && n <= j ensures next[i] != next[j] {
        if i < |result| <= j {
          assert next[j] in more && result[i] in Rows(result);
        }
      }
      NothingRepeats(next, more, columns, term, left - 1, n);
    }
  }

  lemma AddedRowsAreNew(anchor: QueryOutput, term: Term)
    requires Evaluated(anchor, false, term).Ok?
    ensures anchor.rows <= Evaluated(anchor, false, term).value
    ensures NewFrom(Evaluated(anchor, false, term).value, |anchor.rows|)
  {
    NothingRepeats(anchor.rows, anchor.rows, |anchor.columns|, term, MAX_ITERATIONS, |anchor.rows|);
  }

  /** The recursive branch as a function on row sets that distributes over union. */
  ghost predicate Distributes(term: Term, step: set<Row> -> set<Row>) {
    step({}) == {} && (forall a, b :: step(a + b) == step(a) + step(b)) &&
    forall rows: seq<Row> :: term(rows).Ok? ==> Rows(term(rows).value.rows) == step(Rows(rows))
  }

  lemma Monotone(term: Term, step: set<Row> -> set<Row>, a: set<Row>, b: set<Row>)
    requires Distributes(term, step) && a <= b
    ensures step(a) <= step(b)
  {
    assert a + b == b;
    assert step(a + b) == step(a) + step(b);
  }

  /** `done` are the rows the branch has been run on: all but those of the last round. */
  lemma {:induction false} Reaches(
    anchor: set<Row>, done: set<Row>, result: seq<Row>, working: seq<Row>, columns: nat, term: Term, left: nat,
    step: set<Row> -> set<Row>)
    requires Distributes(term, step) && Iterate(result, working, Rows(result), false, columns, term, left).Ok?
    requires Rows(result) == done + Rows(working) == anchor + step(done)
    ensures var out := Rows(Iterate(result, working, Rows(result), false, columns, term, left).value);
      out == anchor + step(out)
    ensures var out := Rows(Iterate(result, working, Rows(result), false, columns, term, left).value);
      forall x | anchor + step(x) <= x && Rows(result) <= x :: out <= x
    decreases left
  {
    if working == [] {
      assert Rows(result) == done;
    } else {
      var rows := term(working).value.rows;
      var more := Unseen(rows, Rows(result));
      UnseenIs(rows, Rows(result));
      var next := result + more;
      RowsOfBoth(result, more);
      assert Rows(next) == Rows(result) + Rows(rows);
      assert step(done + Rows(working)) == step(done) + step(Rows(working));
      Reaches(anchor, Rows(result), next, more, columns, term, left - 1, step);
      forall x | anchor + step(x) <= x && Rows(result) <= x ensures Rows(next) <= x {
        Monotone(term, step, Rows(working), x);
      }
    }
  }

  /** If the recursive branch distributes over union and evaluation ends, the rows of a
      UNION recursive CTE are the least fixed point of anchor and step: closed under
      it, and inside everything else that is. */
  lemma UnionIsLeastFixedPoint(anchor: QueryOutput, term: Term, step: set<Row> -> set<Row>)
    requires Distributes(term, step) && Evaluated(anchor, false, term).Ok?
    ensures var out := Rows(Evaluated(anchor, false, term).value);
      out == Rows(anchor.rows) + step(out) && forall x | Rows(anchor.rows) + step(x) <= x :: out <= x
  {
    hide Iterate;
    assert Rows(anchor.rows) + step({}) == Rows(anchor.rows);
    Reaches(Rows(anchor.rows), {}, anchor.rows, anchor.rows, |anchor.columns|, term, MAX_ITERATIONS, step);
  }

  // What UNION ALL computes

  /** The rows of round `k`: the branch applied `k` times to the anchor. */
  function Round(anchor: seq<Row>, term: Term, k: nat): Result<seq<Row>> {
    if k == 0 then Ok(anchor)
    else
      match Round(anchor, term, k - 1) case Err => Err case Ok(rows) =>
      match term(rows) case Err => Err case Ok(out) => Ok(out.rows)
  }

  function Rounds(anchor: seq<Row>, term: Term, k: nat): seq<Row> {
    var here := match Round(anchor, term, k) case Err => [] case Ok(rows) => rows;
    if k == 0 then here else Rounds(anchor, term, k - 1) + here
  }

  lemma {:induction false} AllRounds(anchor: seq<Row>, columns: nat, term: Term, left: nat, k: nat)
    requires Round(anchor, term, k).Ok?
    requires Iterate(Rounds(anchor, term, k), Round(anchor, term, k).value, {}, true, columns, term, left).Ok?
    ensures exists n: nat ::
      (k <= n <= k + left && Round(anchor, term, n) == Ok([]) &&
       Iterate(Rounds(anchor, term, k), Round(anchor, term, k).value, {}, true, columns, term, left) == Ok(Rounds(anchor, term, n)))
    decreases left
  {
    if Round(anchor, term, k).value != [] {
      AllRounds(anchor, columns, term, left - 1, k + 1);
    }
  }

  /** UNION ALL returns round after round, up to the first empty one. */
  lemma UnionAllIsRounds(anchor: QueryOutput, term: Term)
    requires Evaluated(anchor, true, term).Ok?
    ensures exists n: nat ::
      (n <= MAX_ITERATIONS && Round(anchor.rows, term, n) == Ok([]) &&
       Evaluated(anchor, true, term) == Ok(Rounds(anchor.rows, term, n)))
  {
    AllRounds(anchor.rows, |anchor.columns|, term, MAX_ITERATIONS, 0);
  }
}
