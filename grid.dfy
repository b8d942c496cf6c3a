/** The 81 fields of a board seen as one sequence (src/board.rs). Field
    `(x, y)` of the board (column x, row y) is entry `x + 9 * y`, so the
    sequence lists the board row by row, left to right. */
module Grids {
  import opened Fields

  type Grid = seq<Field>

  /** Column of the entry at linear index i. */
  function Col(i: nat): nat { i % 9 }

  /** Row of the entry at linear index i. */
  function Row(i: nat): nat { i / 9 }

  /** Linear index of field (x, y); Col and Row recover the coordinates. */
  function Index(x: nat, y: nat): (i: nat)
    requires x < 9 && y < 9
    ensures i < 81 && Col(i) == x && Row(i) == y
  {
    x + 9 * y
  }

  /** Every linear index below 81 is the index of the coordinates Col and Row
      give it: together with Index's contract, i |-> (i % 9, i / 9) is a
      bijection from 0..80 onto 0..8 x 0..8. */
  lemma IndexOfCoordinates(i: nat)
    requires i < 81
    ensures Col(i) < 9 && Row(i) < 9 && Index(Col(i), Row(i)) == i
  {
  }

  /** Every field satisfies the field invariant. */
  ghost predicate ValidGrid(g: Grid) {
    |g| == 81 && forall i :: 0 <= i < |g| ==> Valid(g[i])
  }

  /** The fields of `Board::new`: 81 fresh fields. */
  function NewGrid(): (g: Grid)
    ensures ValidGrid(g) && CountSolved(g) == 0
    ensures forall i :: 0 <= i < |g| ==> g[i] == New()
  {
    var g := seq(81, _ => New());
    assert forall i :: 0 <= i < |g| ==> !IsSolved(g[i]);
    g
  }

  /** `Board::num_solved`: how many fields are solved. */
  function CountSolved(g: seq<Field>): (n: nat)
    ensures n <= |g|
    ensures n == |g| <==> forall i :: 0 <= i < |g| ==> IsSolved(g[i])
    ensures n == 0 <==> forall i :: 0 <= i < |g| ==> !IsSolved(g[i])
  {
    if g == [] then 0
    else
      assert forall i :: 1 <= i < |g| ==> g[1..][i - 1] == g[i];
      (if IsSolved(g[0]) then 1 else 0) + CountSolved(g[1..])
  }

  /** Solved fields stay solved => the count cannot drop; and it rises as soon
      as one unsolved field becomes solved. */
  lemma {:induction false} CountSolvedMonotonic(g: seq<Field>, h: seq<Field>)
    requires |g| == |h|
    requires forall i :: 0 <= i < |g| && IsSolved(g[i]) ==> IsSolved(h[i])
    ensures CountSolved(g) <= CountSolved(h)
    ensures (exists i :: 0 <= i < |g| && !IsSolved(g[i]) && IsSolved(h[i])) ==> CountSolved(g) < CountSolved(h)
  {
    if g != [] {
      assert forall i :: 1 <= i < |g| ==> g[1..][i - 1] == g[i] && h[1..][i - 1] == h[i];
      CountSolvedMonotonic(g[1..], h[1..]);
      if i :| 0 <= i < |g| && !IsSolved(g[i]) && IsSolved(h[i]) {
        if i > 0 {
          assert !IsSolved(g[1..][i - 1]) && IsSolved(h[1..][i - 1]);
        }
      }
    }
  }

  /** Replacing one unsolved field by a solved one adds exactly one to the count. */
  lemma {:induction false} CountSolvedSolveOne(g: seq<Field>, k: nat, f: Field)
    requires k < |g| && !IsSolved(g[k]) && IsSolved(f)
    ensures CountSolved(g[k := f]) == CountSolved(g) + 1
  {
    if k > 0 {
      assert g[k := f][1..] == g[1..][k - 1 := f];
      CountSolvedSolveOne(g[1..], k - 1, f);
    } else {
      assert g[k := f][1..] == g[1..];
    }
  }
}
