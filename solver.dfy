/** The row/column elimination pass of src/solver.rs. A solved field's value
    is struck from the options of every other field in its column and in its
    row; fields are visited in linear order 0..80, and the first failing
    elimination ends the pass. */
module Solving {
  import opened Common
  import opened Fields
  import opened Grids
  import opened Boards

  /** The implementations of the `Solver` trait: the source has one. */
  datatype Solver = EliminateObviousSolver

  /** The state of a pass: still running, with the progress flag so far, or
      ended by an error. Either way the grid is the board as it stands; a
      failing elimination has already changed its field. */
  datatype Run = Running(progress: bool, grid: Grid) | Aborted(error: Error, grid: Grid)

  /** Field c shares a column or a row with field k and is not k. */
  predicate IsPeer(c: nat, k: nat) {
    c != k && (Col(c) == Col(k) || Row(c) == Row(k))
  }

  /** One `b.field(x, y).eliminate(v)?` of the pass. */
  function Strike(s: Run, x: nat, y: nat, v: Int8): (r: Run)
    requires x < 9 && y < 9 && |s.grid| == 81
    ensures |r.grid| == 81
    ensures forall k :: 0 <= k < 81 && k != Index(x, y) ==> r.grid[k] == s.grid[k]
    ensures s.Aborted? ==> r == s
    ensures r.Running? ==> s.Running? && (s.progress ==> r.progress)
    ensures s.Running? ==> r.grid[Index(x, y)] == Eliminate(s.grid[Index(x, y)], v).1
  {
    if s.Aborted? then s
    else
      var (res, f) := Eliminate(s.grid[Index(x, y)], v);
      if res.Err? then Aborted(res.error, s.grid[Index(x, y) := f])
      else Running(s.progress || res.value, s.grid[Index(x, y) := f])
  }

  /** Round j of the inner loop for the solved field (x, y) with value v:
      strike v from (x, j) unless j is y, then from (j, y) unless j is x. */
  function Round(t: Run, x: nat, y: nat, v: Int8, j: nat): (r: Run)
    requires x < 9 && y < 9 && j < 9 && |t.grid| == 81
    ensures |r.grid| == 81
    ensures r.grid[Index(x, y)] == t.grid[Index(x, y)]
    ensures t.Aborted? ==> r == t
    ensures r.Running? ==> t.Running? && (t.progress ==> r.progress)
  {
    var u := if j != y then Strike(t, x, j, v) else t;
    if j != x then Strike(u, j, y, v) else u
  }

  /** The first j rounds of the inner loop for the solved field (x, y). */
  function Inner(s: Run, x: nat, y: nat, v: Int8, j: nat): (r: Run)
    requires x < 9 && y < 9 && j <= 9 && |s.grid| == 81
    ensures |r.grid| == 81
    ensures r.grid[Index(x, y)] == s.grid[Index(x, y)]
  {
    if j == 0 then s else Round(Inner(s, x, y, v, j - 1), x, y, v, j - 1)
  }

  /** Round i of the outer loop: an unsolved field is skipped, a solved one
      has its value struck from its column and row. */
  function Visit(s: Run, i: nat): (r: Run)
    requires i < 81 && |s.grid| == 81
    ensures |r.grid| == 81
  {
    if s.Aborted? || !IsSolved(s.grid[i]) then s
    else Inner(s, Col(i), Row(i), s.grid[i].value.value, 9)
  }

  /** The first i rounds of the outer loop, from grid g with no progress yet. */
  function Outer(g: Grid, i: nat): (r: Run)
    requires |g| == 81 && i <= 81
    ensures |r.grid| == 81
  {
    if i == 0 then Running(false, g) else Visit(Outer(g, i - 1), i - 1)
  }

  /** `EliminateObviousSolver::apply` as a function of the board's fields:
      the result and the fields afterwards. */
  function ApplySpec(g: Grid): (r: (Result<bool>, Grid))
    requires |g| == 81
    ensures |r.1| == 81
  {
    var s := Outer(g, 81);
    (if s.Running? then Ok(s.progress) else Err(s.error), s.grid)
  }

  /** Once an elimination has failed, the rest of the inner loop changes
      nothing. */
  lemma {:induction false} InnerStaysAborted(s: Run, x: nat, y: nat, v: Int8, j: nat, k: nat)
    requires x < 9 && y < 9 && j <= k <= 9 && |s.grid| == 81
    requires Inner(s, x, y, v, j).Aborted?
    ensures Inner(s, x, y, v, k) == Inner(s, x, y, v, j)
  {
    if j < k {
      InnerStaysAborted(s, x, y, v, j, k - 1);
      assert Inner(s, x, y, v, k) == Round(Inner(s, x, y, v, k - 1), x, y, v, k - 1);
    }
  }

  /** Once an elimination has failed, the rest of the outer loop changes
      nothing. */
  lemma {:induction false} OuterStaysAborted(g: Grid, i: nat, k: nat)
    requires |g| == 81 && i <= k <= 81
    requires Outer(g, i).Aborted?
    ensures Outer(g, k) == Outer(g, i)
  {
    if i < k {
      OuterStaysAborted(g, i, k - 1);
    }
  }

  /** The state a pass is in after an `eliminate` result r, with the fields g. */
  function Outcome(r: Result<bool>, g: Grid): (s: Run)
    ensures s.grid == g && (s.Running? <==> r.Ok?)
  {
    if r.Ok? then Running(r.value, g) else Aborted(r.error, g)
  }

  /** One `if b.field(x, y).eliminate(v)? { made_progress = true; }` of
      `apply`, entered with progress flag p. */
  method EliminateAt(b: Board, x: nat, y: nat, v: Int8, p: bool) returns (r: Result<bool>)
    requires b.Valid() && x < 9 && y < 9
    modifies b.fields
    ensures Outcome(r, b.Cells()) == Strike(Running(p, old(b.Cells())), x, y, v)
  {
    var res := b.EliminateField(x, y, v);
    if res.Err? {
      return Err(res.error);
    }
    return Ok(p || res.value);
  }

  /** The inner loop of `apply` for the solved field (x, y) with value v,
      entered with progress flag p: the pass state it leaves is the one
      `Inner` describes. */
  method ClearPeers(b: Board, x: nat, y: nat, v: Int8, p: bool) returns (r: Result<bool>)
    requires b.Valid() && x < 9 && y < 9
    modifies b.fields
    ensures Outcome(r, b.Cells()) == Inner(Running(p, old(b.Cells())), x, y, v, 9)
  {
    ghost var s := Running(p, b.Cells());
    var madeProgress := p;
    for j := 0 to 9
      invariant Inner(s, x, y, v, j) == Running(madeProgress, b.Cells())
    {
      ghost var t := Running(madeProgress, b.Cells());
      ghost var u := if j != y then Strike(t, x, j, v) else t;
      assert Inner(s, x, y, v, j + 1) == Round(t, x, y, v, j) == if j != x then Strike(u, j, y, v) else u;
      if j != y {
        var res := EliminateAt(b, x, j, v, madeProgress);
        if res.Err? {
          InnerStaysAborted(s, x, y, v, j + 1, 9);
          return res;
        }
        madeProgress := res.value;
      }
      if j != x {
        var res := EliminateAt(b, j, y, v, madeProgress);
        if res.Err? {
          InnerStaysAborted(s, x, y, v, j + 1, 9);
          return res;
        }
        madeProgress := res.value;
      }
    }
    return Ok(madeProgress);
  }

  /** One round of the outer loop of `apply`: field i is skipped unless it is
      solved, and then its value is cleared from its column and row. */
  method VisitField(b: Board, i: nat, p: bool) returns (r: Result<bool>)
    requires b.Valid() && i < 81
    modifies b.fields
    ensures Outcome(r, b.Cells()) == Visit(Running(p, old(b.Cells())), i)
  {
    var f := b.FieldSeq(i);
    if !Fields.IsSolved(f) {
      return Ok(p);
    }
    var x := i % 9;
    var y := i / 9;
    assert Visit(Running(p, b.Cells()), i) == Inner(Running(p, b.Cells()), x, y, f.value.value, 9);
    r := ClearPeers(b, x, y, f.value.value, p);
  }

  /** `EliminateObviousSolver::apply`: the pass over board b, in place. */
  method Apply(solver: Solver, b: Board) returns (r: Result<bool>)
    requires b.Valid()
    modifies b.fields
    ensures (r, b.Cells()) == ApplySpec(old(b.Cells()))
  {
    ghost var g := b.Cells();
    var madeProgress := false;
    for i := 0 to 81
      invariant Outer(g, i) == Running(madeProgress, b.Cells())
    {
      assert Outer(g, i + 1) == Visit(Outer(g, i), i);
      var res := VisitField(b, i, madeProgress);
      if res.Err? {
        OuterStaysAborted(g, i + 1, 81);
        return Err(res.error);
      }
      madeProgress := res.value;
    }
    return Ok(madeProgress);
  }

  // Properties of the pass.

  /** No field gains an option, and a solved field keeps its value. */
  ghost predicate Narrower(g: Grid, h: Grid)
    requires |g| == 81 && |h| == 81
  {
    forall k :: 0 <= k < 81 ==>
      h[k].options <= g[k].options && (g[k].value.Some? ==> h[k].value == g[k].value)
  }

  /** Some field unsolved in g is solved in h. */
  ghost predicate Advanced(g: Grid, h: Grid)
    requires |g| == 81 && |h| == 81
  {
    exists k :: 0 <= k < 81 && !IsSolved(g[k]) && IsSolved(h[k])
  }

  /** Every field has the same value in g and in h. */
  ghost predicate SameValues(g: Grid, h: Grid)
    requires |g| == 81 && |h| == 81
  {
    forall k :: 0 <= k < 81 ==> h[k].value == g[k].value
  }

  /** The values, in g, of the solved peers of field k. */
  ghost function PeerValues(g: Grid, k: nat): set<Int8>
    requires |g| == 81
  {
    set c | 0 <= c < 81 && IsPeer(c, k) && g[c].value.Some? :: g[c].value.value
  }

  /** Every option that a field lost between g and h is the value, in h, of
      a field in its column or row. */
  ghost predicate Explained(g: Grid, h: Grid)
    requires |g| == 81 && |h| == 81
  {
    forall k :: 0 <= k < 81 ==> g[k].options - h[k].options <= PeerValues(h, k)
  }

  /** What holds between a pass state s and any later state r of the same
      pass, when every field of s satisfies the field invariant. */
  ghost predicate Follows(s: Run, r: Run)
    requires |s.grid| == 81 && |r.grid| == 81
  {
    && (s.Aborted? ==> r == s)
    && (r.Running? ==> s.Running? && (s.progress ==> r.progress))
    && (ValidGrid(s.grid) ==>
          && Narrower(s.grid, r.grid)
          && Explained(s.grid, r.grid)
          && (r.Running? ==>
                && ValidGrid(r.grid)
                && (r.progress <==> s.progress || Advanced(s.grid, r.grid))
                && (!r.progress ==> SameValues(s.grid, r.grid))))
  }

  /** Solved values persist, so a narrower grid has at least the same peer
      values. */
  lemma PeerValuesKept(h: Grid, i: Grid, k: nat)
    requires |h| == 81 && |i| == 81 && Narrower(h, i)
    ensures PeerValues(h, k) <= PeerValues(i, k)
  {
    forall o | o in PeerValues(h, k)
      ensures o in PeerValues(i, k)
    {
      var c :| 0 <= c < 81 && IsPeer(c, k) && h[c].value.Some? && h[c].value.value == o;
      assert i[c].value == h[c].value;
    }
  }

  lemma ExplainedTransitive(g: Grid, h: Grid, i: Grid)
    requires |g| == 81 && |h| == 81 && |i| == 81
    requires Explained(g, h) && Explained(h, i) && Narrower(h, i)
    ensures Explained(g, i)
  {
    forall k | 0 <= k < 81
      ensures g[k].options - i[k].options <= PeerValues(i, k)
    {
      PeerValuesKept(h, i, k);
      assert g[k].options - i[k].options <= (g[k].options - h[k].options) + (h[k].options - i[k].options);
    }
  }

  lemma AdvancedTransitive(g: Grid, h: Grid, i: Grid)
    requires |g| == 81 && |h| == 81 && |i| == 81
    requires Narrower(g, h) && Narrower(h, i)
    ensures Advanced(g, i) <==> Advanced(g, h) || Advanced(h, i)
  {
    if Advanced(g, i) {
      var k :| 0 <= k < 81 && !IsSolved(g[k]) && IsSolved(i[k]);
      if !IsSolved(h[k]) {
        assert Advanced(h, i);
      } else {
        assert Advanced(g, h);
      }
    }
    if Advanced(h, i) {
      var k :| 0 <= k < 81 && !IsSolved(h[k]) && IsSolved(i[k]);
      assert !IsSolved(g[k]);
    }
    if Advanced(g, h) {
      var k :| 0 <= k < 81 && !IsSolved(g[k]) && IsSolved(h[k]);
      assert IsSolved(i[k]);
    }
  }

  lemma FollowsTransitive(a: Run, b: Run, c: Run)
    requires |a.grid| == 81 && |b.grid| == 81 && |c.grid| == 81
    requires Follows(a, b) && Follows(b, c)
    ensures Follows(a, c)
  {
    if ValidGrid(a.grid) && b.Running? {
      assert ValidGrid(b.grid);
      ExplainedTransitive(a.grid, b.grid, c.grid);
      AdvancedTransitive(a.grid, b.grid, c.grid);
    }
  }

  /** A strike of the value v of field c at a peer of c. */
  lemma StrikeFollows(s: Run, x: nat, y: nat, v: Int8, c: nat)
    requires x < 9 && y < 9 && |s.grid| == 81
    requires c < 81 && IsPeer(c, Index(x, y)) && (s.Running? ==> s.grid[c].value == Some(v))
    ensures Follows(s, Strike(s, x, y, v))
  {
    if s.Running? && ValidGrid(s.grid) {
      var k := Index(x, y);
      var r := Strike(s, x, y, v);
      var (res, f) := Eliminate(s.grid[k], v);
      assert r.grid == s.grid[k := f];
      assert r.grid[c] == s.grid[c];
      assert Valid(s.grid[k]);
      assert v in PeerValues(r.grid, k) by {
        assert 0 <= c < 81 && IsPeer(c, k) && r.grid[c].value.Some?;
      }
      forall k' | 0 <= k' < 81
        ensures s.grid[k'].options - r.grid[k'].options <= PeerValues(r.grid, k')
      {
        if k' != k {
          assert r.grid[k'] == s.grid[k'];
        }
      }
      if r.Running? {
        assert Valid(f);
        if res.value {
          assert Advanced(s.grid, r.grid);
        } else if Advanced(s.grid, r.grid) {
          var k' :| 0 <= k' < 81 && !IsSolved(s.grid[k']) && IsSolved(r.grid[k']);
          assert k' == k;
        }
      }
    }
  }

  /** Round j of the inner loop strikes v at peers of (x, y) only. */
  lemma RoundFollows(t: Run, x: nat, y: nat, v: Int8, j: nat)
    requires x < 9 && y < 9 && j < 9 && |t.grid| == 81
    requires t.Running? ==> t.grid[Index(x, y)].value == Some(v)
    ensures Follows(t, Round(t, x, y, v, j))
  {
    var c := Index(x, y);
    var u := if j != y then Strike(t, x, j, v) else t;
    if j != y {
      StrikeFollows(t, x, j, v, c);
    }
    assert Follows(t, u);
    if j != x {
      assert u.grid[c] == t.grid[c];
      StrikeFollows(u, j, y, v, c);
      FollowsTransitive(t, u, Strike(u, j, y, v));
    }
  }

  /** The inner loop for a solved field (x, y) with value v only strikes v
      at the peers of (x, y). */
  lemma {:induction false} InnerFollows(s: Run, x: nat, y: nat, v: Int8, j: nat)
    requires x < 9 && y < 9 && j <= 9 && |s.grid| == 81
    requires s.Running? ==> s.grid[Index(x, y)].value == Some(v)
    ensures Follows(s, Inner(s, x, y, v, j))
  {
    if j > 0 {
      InnerFollows(s, x, y, v, j - 1);
      var t := Inner(s, x, y, v, j - 1);
      RoundFollows(t, x, y, v, j - 1);
      FollowsTransitive(s, t, Inner(s, x, y, v, j));
    }
  }

  lemma VisitFollows(s: Run, i: nat)
    requires i < 81 && |s.grid| == 81
    ensures Follows(s, Visit(s, i))
  {
    if s.Running? && IsSolved(s.grid[i]) {
      IndexOfCoordinates(i);
      InnerFollows(s, Col(i), Row(i), s.grid[i].value.value, 9);
    }
  }

  lemma {:induction false} OuterFollows(g: Grid, i: nat)
    requires |g| == 81 && i <= 81
    ensures Follows(Running(false, g), Outer(g, i))
  {
    if i > 0 {
      OuterFollows(g, i - 1);
      VisitFollows(Outer(g, i - 1), i - 1);
      FollowsTransitive(Running(false, g), Outer(g, i - 1), Outer(g, i));
    }
  }

  /** Any pass, failed or not, only narrows the fields and never changes a
      solved value; a successful pass keeps the field invariant. */
  lemma ApplyNarrows(g: Grid)
    requires ValidGrid(g)
    ensures Narrower(g, ApplySpec(g).1)
    ensures ApplySpec(g).0.Ok? ==> ValidGrid(ApplySpec(g).1)
  {
    OuterFollows(g, 81);
  }

  /** Every option a pass removes is the value, afterwards, of a field in the
      same column or row: only row and column peers are affected. */
  lemma ApplyExplained(g: Grid)
    requires ValidGrid(g)
    ensures Explained(g, ApplySpec(g).1)
  {
    OuterFollows(g, 81);
  }

  /** A successful pass reports progress exactly when the number of solved
      fields went up; without progress no value changed. */
  lemma ApplyProgress(g: Grid)
    requires ValidGrid(g) && ApplySpec(g).0.Ok?
    ensures ApplySpec(g).0.value <==> CountSolved(g) < CountSolved(ApplySpec(g).1)
    ensures !ApplySpec(g).0.value ==> SameValues(g, ApplySpec(g).1)
  {
    var h := ApplySpec(g).1;
    OuterFollows(g, 81);
    CountSolvedMonotonic(g, h);
    if !Advanced(g, h) {
      CountSolvedMonotonic(h, g);
    }
  }

  /** Every field among the first n that is solved in g has its value
      missing from the options of all its peers in h. */
  ghost predicate Cleared(g: Grid, h: Grid, n: nat)
    requires |g| == 81 && |h| == 81 && n <= 81
  {
    forall c, k :: 0 <= c < n && 0 <= k < 81 && IsPeer(c, k) && g[c].value.Some? ==>
      g[c].value.value !in h[k].options
  }

  /** No solved field's value is an option of one of its peers. */
  ghost predicate Settled(g: Grid)
    requires |g| == 81
  {
    Cleared(g, g, 81)
  }

  /** Field k is a peer of (x, y) that the first j rounds of the inner loop
      for (x, y) reach. */
  predicate Reached(x: nat, y: nat, j: nat, k: nat)
    requires x < 9 && y < 9
  {
    k != Index(x, y) && ((Col(k) == x && Row(k) < j) || (Row(k) == y && Col(k) < j))
  }

  /** A round that does not fail removes v from the fields it strikes and
      removes nothing else. */
  lemma RoundClears(t: Run, x: nat, y: nat, v: Int8, j: nat)
    requires x < 9 && y < 9 && j < 9 && |t.grid| == 81
    requires Round(t, x, y, v, j).Running?
    ensures forall k :: 0 <= k < 81 ==> Round(t, x, y, v, j).grid[k].options <= t.grid[k].options
    ensures j != y ==> v !in Round(t, x, y, v, j).grid[Index(x, j)].options
    ensures j != x ==> v !in Round(t, x, y, v, j).grid[Index(j, y)].options
    ensures j != y ==> Round(t, x, y, v, j).grid[Index(x, j)].options == t.grid[Index(x, j)].options - {v}
    ensures j != x ==> Round(t, x, y, v, j).grid[Index(j, y)].options == t.grid[Index(j, y)].options - {v}
    ensures forall k :: 0 <= k < 81 && (j == y || k != Index(x, j)) && (j == x || k != Index(j, y)) ==>
      Round(t, x, y, v, j).grid[k] == t.grid[k]
  {
    var u := if j != y then Strike(t, x, j, v) else t;
    assert u.Running?;
    assert forall k :: 0 <= k < 81 ==> u.grid[k].options <= t.grid[k].options;
    if j != y && j != x {
      assert Index(x, j) != Index(j, y);
    }
  }

  lemma {:induction false} InnerClears(s: Run, x: nat, y: nat, v: Int8, j: nat)
    requires x < 9 && y < 9 && j <= 9 && |s.grid| == 81
    requires Inner(s, x, y, v, j).Running?
    ensures forall k :: 0 <= k < 81 && Reached(x, y, j, k) ==> v !in Inner(s, x, y, v, j).grid[k].options
  {
    if j > 0 {
      var t := Inner(s, x, y, v, j - 1);
      var r := Inner(s, x, y, v, j);
      assert r == Round(t, x, y, v, j - 1);
      InnerClears(s, x, y, v, j - 1);
      RoundClears(t, x, y, v, j - 1);
      forall k | 0 <= k < 81 && Reached(x, y, j, k)
        ensures v !in r.grid[k].options
      {
        IndexOfCoordinates(k);
        if !Reached(x, y, j - 1, k) {
          if Col(k) == x && Row(k) == j - 1 {
            assert k == Index(x, j - 1);
          } else {
            assert k == Index(j - 1, y);
          }
        }
      }
    }
  }

  lemma {:induction false} OuterClears(g: Grid, i: nat)
    requires ValidGrid(g) && i <= 81 && Outer(g, i).Running?
    ensures Cleared(g, Outer(g, i).grid, i)
  {
    if i > 0 {
      var s := Outer(g, i - 1);
      var r := Outer(g, i);
      OuterClears(g, i - 1);
      OuterFollows(g, i - 1);
      VisitFollows(s, i - 1);
      forall c, k | 0 <= c < i && 0 <= k < 81 && IsPeer(c, k) && g[c].value.Some?
        ensures g[c].value.value !in r.grid[k].options
      {
        if c == i - 1 {
          IndexOfCoordinates(c);
          InnerClears(s, Col(c), Row(c), g[c].value.value, 9);
          assert Reached(Col(c), Row(c), 9, k);
        }
      }
    }
  }

  /** After a successful pass, the value of every field solved before it is
      missing from the options of every other field in its column and row. */
  lemma ApplyClearsPeers(g: Grid)
    requires ValidGrid(g)
    ensures ApplySpec(g).0.Ok? ==> Cleared(g, ApplySpec(g).1, 81)
  {
    if Outer(g, 81).Running? {
      OuterClears(g, 81);
    }
  }

  /** Striking a value that is no option changes nothing. */
  lemma StrikeIdle(g: Grid, x: nat, y: nat, v: Int8)
    requires |g| == 81 && x < 9 && y < 9 && v !in g[Index(x, y)].options
    ensures Strike(Running(false, g), x, y, v) == Running(false, g)
  {
    var k := Index(x, y);
    assert Eliminate(g[k], v) == (Ok(false), g[k]);
    assert g[k := g[k]] == g;
  }

  lemma RoundIdle(g: Grid, x: nat, y: nat, v: Int8, j: nat)
    requires |g| == 81 && x < 9 && y < 9 && j < 9
    requires forall k :: 0 <= k < 81 && IsPeer(Index(x, y), k) ==> v !in g[k].options
    ensures Round(Running(false, g), x, y, v, j) == Running(false, g)
  {
    if j != y {
      assert IsPeer(Index(x, y), Index(x, j));
      StrikeIdle(g, x, j, v);
    }
    if j != x {
      assert IsPeer(Index(x, y), Index(j, y));
      StrikeIdle(g, j, y, v);
    }
  }

  lemma {:induction false} InnerIdle(g: Grid, x: nat, y: nat, v: Int8, j: nat)
    requires |g| == 81 && x < 9 && y < 9 && j <= 9
    requires forall k :: 0 <= k < 81 && IsPeer(Index(x, y), k) ==> v !in g[k].options
    ensures Inner(Running(false, g), x, y, v, j) == Running(false, g)
  {
    if j > 0 {
      InnerIdle(g, x, y, v, j - 1);
      RoundIdle(g, x, y, v, j - 1);
    }
  }

  lemma {:induction false} OuterIdle(g: Grid, i: nat)
    requires |g| == 81 && i <= 81 && Settled(g)
    ensures Outer(g, i) == Running(false, g)
  {
    if i > 0 {
      OuterIdle(g, i - 1);
      var c := i - 1;
      if IsSolved(g[c]) {
        IndexOfCoordinates(c);
        InnerIdle(g, Col(c), Row(c), g[c].value.value, 9);
      }
    }
  }

  /** A pass changes nothing and reports no progress exactly when no solved
      value is still an option of one of its peers. */
  lemma ApplyIdle(g: Grid)
    requires ValidGrid(g)
    ensures ApplySpec(g) == (Ok(false), g) <==> Settled(g)
  {
    if Settled(g) {
      OuterIdle(g, 81);
    }
    if ApplySpec(g) == (Ok(false), g) {
      ApplyClearsPeers(g);
    }
  }

  /** A pass that reports no progress has reached a fixed point: running it
      again reports no progress and changes nothing. */
  lemma ApplyFixedPoint(g: Grid)
    requires ValidGrid(g) && ApplySpec(g).0 == Ok(false)
    ensures ValidGrid(ApplySpec(g).1)
    ensures ApplySpec(ApplySpec(g).1) == (Ok(false), ApplySpec(g).1)
  {
    var h := ApplySpec(g).1;
    ApplyNarrows(g);
    ApplyProgress(g);
    ApplyClearsPeers(g);
    assert Settled(h);
    ApplyIdle(h);
  }

  /** An ended pass ended on the error `eliminate` gives when no option is
      left, and the field it failed on has no options. */
  ghost predicate FailedCleanly(s: Run)
    requires |s.grid| == 81
  {
    s.Aborted? ==> s.error == NoOptionsLeft && exists k :: 0 <= k < 81 && s.grid[k].options == {}
  }

  lemma StrikeFailed(s: Run, x: nat, y: nat, v: Int8)
    requires x < 9 && y < 9 && |s.grid| == 81 && FailedCleanly(s)
    ensures FailedCleanly(Strike(s, x, y, v))
  {
    var r := Strike(s, x, y, v);
    if s.Running? && r.Aborted? {
      assert r.grid[Index(x, y)].options == {};
    }
  }

  lemma RoundFailed(t: Run, x: nat, y: nat, v: Int8, j: nat)
    requires x < 9 && y < 9 && j < 9 && |t.grid| == 81 && FailedCleanly(t)
    ensures FailedCleanly(Round(t, x, y, v, j))
  {
    var u := if j != y then Strike(t, x, j, v) else t;
    if j != y {
      StrikeFailed(t, x, j, v);
    }
    if j != x {
      StrikeFailed(u, j, y, v);
    }
  }

  lemma {:induction false} InnerFailed(s: Run, x: nat, y: nat, v: Int8, j: nat)
    requires x < 9 && y < 9 && j <= 9 && |s.grid| == 81 && FailedCleanly(s)
    ensures FailedCleanly(Inner(s, x, y, v, j))
  {
    if j > 0 {
      InnerFailed(s, x, y, v, j - 1);
      RoundFailed(Inner(s, x, y, v, j - 1), x, y, v, j - 1);
    }
  }

  lemma {:induction false} OuterFailed(g: Grid, i: nat)
    requires |g| == 81 && i <= 81
    ensures FailedCleanly(Outer(g, i))
  {
    if i > 0 {
      var s := Outer(g, i - 1);
      OuterFailed(g, i - 1);
      if s.Running? && IsSolved(s.grid[i - 1]) {
        IndexOfCoordinates(i - 1);
        InnerFailed(s, Col(i - 1), Row(i - 1), s.grid[i - 1].value.value, 9);
      }
    }
  }

  /** A failing pass passes on the error of the failing `eliminate`
      unchanged: it is always the no-options-left error, and the board keeps
      the field that failed, with no options left. */
  lemma ApplyFailure(g: Grid)
    requires |g| == 81
    ensures ApplySpec(g).0.Err? ==>
      ApplySpec(g).0.error == NoOptionsLeft && exists k :: 0 <= k < 81 && ApplySpec(g).1[k].options == {}
  {
    OuterFailed(g, 81);
  }

  /** Two fields in one column or row solved with the same value make the
      pass fail. */
  lemma ApplyDuplicateFails(g: Grid, c: nat, k: nat)
    requires ValidGrid(g) && c < 81 && k < 81 && IsPeer(c, k)
    requires g[c].value.Some? && g[k].value == g[c].value
    ensures ApplySpec(g).0.Err?
  {
    ApplyNarrows(g);
    ApplyClearsPeers(g);
  }

  /** The options of field k that are not values of its solved peers. */
  ghost function Spare(g: Grid, k: nat): set<Int8>
    requires |g| == 81 && k < 81
  {
    g[k].options - PeerValues(g, k)
  }

  /** A grid on which a pass can neither fail nor solve anything: no two
      peers are solved with the same value, and every unsolved field keeps
      two options besides the values of its solved peers. */
  ghost predicate Roomy(g: Grid)
  {
    && ValidGrid(g)
    && (forall c, k :: 0 <= c < 81 && 0 <= k < 81 && IsPeer(c, k) && g[c].value.Some? ==> g[k].value != g[c].value)
    && (forall k :: 0 <= k < 81 && g[k].value.None? ==> |Spare(g, k)| >= 2)
  }

  /** A state of a pass over a roomy grid g: no progress, the values of g,
      and every option that is not a peer's value still present. */
  ghost predicate Quiet(g: Grid, s: Run)
    requires |g| == 81 && |s.grid| == 81
  {
    && s == Running(false, s.grid)
    && ValidGrid(s.grid)
    && SameValues(g, s.grid)
    && forall k :: 0 <= k < 81 ==> Spare(g, k) <= s.grid[k].options
  }

  lemma StrikeQuiet(g: Grid, s: Run, x: nat, y: nat, v: Int8, c: nat)
    requires Roomy(g) && x < 9 && y < 9 && |s.grid| == 81 && Quiet(g, s)
    requires c < 81 && IsPeer(c, Index(x, y)) && g[c].value == Some(v)
    ensures Quiet(g, Strike(s, x, y, v))
  {
    var k := Index(x, y);
    var f := s.grid[k];
    assert v in PeerValues(g, k) by {
      assert 0 <= c < 81 && IsPeer(c, k) && g[c].value.Some?;
    }
    assert f.value == g[k].value && Valid(f) && Spare(g, k) <= f.options;
    assert f.value.None? ==> |Spare(g, k)| >= 2;
    EliminateSpared(f, Spare(g, k), v);
    var f' := Eliminate(f, v).1;
    var h := s.grid[k := f'];
    assert Strike(s, x, y, v) == Running(false, h);
    forall k' | 0 <= k' < 81
      ensures Valid(h[k']) && h[k'].value == g[k'].value && Spare(g, k') <= h[k'].options
    {
      if k' != k {
        assert h[k'] == s.grid[k'];
      }
    }
  }

  /** One round of the inner loop keeps a pass over a roomy grid quiet. */
  lemma RoundQuiet(g: Grid, t: Run, x: nat, y: nat, v: Int8, j: nat)
    requires Roomy(g) && x < 9 && y < 9 && j < 9 && |t.grid| == 81 && Quiet(g, t)
    requires g[Index(x, y)].value == Some(v)
    ensures Quiet(g, Round(t, x, y, v, j))
  {
    var c := Index(x, y);
    var u := if j != y then Strike(t, x, j, v) else t;
    if j != y {
      StrikeQuiet(g, t, x, j, v, c);
    }
    if j != x {
      StrikeQuiet(g, u, j, y, v, c);
    }
  }

  lemma {:induction false} InnerQuiet(g: Grid, s: Run, x: nat, y: nat, v: Int8, j: nat)
    requires Roomy(g) && x < 9 && y < 9 && j <= 9 && |s.grid| == 81 && Quiet(g, s)
    requires g[Index(x, y)].value == Some(v)
    ensures Quiet(g, Inner(s, x, y, v, j))
  {
    if j > 0 {
      InnerQuiet(g, s, x, y, v, j - 1);
      RoundQuiet(g, Inner(s, x, y, v, j - 1), x, y, v, j - 1);
    }
  }

  lemma {:induction false} OuterQuiet(g: Grid, i: nat)
    requires Roomy(g) && i <= 81
    ensures Quiet(g, Outer(g, i))
  {
    if i > 0 {
      OuterQuiet(g, i - 1);
      var s := Outer(g, i - 1);
      var c := i - 1;
      if IsSolved(s.grid[c]) {
        IndexOfCoordinates(c);
        InnerQuiet(g, s, Col(c), Row(c), s.grid[c].value.value, 9);
      }
    }
  }

  /** A pass over a roomy grid succeeds without progress, changes no value
      and keeps every option that is no solved peer's value. */
  lemma ApplyRoomy(g: Grid)
    requires Roomy(g)
    ensures ApplySpec(g).0 == Ok(false)
    ensures SameValues(g, ApplySpec(g).1)
    ensures forall k :: 0 <= k < 81 ==> Spare(g, k) <= ApplySpec(g).1[k].options
  {
    OuterQuiet(g, 81);
  }

  /** The board of the solver test: an empty board with field (0, 0)
      solved to 1. */
  function SolverTestGrid(): Grid {
    NewGrid()[Index(0, 0) := Set(New(), 1).1]
  }

  lemma SolverTestGridRoomy()
    ensures Roomy(SolverTestGrid())
  {
    var g := SolverTestGrid();
    assert g[0] == Field(Some(1), {1});
    assert forall k :: 0 < k < 81 ==> g[k] == New();
    assert ValidGrid(g);
    forall c, k | 0 <= c < 81 && 0 <= k < 81 && IsPeer(c, k) && g[c].value.Some?
      ensures g[k].value != g[c].value
    {
      assert c == 0 && k != 0;
    }
    forall k | 0 <= k < 81 && g[k].value.None?
      ensures |Spare(g, k)| >= 2
    {
      SolverTestGridSpareTwo(k);
    }
  }

  /** Only field 0 is solved on the solver test board, with 1, so every
      other field keeps 2 and 3 as spare options. */
  lemma SolverTestGridSpareTwo(k: nat)
    requires 0 < k < 81
    ensures |Spare(SolverTestGrid(), k)| >= 2
  {
    var g := SolverTestGrid();
    assert forall c :: 0 < c < 81 ==> g[c] == New();
    assert g[0].value == Some(1);
    assert PeerValues(g, k) <= {1};
    assert g[k] == New();
    assert 2 in Spare(g, k) && 3 in Spare(g, k);
    SubsetSize({2, 3}, Spare(g, k));
  }

  /** The solver test: a pass succeeds, removes 1 from (0, 5) and (8, 0),
      and leaves it an option of (1, 5), which shares neither row nor column
      with (0, 0). */
  lemma ApplyScenario()
    ensures ApplySpec(SolverTestGrid()).0 == Ok(false)
    ensures 1 !in ApplySpec(SolverTestGrid()).1[Index(0, 5)].options
    ensures 1 !in ApplySpec(SolverTestGrid()).1[Index(8, 0)].options
    ensures 1 in ApplySpec(SolverTestGrid()).1[Index(1, 5)].options
  {
    var g := SolverTestGrid();
    SolverTestGridRoomy();
    ApplyRoomy(g);
    ApplyClearsPeers(g);
    assert g[0].value == Some(1);
    assert IsPeer(0, Index(0, 5)) && IsPeer(0, Index(8, 0));
    SolverTestGridSpare();
  }

  /** No peer of (1, 5) is solved on the solver test board, so 1 is a spare
      option there. */
  lemma SolverTestGridSpare()
    ensures 1 in Spare(SolverTestGrid(), Index(1, 5))
  {
    var g := SolverTestGrid();
    var k := Index(1, 5);
    assert forall c :: 0 < c < 81 ==> g[c] == New();
    assert !IsPeer(0, k);
    assert 1 !in PeerValues(g, k);
  }
}
