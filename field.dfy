/** One cell of the puzzle (src/field.rs, and its copy in src/main.rs). */
module Fields {
  import opened Common

  /** A cell: its value once it is known, and the options still open for it. */
  datatype Field = Field(value: Option<Int8>, options: set<Int8>)

  /** The options of a fresh field. */
  const Digits: set<Int8> := {1, 2, 3, 4, 5, 6, 7, 8, 9}

  /** The field invariant: options are digits, a solved field has exactly its
      value as option, an unsolved one still has a choice. */
  ghost predicate Valid(f: Field) {
    && (forall o :: o in f.options ==> 1 <= o <= 9)
    && (f.value.Some? ==> f.options == {f.value.value})
    && (f.value.None? ==> |f.options| >= 2)
  }

  /** The one element of a singleton set. */
  function Only(s: set<Int8>): (x: Int8)
    requires |s| == 1
    ensures s == {x}
  {
    var a :| a in s;
    assert s == {a} by {
      assert s == (s - {a}) + {a};
      assert |s - {a}| == 0;
    }
    assert forall b, c :: b in s && c in s ==> b == c;
    var x :| x in s;
    x
  }

  /** `Field::new`: an unsolved field with all nine digits open. */
  function New(): (f: Field)
    ensures Valid(f) && !IsSolved(f)
    ensures |f.options| == 9 && forall o :: o in f.options <==> 1 <= o <= 9
  {
    Field(None, Digits)
  }

  /** `Field::is_solved`. Under the invariant a field is solved exactly when a
      single option is left. */
  predicate IsSolved(f: Field)
    ensures Valid(f) ==> (IsSolved(f) <==> |f.options| == 1)
  {
    f.value.Some?
  }

  /** `Field::set`: fix the value of the field. */
  function Set(f: Field, v: Int8): (r: (Result<()>, Field))
    ensures r.0.Ok? <==> f.value == Some(v) || (f.value.None? && v in f.options)
    ensures r.0.Err? ==> r.1 == f
    ensures r.0.Err? ==> r.0.error == if f.value.Some? then AlreadySolved(v, f.value.value) else NotAnOption(v)
    ensures r.0.Ok? && Valid(f) ==> r.1 == Field(Some(v), {v})
    ensures r.0.Ok? ==> r.1 == if f.value.Some? then f else Field(Some(v), {v})
    ensures Valid(f) ==> Valid(r.1)
    ensures r.1.options <= f.options
  {
    match f.value
    case Some(x) =>
      if x == v then (Ok(()), f) else (Err(AlreadySolved(v, x)), f)
    case None =>
      if v !in f.options then (Err(NotAnOption(v)), f)
      else (Ok(()), Field(Some(v), {v}))
  }

  /** `Field::eliminate`: drop `v` from the options. The result is `Ok(true)`
      exactly when this solves the field; the option is removed even when the
      removal fails. */
  function Eliminate(f: Field, v: Int8): (r: (Result<bool>, Field))
    ensures r.1.options == f.options - {v}
    ensures r.0.Err? <==> f.options == {v}
    ensures r.0 == Ok(true) <==> v in f.options && |f.options| == 2
    ensures r.0 == Ok(true) ==> r.1.value.Some? && r.1.options == {r.1.value.value}
    ensures r.0 != Ok(true) ==> r.1.value == f.value
    ensures r.0.Err? ==> r.0.error == NoOptionsLeft
    ensures Valid(f) && r.0.Ok? ==> Valid(r.1)
    ensures Valid(f) ==> (r.0 == Ok(true) <==> !IsSolved(f) && IsSolved(r.1))
  {
    if v !in f.options then (Ok(false), f)
    else
      var rest := f.options - {v};
      assert |rest| == |f.options| - 1 by {
        assert f.options == rest + {v};
      }
      if |rest| == 0 then (Err(NoOptionsLeft), Field(f.value, rest))
      else if |rest| == 1 then (Ok(true), Field(Some(Only(rest)), rest))
      else (Ok(false), Field(f.value, rest))
  }

  /** A successful `set` is idempotent: repeating it succeeds and changes nothing. */
  lemma SetIdempotent(f: Field, v: Int8)
    requires Set(f, v).0.Ok?
    ensures Set(Set(f, v).1, v) == (Ok(()), Set(f, v).1)
  {
  }

  /** Eliminating a value twice: the second call reports no change and leaves
      the field as the first call left it. */
  lemma EliminateIdempotent(f: Field, v: Int8)
    ensures Eliminate(Eliminate(f, v).1, v) == (Ok(false), Eliminate(f, v).1)
  {
  }

  /** A subset is no larger than its superset. */
  lemma {:induction false} SubsetSize(a: set<Int8>, b: set<Int8>)
    requires a <= b
    ensures |a| <= |b|
  {
    if a != {} {
      var o :| o in a;
      assert a == (a - {o}) + {o};
      assert b == (b - {o}) + {o};
      SubsetSize(a - {o}, b - {o});
    }
  }

  /** Striking v from a valid field that keeps the options `spare`, none of
      them v, and at least two of them while unsolved, or that is solved with
      another value, removes nothing it keeps and solves nothing. */
  lemma EliminateSpared(f: Field, spare: set<Int8>, v: Int8)
    requires Valid(f) && spare <= f.options && v !in spare
    requires f.value.None? ==> |spare| >= 2
    requires f.value.Some? ==> f.value.value != v
    ensures Eliminate(f, v).0 == Ok(false)
    ensures Eliminate(f, v).1.value == f.value && Valid(Eliminate(f, v).1)
    ensures spare <= Eliminate(f, v).1.options
  {
    if f.value.None? && v in f.options {
      SubsetSize(spare + {v}, f.options);
      assert |spare + {v}| == |spare| + 1;
    }
  }

  /** Eliminate the values of `vs` one after the other, collecting the results
      (a loop of `eliminate` calls over a range). */
  function EliminateEach(f: Field, vs: seq<Int8>): (r: (seq<Result<bool>>, Field))
    ensures |r.0| == |vs|
  {
    if vs == [] then ([], f)
    else
      var (rs, g) := EliminateEach(f, vs[..|vs| - 1]);
      var (r, h) := Eliminate(g, vs[|vs| - 1]);
      (rs + [r], h)
  }

  /** Unfolding `EliminateEach` by its last value. */
  lemma EliminateEachSnoc(f: Field, vs: seq<Int8>, v: Int8)
    ensures var (rs, g) := EliminateEach(f, vs);
            EliminateEach(f, vs + [v]) == (rs + [Eliminate(g, v).0], Eliminate(g, v).1)
  {
    assert (vs + [v])[..|vs|] == vs;
  }

  /** Eliminating distinct options of an unsolved field, one at a time, so
      that at least two options remain: every call reports no progress, the
      field stays unsolved and loses exactly the eliminated values. */
  lemma {:induction false} EliminateEachKeepsChoice(f: Field, vs: seq<Int8>)
    requires f.value.None?
    requires forall i :: 0 <= i < |vs| ==> vs[i] in f.options
    requires forall i, j :: 0 <= i < j < |vs| ==> vs[i] != vs[j]
    requires |f.options| >= |vs| + 2
    ensures forall i :: 0 <= i < |vs| ==> EliminateEach(f, vs).0[i] == Ok(false)
    ensures EliminateEach(f, vs).1.value == None
    ensures forall o :: o in EliminateEach(f, vs).1.options <==> o in f.options && o !in vs
    ensures |EliminateEach(f, vs).1.options| == |f.options| - |vs|
  {
    if vs != [] {
      var n := |vs| - 1;
      var front := vs[..n];
      assert vs == front + [vs[n]];
      EliminateEachKeepsChoice(f, front);
      EliminateEachSnoc(f, front, vs[n]);
      var g := EliminateEach(f, front).1;
      assert vs[n] !in front;
      assert vs[n] in g.options;
      assert |g.options - {vs[n]}| == |g.options| - 1 by {
        assert g.options == (g.options - {vs[n]}) + {vs[n]};
      }
    }
  }

  /** Eliminating one of the last two options solves the field with the other. */
  lemma EliminateSolvesWithOther(x: Int8, v: Int8)
    requires x != v
    ensures Eliminate(Field(None, {x, v}), v) == (Ok(true), Field(Some(x), {x}))
  {
    assert {x, v} - {v} == {x};
    assert Only({x}) == x;
  }

  /** A set of two elements consists of any two distinct members of it. */
  lemma TwoElements(s: set<Int8>, a: Int8, b: Int8)
    requires |s| == 2 && a in s && b in s && a != b
    ensures s == {a, b}
  {
    var rest := s - {a, b};
    assert s == rest + {a, b};
    assert |rest + {a, b}| == |rest| + 2;
  }

  /** Eliminating, one at a time, every option of an unsolved field but x,
      with v last: every call succeeds, only the last reports progress, and
      the field ends solved with x. */
  lemma EliminateEachDownTo(f: Field, vs: seq<Int8>, x: Int8, v: Int8)
    requires f.value.None?
    requires forall i :: 0 <= i < |vs| ==> vs[i] in f.options
    requires forall i, j :: 0 <= i < j < |vs| ==> vs[i] != vs[j]
    requires x in f.options && v in f.options && x != v && x !in vs && v !in vs
    requires |f.options| == |vs| + 2
    ensures forall i :: 0 <= i < |vs| ==> EliminateEach(f, vs + [v]).0[i] == Ok(false)
    ensures EliminateEach(f, vs + [v]).0[|vs|] == Ok(true)
    ensures EliminateEach(f, vs).1 == Field(None, {x, v})
    ensures EliminateEach(f, vs + [v]).1 == Field(Some(x), {x})
  {
    EliminateEachKeepsChoice(f, vs);
    var g := EliminateEach(f, vs).1;
    TwoElements(g.options, x, v);
    EliminateEachSnoc(f, vs, v);
    EliminateSolvesWithOther(x, v);
  }

  /** Eliminating 1 to 7 from a fresh field reports no progress each time and
      leaves {8, 9}, unsolved; eliminating 9 next solves the field with 8. */
  lemma EliminateOneToSevenThenNine()
    ensures forall i :: 0 <= i < 7 ==> EliminateEach(New(), [1, 2, 3, 4, 5, 6, 7, 9]).0[i] == Ok(false)
    ensures EliminateEach(New(), [1, 2, 3, 4, 5, 6, 7]).1 == Field(None, {8, 9})
    ensures EliminateEach(New(), [1, 2, 3, 4, 5, 6, 7, 9]).0[7] == Ok(true)
    ensures EliminateEach(New(), [1, 2, 3, 4, 5, 6, 7, 9]).1 == Field(Some(8), {8})
  {
    var vs: seq<Int8> := [1, 2, 3, 4, 5, 6, 7];
    EliminateEachDownTo(New(), vs, 8, 9);
    assert vs + [9] == [1, 2, 3, 4, 5, 6, 7, 9];
  }

  /** Eliminating 1 to 3 from a fresh field succeeds and leaves six options,
      3 not among them, unsolved. */
  lemma EliminateOneToThree()
    ensures forall i :: 0 <= i < 3 ==> EliminateEach(New(), [1, 2, 3]).0[i].Ok?
    ensures var g := EliminateEach(New(), [1, 2, 3]).1;
      |g.options| == 6 && 3 !in g.options && !IsSolved(g)
  {
    EliminateEachKeepsChoice(New(), [1, 2, 3]);
  }

  /** Eliminating 1 to 3 and then 5 to 9 from a fresh field succeeds every
      time and solves the field with 4, its only option. */
  lemma EliminateAllButFour()
    ensures forall i :: 0 <= i < 8 ==> EliminateEach(New(), [1, 2, 3, 5, 6, 7, 8, 9]).0[i].Ok?
    ensures EliminateEach(New(), [1, 2, 3, 5, 6, 7, 8, 9]).1 == Field(Some(4), {4})
  {
    var ws: seq<Int8> := [1, 2, 3, 5, 6, 7, 8];
    EliminateEachDownTo(New(), ws, 4, 9);
    assert ws + [9] == [1, 2, 3, 5, 6, 7, 8, 9];
  }

  /** `set` on a fresh field solves it; a second, different `set` reports the
      existing solution; `set` of an eliminated value reports it is no option. */
  lemma SetScenario()
    ensures Set(New(), 8) == (Ok(()), Field(Some(8), {8}))
    ensures Set(Field(Some(8), {8}), 1) == (Err(AlreadySolved(1, 8)), Field(Some(8), {8}))
    ensures Set(Eliminate(New(), 3).1, 3).0 == Err(NotAnOption(3))
  {
  }
}
