/** The 9x9 board (src/board.rs, and its copy in src/main.rs): parsing the
    puzzle text, access to single fields, and the solved count. */
module Boards {
  import opened Common
  import opened Fields
  import opened Grids
  import opened Text

  /** A numeric token that the fresh field it lands on refuses. */
  predicate Refused(val: Option<Int8>) {
    val.Some? && !(1 <= val.value <= 9)
  }

  /** What a token leaves in its field when parsing succeeds. */
  function Expected(val: Option<Int8>): Field {
    match val
    case None => New()
    case Some(n) => Field(Some(n), {n})
  }

  /** `parts.iter().map(|x| x.parse().ok())`: the value of every token. */
  function Values(parts: seq<string>): (vals: seq<Option<Int8>>)
    ensures |vals| == |parts|
  {
    seq(|parts|, i requires 0 <= i < |parts| => ParseI8(parts[i]))
  }

  /** The loop of `Board::parse` over the first i values, starting from a new
      board: value n at index k calls `set(n)` on field (k % 9, k / 9), which
      is entry k of the grid; the first failure ends the loop. */
  function Fill(vals: seq<Option<Int8>>, i: nat): (r: Result<Grid>)
    requires |vals| == 81 && i <= 81
    ensures r.Ok? ==> |r.value| == 81
  {
    if i == 0 then Ok(NewGrid())
    else
      match Fill(vals, i - 1)
      case Err(e) => Err(e)
      case Ok(g) =>
        if vals[i - 1].None? then Ok(g)
        else
          var (res, f) := Set(g[i - 1], vals[i - 1].value);
          if res.Err? then Err(res.error) else Ok(g[i - 1 := f])
  }

  /** `Board::parse` as a function of the text. */
  function ParseGrid(printout: string): (r: Result<Grid>)
    ensures r.Ok? ==> |r.value| == 81
  {
    var parts := Tokens(printout);
    if |parts| != 81 then Err(WrongCount(|parts|))
    else Fill(Values(parts), 81)
  }

  /** Once the loop has failed, later tokens change nothing. */
  lemma {:induction false} FillStaysFailed(vals: seq<Option<Int8>>, i: nat, j: nat)
    requires |vals| == 81 && i <= j <= 81 && Fill(vals, i).Err?
    ensures Fill(vals, j) == Fill(vals, i)
  {
    if i < j {
      FillStaysFailed(vals, i, j - 1);
    }
  }

  /** The loop succeeds exactly when no numeric token so far lies outside
      1..9; then each visited field holds its token's value and the others are
      fresh. Otherwise it fails on the first refused number, as `set` does. */
  lemma {:induction false} FillSpec(vals: seq<Option<Int8>>, i: nat)
    requires |vals| == 81 && i <= 81
    ensures Fill(vals, i).Ok? <==> forall k :: 0 <= k < i ==> !Refused(vals[k])
    ensures Fill(vals, i).Ok? ==>
      forall k :: 0 <= k < 81 ==> Fill(vals, i).value[k] == if k < i then Expected(vals[k]) else New()
    ensures Fill(vals, i).Err? ==>
      exists k :: 0 <= k < i && Refused(vals[k]) && (forall j :: 0 <= j < k ==> !Refused(vals[j]))
                  && Fill(vals, i).error == NotAnOption(vals[k].value)
  {
    if i > 0 {
      FillSpec(vals, i - 1);
      var prev := Fill(vals, i - 1);
      if prev.Ok? {
        assert prev.value[i - 1] == New();
        if vals[i - 1].Some? {
          var n := vals[i - 1].value;
          if Refused(vals[i - 1]) {
            assert Fill(vals, i).error == NotAnOption(n);
          } else {
            assert Set(New(), n).1 == Field(Some(n), {n});
          }
        }
      }
    }
  }

  /** `Board::parse`: fewer or more than 81 tokens fail with their count;
      otherwise parsing succeeds exactly when every numeric token lies in
      1..9, and then field (k % 9, k / 9) holds token k's value, or is fresh
      for a placeholder. No row or column consistency is checked. A refused
      number fails with the not-an-option error of `set`. */
  lemma ParseGridSpec(printout: string)
    ensures var parts := Tokens(printout);
      && (|parts| != 81 ==> ParseGrid(printout) == Err(WrongCount(|parts|)))
      && (|parts| == 81 ==>
            (ParseGrid(printout).Ok? <==> forall k :: 0 <= k < 81 ==> !Refused(Values(parts)[k])))
      && (ParseGrid(printout).Ok? ==>
            |parts| == 81 && forall k :: 0 <= k < 81 ==> ParseGrid(printout).value[k] == Expected(Values(parts)[k]))
      && (|parts| == 81 && ParseGrid(printout).Err? ==>
            exists k :: 0 <= k < 81 && Refused(Values(parts)[k]) && ParseGrid(printout).error == NotAnOption(Values(parts)[k].value))
  {
    var parts := Tokens(printout);
    if |parts| == 81 {
      FillSpec(Values(parts), 81);
    }
  }

  /** How many values are numbers. */
  function CountNumeric(vals: seq<Option<Int8>>): nat {
    if vals == [] then 0 else (if vals[0].Some? then 1 else 0) + CountNumeric(vals[1..])
  }

  /** A grid whose solved fields are exactly those of the numeric tokens has
      as many solved fields as there are numeric tokens. */
  lemma {:induction false} CountSolvedOfValues(g: Grid, vals: seq<Option<Int8>>)
    requires |g| == |vals|
    requires forall k :: 0 <= k < |g| ==> (IsSolved(g[k]) <==> vals[k].Some?)
    ensures CountSolved(g) == CountNumeric(vals)
  {
    if g != [] {
      assert forall k :: 1 <= k < |g| ==> g[1..][k - 1] == g[k] && vals[1..][k - 1] == vals[k];
      CountSolvedOfValues(g[1..], vals[1..]);
    }
  }

  /** A parsed board satisfies the field invariant everywhere, and its solved
      count is the number of numeric tokens. */
  lemma ParsedBoard(printout: string)
    requires ParseGrid(printout).Ok?
    ensures ValidGrid(ParseGrid(printout).value)
    ensures CountSolved(ParseGrid(printout).value) == CountNumeric(Values(Tokens(printout)))
  {
    var parts := Tokens(printout);
    var vals := Values(parts);
    assert |parts| == 81;
    FillSpec(vals, 81);
    var g := Fill(vals, 81).value;
    forall k | 0 <= k < 81
      ensures Valid(g[k]) && (IsSolved(g[k]) <==> vals[k].Some?)
    {
      assert g[k] == Expected(vals[k]) && !Refused(vals[k]);
    }
    CountSolvedOfValues(g, vals);
  }

  /** The token a field is written as: its value, or `_` while unsolved. */
  function CellToken(f: Field): string {
    if f.value.Some? then Show(f.value.value) else "_"
  }

  /** The grid written out row by row, tokens separated by spaces. */
  function Render(g: Grid): string {
    Join(seq(|g|, k requires 0 <= k < |g| => CellToken(g[k])))
  }

  /** Parsing is a left inverse of rendering on values: a board written out
      and read back has the same values in the same fields, its solved fields
      intact and its unsolved fields fresh again. */
  lemma ParseRender(g: Grid)
    requires ValidGrid(g)
    ensures ParseGrid(Render(g)).Ok?
    ensures forall k :: 0 <= k < 81 ==> ParseGrid(Render(g)).value[k].value == g[k].value
    ensures forall k :: 0 <= k < 81 ==> ParseGrid(Render(g)).value[k] == if IsSolved(g[k]) then g[k] else New()
  {
    var ts := seq(|g|, k requires 0 <= k < |g| => CellToken(g[k]));
    forall k | 0 <= k < |ts|
      ensures ts[k] != [] && IsWord(ts[k])
      ensures ParseI8(ts[k]) == g[k].value
    {
      if g[k].value.Some? {
        ShowIsWord(g[k].value.value);
        ParseShow(g[k].value.value);
      } else {
        assert ts[k] == "_";
      }
    }
    TokensJoin(ts);
    assert Tokens(Render(g)) == ts;
    var vals := Values(ts);
    forall k | 0 <= k < 81
      ensures !Refused(vals[k])
    {
      if g[k].value.Some? {
        assert g[k].value.value in g[k].options;
      }
    }
    ParseGridSpec(Render(g));
  }

  /** The example of a wrong input: three tokens instead of 81. */
  lemma ParseWrongCountExample()
    ensures ParseGrid("ala ma kota") == Err(WrongCount(3))
  {
    TokensOfExample();
  }

  /** A text of 81 tokens none of which reads as a number, such as the
      all-placeholder board of the solver test, parses to a new board. */
  lemma ParseEmptyBoard(printout: string)
    requires |Tokens(printout)| == 81
    requires forall k :: 0 <= k < 81 ==> ParseI8(Tokens(printout)[k]).None?
    ensures ParseGrid(printout) == Ok(NewGrid())
  {
    var vals := Values(Tokens(printout));
    assert forall k :: 0 <= k < 81 ==> vals[k].None?;
    FillSpec(vals, 81);
    var g := Fill(vals, 81).value;
    assert forall k :: 0 <= k < 81 ==> g[k] == New();
    assert g == NewGrid();
  }

  /** The board test: one solved field on a new board makes the solved count
      1, so the board is not solved. */
  lemma NewGridOneSolved(k: nat, f: Field)
    requires k < 81 && IsSolved(f)
    ensures CountSolved(NewGrid()[k := f]) == 1
  {
    CountSolvedSolveOne(NewGrid(), k, f);
  }

  /** The board: a 9x9 array of fields indexed `fields[x, y]`, x the column
      (outer index) and y the row. Fields are changed in place. */
  class Board {
    const fields: array2<Field>

    ghost predicate Valid() {
      fields.Length0 == 9 && fields.Length1 == 9
    }

    /** The fields in linear order: entry i is `fields[i % 9, i / 9]`. */
    function Cells(): (g: Grid)
      requires Valid()
      reads fields
      ensures |g| == 81
      ensures forall x, y :: 0 <= x < 9 && 0 <= y < 9 ==> g[Index(x, y)] == fields[x, y]
    {
      seq(81, i requires 0 <= i < 81 reads fields => fields[Col(i), Row(i)])
    }

    /** `Board::new`: 81 fresh fields, none of them solved. */
    constructor ()
      ensures Valid() && fresh(fields)
      ensures Cells() == NewGrid() && NumSolved() == 0
    {
      fields := new Field[9, 9]((x, y) => New());
      new;
      assert forall i :: 0 <= i < 81 ==> Cells()[i] == New();
    }

    /** `Board::field(x, y)`: the field in column x and row y. */
    function FieldAt(x: nat, y: nat): (f: Field)
      requires Valid() && x < 9 && y < 9
      reads fields
      ensures f == Cells()[Index(x, y)]
    {
      fields[x, y]
    }

    /** `Board::field_seq(i)`: the field at linear index i, that is field
        (i % 9, i / 9). */
    function FieldSeq(i: nat): (f: Field)
      requires Valid() && i < 81
      reads fields
      ensures f == Cells()[i] && f == FieldAt(Col(i), Row(i))
    {
      IndexOfCoordinates(i);
      fields[i % 9, i / 9]
    }

    /** `Board::num_solved`: how many of the 81 fields are solved; all 81
        exactly when every field is solved. */
    function NumSolved(): (n: nat)
      requires Valid()
      reads fields
      ensures n <= 81
      ensures n == 81 <==> forall x, y :: 0 <= x < 9 && 0 <= y < 9 ==> Fields.IsSolved(FieldAt(x, y))
    {
      var g := Cells();
      assert forall i :: 0 <= i < 81 ==> g[i] == FieldAt(Col(i), Row(i)) by {
        forall i | 0 <= i < 81 ensures g[i] == FieldAt(Col(i), Row(i)) {
          IndexOfCoordinates(i);
        }
      }
      CountSolved(g)
    }

    /** `Board::is_solved`: every field is solved. */
    function IsSolved(): (b: bool)
      requires Valid()
      reads fields
      ensures b <==> forall x, y :: 0 <= x < 9 && 0 <= y < 9 ==> Fields.IsSolved(FieldAt(x, y))
    {
      NumSolved() == 81
    }

    /** Writing field (x, y) changes entry Index(x, y) of Cells() and no other. */
    lemma CellsAfterWrite(old_cells: Grid, x: nat, y: nat, f: Field)
      requires Valid() && x < 9 && y < 9 && |old_cells| == 81
      requires fields[x, y] == f
      requires forall i :: 0 <= i < 81 && i != Index(x, y) ==> fields[Col(i), Row(i)] == old_cells[i]
      ensures Cells() == old_cells[Index(x, y) := f]
    {
      forall i | 0 <= i < 81
        ensures Cells()[i] == old_cells[Index(x, y) := f][i]
      {
        IndexOfCoordinates(i);
      }
    }

    /** `field(x, y).set(v)`, which the source also calls `solve`: `set` on
        that field, with the new field stored in its place. */
    method SolveField(x: nat, y: nat, v: Int8) returns (r: Result<()>)
      requires Valid() && x < 9 && y < 9
      modifies fields
      ensures r == Set(old(FieldAt(x, y)), v).0
      ensures Cells() == old(Cells())[Index(x, y) := Set(old(FieldAt(x, y)), v).1]
    {
      var (res, f) := Set(fields[x, y], v);
      forall i | 0 <= i < 81 && i != Index(x, y)
        ensures Col(i) != x || Row(i) != y
      {
        IndexOfCoordinates(i);
      }
      fields[x, y] := f;
      CellsAfterWrite(old(Cells()), x, y, f);
      r := res;
    }

    /** `field(x, y).eliminate(v)`: `eliminate` on that field, with the new
        field stored in its place (also when it fails). */
    method EliminateField(x: nat, y: nat, v: Int8) returns (r: Result<bool>)
      requires Valid() && x < 9 && y < 9
      modifies fields
      ensures r == Eliminate(old(FieldAt(x, y)), v).0
      ensures Cells() == old(Cells())[Index(x, y) := Eliminate(old(FieldAt(x, y)), v).1]
    {
      var (res, f) := Eliminate(fields[x, y], v);
      forall i | 0 <= i < 81 && i != Index(x, y)
        ensures Col(i) != x || Row(i) != y
      {
        IndexOfCoordinates(i);
      }
      fields[x, y] := f;
      CellsAfterWrite(old(Cells()), x, y, f);
      r := res;
    }

    /** The loop of `Board::parse`: the values set one by one on a new
        board, stopping at the first failure. */
    static method FillBoard(vals: seq<Option<Int8>>) returns (r: Result<Board>)
      requires |vals| == 81
      ensures r.Ok? <==> Fill(vals, 81).Ok?
      ensures r.Err? ==> r.error == Fill(vals, 81).error
      ensures r.Ok? ==> r.value.Valid() && fresh(r.value.fields) && r.value.Cells() == Fill(vals, 81).value
    {
      var b := new Board();
      for i := 0 to 81
        invariant b.Valid() && fresh(b.fields)
        invariant Fill(vals, i) == Ok(b.Cells())
      {
        if vals[i].Some? {
          IndexOfCoordinates(i);
          ghost var g := b.Cells();
          var res := b.SolveField(i % 9, i / 9, vals[i].value);
          assert Set(g[i], vals[i].value).0 == res;
          if res.Err? {
            assert Fill(vals, i + 1) == Err(res.error);
            FillStaysFailed(vals, i + 1, 81);
            return Err(res.error);
          }
          assert Fill(vals, i + 1) == Ok(b.Cells());
        }
      }
      return Ok(b);
    }

    /** `Board::parse`: the board `ParseGrid` describes, or its error. On a
        failure the partly filled board is dropped. */
    static method Parse(printout: string) returns (r: Result<Board>)
      ensures r.Ok? <==> ParseGrid(printout).Ok?
      ensures r.Err? ==> r.error == ParseGrid(printout).error
      ensures r.Ok? ==> r.value.Valid() && fresh(r.value.fields) && r.value.Cells() == ParseGrid(printout).value
    {
      var parts := Tokens(printout);
      if |parts| != 81 {
        return Err(WrongCount(|parts|));
      }
      r := FillBoard(Values(parts));
    }
  }
}
