# sudok: a verified model of the candidate-elimination Sudoku core

sudok is a small Rust Sudoku helper. A **field** is one cell of the puzzle. It
holds an optional solved value and the set of options still open for it. A
**board** is a 9×9 array of fields. `Board::parse` reads a puzzle text of 81
whitespace-separated tokens, numbers or placeholders. The solver
`EliminateObviousSolver::apply` makes one pass over the board: every field
that is solved when the pass reaches it has its value struck from the options
of the other fields in its column and in its row. A field left with one option becomes solved, and one left with no
option ends the pass with an error.

This project models that core in Dafny and proves properties of the model.

- `common.dfy` (module `Common`): the `i8` range, `Option`, `Result`, and the
  error kinds. The source reports its errors as formatted strings.
- `field.dfy` (module `Fields`): the field as a value.
  - `Set` and `Eliminate` are pure functions that return the result and the
    new field.
  - `Valid` is the field invariant: options are digits, a solved field has
    only its value as option, and an unsolved field keeps at least two
    options.
  - The unit tests of the field are stated as lemmas over a fold of
    `eliminate` calls.
- `grid.dfy` (module `Grids`): the 81 fields as a sequence.
  - Field `(x, y)` is entry `x + 9 * y`.
  - It also defines the solved count.
- `text.dfy` (module `Text`): reading the text. Whitespace splitting and
  empty-piece filtering become `Tokens`, and `i8` parsing becomes `ParseI8`.
  The round trips are `Tokens(Join(ts)) == ts` and `ParseI8(Show(n)) == Some(n)`.
- `board.dfy` (module `Boards`): the class `Board` over an `array2<Field>`
  whose fields are updated in place.
  - `Board.Parse` is proved equal to the pure specification `ParseGrid`.
  - `ParseGrid` is characterised completely: which texts parse, and what
    each field holds afterwards.
- `solver.dfy` (module `Solving`): the pass as the method `Apply` with the
  source's two nested loops.
  - `Apply` is proved equal to `ApplySpec`, a fold that mirrors those loops.
  - Lemmas state what a pass does:
    - It only removes options.
    - Every removed option is the value of a peer.
    - The progress flag means that the solved count went up.
    - After a successful pass every value solved before the pass is gone
      from its peers. A field the pass itself solves can keep its value among
      the options of peers the pass had already visited.
    - A pass that reports no progress is a fixed point.
    - Duplicate values in a row or column make the pass fail.

Where the source disagrees with its own comments or tests, the model follows
the code:

- `eliminate` returns `Ok(true)` only when the removal solves the field
  (src/field.rs:55-62). The board test at src/board.rs:79-81 expects `true`
  for removals that leave several options. That assertion does not hold
  against the code. The copy of the test in src/main.rs:171-173 expects
  `false`, as the code does; see `Fields.EliminateOneToSevenThenNine`.
- The comment on `apply` (src/solver.rs:10) says the result is `true` when
  the board state was updated. The code sets the flag only when an
  `eliminate` call solves a field. `Solving.ApplyProgress` states the code's
  meaning. `Solving.ApplyScenario` shows a pass that removes options but
  returns `Ok(false)`.
- `Board::parse` in src/board.rs:38 calls `solve`, which `Field` does not
  define. The copy in src/main.rs:104 calls `set`, and the model uses `set`.
- A failing `eliminate` has already removed the option, leaving the field with
  no options. The board keeps that field; `Run.Aborted` carries it.

## Model

| member | source | states |
|---|---|---|
| Fields.New | src/field.rs:13-20 | A new field is unsolved, satisfies the field invariant, and has exactly the nine options 1..9. |
| Fields.IsSolved | src/field.rs:26-31 | Under the field invariant, a field is solved exactly when one option is left. |
| Fields.Set | src/field.rs:33-47 | Succeeds exactly when the field already has the value v, or is unsolved with v as an option. On success a field already solved with v is returned unchanged, whatever its options, and an unsolved field becomes `Some(v)` with options `{v}`. On failure the field is unchanged, and the error is already-solved (with both values) or not-an-option. Options never grow, and the invariant is kept. |
| Fields.Eliminate | src/field.rs:49-64 | The options become the old options minus v, even on failure. Fails exactly when v was the only option. Returns `Ok(true)` exactly when v was one of two options, and then the field is solved with the remaining one. Otherwise the value is unchanged. The invariant is kept on success. |
| Fields.SetIdempotent | src/field.rs:34-35 | Repeating a successful `set` with the same value succeeds and changes nothing. |
| Fields.EliminateIdempotent | src/field.rs:50-53 | Eliminating a value a second time returns `Ok(false)` and leaves the field as the first call left it. |
| Fields.EliminateEach | src/field.rs:83-91 | The loops of `eliminate` calls in the field tests: one result per eliminated value. It has no other ensures. `EliminateEachSnoc` unfolds it by its last value, and `EliminateEachKeepsChoice` and `EliminateEachDownTo` give its outcome for distinct options. |
| Fields.EliminateEachKeepsChoice | src/field.rs:49-64 | Eliminating distinct options one by one, while two or more remain, gives `Ok(false)` every time. The field stays unsolved and loses exactly those values. |
| Fields.EliminateEachDownTo | src/field.rs:55-61 | Eliminating every option but x, with v last, gives `Ok(false)` until the final call. The final call gives `Ok(true)` and leaves the field solved with x. |
| Fields.EliminateOneToThree | src/field.rs:81-88 | From a new field, eliminating 1, 2 and 3 succeeds and leaves six options without 3, unsolved. |
| Fields.EliminateAllButFour | src/field.rs:89-95 | Eliminating 5..9 next succeeds every time and leaves the field solved with 4, its only option. |
| Fields.EliminateOneToSevenThenNine | src/main.rs:168-177 | Eliminating 1..7 from a new field gives `Ok(false)` each time and leaves `{8, 9}` unsolved. Eliminating 9 then gives `Ok(true)` and solves the field with 8. |
| Fields.SetScenario | src/field.rs:98-117 | `set(8)` solves a new field. A later `set(1)` fails with already-solved (1, 8). `set(3)` after eliminating 3 fails with not-an-option. |
| Grids.Index | src/board.rs:45-51 | Field (x, y) has linear index below 81, with column `i % 9 == x` and row `i / 9 == y`. |
| Grids.IndexOfCoordinates | src/board.rs:49-51 | Every index below 81 is the index of its own column and row, so `field_seq(i)` and `field(i % 9, i / 9)` address every field exactly once. |
| Grids.NewGrid | src/board.rs:10-24 | A new board has 81 new fields, all valid, none solved. |
| Grids.CountSolved | src/board.rs:63-65 | The solved count is at most the number of fields. It equals that number exactly when all are solved, and is 0 exactly when none is. |
| Grids.CountSolvedMonotonic | src/board.rs:63-65 | If solved fields stay solved, the count cannot drop. It rises if any unsolved field becomes solved. |
| Grids.CountSolvedSolveOne | src/board.rs:86-87 | Solving one unsolved field adds exactly one to the count. |
| Text.IsWhitespace | src/board.rs:27 | `char::is_whitespace`, given as the Unicode White_Space code points. It has no ensures; `WhitespaceChars` states its properties. |
| Text.WhitespaceChars | src/board.rs:27 | Space, tab, newline and carriage return are whitespace. No digit, sign or `_` is whitespace, so whitespace never falls inside a number or placeholder token. |
| Text.Split | src/board.rs:27 | `split(char::is_whitespace)` gives at least one piece; that is its only ensures. `SplitPieces`, `SplitCount`, `SplitWord` and `SplitAtWhitespace` characterise it. |
| Text.SplitPieces | src/board.rs:27 | The pieces of `split(char::is_whitespace)` are free of whitespace, and together they hold the text's non-whitespace characters in order. |
| Text.SplitCount | src/board.rs:27 | There is one more piece than there are whitespace characters in the text, so every whitespace character ends a piece. |
| Text.SplitWord | src/board.rs:27 | A text without whitespace is a single piece. |
| Text.SplitAtWhitespace | src/board.rs:27 | The pieces of a + c + b, with c whitespace, are the pieces of a followed by the pieces of b. |
| Text.NonEmpty | src/board.rs:27 | The empty-piece filter keeps at most as many pieces as it is given; that is its only ensures. `NonEmptyPieces`, `NonEmptyAppend` and `NonEmptySnoc` characterise it. |
| Text.NonEmptyPieces | src/board.rs:27 | The filter keeps only non-empty pieces drawn from the input, and loses no character. |
| Text.NonEmptyAppend | src/board.rs:27 | Filtering a concatenation filters each part and keeps their order. |
| Text.NonEmptySnoc | src/board.rs:27 | The filter is the input with its empty pieces dropped, in order: one more piece is added at the end unless it is empty. |
| Text.Tokens | src/board.rs:27 | Tokens are non-empty and whitespace-free, and together they hold every non-whitespace character of the text in order. |
| Text.TokensWord | src/board.rs:27 | A non-empty text without whitespace is exactly one token. |
| Text.TokensAtWhitespace | src/board.rs:27 | Tokens end exactly at whitespace: the tokens of a + c + b, with c whitespace, are the tokens of a followed by the tokens of b. With the empty text having no tokens and `TokensWord`, this fixes the tokens, and so the count `parse` checks, of every text. |
| Text.TokensJoin | src/board.rs:27 | Tokenising inverts writing non-empty words separated by spaces. |
| Text.ParseI8 | src/board.rs:31 | A token reads as a number only if it is an optional sign followed by decimal digits. |
| Text.ParseI8Numeral | src/board.rs:31 | Every numeral, unsigned or with a leading `+` or `-`, reads as its signed decimal value when that lies in -128..127, and as no number otherwise. |
| Text.ParseI8OnlyNumerals | src/board.rs:31 | Only such numerals read as numbers: a token that reads as n is an unsigned numeral of value n, or a sign followed by a numeral whose signed value is n. |
| Text.ParseShow | src/board.rs:31 | Every `i8` written in decimal reads back as itself. |
| Text.ParseI8Examples | src/board.rs:31 | Placeholders, empty text, a lone sign and out-of-range numbers are not `i8`. `-128`, `+7` and `007` are read as Rust reads them. |
| Text.TokensOfExample | src/board.rs:108 | "ala ma kota" has the three tokens "ala", "ma" and "kota". |
| Boards.Fill | src/board.rs:33-40 | The loop of `parse` over the first i values produces 81 fields when it succeeds. |
| Boards.Values | src/board.rs:31 | Reading every token as an `i8` gives one value per token; that is its only ensures. Each value is `ParseI8` of its token, which `ParseI8Numeral` and `ParseI8OnlyNumerals` characterise. |
| Boards.ParseGrid | src/board.rs:26-43 | `Board::parse` as a function of the text, with 81 fields on success; that is its only ensures. `ParseGridSpec` characterises it completely, and `Board.Parse` is proved equal to it. |
| Boards.FillStaysFailed | src/board.rs:38 | Once a `set` has failed (the `?`), later tokens change nothing. |
| Boards.FillSpec | src/board.rs:33-40 | The loop succeeds exactly when no number so far lies outside 1..9. Then the visited fields hold their tokens' values and the others are new. Otherwise it fails with not-an-option for the first refused number. |
| Boards.ParseGridSpec | src/board.rs:26-43 | A token count other than 81 fails with that count. Otherwise parsing succeeds exactly when every number is in 1..9, and field k then holds token k's value, or is new for a placeholder. Failure names a refused number. |
| Boards.ParsedBoard | src/board.rs:112-118 | A parsed board satisfies the field invariant, and its solved count equals its number of numeric tokens. |
| Boards.CountSolvedOfValues | src/board.rs:63-65 | When exactly the fields of the numeric tokens are solved, the solved count is the number of numeric tokens. |
| Boards.ParseRender | src/board.rs:26-43 | Writing a valid board out and parsing it back gives the same values. Solved fields come back intact and unsolved ones come back new. |
| Boards.ParseWrongCountExample | src/board.rs:108 | Parsing "ala ma kota" fails with the wrong-count error for 3 tokens. |
| Boards.ParseEmptyBoard | src/solver.rs:46-60 | Any text of 81 tokens none of which reads as a number, such as the all-placeholder board of the solver test, parses to a new board. |
| Boards.NewGridOneSolved | src/board.rs:83-87 | A new board with one field solved has solved count 1, so it is not solved. |
| Boards.Board.constructor | src/board.rs:10-24 | A new board has 81 new fields and no solved field. |
| Boards.Board.Cells | src/board.rs:5-7 | Entry `x + 9 * y` of the linear view is `fields[x][y]`. |
| Boards.Board.FieldAt | src/board.rs:45-47 | `field(x, y)` is entry `x + 9 * y` of the board. |
| Boards.Board.FieldSeq | src/board.rs:49-51 | `field_seq(i)` is entry i of the board, and equals `field(i % 9, i / 9)`. |
| Boards.Board.NumSolved | src/board.rs:53-65 | The solved count is at most 81, and equals 81 exactly when every field (x, y) is solved. |
| Boards.Board.IsSolved | src/board.rs:67-69 | The board is solved exactly when every field is solved. |
| Boards.Board.SolveField | src/board.rs:38 | `field(x, y).set(v)` returns `Set`'s result. Field (x, y) becomes `Set`'s new field, and no other field changes. |
| Boards.Board.EliminateField | src/solver.rs:24 | `field(x, y).eliminate(v)` returns `Eliminate`'s result. Field (x, y) becomes `Eliminate`'s new field (also on failure), and no other field changes. |
| Boards.Board.FillBoard | src/board.rs:33-42 | Running the loop in place on a new board succeeds exactly when `Fill` does, with the same error or the same 81 fields. |
| Boards.Board.Parse | src/board.rs:26-43 | The method succeeds exactly when `ParseGrid` does, with the same error, or with a new board whose fields are `ParseGrid`'s. |
| Solving.Strike | src/solver.rs:24-26 | One `eliminate(v)?` changes only field (x, y), to `Eliminate`'s new field. An ended pass stays ended, and a set progress flag stays set. |
| Solving.Round | src/solver.rs:22-33 | One round of the inner loop leaves the solved field itself unchanged. It keeps an ended pass ended and a set progress flag set. |
| Solving.Inner | src/solver.rs:22-33 | The inner loop leaves the solved field itself unchanged. |
| Solving.Visit | src/solver.rs:14-33 | One round of the outer loop keeps the 81 fields; that is its only ensures. It skips an unsolved field and runs `Inner` for a solved one, and `VisitFollows` gives its effect. |
| Solving.Outer | src/solver.rs:13-34 | The first i rounds of the outer loop keep the 81 fields; that is its only ensures. `OuterFollows`, `OuterClears`, `OuterIdle`, `OuterQuiet` and `OuterStaysAborted` characterise it. |
| Solving.ApplySpec | src/solver.rs:11-37 | `apply` as a function of the board: the result and the 81 fields afterwards; that is its only ensures. The `Apply*` lemmas characterise it, and `Apply` is proved equal to it. |
| Solving.InnerStaysAborted | src/solver.rs:24-29 | After a failing `eliminate`, the rest of the inner loop changes nothing. |
| Solving.OuterStaysAborted | src/solver.rs:13-34 | After a failing `eliminate`, the rest of the outer loop changes nothing. |
| Solving.EliminateAt | src/solver.rs:24-26 | The in-place `eliminate` with progress update leaves the board and result that `Strike` describes. |
| Solving.ClearPeers | src/solver.rs:19-33 | The in-place inner loop leaves the board and result that `Inner` describes. |
| Solving.VisitField | src/solver.rs:14-33 | One in-place round of the outer loop, skipping an unsolved field, leaves the board and result that `Visit` describes. |
| Solving.Apply | src/solver.rs:11-37 | The in-place pass returns `ApplySpec`'s result and leaves `ApplySpec`'s fields. |
| Solving.StrikeFollows | src/solver.rs:24-29 | Striking a peer's value from a field narrows the grid. The removed option is that peer's value. Progress is reported exactly when a field was solved, and values are kept otherwise. |
| Solving.RoundFollows | src/solver.rs:22-33 | The same holds for one round of the inner loop. |
| Solving.InnerFollows | src/solver.rs:22-33 | The same holds for the whole inner loop of a solved field. |
| Solving.VisitFollows | src/solver.rs:14-33 | The same holds for one round of the outer loop, including skipping an unsolved field. |
| Solving.OuterFollows | src/solver.rs:13-34 | The same holds from the start of the pass to any later point. |
| Solving.ApplyNarrows | src/solver.rs:11-37 | A pass, failed or not, only removes options and never changes a solved value. A successful pass keeps the field invariant. |
| Solving.ApplyExplained | src/solver.rs:19-33 | Every option a pass removes from a field is the value of a solved field in the same column or row. |
| Solving.ApplyProgress | src/solver.rs:11-37 | A successful pass returns `true` exactly when the solved count went up. When it returns `false`, no value changed. |
| Solving.RoundClears | src/solver.rs:22-33 | A round that does not fail leaves (x, j) when j ≠ y, and (j, y) when j ≠ x, with their old options minus v. Every other field is unchanged. |
| Solving.InnerClears | src/solver.rs:22-33 | After j rounds without failure, v is gone from every peer of (x, y) in the first j rows of its column and the first j columns of its row. |
| Solving.OuterClears | src/solver.rs:13-34 | After the first i outer rounds without failure, each of the first i fields solved at the start has its value removed from all its peers. |
| Solving.ApplyClearsPeers | src/solver.rs:13-34 | After a successful pass, no value solved before the pass is an option of a field in its column or row. |
| Solving.StrikeIdle | src/solver.rs:24-26 | Striking a value that is not an option changes nothing and reports no progress. |
| Solving.RoundIdle | src/solver.rs:22-33 | A round whose value is no peer's option changes nothing. |
| Solving.InnerIdle | src/solver.rs:22-33 | An inner loop whose value is no peer's option changes nothing. |
| Solving.OuterIdle | src/solver.rs:13-34 | On a board where no solved value is a peer's option, every prefix of the pass changes nothing. |
| Solving.ApplyIdle | src/solver.rs:11-37 | A pass returns `Ok(false)` with the board unchanged exactly when no solved value is an option of one of its peers. |
| Solving.ApplyFixedPoint | src/solver.rs:11-37 | After a pass returns `Ok(false)`, the board is valid, and a second pass returns `Ok(false)` and changes nothing. |
| Solving.ApplyDuplicateFails | src/solver.rs:24-29 | Two fields in one column or row solved with the same value make the pass fail. |
| Solving.ApplyFailure | src/solver.rs:24-29 | A failing pass passes on `eliminate`'s error unchanged through `?`. It always fails with the no-options-left error, and the board keeps a field with no options. |
| Fields.EliminateSpared | src/field.rs:49-64 | Eliminating a value outside a kept set of options (two or more if the field is unsolved) returns `Ok(false)`. It keeps the value, the invariant and that set. |
| Solving.StrikeQuiet | src/solver.rs:24-26 | On a roomy board, one strike keeps the pass quiet: no progress, no changed value, and no option lost unless it is a peer's value. A roomy board has no duplicate peers and leaves every unsolved field two options besides its peers' values. |
| Solving.RoundQuiet | src/solver.rs:22-33 | The same holds for one round of the inner loop. |
| Solving.InnerQuiet | src/solver.rs:22-33 | The same holds for the whole inner loop. |
| Solving.OuterQuiet | src/solver.rs:13-34 | The same holds for every prefix of the pass. |
| Solving.ApplyRoomy | src/solver.rs:11-37 | A pass over a roomy board returns `Ok(false)` and changes no value. It removes no option that is not a peer's value. |
| Solving.SolverTestGridRoomy | src/solver.rs:64-67 | The solver test's board (an empty board with field (0, 0) set to 1) is roomy. |
| Solving.SolverTestGridSpare | src/solver.rs:74 | On that board, 1 is an option of (1, 5) that no peer holds. |
| Solving.ApplyScenario | src/solver.rs:62-75 | On that board a pass succeeds. It removes 1 from (0, 5) and (8, 0) but keeps 1 at (1, 5). |

## Left out

- Error messages are not modelled as text. Each `Err(String)` becomes an `Error` constructor that carries the data the message is formatted from: the token count, the requested and existing values, the requested value, or nothing.
- `Field::new9` (src/field.rs:22-24) is not a separate member. The board constructor creates the 81 fields directly.
- Out-of-range coordinates in `field(x, y)` and `field_seq(i)` make Rust panic. The model instead requires `x, y < 9` and `i < 81`, which every caller in the core meets.
- The `Solver` trait (src/solver.rs:3-5) has one implementation. It is modelled as a one-constructor datatype passed to `Apply`; no dynamic dispatch is modelled.
- `fn main()` in src/main.rs is empty, and `use format;` has no counterpart. The rest of main.rs repeats `Field` and `Board`, which the same members model.
- Options are a mathematical set. `HashSet` order matters only in `eliminate`, where `iter().next()` runs on a one-element set, so the result does not depend on it.
- `_all_fields` (src/board.rs:53-61) is not modelled as an iterator. `NumSolved` counts over the linear view of the same 81 fields, and a count does not depend on their order.
- Text.IsWhitespace lists the Unicode `White_Space` characters as code points. No other Unicode processing is done.
- Text.ParseI8 covers the grammar of Rust's `i8` parsing (optional sign, decimal digits, range check) but not its error kinds, since `.ok()` discards them.
- The parse tests' concrete 44-clue board (src/board.rs:90-118) is not evaluated token by token. Boards.ParsedBoard states the general fact behind it: a parsed board's solved count equals its number of numeric tokens.
- Field updates in place become pure functions whose result the board writes back into its array (`Board.SolveField`, `Board.EliminateField`). The model cannot capture Rust aliasing of a `&mut Field`.
