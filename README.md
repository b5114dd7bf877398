# gamma — a verified model of the game engine

This project models the engine of *gamma*, a board game for several players. Players
take empty cells of a rectangular board. A player's cells that touch along an edge
form one *area*, and no player may own more than `max_areas` areas. Each player may
once play a *golden move*, taking a cell from another player, provided that no
player ends up with too many areas.

The C engine (`gamma/src/gamma.c`) keeps the board in a `player_arr` array. It keeps
a union-find forest over the owned cells (`parents`, `areas_size`) and a record per
player (`busy_fields`, `num_of_areas`, `has_played_golden_move`). It rebuilds areas
after a removal with two stack-driven flood fills over a `visited` array. The model
also covers:

- the growable stack of cells (`gamma/src/stack.c`);
- cell equality (`gamma/src/field.h`);
- decimal printing (`gamma/src/int_to_string_util.c`);
- the checks with which the batch mode of `gamma/src/parser.c` accepts, ignores or
  rejects an input line.

## Structure

- **The specification is a value.** The state between operations is a `Board` value:
  the owners, the forest, the empty-cell counter and the player records. `Sound(b)`
  says the forest partitions each player's cells into exactly the connected areas,
  and that the sizes and counters agree with the owners. `Fits` adds the board size
  and the limit on areas. The effect of each operation is a predicate between boards:
  - `MovedBoard` for `move_util`;
  - `RemovedBoard` for `delete_util`;
  - `Swapped` for a golden move.
- **The engine is imperative, as in C.** `Gamma.Game` is a class with the fields of
  `struct gamma`:
  - `player_arr` and `visited` are `array2`s;
  - the stack is a `FieldStack.Stack` object over an array;
  - the records are a `seq<Player>`.

  Each public function is a method proved against the board predicates. The internal
  steps (`take_field`, `find_parent`, `union_areas`, `remove_same_areas`,
  `set_parent_dfs`, `init_visited`, `delete_util`, `delete_and_move`) are methods
  with the same loops and branches as the C.
- **Module layout:**
  - pure geometry and connectivity: `Grid`, `Areas`, `Cut`;
  - flood fills: `Flood`;
  - union-find: `UnionFind` (as values) and `Union` (as operations);
  - sorting: `Order`;
  - move and removal: `Moves`, `Removal`;
  - golden move: `Golden`;
  - the engine: `Gamma`;
  - printing: `Layout`, `Render`.

Two facts the model proves about the C code:

- The `num_of_areas > max_num_of_areas` early return in `gamma_free_fields`
  (gamma.c:497-498) cannot be reached: no player ever has more areas than allowed
  (`assert false` in `Gamma.FreeFields`).
- In `delete_and_move` (gamma.c:893-896), once the removed cell's owner is within the
  limit, the mover's `gamma_move` always succeeds, so the second rollback is dead code.
  See `Golden.MoveAfterRemove`, and the `assert false` in `Gamma.TakeOver`. The first
  rollback (gamma.c:888-891) is live, and re-taking the cell there is always legal
  (`Golden.RollbackLegal`).

On a sound board, the sizes stored at a player's representatives add up to
`busy_fields`:

- each representative's size is the number of cells of its area (`UnionFind.SizeAt`);
- the areas partition the player's cells (`UnionFind.Partition`);
- `busy_fields` is the number of those cells (`Moves.SoundCounts`).

## Model

| member | source | states |
|---|---|---|
| Fields.FieldEquals | gamma/src/field.h:33-35 | true exactly when both coordinates agree, i.e. when the cells are equal |
| Fields.FieldEqualsSymmetric | gamma/src/field.h:33-35 | the comparison does not depend on argument order |
| IntToString.DigitCount | gamma/src/int_to_string_util.c:22-32 | the loop returns the number of decimal digits: 1 for 0, otherwise the `d` with 10^(d-1) <= n < 10^d |
| IntToString.NumDigitsUnique | gamma/src/int_to_string_util.c:22-32 | that digit count is the only `d` with 10^(d-1) <= n < 10^d |
| IntToString.WriteInt | gamma/src/int_to_string_util.c:11-20 | writes exactly the decimal text of `n` at position `l`, returns `l` plus its length, and changes no other character |
| IntToString.DecimalRoundTrip | gamma/src/int_to_string_util.c:11-20 | the written text is all digits and reads back as `n` |
| FieldStack.Stack.Init | gamma/src/stack.c:32-44 | a new stack is empty and has the requested capacity |
| FieldStack.Stack.IsFull | gamma/src/stack.c:56-58 | full exactly when as many cells are held as the capacity |
| FieldStack.Stack.IsEmpty | gamma/src/stack.c:60-62 | empty exactly when no cell is held |
| FieldStack.Stack.Resize | gamma/src/stack.c:75-80 | the capacity becomes 2 * size + 1 and the held cells stay as they were |
| FieldStack.Stack.Push | gamma/src/stack.c:82-88 | the cell goes on top, after every cell held before; the buffer grows only when it was full |
| FieldStack.Stack.Pop | gamma/src/stack.c:90-93 | returns the most recently pushed cell and removes it, leaving the rest |
| FieldStack.PushThenPop | gamma/src/stack.c:82-93 | a push followed by a pop returns the pushed cell and leaves the stack as it was |
| Gamma.WrongField | gamma/src/gamma.c:141-143 | false exactly for the coordinates of a cell of the board |
| Gamma.Game.WrongPlayer | gamma/src/gamma.c:156-158 | false exactly for the players 1..players of the game |
| Gamma.CountNeighbours | gamma/src/gamma.c:261-270 | counts the edge neighbours of (x, y) owned by `p`; the count is 0 exactly when `p` owns no neighbour |
| Gamma.GammaNew | gamma/src/gamma.c:210-244 | no game when a dimension, the number of players or the limit is 0; otherwise a valid game of those parameters with an empty board and zeroed records |
| Gamma.NewState | gamma/src/gamma.c:218-223 | the initial counters and forest form a board that fits the game, for any limit on areas |
| Gamma.TakeField | gamma/src/gamma.c:423-428 | `p` owns the cell, with one more cell and, for now, one more area; one empty cell fewer |
| Union.FindParent | gamma/src/gamma.c:284-288 | returns the representative of the cell's area and points the cell straight at it, keeping the forest valid |
| Union.SortNParents | gamma/src/gamma.c:330-341 | the first `l` representatives end up ordered by decreasing area size and are a permutation of what was there |
| Union.BubblePass | gamma/src/gamma.c:332-339 | one pass of the inner loop moves the smallest area among the first `n` to position n-1, permuting only those entries |
| Union.SwapNext | gamma/src/gamma.c:334-336 | exchanges two neighbouring entries and nothing else |
| Order.SortDone | gamma/src/gamma.c:330-341 | once every pass is done, the prefix is a permutation of the original one, in decreasing order of area size |
| Union.UnionAreas | gamma/src/gamma.c:361-366 | the smaller area joins the bigger one, which takes over its size; the forest still partitions the board into areas |
| Union.FindRoots | gamma/src/gamma.c:389-390 | the first loop of `remove_same_areas` stores the representative of every neighbour |
| Union.MergeStep | gamma/src/gamma.c:396-402 | joins one more neighbouring area into the first one, keeping the partition and counting the player's areas anew |
| Union.MergeRoots | gamma/src/gamma.c:395-404 | the loop joins every listed area into the first, and the player's count of areas is that of the joined forest |
| Union.RemoveSameAreas | gamma/src/gamma.c:387-405 | the areas around the new cell become one, represented by the largest; the player loses one area per further distinct area, and no other player is affected |
| Gamma.MoveUtil | gamma/src/gamma.c:444-474 | the result is a `MovedBoard`: `p` owns the cell, with one more cell and one area more, minus one per distinct area of `p` the cell touches; the other records are unchanged and the board stays sound |
| Gamma.TryMove | gamma/src/gamma.c:476-492 | succeeds exactly when the move is legal (a player, an empty cell on the board, and room for a new area or a neighbour of `p`); on failure nothing changes |
| Gamma.Move | gamma/src/gamma.c:476-492 | as `TryMove`, and the board still fits the limit on areas afterwards |
| Moves.MoveFits | gamma/src/gamma.c:476-492 | a legal move keeps the board sound, of the same size, and within the limit on areas |
| Moves.MoveCapped | gamma/src/gamma.c:476-492 | a move by a player below the limit, or next to one of its cells, leaves every player within the limit |
| Moves.NewBoardSound | gamma/src/gamma.c:210-244 | the empty board of a new game is sound |
| UnionFind.Take | gamma/src/gamma.c:423-428 | taking an empty cell makes it a fresh representative of its own, without disturbing the other areas |
| UnionFind.Attach | gamma/src/gamma.c:458-463 | the new cell joining a neighbouring area of its owner keeps the partition and removes the cell from the representatives |
| UnionFind.Isolate | gamma/src/gamma.c:467-472 | a new cell with no neighbour of its owner becomes an area of size 1 |
| Moves.MoveCount | gamma/src/gamma.c:444-474 | the distinct representatives among the new cell's neighbours are as many as the distinct areas of `p` it touches |
| Moves.CellsConserved | gamma/src/gamma.c:290-294 | on a sound board the empty cells plus all players' `busy_fields` are width * height |
| Gamma.GameCellsConserved | gamma/src/gamma.c:210-244 | every valid game has empty cells plus busy cells equal to width * height |
| Gamma.Game.GammaMove | gamma/src/gamma.c:476-492 | succeeds exactly when the move is legal; then the state is a `MovedBoard` of the old one, otherwise unchanged; the game stays valid |
| Gamma.FreeFields | gamma/src/gamma.c:494-511 | the number of cells on which `gamma_move` would let `p` move |
| Gamma.CountMoveCells | gamma/src/gamma.c:501-507 | with `p` at the limit, the double loop counts the empty cells next to a cell of `p`, which are exactly the cells `p` may take |
| Moves.MoveCellsWithRoom | gamma/src/gamma.c:510 | below the limit, the cells `p` may take are exactly the empty cells, so `empty_fields` is the answer |
| Moves.MoveCellsOfNonPlayer | gamma/src/gamma.c:495-496 | a non-player may take no cell |
| Gamma.Game.GammaFreeFields | gamma/src/gamma.c:494-511 | the number of cells on which `gamma_move` would let `p` move |
| Gamma.Game.GammaBusyFields | gamma/src/gamma.c:290-294 | the number of cells `p` owns, 0 for a non-player |
| Gamma.Game.GammaPlayerAreas | gamma/src/gamma.c:957-961 | the number of areas of `p`, at most the limit, 0 for a non-player |
| Gamma.Game.GammaMaxAreas | gamma/src/gamma.c:963-967 | the limit, which no player's area count exceeds |
| Gamma.DeleteField | gamma/src/gamma.c:713-723 | empties the cell, zeroes the size at its representative, adds an empty cell, and takes a cell and an area from its owner; nothing else changes |
| Gamma.DfsConditionMeans | gamma/src/gamma.c:743-747 | the neighbour in direction `i` qualifies exactly when it is on the board, owned by `p` and not yet marked |
| Gamma.DfsLoop | gamma/src/gamma.c:805-818 | the stack loop of the marking fill runs until the stack is empty, in the flood-fill state that `Flood.FillEnd` closes |
| Gamma.SetParentDfs | gamma/src/gamma.c:801-819 | marks exactly the component of (x, y) among `p`'s cells, points each of its cells at `parent`, and returns the component's size |
| Flood.FillEnd | gamma/src/gamma.c:801-819 | the finished marking fill has marked exactly the component, counted it, and set the parent of exactly its cells |
| Gamma.InitVisited | gamma/src/gamma.c:766-780 | the clearing fill from the removed cell unmarks every marked cell, leaving `visited` all clear |
| Gamma.ClearLoop | gamma/src/gamma.c:769-779 | the stack loop of the clearing fill runs until the stack is empty, in the state that `Flood.ClearEnd` closes |
| Gamma.FillArea | gamma/src/gamma.c:842-846 | fills one new area from an unmarked neighbour and stores its size, advancing the rebuild by one area |
| Gamma.Refill | gamma/src/gamma.c:839-847 | the neighbour loop of `delete_util` rebuilds an area from every neighbour not yet reached, leaving `visited` clear |
| Removal.RebuildDone | gamma/src/gamma.c:836-850 | the rebuilt forest, sizes and records are a `RemovedBoard` of the old board |
| Flood.ClearEnd | gamma/src/gamma.c:766-780 | a clearing fill whose marked cells are all joined to its start cell ends with nothing marked |
| Removal.ClassAfterRemove | gamma/src/gamma.c:836-850 | the cells the fills reach from the neighbours of the removed cell are exactly its old area minus the cell |
| Gamma.DeleteUtil | gamma/src/gamma.c:836-850 | the result is a `RemovedBoard`: the cell is empty, its owner has one cell fewer and one area fewer, plus one per area left around the cell; the board is sound and `visited` is clear |
| Removal.RebuiltSound | gamma/src/gamma.c:836-850 | the rebuilt forest, sizes and counters form a sound board |
| Removal.MoveUndoesRemove | gamma/src/gamma.c:887-890 | giving a removed cell back to its owner restores the owners, counters and records |
| Removal.RemoveUndoesMove | gamma/src/gamma.c:948-955 | removing a cell just taken restores the owners, counters and records |
| Gamma.HasRoom | gamma/src/gamma.c:879-882 | the first test of `delete_and_move`: the mover has room for a new area or owns a neighbour of the cell |
| Golden.FitsDecided | gamma/src/gamma.c:884-891 | after the removal, the owner being within the limit is exactly the golden condition on the owner's areas |
| Golden.RollbackLegal | gamma/src/gamma.c:888-890 | when the removal leaves the owner above the limit, giving the cell back is a legal move |
| Golden.MoveAfterRemove | gamma/src/gamma.c:893-896 | after the removal the mover's `gamma_move` on the cell is always legal |
| Gamma.DeleteAndMove | gamma/src/gamma.c:878-898 | succeeds exactly when `GoldenFits` holds; then the cell has passed from its owner to the mover (`Swapped`); otherwise owners, counters and records are as before; the board still fits |
| Gamma.RemoveThenMove | gamma/src/gamma.c:884-897 | after the first test: succeeds exactly when `GoldenFits` holds, then the cell is swapped; otherwise owners, counters and records are restored |
| Gamma.MoveOrGiveBack | gamma/src/gamma.c:888-897 | after the removal: gives the cell back when the owner is above the limit, otherwise lets the mover take it |
| Gamma.GiveBack | gamma/src/gamma.c:888-891 | the first rollback restores owners, counters and records |
| Gamma.TakeOver | gamma/src/gamma.c:893-897 | the mover's move succeeds, so the cell is swapped; the second rollback is never taken |
| Golden.SwapCapped | gamma/src/gamma.c:878-898 | a swap that meets `GoldenFits` leaves every player within the limit |
| Golden.SwapChain | gamma/src/gamma.c:884-897 | a removal followed by the mover's move is a swap of the cell |
| Golden.SwapFits | gamma/src/gamma.c:878-898 | a swap that meets `GoldenFits` keeps the board within the limit on areas |
| Gamma.GoldenMove | gamma/src/gamma.c:900-919 | succeeds exactly when the golden move is legal; then the cell is swapped and the mover has played the golden move; otherwise owners, counters and records are unchanged |
| Gamma.SwapAndMark | gamma/src/gamma.c:912-918 | succeeds exactly when `GoldenFits` holds; then the cell is swapped and the golden flag is set; otherwise owners, counters and records are as before |
| Gamma.Game.GammaGoldenMove | gamma/src/gamma.c:900-919 | succeeds exactly when the golden move is legal; then the state is the swap with the golden flag set, otherwise owners, counters and records are as before |
| Gamma.GoldenNoCheckingNorChanging | gamma/src/gamma.c:535-544 | succeeds exactly when the golden move would succeed ignoring the flag, which keeps its old value either way |
| Golden.SwapBack | gamma/src/gamma.c:565-566 | swapping the cell back to its owner with the owner's own flag restores owners, counters and records |
| Gamma.AnyOtherBusy | gamma/src/gamma.c:551-557 | true exactly when a player other than `p` owns a cell |
| Gamma.TryTarget | gamma/src/gamma.c:564-568 | says whether the cell is a successful golden target, and puts the board back: owners, counters and records are as before |
| Gamma.Restore | gamma/src/gamma.c:566 | the former owner's golden call takes the cell back, restoring owners, counters and records |
| Gamma.RestoreIfWon | gamma/src/gamma.c:565-567 | after a trial, the board's owners, counters and records are those from before it: restored when the trial won, unchanged otherwise |
| Gamma.ScanCell | gamma/src/gamma.c:564-568 | one step of the inner scan: it reports a target exactly when the scan, extended by the cell (i, j), has found one |
| Gamma.ScanColumn | gamma/src/gamma.c:564-569 | the inner loop finds whether column `i` holds a successful golden target, leaving owners, counters and records as they were |
| Gamma.ScanTargets | gamma/src/gamma.c:562-571 | the scan stops at the first target in column order and returns whether any cell is a successful golden target, leaving the board as it was |
| Gamma.GoldenPossibleScan | gamma/src/gamma.c:546-572 | returns the C function's own test, leaving owners, counters and records as they were |
| Golden.GoldenPossibleComplete | gamma/src/gamma.c:546-572 | whenever some golden move is legal, the query says yes |
| Golden.GoldenPossibleSound | gamma/src/gamma.c:560-571 | for a player at the limit, a yes from the scan means some golden move is legal |
| Golden.GoldenPossibleExact | gamma/src/gamma.c:546-572 | on a board that fits the game, the query says yes exactly when some golden move is legal; the unscanned shortcut for a player below the limit is sound |
| Golden.ShortcutTarget | gamma/src/gamma.c:558-559 | when another player owns a cell and `p` is below the limit, some cell of another player is a successful golden target |
| Golden.QuietCell | gamma/src/gamma.c:558-559 | every player owning a cell owns one whose removal leaves at most one area where its area was |
| Golden.OneComp | gamma/src/gamma.c:387-405 | cells all joined to the first one touch at most one area |
| Cut.NonCut | gamma/src/gamma.c:836-850 | every non-empty connected set of cells has a cell whose removal leaves it connected |
| Gamma.Game.GammaGoldenPossible | gamma/src/gamma.c:546-572 | true exactly when `p` could play a legal golden move now; owners, counters and records are unchanged |
| Gamma.MovePossible | gamma/src/gamma.c:948-955 | true exactly when the move is legal; the trial move is undone, so owners, counters and records are as before |
| Gamma.Undo | gamma/src/gamma.c:953 | `delete_util` on the cell just taken restores owners, counters and records |
| Gamma.Game.GammaMovePossible | gamma/src/gamma.c:948-955 | true exactly when `gamma_move` would succeed; owners, counters and records are unchanged |
| Render.FindMaxNumberWidth | gamma/src/gamma.c:597-609 | returns the width of `gamma_board`'s cells |
| Render.MaxNumberWidthFits | gamma/src/gamma.c:597-609 | fits the number of every player with a cell, leaving a space after any number of more than one digit, and is no wider than needed |
| Render.GammaFieldWidthInteractive | gamma/src/gamma.c:611-616 | the digits of the number of players, plus one when there are more than one |
| Render.InteractiveWidthFits | gamma/src/gamma.c:611-616 | the interactive width fits every player's number and leaves a space after any number of more than one digit |
| Render.WriteCell | gamma/src/gamma.c:633-644 | writes a cell's text (its owner's number, or `.`) padded with spaces to the width, touching nothing else |
| Layout.CellText | gamma/src/gamma.c:634-639 | `.` for an empty cell, otherwise the decimal digits of the owner, which read back as the owner |
| Layout.BoardLayout | gamma/src/gamma.c:628-650 | line k of the text shows row height-1-k; each cell j takes `mw` characters at offset j*mw; each line ends in a newline |
| Render.WriteLines | gamma/src/gamma.c:630-648 | fills the buffer with the board's text, top row first, and stops one character before its end |
| Render.BoardHelper | gamma/src/gamma.c:628-650 | the buffer holds exactly the board's text followed by the terminating character |
| Render.OwnersFit | gamma/src/gamma.c:597-609 | on a sound board every owner's number fits `find_max_number_width` |
| Render.GammaBoard | gamma/src/gamma.c:672-681 | a new buffer of width * height * mw + height + 1 characters holding exactly the board's text and the terminator |
| Render.GammaBoardInteractive | gamma/src/gamma.c:921-930 | the same text with every cell as wide as the interactive width |
| Render.GammaWriteField | gamma/src/gamma.c:932-946 | false for a cell off the board, leaving `s` as it was; otherwise `s` starts with the cell's text padded to the interactive width, and the rest is untouched |
| Parser.CheckForBrokenChars | gamma/src/parser.c:73-81 | true exactly when the line has a newline and every character before the first one is a digit or white space; a line without a newline fails on its terminating NUL |
| Parser.FirstNewline | gamma/src/parser.c:75 | the index of the first newline, or the length when there is none |
| Parser.TokenEnd | gamma/src/parser.c:106-118 | the end of the next token: every character before it is not white space, the one at it is |
| Parser.TokensAreDigits | gamma/src/parser.c:99-124 | on a line of digits and white space, every token `strtok` yields is all digits |
| Parser.ReadNumbers | gamma/src/parser.c:99-124 | accepts exactly the lines that start with white space, hold only digits and white space, and hold exactly `count` numbers each at most 2^32-1; the numbers are the values of the tokens |
| Parser.GetParametersCount | gamma/src/parser.c:148-163 | 3 for `m` and `g`, 1 for `b`, `f` and `q`, 0 for `p`, `CHAR_INCORRECT` for anything else |
| Parser.ClassifyLine | gamma/src/parser.c:300-316 | a line starting with `#` or a newline is ignored; a line is dispatched exactly when it ends in a newline, has a known command and has the right parameters; otherwise it is an error |
| Parser.FormattedParamsAccepted | gamma/src/parser.c:99-124 | a command's numbers written in decimal, each preceded by a space, are accepted and read back as the same numbers |
| UnionFind.Merge | gamma/src/gamma.c:361-366 | joining two connected areas of one player keeps the partition and removes exactly one representative of that player |
| UnionFind.Compress | gamma/src/gamma.c:284-288 | pointing a cell straight at its representative keeps the forest valid |
| Areas.AreasAreComponents | gamma/src/gamma.c:387-405 | on a sound forest two cells of a player share a representative exactly when a path of that player's cells joins them |
| Areas.LabelsCountComps | gamma/src/gamma.c:387-405 | the distinct representatives among a few cells are as many as the distinct areas they touch |
| Grid.CellsCard | gamma/src/gamma.c:221-222 | a board has width * height cells, the initial `empty_fields` |

## Left out

- Allocation failure: `malloc` or `realloc` returning NULL in `gamma_new`,
  `init_stack`, `resize`, `alloc_memory_for_board`, and the `exit` it causes in
  `resize`. The model always gets its arrays.
- `g == NULL` in `wrong_field` and `wrong_player` (gamma.c:142, 157), and in
  `gamma_board`, `gamma_board_interactive` and `gamma_max_areas`. A `Game` reference
  is never null.
- `gamma_delete` and `stack_destruct`: freeing memory has no counterpart in Dafny.
- Integer widths: `uint32_t` and `uint64_t` counters, sizes and coordinates are
  unbounded `nat`s. The counters of the engine itself (areas, busy and empty fields,
  area sizes) are bounded by the number of cells, which fits their types. The one
  truncation that can matter is in the board text, on the next line.
- `Render.WriteLines`, `Render.BoardHelper`: the model pads every cell to the field
  width, so the buffer always holds the board's text. The C keeps its 64-bit write
  position in a `uint32_t old_it` (gamma.c:634) and pads while `it - old_it` is below
  the width (gamma.c:641). Once the text reaches 2^32 characters, `old_it` is the
  position modulo 2^32. The difference is then at least 2^32, so cells shorter than
  the width get no padding from there on, and the terminator lands before the end of
  the buffer. This needs a board of over a billion cells, and the model does not
  capture it.
- The unsigned neighbour wrap: the C forms `x + x_dir[i]` in `uint32_t`, so a
  neighbour left of column 0 wraps to 2^32-1 and `wrong_field` rejects it. The model
  treats such a neighbour as off the board directly (`Grid.StepDefined`,
  `Gamma.WrongField`). It assumes a board narrower than 2^32-1, which the `uint32_t`
  dimensions guarantee.
- `Union.FindParent`, `Union.UnionAreas`, `Union.RemoveSameAreas`,
  `Gamma.DeleteField`, `Gamma.SetParentDfs`: the `parents` and `areas_size` arrays
  are modelled as map values from cell to cell and from cell to size. Each operation
  takes the old map and returns the new one, instead of writing the C's 2-D arrays in
  place. The two never alias each other or any other array, so the values written
  are the same. `player_arr`, `visited` and the stack buffer are arrays, updated in
  place as in C.
- The player records are a sequence value replaced by each operation, not a
  `player_t` array updated field by field.
- `Gamma.ScanTargets`: the C scan puts the cell back with a second
  `golden_no_checking_nor_changing` call by its former owner. The model does the same
  (`Gamma.Restore`). It promises that owners, counters and records are restored, not
  that the forest is: the forest may represent the same areas differently.
- `Gamma.Game.GammaMovePossible` likewise restores owners, counters and records, but
  the forest only up to the same areas. This is also true of the C, whose
  `delete_util` rebuilds it.
- `Gamma.Game.GammaGoldenMove`, `Gamma.GoldenMove`, `Gamma.DeleteAndMove`,
  `Gamma.MoveOrGiveBack`, `Gamma.GiveBack`: when the golden move is refused after the
  removal, the cell is given back by `delete_util` followed by a move of its former
  owner (gamma.c:888-891). The model promises that owners, counters and records are
  restored, and that the board is again sound, so its forest represents the same
  areas. It does not promise the same parent links and sizes at each cell. The C does
  not restore them either.
- `gamma/src/parser.c` beyond line validation is not modelled: `read_input`,
  `tryb_interaktywny`, `deal_with_query`, `create_gamma_from_line`, the printing of
  answers and of `OK` and `ERROR`, and reading lines with `getline`. These are I/O
  around the engine. The interactive mode (`interactive.c`) is not part of this model.
- `strtoul`'s handling of signs and leading white space does not arise: tokens reach
  it only after `check_for_broken_chars` has admitted digits and white space alone.
  Its `ERANGE` overflow is modelled as a token whose value exceeds 2^32-1.
- The text of `isdigit` and `isspace` is that of the C locale.
