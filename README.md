# Knucklebones solver, modelled in Dafny

Knucklebones is a two-player dice game. Each player owns a 3×3 board of
squares, stored column by column. On a turn the active player rolls a die and
places it in an empty square of their own board. A column scores the sum of
its dice times a multiplier: 3 when all three squares hold the same die, 2
when some two non-empty squares hold the same die, and 1 otherwise. The game
ends when either board is full, and the higher total wins.

The solver grows a game tree whose nodes alternate between two types:

- **Roll node:** the active player is about to roll. It has six children, one
  Move node per die value.
- **Move node:** the active player holds a die. It has one child per legal
  placement, up to row symmetry, and each child is a Roll node for the
  opponent.

The search is an expectiminimax:

- player 1 maximises;
- player 2 minimises;
- a Roll node takes the mean over the six rolls.

Leaves are valued in one of two ways:

- **Brute force:** the outcome of a finished game, +1, −1 or 0.
- **Heuristic:** an objective function. The source's objective is
  `difference_heuristic`: the score difference plus an empty-square term that
  credits the player expected to finish first.

The project has these modules:

| module | file | models |
|---|---|---|
| `Boards` | boards.dfy | `Player`, `Outcome`, `Die`, `Square`, `Move` and `Board`: scoring, fullness, empty squares |
| `BoardText` | board_text.dfy | `Board::from_string` / `Board::to_string`, as a parser and a printer with their round trips |
| `Bitboards` | bitboards.dfy | the tic-tac-toe `Bitboard` left in board.rs |
| `Trees` | trees.dfy | the pure part of a node, as `Position`: getters, outcome, legal moves, the children a node gets. Also the `Node` class, whose `children` grow in place |
| `Solvers` | solvers.dfy | the heuristic, the outcome evaluation, the search as a function (`Search`), and the `Solver` class that grows its root and then searches it |
| `Errors`, `Wrappers` | errors.dfy, wrappers.dfy | the error values and the `Option` / `Result` types |
| `TestBoards`, `BoardExamples`, `TreeExamples`, `SolverExamples`, `EndgameExamples` | *_examples.dfy, test_boards.dfy | the repository's unit tests, as lemmas and methods about the model |

How the model is structured:

- `Node` keeps a ghost `Shape`: the tree of positions below it. Every method
  that grows a node states its new `Shape`. Two examples:
  - `Grow(pos, depth)` is the tree built `depth` levels deep;
  - `Expand(pos)` is the list of children `generate_children_up_to_symmetry`
    appends.
- The solver's methods are proved against the function `Search`. The lemmas
  about `Search` state what the solver promises:
  - the errors;
  - the chosen moves attain the node's value, and that value is the best for
    the player to move;
  - the value is the expectiminimax value of the grown tree.

**Helpers the source calls but does not define.** Their definitions here are
the smallest that fit the call sites and the tests:

| helper | defined here as |
|---|---|
| `Player::opponent` | `Boards.Opponent` |
| `Die::all` | `Boards.AllDice` |
| `Board::get_n_empty_squares` | `Boards.NEmptySquares` |
| `get_empty_squares` | `Boards.EmptySquares`, row-major order |
| `get_empty_squares_up_to_row_symmetry` | `Boards.EmptySquaresUpToRowSymmetry`: the lowest empty row of each column that is not full, in column order |
| `Node::get_score_difference` | `Solvers.ScoreDifference` |
| `Node::get_child_from_move` | `Trees.ChildAfterMove` |
| `build_n_moves_up_to_symmetry` | `Trees.Node.BuildNMovesUpToSymmetry` |
| `build_entire_tree_up_to_symmetry` | `Trees.Node.BuildEntireTreeUpToSymmetry` |
| `get_next_moves_and_evaluation` | `Solvers.NextMovesAndEvaluation` |

`Board::with_move_made` is an `unimplemented!()` stub at
src/board/board.rs:169-171. Its signature also disagrees with the call at
src/tree/tree.rs:141. `Trees.WithMoveMade` gives it the contract the callers
rely on: it writes the die into an empty square, and fails on a full one.

**What the code does, stated plainly.**

- No code in src/ removes an opponent's dice when a die is placed: a move
  only fills one empty square of the mover's board.
- `difference_heuristic` (src/solver/solver.rs:42-64) adds to the score
  difference a term built from the empty-square counts and from which
  player finishes first, times the fill value.
- Brute force values a finished game at 1, −1 or 0 by its outcome
  (src/solver/solver.rs:22-30, 82-89).
- Every move that attains the best value is returned, in the order the
  moves are enumerated.

The comments in two tests of src/solver/solver.rs are wrong in two places.
They are not code, and the tests' assertions do not depend on them:

- src/solver/solver.rs:122 and :159 say 28 for the board "256\n1_2\n62_". Its
  score is 9 + 7 + 8 = 24.
- The same comments (src/solver/solver.rs:126 and :163) say player 1's one
  move is (1, 1). Player 1's only empty square on "651\n142\n62_" is
  (2, 2).

## Model

| member | source | states |
|---|---|---|
| Boards.Opponent | src/tree/tree.rs:140 | the opponent of a player is the other player |
| Boards.ToValue | src/board/board.rs:238-247 | a die's value is between 1 and 6 |
| Boards.NewDie | src/board/board.rs:226-236 | `Die::new` succeeds exactly on 1..6, with a die of that value, and otherwise fails with the invalid-value error carrying the value |
| Boards.NewDieOfValue | src/board/board.rs:226-247 | `Die::new(to_value(d))` gives back `d` |
| Boards.DieFromChar | src/board/board.rs:253-263 | `Die::from_char` succeeds exactly on '1'..'6', with the die whose value is the digit, and otherwise fails with the invalid-character error |
| Boards.AddDice | src/board/board.rs:216-222 | adding two dice gives the sum of their values, between 2 and 12 |
| Boards.AddDiceExample | src/board/board.rs:392-396 | four plus five is 9 |
| Boards.AllDice | src/tree/tree.rs:162 | `Die::all` lists six dice whose values are 1, 2, …, 6 in order |
| Boards.AllDiceComplete | src/tree/tree.rs:162 | every die is in `Die::all` |
| Boards.SquareChar | src/board/board.rs:191-196 | a square prints as '_' exactly when it is empty, otherwise as its die's digit |
| Boards.SquareFromChar | src/board/board.rs:198-203 | `Square::from_char` accepts exactly '_' and '1'..'6', giving the square that prints as that character, and fails with the invalid-character error otherwise |
| Boards.SquareCharRoundTrip | src/board/board.rs:191-203 | parsing the character a square prints as gives the square back |
| Boards.Utf8Length | src/board/board.rs:32 | `len()` counts UTF-8 bytes: at least the characters, and exactly the characters for ASCII text |
| Boards.RemoveWhitespace | src/board/board.rs:31 | filtering whitespace keeps only non-whitespace characters of the input, and leaves text with no whitespace unchanged |
| Boards.MoveFromString | src/board/board.rs:30-49 | `Move::from_string` succeeds exactly when the text without whitespace is two characters, each '0'..'2', giving (row, column) from those digits; otherwise it fails with the invalid-move error carrying the input |
| Boards.MoveFromStringExample | src/board/board.rs:442-445 | "1 2" parses to the move (1, 2) |
| Boards.RemoveWhitespaceExample | src/board/board.rs:443 | "1 2" without whitespace is "12" |
| Boards.BoardExtensionality | src/board/board.rs:53-56 | boards with the same nine squares are equal |
| Boards.EmptyBoard | src/board/board.rs:60-68 | `Board::empty` has all nine squares empty |
| Boards.Elements | src/board/board.rs:74-82 | `get_elements` lists the nine squares column by column: column c, row r is element 3c + r |
| Boards.GetElements | src/board/board.rs:74-82 | the loop pushing each column's squares in turn builds exactly that list |
| Boards.NEmptySquares | src/solver/solver.rs:45-46 | the count of empty squares is at most 9, and is 0 exactly when no square is empty |
| Boards.IsFull | src/board/board.rs:70-72 | a board is full exactly when it has no empty square |
| Boards.IsFullByElements | src/board/board.rs:70-82 | `is_full` holds exactly when every element of `get_elements` is non-empty, as the source computes it |
| Boards.ColumnMultiplicity | src/board/board.rs:140-151 | the column multiplier is between 1 and 3 |
| Boards.MultiplicityCountsRepeats | src/board/board.rs:140-151 | the multiplier is 3 exactly when one die fills the column, and at least 2 exactly when some die occurs twice; empty squares never match |
| Boards.MultiplicityPermutationInvariant | src/board/board.rs:140-151 | reordering a column's squares does not change its multiplier |
| Boards.Sum | src/board/board.rs:122-138 | the loop over columns, each summing its dice and multiplying by the column multiplier, computes the board's score |
| Boards.ScoreBounds | src/board/board.rs:122-138 | a score is at most 162, so the `u16` never overflows, and a full board scores at least 9 |
| Boards.ColumnSumByCounts | src/board/board.rs:125-132 | a column's dice sum is the sum, over the die values, of value × number of squares holding that value |
| Boards.ColumnScorePermutationInvariant | src/board/board.rs:126-133 | a column's score depends only on which dice it holds, not on their rows |
| Boards.ScoreRowOrderInvariant | src/board/board.rs:122-151 | boards whose columns hold the same dice score the same |
| Boards.EmptySquaresFrom | src/tree/tree.rs:78 | the empty squares from a row-major index on are exactly the empty squares at or after it, in increasing row-major order |
| Boards.EmptySquares | src/tree/tree.rs:78 | `get_empty_squares` lists exactly the board's empty squares, in row-major order |
| Boards.FirstEmptyRow | src/tree/tree.rs:90 | a column's lowest empty row exists exactly when the column has an empty square; it is empty and every row before it is filled |
| Boards.EmptySquaresUpToRowSymmetry | src/tree/tree.rs:90 | the reduced squares are empty, each is the lowest empty row of its column, every column with room has one, they are in column order, and there are none exactly when the board is full |
| Boards.RepresentativesAreEmptySquares | src/tree/tree.rs:78-90 | every reduced square is one of the empty squares |
| BoardText.StripBlanks | src/board/board.rs:107 | removing spaces and tabs keeps only other characters of the input, and leaves text without them unchanged |
| BoardText.SplitLines | src/board/board.rs:108 | splitting on '\n' gives at least one line, and no line holds a newline |
| BoardText.JoinSplit | src/board/board.rs:101-108 | joining the split lines with '\n' gives the text back |
| BoardText.SplitJoin | src/board/board.rs:101-108 | splitting lines joined with '\n' gives the lines back |
| BoardText.ScanLine | src/board/board.rs:110-116 | a line scans clean exactly when every character is '_' or '1'..'6' and fits the 3×3 grid; a bad character reported is one of the line's |
| BoardText.ScanLines | src/board/board.rs:108-118 | the text scans clean exactly when every line fits; a bad character reported is one of the text's |
| BoardText.GridOf | src/board/board.rs:112 | text row r, character c lands in column c, row r |
| BoardText.ScanTextFirstBad | src/board/board.rs:108-114 | a scan of the text that stops on a rejected character stops on the first one in text order |
| BoardText.ScanLinesText | src/board/board.rs:108-118 | scanning the split lines one by one, as the nested loops do, gives the same result as scanning the text straight through |
| BoardText.ParseBoard | src/board/board.rs:104-120 | a parsed board holds, in column c, row r, the square that the text's row r, character c denotes, and is empty where the text gives nothing; a failure reports the first character of the stripped text, in text order, that is neither a line break nor a square character |
| BoardText.ParseErrorHasBadChar | src/board/board.rs:110-114 | parsing fails only when the stripped text holds a character other than '_', '1'..'6' or newline |
| BoardText.BadCharIsParseError | src/board/board.rs:110-114 | such a character always makes parsing fail |
| BoardText.ParseBoardFailsOnBadCharacter | src/board/board.rs:104-120 | parsing fails exactly when the stripped text holds a bad character |
| BoardText.FromString | src/board/board.rs:104-120 | the nested loops that overwrite `columns[col_n][row_n]` compute the parse |
| BoardText.StoreRow | src/board/board.rs:109-116 | storing one text row fails exactly when the row holds a bad character, reporting that character; otherwise it fills that row and keeps the rows before it |
| BoardText.RowText | src/board/board.rs:90-99 | printed row r has three characters: character c is the square in column c, row r |
| BoardText.ToString | src/board/board.rs:84-102 | appending each column's squares to the cycling row strings and joining them with '\n' prints the three rows |
| BoardText.ParseGrid | src/board/board.rs:104-120 | three grid lines joined by '\n' parse to the board whose column c, row r is line r, character c |
| BoardText.ParseRender | src/board/board.rs:84-120 | parsing the printed board gives the board back |
| BoardText.RenderParse | src/board/board.rs:84-120 | printing a parsed 3×3 grid text gives the text back |
| BoardText.RenderEmptyExample | src/board/board.rs:399-401 | the empty board prints as "___\n___\n___" |
| BoardText.ParseExample | src/board/board.rs:403-404 | "5__\n__2\n___" parses and prints back unchanged |
| TestBoards.Parse5xx_xx2_xxx | src/board/board.rs:403 | the test text "5__\n__2\n___" parses to the board written out square by square |
| TestBoards.Parse5xx_5x2_1xx | src/board/board.rs:415 | likewise for "5__\n5_2\n1__" |
| TestBoards.Parse4x2_5x2_1x2 | src/board/board.rs:418 | likewise for "4_2\n5_2\n1_2" |
| TestBoards.Parse412_542_162 | src/board/board.rs:421 | likewise for "412\n542\n162" |
| TestBoards.Parse2xx_xxx_xxx | src/tree/tree.rs:222 | likewise for "2__\n___\n___" |
| TestBoards.Parse255_122_352 | src/tree/tree.rs:240 | likewise for "255\n122\n352" |
| TestBoards.Parse15x_333_12x | src/tree/tree.rs:241 | likewise for "15_\n333\n12_" |
| TestBoards.Parse111_111_111 | src/tree/tree.rs:262 | likewise for "111\n111\n111" |
| TestBoards.Parse24x_25x_2xx | src/tree/tree.rs:263 | likewise for "24_\n25_\n2__" |
| TestBoards.Parse2x5_122_352 | src/tree/tree.rs:309 | likewise for "2_5\n122\n352" |
| TestBoards.Parse255_1x2_352 | src/tree/tree.rs:318 | likewise for "255\n1_2\n352" |
| TestBoards.Parse235_1x2_3x2 | src/tree/tree.rs:342 | likewise for "235\n1_2\n3_2" |
| TestBoards.Parse255_1x2_652 | src/solver/solver.rs:115 | likewise for "255\n1_2\n652" |
| TestBoards.Parse651_142_62x | src/solver/solver.rs:121 | likewise for "651\n142\n62_" |
| TestBoards.Parse256_1x2_62x | src/solver/solver.rs:122 | likewise for "256\n1_2\n62_" |
| TestBoards.Parse111_111_11x | src/solver/solver.rs:180 | likewise for "111\n111\n11_" |
| TestBoards.Parse222_222_22x | src/solver/solver.rs:181 | likewise for "222\n222\n22_" |
| TestBoards.Parsexx1_xxx_xxx | src/solver/solver.rs:226 | likewise for "__1\n___\n___" |
| BoardExamples.EmptyBoardExample | src/board/board.rs:409-410 | the empty board scores 0 and is not full |
| BoardExamples.SumExamples | src/board/board.rs:408-424 | the four test boards parse and score 7, 24, 28 and 39 |
| BoardExamples.IsFullExamples | src/board/board.rs:427-439 | the two partial test boards are not full; "412\n542\n162" is |
| Bitboards.CellBitFormula | src/board/board.rs:337 | cell (row, col) is bit (2 − row)·3 + (2 − col) |
| Bitboards.CellBitInjective | src/board/board.rs:336-346 | distinct cells have distinct bits |
| Bitboards.EmptyHasNoBits | src/board/board.rs:272-274 | the empty bitboard has no bit set |
| Bitboards.IsEmptyIffNoBits | src/board/board.rs:276-278 | `is_empty` holds exactly when no bit is set |
| Bitboards.FullBits | src/board/board.rs:280-282 | the full bitboard sets exactly the nine cell bits |
| Bitboards.UnionBits | src/board/board.rs:320-322 | a bit is in the union exactly when it is in either board |
| Bitboards.IntersectionBits | src/board/board.rs:324-326 | a bit is in the intersection exactly when it is in both |
| Bitboards.DifferenceBits | src/board/board.rs:328-330 | a bit is in the difference exactly when it is in the first and not the second |
| Bitboards.ContainsIffSubset | src/board/board.rs:332-334 | `contains(o)` holds exactly when o's bits are a subset of the board's |
| Bitboards.SetBits | src/board/board.rs:336-338 | `set(row, col)` turns on that cell's bit and changes no other |
| Bitboards.SetThenIsSet | src/board/board.rs:336-346 | after `set(row, col)`, a cell is set exactly when it was before or is (row, col) |
| Bitboards.NSet | src/board/board.rs:340-342 | the count of set bits is at most 16 |
| Bitboards.NSetZeroIffEmpty | src/board/board.rs:340-342 | no bits are counted exactly when the bitboard is empty |
| Bitboards.NSetAfterSet | src/board/board.rs:336-342 | setting a cell adds one to the count unless the cell was already set |
| Bitboards.NSetFull | src/board/board.rs:280-282 | the full bitboard has nine bits set |
| Bitboards.Lines | src/board/board.rs:284-294 | the eight lines are three cells each, all inside the grid |
| Bitboards.IsVictory | src/board/board.rs:284-294 | `is_victory` holds exactly when every cell of some row, column or diagonal is set |
| Bitboards.VictoryMasks | src/board/board.rs:285-292 | each of the eight masks is contained exactly when its line is complete |
| Bitboards.LineCells | src/board/board.rs:285-292 | the eight lines are the three rows, the three columns and the two diagonals |
| Bitboards.FromBinary | src/board/board.rs:296-318 | a text whose byte length is not 9 fails with that length; otherwise parsing succeeds exactly when every character is '0' or '1', character 3·row + col sets cell (row, col), and no other bit is set; otherwise it fails on the first bad character |
| Trees.PositionFor | src/tree/tree.rs:31-36 | `from_player_and_boards` gives the active player the active board, the opponent the other board, and keeps the node type |
| Trees.SamePosition | src/tree/tree.rs:50-55 | positions whose two player boards and node type agree are equal |
| Trees.GetDie | src/tree/tree.rs:57-62 | there is no die exactly at a Roll node, and a Move node gives its die |
| Trees.GetActivePlayer | src/tree/tree.rs:64-69 | the active player is the node type's player |
| Trees.IsGameOver | src/tree/tree.rs:130-132 | the game is over exactly when either board has no empty square |
| Trees.GetOutcome | src/tree/tree.rs:113-128 | in progress exactly while the game is not over; otherwise victory for the strictly higher score, or a draw on equal scores; never ambiguous |
| Trees.GetLegalMoves | src/tree/tree.rs:71-81 | a Roll node has no legal moves (error); a Move node's moves are exactly the active player's empty squares, in row-major order |
| Trees.GetLegalMovesUpToRowSymmetry | src/tree/tree.rs:83-93 | a Roll node errs; a Move node's moves are the lowest empty square of each column with room, in column order |
| Trees.ReducedMovesAreLegal | src/tree/tree.rs:71-93 | every reduced move is a legal move |
| Trees.WithMoveMade | src/tree/tree.rs:141 | placing succeeds exactly on an empty square; it fills that square with the die and changes no other; otherwise it fails with the illegal-placement error |
| Trees.PlacementFillsOneSquare | src/tree/tree.rs:141 | a placement leaves one empty square fewer |
| Trees.Horizon | src/solver/solver.rs:23 | an upper bound on the number of levels left before the game ends (not the exact number); it is 0 exactly when the game is over |
| Trees.ChildAfterMove | src/tree/tree.rs:134-156 | a Roll node refuses a move; at Move(p, d) the move succeeds exactly on p's empty square, giving Roll(opponent) with p's board placed and the opponent's board unchanged, and otherwise fails with the placement error |
| Trees.MoveProgress | src/tree/tree.rs:134-156 | a move brings the game closer to its end |
| Trees.Rolls | src/tree/tree.rs:158-177 | a Move node refuses rolls; Roll(p) gives six children Move(p, die), one per die in value order, with both boards unchanged |
| Trees.RollProgress | src/tree/tree.rs:158-177 | a roll takes exactly one level off the horizon |
| Trees.ExpandChildren | src/tree/tree.rs:95-107 | the children generated are the rolls at a Roll node, and the move children of the reduced moves, in order, at a Move node |
| Trees.ExpandMoveNode | src/tree/tree.rs:100-104 | each child of a Move node is a Roll node for the opponent, with one empty square fewer on the mover's board and the opponent's board unchanged |
| Trees.ExpandCount | src/tree/tree.rs:95-107 | a Roll node gets six children; a Move node gets none exactly when the mover's board is full |
| Trees.ExpandProgress | src/tree/tree.rs:95-107 | before the game ends a node gets at least one child, and each child is closer to the end |
| Trees.Node.constructor | src/tree/tree.rs:22-29 | `Node::new` holds the given boards and type and has no children |
| Trees.Node.Empty | src/tree/tree.rs:13-20 | `Node::empty` holds two empty boards, player 1 to roll, and no children |
| Trees.Node.FromPlayerAndBoards | src/tree/tree.rs:31-36 | the new childless node holds the boards by player |
| Trees.Node.AppendChild | src/tree/tree.rs:149 | pushing a child appends it and its subtree and keeps the others |
| Trees.Node.AddMove | src/tree/tree.rs:134-156 | on success exactly one child is appended: the position after the move; on failure nothing changes and the error is the move's |
| Trees.Node.AddRolls | src/tree/tree.rs:158-177 | on a Roll node the six roll children are appended; on a Move node nothing changes and the error is returned |
| Trees.Node.GenerateChildrenUpToSymmetry | src/tree/tree.rs:95-107 | the node's children become its old children followed by the children of `Expand` |
| Trees.Node.AddMoves | src/tree/tree.rs:102-104 | adding each reduced move in turn appends the children of those moves, in order |
| Trees.Node.BuildNMovesUpToSymmetry | src/solver/solver.rs:33 | the childless root grows into the tree `Grow(pos, depth)` |
| Trees.Node.BuildEntireTreeUpToSymmetry | src/solver/solver.rs:23 | the childless root grows into the whole game tree, down to finished games |
| Trees.Node.NChildren | src/tree/tree.rs:179-181 | `n_children` is the number of subtrees |
| Trees.Node.GetMaxDepth | src/tree/tree.rs:183-189 | the depth is at least 1, and is 1 for a leaf |
| Trees.Node.MaxDepthOverChildren | src/tree/tree.rs:183-189 | the depth exceeds every child's depth and is 1 + the depth of some child |
| TreeExamples.InstantiatesExample | src/tree/tree.rs:212-230 | the getters of the two test nodes: boards, die and active player |
| TreeExamples.GameOverExample | src/tree/tree.rs:233-245 | the lone-two node is not over; the node with a full board is |
| TreeExamples.OutcomeExample | src/tree/tree.rs:248-260 | in progress, then 48 against 23 and victory for player 1 |
| TreeExamples.DrawExample | src/tree/tree.rs:262-267 | 27 against 27 is a draw |
| TreeExamples.MoveAndRollsExample | src/tree/tree.rs:271-290 | no children, one after the move, six after the rolls, each with a die |
| TreeExamples.LegalMovesExample | src/tree/tree.rs:293-307 | player 2's empty board gives all nine squares in row-major order |
| TreeExamples.LegalMovesOneGapExample | src/tree/tree.rs:309-322 | one gap gives the single move (0, 1); a Roll node errs |
| TreeExamples.ReducedMovesExample | src/tree/tree.rs:328-340 | the empty board's reduced moves are (0, 0), (0, 1), (0, 2) |
| TreeExamples.ReducedMovesOneColumnExample | src/tree/tree.rs:342-356 | the one column with room gives (1, 1); a Roll node errs |
| TreeExamples.GeneratedChildren | src/tree/tree.rs:95-107 | a new node gets one child per expanded position |
| TreeExamples.GenerateChildrenExample | src/tree/tree.rs:360-381 | the three test nodes get 3, 1 and 6 children |
| Solvers.Sign | src/solver/solver.rs:84-85 | an evaluation in player 1's favour is +1, in player 2's favour −1 |
| Solvers.FinishingFirst | src/solver/solver.rs:47-53 | the player with strictly fewer empty squares finishes first; a tie goes to the active player |
| Solvers.EmptySquareTermClosedForm | src/solver/solver.rs:54-62 | the empty-square term is player 2's empties − player 1's + (+1 if player 1 is active, −1 otherwise), for every finisher |
| Solvers.HeuristicClosedForm | src/solver/solver.rs:42-65 | the heuristic is the score difference plus that term times the fill |
| Solvers.HeuristicAntisymmetric | src/solver/solver.rs:42-65 | exchanging the players' differences, empties and turn negates the heuristic |
| Solvers.DifferenceHeuristicAntisymmetric | src/solver/solver.rs:42-65 | swapping the boards and the active player negates `difference_heuristic` |
| Solvers.FromOutcome | src/solver/solver.rs:82-89 | a game in progress has no evaluation; otherwise the evaluation is 1 exactly for a player 1 win, −1 exactly for a player 2 win, 0 exactly for a draw |
| Solvers.OutcomeEvaluationSign | src/solver/solver.rs:25-28 | a finished game's evaluation exists, and its sign is the sign of the score difference |
| Solvers.GrowLeavesOver | src/solver/solver.rs:23-27 | growing the tree to the game's horizon leaves only finished games at the leaves, so each has an outcome |
| Solvers.BruteForceBounds | src/solver/solver.rs:24-29 | a brute-force value lies between −1 and 1 |
| Solvers.SearchEvaluable | src/solver/solver.rs:22-36 | the tree each mode grows can be valued in that mode |
| Solvers.ChildValuesAt | src/solver/solver.rs:24-34 | the value of child i is the value of the tree grown below it, one level shallower |
| Solvers.BestMoves | src/solver/solver.rs:150-155 | a move is among the best moves when its value is the best, and every best move is a move whose value is the best |
| Solvers.BestIndices | src/solver/solver.rs:150-155 | the positions holding the best value, strictly increasing, each holding it, and none of them missing |
| Solvers.BestMovesInOrder | src/solver/solver.rs:150-155 | the best moves are the moves at the best positions, one for each, in the order the moves are enumerated |
| Solvers.AllTiedBest | src/solver/solver.rs:150-155 | when every move ties at the best value, every move is a best move, in its original order |
| Solvers.BestOfValues | src/solver/solver.rs:15-35 | at a Move node with distinct moves, a move is best exactly when its value is the combined value, at least one move is best, and that value is the maximum of the values for player 1 and the minimum for player 2 |
| Solvers.SearchErrors | src/solver/solver.rs:114-119 | searching from a Roll node fails; from a Move node it fails exactly when no level is searched or the game is over |
| Solvers.SearchChoosesBest | src/solver/solver.rs:120-156 | the moves returned are exactly the reduced moves attaining the value, each once and in the order the reduced moves are enumerated; the value is a maximum over the children for player 1 and a minimum for player 2 |
| Solvers.SearchValue | src/solver/solver.rs:22-36 | the evaluation returned is the expectiminimax value of the tree the mode grows |
| Solvers.BruteForceSearchBounds | src/solver/solver.rs:22-30 | a brute-force evaluation lies between −1 and 1 |
| Solvers.NodeValueIsTreeValue | src/solver/solver.rs:24-34 | valuing the grown nodes gives the value of their position tree |
| Solvers.NodeChildValuesAreTreeValues | src/solver/solver.rs:24-34 | likewise for the values of a node's first k children |
| Solvers.GrownNodeValues | src/solver/solver.rs:24-34 | a grown root has children exactly when the search goes below it, and their values are the child values of the search |
| Solvers.CollectBestMoves | src/solver/solver.rs:150-155 | the loop gathering the moves whose value is the best collects exactly the best moves |
| Solvers.NextMovesAndEvaluation | src/solver/solver.rs:24-35 | on the grown root, the moves and evaluation computed are those of the search |
| Solvers.Solver.FromRoot | src/solver/solver.rs:9-13 | the solver holds the given root |
| Solvers.Solver.GetBestMovesAndEvaluation | src/solver/solver.rs:15-36 | the root grows in place to the mode's depth, and the result is the search's |
| Solvers.Solver.GetEvaluation | src/solver/solver.rs:38-40 | the evaluation alone: the search's value, or its error |
| SolverExamples.OnesAndTwosFacts | src/solver/solver.rs:180-201 | the test boards of ones and twos score 22 and 44 with one empty square, and 27 and 54 when full |
| SolverExamples.TopFacts | src/solver/solver.rs:204-235 | a board with a lone die scores that die and has 8 empty squares; the empty board scores 0 with 9 |
| SolverExamples.PlayerOneToMoveExample | src/solver/solver.rs:180-190 | with player 1 to place a one: −22 and −22 + 3.5, then after (2, 2) the game is over at 27 − 44 for either fill |
| SolverExamples.PlayerTwoToMoveExample | src/solver/solver.rs:192-202 | with player 2 to place a two: 22 − 44 and 22 − 44 − 3.5, then 22 − 54 |
| SolverExamples.EmptyBoardsExample | src/solver/solver.rs:204-224 | empty boards: 0 and 3.5, then after placing die d on (0, 0), d's value for either fill |
| SolverExamples.EmptyBoardsSixAndOne | src/solver/solver.rs:210-224 | a lone six is valued 6 and a lone one 1, with fill 3.5 |
| SolverExamples.LoneOneExample | src/solver/solver.rs:226-235 | player 1's lone one: 1 for either fill, then after player 2's six, −5 and −1.5 |
| SolverExamples.RollRootExample | src/solver/solver.rs:114-119 | brute force from a Roll root fails |
| SolverExamples.OpeningSixChildren | src/solver/solver.rs:141-149 | the opening six has three children, one per column |
| SolverExamples.TopSixValue | src/solver/solver.rs:148-155 | each of them is valued 6 at depth 1 |
| SolverExamples.OpeningSixValues | src/solver/solver.rs:141-156 | the child values are [6, 6, 6] |
| SolverExamples.AllThreeBest | src/solver/solver.rs:150-155 | three tied moves are all best |
| SolverExamples.OnlyMoveBest | src/solver/solver.rs:106-112 | a lone move is best |
| SolverExamples.OneLevelExample | src/solver/solver.rs:141-156 | depth 1 from empty boards with a six: moves (0, 0), (0, 1), (0, 2) at 6.0 |
| SolverExamples.LastSquareMoves | src/solver/solver.rs:106-111 | player 1's only reduced move is (1, 1) |
| SolverExamples.LastSquareChild | src/solver/solver.rs:106-111 | it fills the board: 56 against 23 |
| SolverExamples.LastSquareValues | src/solver/solver.rs:106-111 | its value is a win, 1.0 |
| SolverExamples.LastSquareExample | src/solver/solver.rs:106-112 | brute force returns (1, 1) at 1.0 |
| EndgameExamples.EndgameMoves | src/solver/solver.rs:121-126 | player 2's reduced moves are (1, 1) and (2, 2), and the game ends within six levels |
| EndgameExamples.EndgameChildren | src/solver/solver.rs:123-125 | those moves leave player 2 with the boards scoring 30 and 44 |
| EndgameExamples.FinishChild | src/solver/solver.rs:126 | player 1 has one move after each roll, and it ends the game |
| EndgameExamples.BoardScores | src/solver/solver.rs:121-133 | player 1 finishes with 45, 47, 43, 44, 45 or 46; player 2's boards score 30 and 44 with one square left |
| EndgameExamples.RollValue | src/solver/solver.rs:127-133 | the roll after player 2's move is valued as the mean over the six finished games |
| EndgameExamples.LeafOutcome | src/solver/solver.rs:127-133 | a finished game is valued by the sign of the score difference |
| EndgameExamples.LeafDifference | src/solver/solver.rs:165-170 | at depth 5 a finished game is valued by the score difference |
| EndgameExamples.LeftSixOutcomes | src/solver/solver.rs:124-133 | after (1, 1), player 1 wins on every roll |
| EndgameExamples.RightSixOutcomes | src/solver/solver.rs:125-133 | after (2, 2), player 1 wins on 1, 2, 5, 6, loses on 3, draws on 4 |
| EndgameExamples.LeftSixDifferences | src/solver/solver.rs:163-170 | after (1, 1) the differences are 15, 17, 13, 14, 15, 16 |
| EndgameExamples.RightSixDifferences | src/solver/solver.rs:164-170 | after (2, 2) they are 1, 3, −1, 0, 1, 2 |
| EndgameExamples.BruteForceEndgameValues | src/solver/solver.rs:120-137 | by brute force the two moves are worth 1 and 0.5 |
| EndgameExamples.HeuristicEndgameValues | src/solver/solver.rs:158-174 | at depth 5 they are worth 15 and 1 |
| EndgameExamples.SecondSmallerSearch | src/solver/solver.rs:123-137 | player 2, minimising, picks the second of two moves when it is worth strictly less |
| EndgameExamples.BruteForceEndgameExample | src/solver/solver.rs:120-137 | brute force returns (2, 2) at (4·1 + 0 − 1)/6 = 0.5 |
| EndgameExamples.HeuristicEndgameExample | src/solver/solver.rs:158-174 | the heuristic at depth 5 returns (2, 2) at (1 + 3 − 1 + 0 + 1 + 2)/6 = 1 |

## Left out

- src/main.rs is not part of this model. It is command-line parsing and printing, and its body is `unimplemented!()`.
- The tic-tac-toe stubs at src/board/board.rs:153-179 are not modelled: `to_string_with_square_highlighted`, `new`, `is_set`, `make_move`, `get_active_player` and `get_legal_moves`. All of them are `unimplemented!()`. The exception is `with_move_made`, which `Trees.WithMoveMade` gives an assumed contract.
- `Node::get_child` (src/tree/tree.rs:195-197) is `unimplemented!()` and is not modelled. `get_children`, `get_boards`, `get_player_1_board`, `get_player_2_board` and `get_scores` are plain field reads: they are the fields of `Trees.Position` and the function `Boards.Score`.
- Display-only code is left out: `Move::to_string`, `Die::to_string`, `Outcome::to_string`, `Player::to_string`.
- `Evaluation` and the heuristic use `f32`; the model uses `real`. Rounding is not modelled. Every value the tests compare is exact in both.
- `SolverMode::Heuristic` carries a function pointer. The model passes a Dafny function value `Position -> real`.
- Search depth counts node levels: one round of child generation per level. The solver code that counts depth is not shown. The tests hold for this reading.
- `Solvers.Search`: at a Move node that is over, or with depth 0, the source's search behaviour is not shown. The model returns the `NoMoveToChoose` error there. The only error the tests pin is the one at a Roll root.
- The order of the reduced moves is by column: the lowest empty row of column 0, then column 1, then column 2. Row-major order and column order agree on every test.
- `Trees.WithMoveMade`: its contract is assumed, because the source function is a stub. Moves outside the 3×3 grid fail like moves onto a full square.
- Dice elimination is not modelled, because no code in the repository implements it.
- Cloning and aliasing are not modelled. Rust's `clone` of nodes and boards gives independent values, and the model uses values for boards and positions. `Node` is a class only so that its children can grow in place.
- `Bitboard::set` takes `&mut self` on a `Copy` wrapper of a `u16`. `Bitboards.Set` returns the new bitboard, and `Bitboards.FromBinary` reassigns its variable, which is the same update.
- `Board::from_string` on text wider or taller than 3×3 would index out of bounds and panic. `BoardText.ParseBoard` and `BoardText.FromString` require that the text fits, so the panic is not modelled.
- `Bitboard::set` and `is_set` take `usize` coordinates; above 2 they would underflow. `Bitboards.Set` and `Bitboards.IsSet` require coordinates below 3.
- Trees.Node.BuildNMovesUpToSymmetry, Trees.Node.BuildEntireTreeUpToSymmetry, Solvers.Solver.GetBestMovesAndEvaluation and Solvers.Solver.GetEvaluation require a root with no children yet. Building on a root that already has children is not modelled. That happens, for example, on a second solve with the same `Solver`, or with `get_evaluation` after `get_best_moves_and_evaluation` (src/solver/solver.rs:15-40). `build_n_moves_up_to_symmetry` and `build_entire_tree_up_to_symmetry` are not part of this model, so what a rebuild does to existing children is unknown. `generate_children_up_to_symmetry` (src/tree/tree.rs:95-106) appends to the children it finds, which suggests a rebuild would duplicate subtrees, not replace them.
- Stack depth, memoization and performance are not modelled.
