# Sliding-tile puzzle solver, modelled in Dafny

This project models the puzzle engine of a 3 x 3 sliding-tile game (the "8-puzzle"). The game
itself is a pygame program; the engine under it is what is modelled here:

- the board, a list of columns where `board[x][y]` is column `x`, row `y`, each cell a tile
  number or `BLANK`;
- the solved board built with a running counter;
- the scan for the blank;
- the boundary rule for the four moves and the in-place swap that makes a move;
- the opposite-move mapping used to undo a scramble;
- the filtering of candidate moves for a random scramble;
- the search node class `State`;
- the hard-coded Manhattan-distance heuristic `h`;
- successor generation;
- breadth-first search, with the queue `lvl` of every enqueued node as its visited list;
- A*, with a re-sorted open list `Q`, a `closed` list and its duplicate rules;
- the parent-walk that turns a search result into a move list, and the replay of that list.

Layout, leaf first:

| file | module | what |
|---|---|---|
| board.dfy | `Board` | cells, moves, boards as values (`Grid`), blank scan, `IsValidMove`, `Apply`, `Opposite`, `Replay`, the solved board `Goal` |
| board_array.dfy | `BoardArray` | the mutable board as an `array2`: `GetStartingBoard`, `GetBlankPosition`, `MakeMove`, `CopyMatrix`, the candidate filter of `getRandomMove`, `resetAnimation`'s undo loop |
| finite.dfy | `Finite` | a move never brings a new cell value, so the boards a search meets lie in one finite set; a set of boards closed under moves keeps the goal out of reach |
| heuristic.dfy | `Manhattan` | `h` as a double loop (`H`) and as a value (`Heuristic`); among boards holding tiles 1..8 once each it is zero exactly on the goal; consistent and admissible |
| search_node.dfy | `SearchNode` | `State`, `successor`, the parent-walk path reconstruction |
| bfs.dfy | `Bfs` | `BFS` and the invariants of its queues |
| astar.dfy | `AStar` | `AStar`, its stable sort by `f`, the duplicate rules |
| solve.dfy | `Solve` | the two solve buttons without drawing: search, reconstruct the path, replay it |

Conventions. A move names the direction the tile slides into the blank. `Up` brings the tile
from below the blank (`(bx, by+1)`) and `Left` brings the tile from its right (`(bx+1, by)`).
`BLANK` (Python `None`) is `Cell.Blank`. Board equality is value equality of `seq<seq<Cell>>`,
which is what Python's `==` on nested lists computes. A node's board is a value (`const
matrix_state: Grid`): no code writes a node's board during a search. The root node shares the
live board list, which the program changes only after the search has returned.

## Model

| member | source | states |
|---|---|---|
| `Board.Goal` | source_code.py:167-182 | the solved board is Width columns of Height cells; cell (x, y) holds tile x + 1 + Width*y, except the last cell, which is blank |
| `BoardArray.GetStartingBoard` | source_code.py:167-182 | the counter construction (counter += Width per row, then rewound per column) fills exactly the closed-form solved board `Goal()` |
| `Board.GoalLayout` | source_code.py:168-170 | for 3 x 3 the solved board is `[[1,4,7],[2,5,8],[3,6,BLANK]]` |
| `Board.GoalIsPermutation` | source_code.py:167-182 | on the solved board every tile 1..8 appears once, the only blank is cell (2, 2), and the blank scan finds it there |
| `Board.GoalTileAt` | source_code.py:171-179 | tile k sits in column (k-1) % Width, row (k-1) / Width of the solved board |
| `Board.BlankPosition` | source_code.py:185-190 | the scan returns nothing exactly when the board has no blank, and otherwise the first blank in column-by-column order |
| `Board.FindBlankFrom` | source_code.py:187-190 | the scan from a given cell on returns the first blank at or after that cell, or nothing when none follows |
| `BoardArray.GetBlankPosition` | source_code.py:185-190 | the nested loop with early return finds the same first blank, or none, on the array board |
| `Board.ValidMoveInBounds` | source_code.py:207-212 | `isValidMove`'s four boundary tests (`IsValidMove`) pass exactly when the cell the move brings a tile from lies on the board |
| `Board.Apply` | source_code.py:193-204 | `makeMove` as a value: a valid move yields a board of the same 3 x 3 shape, whose cells `ApplyCells` states |
| `Board.ApplyCells` | source_code.py:193-204 | after a valid move the blank's cell holds the neighbour's tile, the neighbour's cell is blank, and every other cell is unchanged |
| `Board.ApplyMovesBlank` | source_code.py:193-204 | on a board with one blank, a valid move keeps exactly one blank, now at the neighbour's cell |
| `BoardArray.MakeMove` | source_code.py:193-204 | the in-place swap leaves the array holding `Apply` of its old contents |
| `BoardArray.SwapCells` | source_code.py:198 | the multiple assignment trades the two cells and changes nothing else |
| `Board.Opposite` | source_code.py:373-380 | the opposite of a move is never the move itself |
| `Board.OppositeInvolution` | source_code.py:373-380 | the opposite of the opposite is the move |
| `Board.UndoMove` | source_code.py:193-204 | after a valid move the opposite move is valid, and it restores the board exactly |
| `Board.UndoMoves` | source_code.py:369-380 | the undo list is the move list reversed, each move replaced by its opposite |
| `Board.UndoReplay` | source_code.py:367-382 | replaying the undo list of a list of valid moves brings the board back to where it started |
| `Board.Replay` | source_code.py:91-93 | making the moves of a list in turn, which fails at the first invalid move; a replay that succeeds ends on a 3 x 3 board that still has a blank |
| `Board.ReplayHead` | source_code.py:91-93 | the first move of a replayable list is valid, and the rest of the list replays from the board it makes to the same end |
| `Board.ReplayNext` | source_code.py:91-93 | once the first i moves replay to board c, move i is valid on c and the first i + 1 moves replay to the board it makes from c |
| `Board.ReplayAppend` | source_code.py:91-93 | replaying s + t is replaying s, then t from where s ended |
| `Board.ReplayOneBlank` | source_code.py:359-363 | a replayed list of valid moves keeps the single blank |
| `BoardArray.ResetMoves` | source_code.py:367-382 | resetAnimation's loop returns the live board to the board the moves started from |
| `BoardArray.UndoMoveOn` | source_code.py:373-382 | one pass of the loop: the opposite of the move is made on the live board, which then holds that opposite move applied to its old contents |
| `BoardArray.CopyMatrix` | source_code.py:465-471 | the copy is a fresh board with the same cells |
| `BoardArray.RemoveFirst` | source_code.py:221 | `list.remove` drops one occurrence and keeps every other move, and a duplicate-free list stays duplicate-free without it |
| `BoardArray.RemoveUnless` | source_code.py:220-227 | one if-remove statement: afterwards a move is in the list exactly when it is yet to be filtered or its test passed, and no move appears twice |
| `BoardArray.FilterMoves` | source_code.py:217-227 | the four if-remove statements keep exactly the moves whose test passed, each once |
| `BoardArray.RandomMoveCandidates` | source_code.py:215-227 | the candidates are exactly the valid moves other than the opposite of `lastMove`, none twice, and never none |
| `BoardArray.SomeMoveEachAxis` | source_code.py:209-212 | on a 3 x 3 board one of Up/Down and one of Left/Right is always valid |
| `Manhattan.H` | source_code.py:394-463 | the double loop accumulates exactly `Heuristic` of the board |
| `Manhattan.HomeIsGoalCell` | source_code.py:399-462 | the home cell hard-coded for each tile 1..8 is the cell the solved board gives it |
| `Manhattan.HeuristicGoal` | source_code.py:394-463 | h of the solved board is 0 |
| `Manhattan.HeuristicZeroIff` | source_code.py:394-463 | h is 0 exactly when every tile 1..8 is in its home cell |
| `Manhattan.HeuristicZeroIsGoal` | source_code.py:394-463 | on a board holding tiles 1..8 once each and one blank, h is 0 if and only if it is the solved board |
| `Manhattan.HeuristicConsistent` | source_code.py:394-463 | one valid move changes h by at most one, up or down |
| `Manhattan.HeuristicAdmissible` | source_code.py:394-463 | h never exceeds the length of a move list that solves the board |
| `SearchNode.State.constructor` | source_code.py:385-391 | a node holds the board it is given, its parent and its move, with g = f = 0 |
| `SearchNode.NoSolution` | source_code.py:531 | the sentinel `State([], None, None)` has an empty board, no parent and no move |
| `SearchNode.ValidMovesExact` | source_code.py:474-501 | successor tries exactly the valid moves, each once |
| `SearchNode.ValidMovesCount` | source_code.py:474-501 | successor yields 2 children in a corner, 3 on an edge and 4 in the interior |
| `SearchNode.ExpandMove` | source_code.py:477-481 | one block of successor: a fresh child whose board is the move made on a copy of the parent's board, whose parent is the input node and whose move is that move, with g = f = 0 |
| `SearchNode.AddChild` | source_code.py:477-481 | the child is appended exactly when its move is valid on the parent's board |
| `SearchNode.Successor` | source_code.py:474-501 | one fresh child per valid move, in the order LEFT, RIGHT, UP, DOWN, each the move made on the parent's board, with g = f = 0 |
| `SearchNode.PathReplays` | source_code.py:86-90 | replaying the moves of the parent chain from the root's board yields the node's board |
| `SearchNode.Solution` | source_code.py:86-90 | walking the parent links and reversing the collected moves gives the moves from the root down to the node |
| `Bfs.InLevel` | source_code.py:521-526 | the scan of `lvl` sets the flag exactly when some node of `lvl` has the board |
| `Bfs.VisitChild` | source_code.py:519-529 | a successor whose board is in `lvl` changes neither queue, and any other successor is appended to both `Q` and `lvl` |
| `Bfs.ExpandNode` | source_code.py:517-529 | the dequeued node's successors are the states `successor` builds, in its order; `Q` and `lvl` each grow by exactly those successors whose boards `lvl` did not hold, in that order; afterwards that node and every node dequeued before it had all their children's boards enqueued once |
| `Bfs.VisitNext` | source_code.py:519-529 | handling the i-th successor keeps `Q` and `lvl` equal to the old queues followed by the new-board successors among the first i + 1 |
| `Bfs.VisitingDone` | source_code.py:517-529 | once every successor is handled, the queues are the old ones followed by the new-board successors and the search invariant holds again |
| `Bfs.AppendedNext` | source_code.py:519-529 | the membership test against `lvl` appends the next successor exactly when its board is new |
| `Bfs.AppendedLevel` | source_code.py:526-529 | after the appends, the boards of `lvl` are the old boards together with all successors' boards |
| `Bfs.AppendedFrom` | source_code.py:526-529 | every appended node is a successor of the dequeued node, with a board not held before |
| `Bfs.DequeueStep` | source_code.py:510-512 | the node `Q.get()` returns is the next node of `lvl`, and it is no shallower than the node before it |
| `Bfs.OrderFacts` | source_code.py:504-531 | the dequeue order starts at the start node, never repeats a board and never decreases in depth |
| `Bfs.ExhaustedUnreachable` | source_code.py:510-531 | once the queue is empty with no goal found, no move list leads from the start board to the solved board |
| `Bfs.BFS` | source_code.py:504-531 | a returned solved node descends from the start node and is the last node dequeued; otherwise the sentinel is returned and the solved board is out of reach; the dequeue order never repeats a board and never decreases in depth |
| `AStar.SortByF` | source_code.py:566 | `Q.sort(key=f)` yields a permutation of `Q`, ascending in f, keeping the nodes of each f value in their order (a stable sort) |
| `AStar.HeadIsMinimum` | source_code.py:540 | `Q.pop(0)` on the sorted list takes a node of minimum f |
| `AStar.ScanOpen` | source_code.py:557-563 | the flag is set exactly when `Q` holds the board; the matching node with a strictly larger f takes the successor's g and f, and no other node changes |
| `AStar.ScanClosed` | source_code.py:551-563 | the flag is set exactly when `closed` or `Q` holds the successor's board |
| `AStar.ConsiderChild` | source_code.py:548-565 | a successor gets g = parent g + 1 and f = g + h, and is appended to `Q` exactly when no node of `closed` or `Q` has its board |
| `AStar.ChildPass` | source_code.py:548-565 | one pass of the for loop: the child gets g = parent g + 1 and f = g + h and is appended to `Q` exactly when neither `closed` nor `Q` holds its board; the open node with its board takes its g and f when that f is smaller, every other open node keeps its costs, and the closed nodes keep theirs |
| `AStar.ExpandPass` | source_code.py:548-565 | one pass keeps the for loop's invariant: `Q` is the old `Q` followed by the children appended so far, at cost g = parent g + 1, with the old nodes relaxed by the children handled so far |
| `AStar.ExpandCurrent` | source_code.py:547-565 | after the for loop, `Q` is the old `Q` followed by the successors whose boards `closed` and `Q` did not hold, in order, each with g = parent g + 1 and f = g + h; every node already open is relaxed by the successors; the closed nodes keep their costs, and the node just closed counts as expanded |
| `AStar.SortOpen` | source_code.py:566 | the sorted `Q` is the stable sort by f of the old `Q`, keeps what A* keeps about `closed` and `Q`, and holds no node the old `Q` did not |
| `AStar.CloseAndExpand` | source_code.py:545-566 | the new `Q` is the stable sort by f of the list `ExpandCurrent` describes; the closed nodes keep their costs, and every node of the new `Q` was open before or is new |
| `AStar.ClosePopped` | source_code.py:545-566 | the popped node is appended to `closed`, and the new `Q` is the stable sort by f of the rest of `Q` followed by the successors whose boards were not held, with the open nodes relaxed |
| `AStar.Step` | source_code.py:539-566 | one pass pops a node of minimum f and returns it when it is solved, with `Q` left as its tail and no cost changed; otherwise it closes the node and the new `Q` is as `ClosePopped` states |
| `AStar.Round` | source_code.py:539-566 | one pass of the while loop keeps the loop's invariant, closes one more node and never more nodes than there are boards of the start board's cells; a node it returns is solved and reached from the start node |
| `AStar.Search` | source_code.py:539-567 | the while loop returns a solved node reached from the start node (the start node itself when it is solved), or nothing, and then no move list leads from the start board to the solved board |
| `AStar.AStarExhausted` | source_code.py:539-567 | once `Q` is empty, no move list leads from the start board to the solved board |
| `AStar.AStar` | source_code.py:534-567 | the start node's f is its h; a returned solved node descends from the start node and has f = g + h unless it is the start node; a solved start board is returned at once; otherwise the sentinel is returned and the solved board is out of reach |
| `Solve.PlayMoves` | source_code.py:91-93 | making each move of a replayable list on the live board leaves the board at the replay's end |
| `Solve.PathFromRoot` | source_code.py:81-90 | the reconstructed path of a result descending from the root node replays from the root's board to the result's board |
| `Solve.SolveBfs` | source_code.py:81-90 | the BFS button's move list replays from the board to the solved board, or is empty and no move list solves the board; a solved board gets no moves |
| `Solve.SolveAStar` | source_code.py:103-112 | the same for the A* button |
| `Solve.SolveAndPlay` | source_code.py:77-116 | after a solve button the live board is solved, unless no move list could solve it and it is left unchanged |

## Left out

- Everything drawn or read from the user: the event loop of `main`, `drawBoard`, `drawTile`,
  `slideAnimation`, `makeText`, `getLeftTopOfTile`, `getSpotClicked`, image loading, the frame clock,
  and the floating-point margins (`YMARGIN` divides by 3.5).
- `terminate` and `checkForQuit` (process exit, event queue). The calls inside `BFS` and in the
  path walk are treated as doing nothing.
- `random.choice` in `getRandomMove` and the random scramble of `generateNewPuzzle`, which also
  animates and waits. The candidate list is modelled (`RandomMoveCandidates`), and a scramble is
  modelled as replaying a given move list (`PlayMoves`, `Replay`).
- The sentinel test `solution_state != State([], None, None)` in `main` compares objects by
  identity and is always true; the model goes straight to the parent walk, which yields the empty
  list on the sentinel.
- `MakeMove`: requires the move to be valid. The program does no check; an invalid DOWN or RIGHT
  would index -1 and wrap to the far cell through Python's negative indices, and an invalid UP or
  LEFT would raise `IndexError`.
- `Board.IsValidMove` and the members built on it require a board of the program's 3 x 3 shape with
  a blank. On a board without a blank, `getBlankPosition` returns `None` and the program crashes
  unpacking it.
- `h` allocates a solved board it never uses (`solveBoard`, line 396); this has no effect and is
  not modelled.
- A search node's board is a value fixed when the node is made. The root node in `main` shares its
  list with the live board, which is only changed after the search has returned; that aliasing is
  not modelled.
- `Bfs.BFS` and `AStar.AStar` are not proved to find the shortest solution. The model proves the
  dequeue order of BFS is non-decreasing in depth, but not full optimality over the 9! boards.
  A* is not optimal as written: an improved open entry keeps its stale parent, so the reconstructed
  path can be longer than its `g`.
- Termination of both searches is argued from the finite number of boards made of the start
  board's cells; no step budget is added.
- The A* duplicate scan of `Q` is nested inside the loop over `closed` (lines 552-563) and runs on
  every pass while no match has been found. It is modelled as written. `ScanClosed` relies on the
  fact that `closed` is never empty at that point, and on the invariant that no board is held
  twice across `closed` and `Q`.
