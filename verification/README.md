# Sliding-puzzle boards and graph search, modelled in Dafny

This project models the core of a sliding-tile puzzle solver.

- `board.dfy` (module `Board`) models the n x n board. A board is kept as a row-major tile string with one blank (the space character). The module covers:
  - validated construction (`create`) and its four `BadBoard` checks;
  - the four blank moves and the `_space_move` swap behind them;
  - equality by tiles;
  - the Manhattan-distance heuristic that `generate_heuristic` stores in the board.

  `SlideBoard` is a class. Its tiles, width, blank index, depth and parent never change after construction, so they are `const`. The heuristic is the one field written later, so it is a `var`. The value part of a board is the datatype `Config`. `Slide` describes each move on a `Config`, and each move method is proved to agree with it.
- `state_space.dfy` (module `StateSpace`) holds what the search needs to know about the space of boards:
  - reachability by legal moves;
  - sets of tile strings closed under moves;
  - a finite set holding every rearrangement of the start's tiles, which bounds how often the search can expand.
- `solver.dfy` (module `Solver`) models the fringe family and the shared search loop:
  - the FIFO queue, the LIFO stack and the stable priority queue;
  - the created-count and the high-water mark of the fringe;
  - `_graph_search`, with BFS, DFS, greedy best-first search and A* on top of it.

  The three fringes are one class `Fringe` with a `Strategy` (`Fifo`, `Lifo` or `LeastCost(f)`) and three named constructors. The priority queue keeps its list in non-increasing score order, exactly as the sorted list does. Ghost fields record each stored board's score (`keys`) and when it was added (`stamps`), so that the first-in-first-out tie-break can be stated and proved.

The main results are as follows.

- The search finds a board exactly when the goal's tiles are reachable from the start by legal blank moves.
- A found board has the goal's tiles. Its parent chain is a sequence of legal moves from the start, as long as its depth difference from the start.
- No tile string is expanded twice, and the reported expanded count is the number of expanded strings.
- Exhaustion returns `(None, -1, 0, 0, 0)`.
- A start that already is the goal comes back at once, with nothing created or expanded.
- When a board is found, the expanded count plus the boards still waiting is at most the created count, and the high-water mark lies between 1 and the number of boards added.
- The start's heuristic is generated exactly when the fringe uses one (greedy best-first and A*); BFS and DFS leave it as it was.
- The loop terminates. Each expansion adds a new rearrangement of the start's tiles, and there are finitely many of those. The bound rests on two general facts proved along the way: a subset is no larger than its superset (`StateSpace.SubsetCardinality`), and a string over an alphabet is one of the words of its length (`StateSpace.WordsContain`).

## Model

| member | source | states |
|---|---|---|
| `Board.Elements` | Board.py:47 | a character is in the result exactly when it occurs in the string (`set(s)`) |
| `Board.ElementsCardinality` | Board.py:47 | `len(set(s)) <= len(s)`, with equality exactly when no character occurs twice |
| `Board.IndexOf` | Board.py:50 | `str.index`: an in-range position holding the character, with no earlier occurrence |
| `Board.Validate` | Board.py:40-48 | no error exactly when all four checks pass; each error comes back exactly when its check is the first to fail, in the order size, length, blank, duplicates |
| `Board.SlideBoard.Create` | Board.py:40-50 | fails exactly on an ill-formed string, with the first failed check; otherwise a fresh valid board whose tiles are the string, whose blank index is the first blank, at depth 0 with no parent and no heuristic |
| `Board.SlideBoard.constructor` | Board.py:52-65 | stores tiles, width, blank index, depth and parent unchecked; the heuristic starts absent |
| `Board.SlideBoard.Equals` | Board.py:69-70 | true exactly when both tile strings have the same length and the same character at every index; depth, parent and heuristic play no part |
| `Board.BlankIndexUnique` | Board.py:50 | in a valid board the blank index is the first and only blank |
| `Board.SwapTiles` | Board.py:91-94 | the slicing expression keeps the length, exchanges positions `a` and `b`, and leaves every other position unchanged |
| `Board.SwapTilesPermutes` | Board.py:91-94 | the swap keeps the multiset of tiles |
| `Board.SwapTilesDistinct` | Board.py:91-94 | the swap keeps the tiles free of duplicates |
| `Board.MoveGeometry` | Board.py:99-125 | each move's legality test holds exactly when the blank is not on the edge the move would cross; a legal target is in range, differs from the blank index and is the neighbouring cell in that direction |
| `Board.Slide` | Board.py:82-125 | no board exactly at the edge; otherwise same width, blank in the neighbouring cell, the blank's old and new cells exchanged, all other cells unchanged |
| `Board.SlideKeepsValid` | Board.py:82-97 | a legal move keeps a valid board valid (one blank, at the new index, no duplicates) and permutes its tiles |
| `Board.SlideBoard.SpaceMove` | Board.py:82-97 | null exactly when the check fails; otherwise a fresh board with the two cells swapped, the same width, blank index `new_pos`, depth one more, this board as parent and no heuristic |
| `Board.SlideBoard.SpaceUp` | Board.py:99-104 | null exactly when the blank index is below `n` (first row), which is exactly when `Slide` gives none; otherwise the board `Slide` describes, blank index `space_ind - n`, depth one more, this board as parent |
| `Board.SlideBoard.SpaceDown` | Board.py:106-111 | null exactly when the blank index is at least `n*n - n` (last row); otherwise the `Slide` board, blank index `space_ind + n`, depth one more, parent this board |
| `Board.SlideBoard.SpaceLeft` | Board.py:113-118 | null exactly when the blank index is `0 mod n` (first column); otherwise the `Slide` board, blank index `space_ind - 1`, depth one more, parent this board |
| `Board.SlideBoard.SpaceRight` | Board.py:120-125 | null exactly when the blank index is `n - 1 mod n` (last column); otherwise the `Slide` board, blank index `space_ind + 1`, depth one more, parent this board |
| `Board.ManhattanDistance` | Board.py:5-15 | the loop's total is the sum, over the non-blank tiles, of the row distance plus the column distance to the same tile in the second board |
| `Board.ManhattanUpToZero` | Board.py:5-15 | a partial sum of tile distances is zero exactly when every term is |
| `Board.ManhattanZeroIffGoal` | Board.py:5-15 | for a board without duplicate tiles, the distance to the goal is 0 exactly when its tiles are the goal's |
| `Board.SlideBoard.GenerateHeuristic` | Board.py:72-73 | the heuristic field afterwards holds the Manhattan distance to the goal |
| `StateSpace.ConfigOfValid` | Board.py:50 | a valid board is determined by its tiles and width: its blank index is the first blank of its tiles |
| `StateSpace.ReachExtend` | Board.py:82-125 | a move sequence reaching a board extends by one more legal move from it |
| `StateSpace.DescendsReachesWithin` | Board.py:95-96 | a board hanging `k` parent links below the root, each a legal move, is reached from the root within `k` moves |
| `StateSpace.DescendsReachable` | Board.py:95-96 | the parent chain of such a board is a solution path: its tiles are reachable from the root |
| `StateSpace.ClosedHoldsReachable` | Solver.py:140-159 | a set of tile strings closed under legal moves holds everything reachable from its members |
| `StateSpace.ClosedExcludesUnreachable` | Solver.py:140-161 | nothing outside such a set is reachable from inside it |
| `StateSpace.ClosedAfterExpand` | Solver.py:153-159 | adding a board whose moves all lead into the expanded set or the new fringe keeps the expanded set closed up to the fringe |
| `StateSpace.RearrangementInWords` | Solver.py:144-153 | every rearrangement of the start's tiles lies in that finite set |
| `StateSpace.CoversRearrangement` | Solver.py:31-32 | if every tile of the start occurs in the goal, the same holds for every rearrangement, so the heuristic can be computed for every board the search builds |
| `Solver.Fringe.Queue` | Solver.py:53-56 | an empty FIFO fringe without heuristic, `num_created` at -1 and `max_fringe` at 0 |
| `Solver.Fringe.Stack` | Solver.py:67-70 | an empty LIFO fringe without heuristic, `num_created` at -1 and `max_fringe` at 0 |
| `Solver.Fringe.PriorityQueue` | Solver.py:84-91 | an empty least-score fringe that generates heuristics, `num_created` at -1 and `max_fringe` at 0 |
| `Solver.Fringe.BisectLeft` | Solver.py:96-99 | `bisect_left` on the key `-f`: every stored board before the returned position has key below `x`, every board from it on has key at least `x` |
| `Solver.OrderedInsert` | Solver.py:96-99 | inserting a score left of every score that is not above it, with the newest stamp, keeps the list in non-increasing score order and keeps later arrivals left of earlier ones among equal scores |
| `Solver.Fringe.Store` | Solver.py:61-99 | `_add`: the queue and the stack append the board; the priority queue inserts it left of every board whose score is not above its own and right of every board that scores more; the order invariant is kept |
| `Solver.Fringe.Add` | Solver.py:29-38 | the heuristic is generated exactly when the fringe uses one; the length grows by one and the board is added; `num_created` goes up by one; `max_fringe` becomes the larger of itself and the new length, and never exceeds the number of boards added; the board is stamped later than every board already stored, which is what the priority queue's tie-break in `Remove` refers to |
| `Solver.Fringe.PopFront` | Solver.py:64-65 | `popleft`: the head comes out and the rest stays in order |
| `Solver.OrderedPop` | Solver.py:101-102 | the last entry of an ordered list has the least score and, among equal scores, the earliest stamp; dropping it keeps the order |
| `Solver.Fringe.PopBack` | Solver.py:78-102 | `pop`: the last board comes out and the rest stays in order; in a priority queue that board scores least and, among equal scores, arrived first |
| `Solver.Fringe.Remove` | Solver.py:42-43 | none on an empty fringe, which stays unchanged; otherwise one stored board comes out and the length drops by one: the oldest for a queue, the newest for a stack, the least-score and earliest-added for a priority queue; the counters are unchanged |
| `Solver.TryAdd` | Solver.py:126-129 | nothing changes, the successor's heuristic included, when the successor is null or its tiles were expanded; otherwise `fringe.add` happens: the queue or stack appends the board, the priority queue inserts it after exactly the boards scoring more, the board is stamped after every stored board, the heuristic is the Manhattan distance exactly when the fringe uses one, `num_created` goes up by one and `max_fringe` becomes the larger of itself and the new length; either way the length and `num_created` change by the same amount |
| `Solver.OfferSuccessor` | Solver.py:126-129 | `_try_add` of a legal or null successor inside the search: a null or expanded successor leaves the fringe and its counters unchanged; otherwise exactly that board joins it and `num_created` goes up by one; the fringe stays valid, holds only boards built from the start, keeps every board it had, grows by at most one, and the successor is expanded or waiting |
| `Solver.AfterTryAdd` | Solver.py:126-129 | after one `_try_add` every fringe board still descends from the start, none is lost, and a legal successor is expanded or waiting |
| `Solver.SpawnedChild` | Board.py:91-96 | a legal move from a board built from the start gives a board built from the start |
| `Solver.Successor` | Solver.py:156-159 | the `space_*` call for a direction: null exactly when `Slide` gives none; otherwise a fresh child one deeper whose parent is the node |
| `Solver.Offer` | Solver.py:156-159 | one `_try_add(…, node.space_<d>())` line: the successor built is null exactly when the move is illegal, and otherwise the `Slide` board one deeper with the node as parent; an illegal move or an expanded successor leaves the fringe and its counters unchanged; otherwise exactly that successor joins it and `num_created` goes up by one; the fringe stays valid, holds only boards built from the start, keeps every board it had, grows by at most one, and the successor is expanded or waiting |
| `Solver.Expand` | Solver.py:156-159 | after the four `_try_add` calls every legal successor of the node is expanded or waiting in the fringe, and the fringe grew by exactly as many boards as `num_created` rose |
| `Solver.ExpandNode` | Solver.py:153-159 | marking a new non-goal board expanded and offering its successors restores the loop invariant and grows the expanded set by exactly that board's tiles |
| `Solver.SkipKeepsInv` | Solver.py:144-145 | skipping a removed board whose tiles were already expanded keeps the loop invariant |
| `Solver.ExpandKeepsInv` | Solver.py:153-159 | expanding a removed new non-goal board keeps the loop invariant, and the expanded set grows by one within the finite set of rearrangements |
| `Solver.ExhaustedUnreachable` | Solver.py:140-161 | when the fringe runs dry, the goal's tiles are not reachable from the start |
| `Solver.SearchLoop` | Solver.py:140-161 | on a fringe holding the start: finds a board exactly when the goal is reachable; a found board has the goal's tiles and a parent chain of legal moves from the start, and the depth, `num_created`, expanded count and `max_fringe` are reported, with expanded plus still waiting at most created and `max_fringe` at least 1; otherwise the failure tuple; every expanded string is a valid rearrangement of the start, none twice, never the goal; a start equal to the goal comes out of the first removal |
| `Solver.GraphSearch` | Solver.py:136-161 | the loop's promise after adding the start; the start's heuristic is the Manhattan distance to the goal when the fringe uses one and is untouched otherwise; the fringe stays valid; a start equal to the goal is returned with `num_created` one up and `max_fringe` at least 1 |
| `Solver.BFS` | Solver.py:107-108 | the search's promise with a FIFO queue: reachability, a legal parent chain, `0 <= num_expanded <= num_created` and `1 <= max_fringe <= num_created + 1` for a found board, the failure tuple otherwise, `(start, depth, 0, 0, 1)` when the start is the goal; the start's heuristic is untouched |
| `Solver.DFS` | Solver.py:113-114 | the same promise with a LIFO stack; the start's heuristic is untouched |
| `Solver.GBFS` | Solver.py:116-119 | the same promise with a priority queue on the heuristic; the start's heuristic becomes its Manhattan distance to the goal |
| `Solver.AStar` | Solver.py:121-124 | the same promise with a priority queue on depth plus heuristic; the start's heuristic becomes its Manhattan distance to the goal |

`Fringe.Size` (`__len__`, Solver.py:18-19, 58-59, 72-73, 93-94), `Fringe.Score` (the key `f`, negated in Solver.py:91), `Board.CanMove` and `Board.Target` (the test and the new blank index each `space_*` method passes, Board.py:99-125, whose meaning `Board.MoveGeometry` states) and `Solver.Failure` (Solver.py:161) are definitions the contracts above are written in; they carry no contract of their own.

## Left out

- `__hash__` (Board.py:76-77) is not modelled. The expanded set is a set of tile strings, which is what hashing and equality by tiles amount to.
- The read-only properties (Board.py:130-149, Solver.py:45-51) are plain fields.
- The `BadBoard` exception becomes the `Err` side of a `Result`. Its message texts are not modelled.
- The abstract base class and `abstractmethod` machinery are not modelled. `deque`, the list and `insort_left` are modelled by what they do to a sequence.
- A priority function sees a board only through its depth and heuristic. Those are the only fields the two functions in use read.
- Board.SlideBoard.Equals: takes another board. The `type(self) == type(other)` test is not modelled, because the search only compares boards.
- Board.ManhattanDistance: requires a positive width and every non-blank tile to occur in the goal. The source would raise from `.index` instead; that error path is not modelled.
- Board.SlideBoard.GenerateHeuristic: carries the same two requirements as `ManhattanDistance`.
- Solver.Fringe.Add: carries the same two requirements for a heuristic fringe. It also requires that the board is not already stored there, so that writing its heuristic cannot disturb the order of stored boards. The search only ever adds fresh successors and the start.
- Solver.TryAdd: carries the requirements of `Solver.Fringe.Add`, and only when it adds the board to a heuristic fringe.
- Solver.GBFS: requires every tile of the start to occur in the goal, where the source would raise.
- Solver.AStar: has the same requirement as `GBFS`.
- Solver.GraphSearch: requires a valid start board, as `create` and the moves build it, and an empty fringe. Its expanded count is stated as the length of the ghost sequence of expanded strings.
- Solver.Expand: states the fringe's new contents only through their tile strings, and `num_created` only as rising with the length. The exact change is stated per call by `Solver.TryAdd`.
- Optimality and admissibility (BFS or A* finding shortest paths) are not claimed.
- Solvability checks are not modelled; the solver has none.
- The command-line tester, its console output and its result file are not part of this model.
- The search's running time and memory are not modelled.
