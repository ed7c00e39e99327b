# Maze generation with union-find, modelled in Dafny

`maze.py` builds a random "perfect" maze of `width` by `height` rooms with a
randomised Kruskal algorithm and draws it as text. This project models that
module in Dafny and proves what the construction, the queries and the drawing
promise.

The module has four parts, each modelled in its own Dafny module:

- **Union-find over grid cells** (`GoalLocation`, `CanAccess`, `GoalGrid`):
  module `UnionFind` (`unionfind.dfy`). A cell is either a goal (a root holding
  its own location) or a pointer to another location. `GoalGrid` is a class
  whose `rows` the methods reassign. `Goal` is the lookup
  (`GoalGrid.__getitem__` with the two `goal` methods), including its path
  compression. `SetGoal` is `setGoal`. A ghost rank map proves that lookup
  terminates, and that `setGoal` creates no pointer cycle when the two goals
  differ. The guard `not goalGrid[A] == goalGrid[B]` before each call of
  `setGoal` (maze.py:209, 213) is needed for correctness, not only for speed.
  On two cells that already share a goal, `setGoal` points that goal at a
  cell of its own set and closes a cycle (`SameGoalLinkCycles`). The next
  lookup through it would never return; Python would raise `RecursionError`.
  The ghost function `Find` says what the goal of a cell is.
- **Grids and coordinates** (`Grid`, `compactToBlock`, `blockToCompact`):
  modules `Grids` (`grids.dfy`) and `Locations` (`locations.dfy`). `Grid` is
  a class over a sequence of rows. The module `Grids` also holds the generic
  cell totals used to count goals and passages.
- **Construction** (`Maze.__init__`): modules `Passages` (`passages.dfy`)
  and `Construction` (`construction.dfy`). `NewMaze` runs the loop over the
  shuffled candidate walls against a `GoalGrid` and a `Grid` of way lists.
  The loop invariant `Forest` states three things:
  - every recorded passage joins two rooms with the same goal;
  - every room is connected by passages to its goal;
  - the number of goals plus the number of passages is the number of rooms.

  From the first two it follows that two rooms share a goal exactly when
  passages connect them (`SameGoalIffConnected`).

  At the end the passages form a spanning tree: they stay inside the maze,
  never repeat, connect every pair of rooms, and number `width * height - 1`.
- **Queries and drawing** (`waysFrom`, `hasBlockAt`, `__drawRow`,
  `drawBlocks`): modules `Mazes` (`maze.dfy`) and `Drawing` (`drawing.dfy`).
  A built maze is a value (`Maze` datatype). `HasBlockAt` keeps Python's
  wrap of index `-1` to the last column or row. It is proved equal to a
  reference definition with no wrap (`IsOpen`) for every maze construction
  can produce. `DrawRow` and `DrawBlocks` are the two drawing loops, writing
  into a `TextStream`.

`scenarios.dfy` works out the one-room and two-room mazes completely.

## Model

| member | source | states |
|---|---|---|
| Locations.CompactToBlock | maze.py:61-62 | the block of a room has two odd coordinates, and halving it gives the room back |
| Locations.BlockToCompact | maze.py:64-65 | the result is None exactly when a coordinate is even; otherwise it is the room whose block is the argument |
| Locations.CompactRoundTrip | maze.py:61-65 | converting a room to block coordinates and back gives `Some` of the room, for every location |
| Locations.CompactToBlockWithin | maze.py:61-62 | a room is inside the maze exactly when its block is strictly inside the block grid |
| Grids.Grid.constructor | maze.py:53-55 | a fresh grid is `height` rows of `width` cells, each the initial value |
| Grids.Grid.Get | maze.py:56-57 | the cell at p is read from row p.y, column p.x; with `Set` it returns the last value stored at p |
| Grids.Grid.Set | maze.py:58-59 | the cell at p becomes x and every other cell is unchanged: `Get(p)` is now x and `Get` at every other location is as before |
| UnionFind.Find | maze.py:26-32 | the goal of a cell is a location whose own cell is a goal, and following a pointer strictly lowers the rank, so the pointers have no cycle |
| UnionFind.FreshRows | maze.py:36-40 | the rows of a fresh goal grid: `height` rows of `width` cells, each the goal of its own location |
| UnionFind.FreshGoals | maze.py:36-40 | in a fresh goal grid every cell is its own goal (rank 0 everywhere is a valid rank map) |
| UnionFind.FreshRootCount | maze.py:36-40 | a fresh goal grid has `width * height` goals |
| UnionFind.RepointKeepsGoals | maze.py:30-31 | pointing a cell straight at its goal keeps the grid acyclic and changes no cell's goal |
| UnionFind.RankAboveGoal | maze.py:41-46 | if the goal r is pointed at a cell p2 that already has goal r, any rank for the result puts p2 strictly below r and every cell of r's set at or above r |
| UnionFind.SameGoalLinkCycles | maze.py:41-46 | `setGoal` on two cells with the same goal closes a pointer cycle: no rank exists for the resulting grid |
| UnionFind.FindStep | maze.py:30 | a pointer cell has the same goal as the cell it points to |
| UnionFind.CompressStep | maze.py:26-32 | one compression step after the recursive lookup: the pointers passed are repointed at the goal, every goal and the number of goals are kept |
| UnionFind.Relink | maze.py:45-46 | after the goal of p1 is pointed at p2, whose goal differs, a re-ranking exists under which the grid is still acyclic |
| UnionFind.LinkGoals | maze.py:41-46 | after that pointer is written, cells that had p1's goal have p2's goal, and all other goals are unchanged |
| UnionFind.GoalGrid.constructor | maze.py:38-40 | a fresh goal grid in which every cell inside the maze is its own goal |
| UnionFind.GoalGrid.Goal | maze.py:47-49 | returns p's goal, whose cell is a goal; every pointer on p's chain now points at the goal; no other cell changes; no cell's goal changes; the number of goals is kept |
| UnionFind.GoalGrid.SetGoal | maze.py:41-46 | requires the goals of p1 and p2 to differ; afterwards every cell that had p1's goal has p2's goal and every other goal is unchanged; p1's old goal cell points at p2 itself; the pointers on p1's chain now point at p1's old goal, and no other cell changes; there is one goal fewer |
| Passages.WayListAppend | maze.py:211 | appending a direction not yet in a way list keeps it a list of distinct 'E'/'S' entries |
| Passages.NoWays | maze.py:208-215 | a way list with neither 'E' nor 'S' is empty |
| Passages.RecordPassage | maze.py:211 | appending a direction to a room's list adds exactly one passage and keeps every earlier one |
| Mazes.PyIndex | maze.py:236 | Python list indexing for -len <= i < len: the element at position (i + len) mod len, so a negative index counts from the end |
| Mazes.Maze.PyWays | maze.py:236-238 | the way list `hasBlockAt` reads at compact (x, y), for -width <= x < width and -height <= y < height: the list at ((x + width) mod width, (y + height) mod height), so -1 is the last column or row |
| Mazes.Maze.WaysFrom | maze.py:216-230 | outside the maze there is no way; inside, the room's own list comes first, followed by at most two more directions |
| Mazes.Maze.HasBlockAt | maze.py:231-238 | outside the block grid, and at even/even positions, there is always a block; a room position (odd/odd inside the grid) is never a block |
| Mazes.RoomIsOpen | maze.py:231-238 | the block of every room of the maze is open |
| Mazes.HasBlockAtIsClosed | maze.py:231-238 | in a well-formed maze a location is a block exactly when it is neither a room nor the block between two rooms joined by a passage, despite the index wrap at x = 0 and y = 0 |
| Mazes.BetweenColumns | maze.py:235-236 | the same for a block between two rooms side by side, including the wrapped lookup at x = 0 |
| Mazes.BetweenRows | maze.py:237-238 | the same for a block between two rooms one above the other, including the wrapped lookup at y = 0 |
| Mazes.BorderIsBlocked | maze.py:231-238 | every location on the border of the block grid of a well-formed maze is a block |
| Mazes.WaysFromIsLinked | maze.py:216-230 | in a well-formed maze, a compass direction is in the result exactly when a passage links the room to its neighbour in that direction |
| Mazes.WaysFromDistinct | maze.py:216-230 | the directions returned are compass points and none appears twice |
| Mazes.WaysFromOrder | maze.py:223-227 | in a well-formed maze, the room's own list comes first, then 'W', then 'N': a 'W' at position i and an 'N' at position j satisfy own length <= i < j |
| Mazes.WaysFromSymmetric | maze.py:216-230 | 'E' is open from p exactly when 'W' is open from its East neighbour, and 'S' exactly when 'N' is open from its South neighbour |
| Construction.Column | maze.py:202-205 | the candidates of one column: `height` triples, exactly those with that column, a row in range and that direction |
| Construction.Sweep | maze.py:202-205 | the candidates of one direction: `width * height` triples, exactly those in range with that direction |
| Construction.Walls | maze.py:202-205 | the full candidate list: `2 * width * height` triples, exactly those in range with direction 'E' or 'S' |
| Construction.ForestInit | maze.py:200-201 | the loop invariant holds for a fresh goal grid and empty way lists |
| Construction.ForestRegoal | maze.py:209 | lookups that keep every goal and the number of goals keep the loop invariant |
| Construction.UnionSound | maze.py:208-211 | after a union of two different goals and the new passage, every passage still joins rooms with the same goal and stays inside the maze; the direction was not yet recorded there |
| Construction.UnionSoundAt | maze.py:208-211 | the same for one room |
| Construction.UnionReaches | maze.py:208-211 | after the union and the new passage, every room is still connected by passages to its goal |
| Construction.ForestUnion | maze.py:208-215 | a union of two rooms with different goals, together with the new passage, keeps the loop invariant |
| Construction.JoinSame | maze.py:208-213 | a candidate whose rooms already share a goal changes no goal, keeps the invariant and is settled |
| Construction.JoinDifferent | maze.py:208-215 | a candidate whose rooms have different goals keeps the invariant once the passage is recorded; rooms that shared a goal still do; the candidate's two rooms now share a goal |
| Construction.Join | maze.py:208-215 | the body of either `if` of the loop. If the two goals were equal, no way list and no goal changes. If they differed, a's set takes the neighbour's goal, `w` is appended to a's list, and no other list changes. Either way the invariant is kept, no two rooms that shared a goal are separated, and the candidate's two rooms end with one goal |
| Construction.WalkKeepsGoal | maze.py:207-215 | under the invariant, the two ends of a walk through passages have the same goal |
| Construction.SameGoalIffConnected | maze.py:207-215 | under the invariant, two rooms share a goal exactly when passages connect them |
| Construction.SettledKept | maze.py:207-215 | a candidate whose rooms share a goal keeps that property through later unions |
| Construction.SettledPrefix | maze.py:207-215 | after one more candidate, every candidate processed so far has rooms that share a goal |
| Construction.OneGoal | maze.py:207-215 | once every candidate inside the maze is settled, every room has the goal of room (0, 0) |
| Construction.OneRoot | maze.py:207-215 | if every room has the same goal, there is exactly one goal |
| Construction.SpanningTree | maze.py:207-215 | after the loop: every direction recorded once at most and inside the maze; every pair of rooms connected; `width * height - 1` passages |
| Construction.NewMaze | maze.py:193-215 | for any order of the candidate list: a maze of the requested size whose passages are well formed, connect every pair of rooms, and number `width * height - 1` (a spanning tree) |
| Drawing.TextStream.constructor | maze.py:245 | a new stream holds no text |
| Drawing.TextStream.Write | maze.py:248 | writing appends to the text written so far |
| Drawing.LineStartClosedForm | maze.py:246-249 | line y of lines of w characters joined by newlines starts at `y * (w + 1)` |
| Drawing.JoinLinesLength | maze.py:246-249 | n lines of w characters joined by newlines take `n * (w + 1) - 1` characters |
| Drawing.JoinLinesLine | maze.py:246-249 | line y of the joined text is exactly the y-th line |
| Drawing.JoinLinesNewline | maze.py:247-248 | a newline follows every line but the last |
| Drawing.DrawRow | maze.py:239-241 | writes row y after the existing text: `BlocksWidth()` characters, block where HasBlockAt holds and space elsewhere |
| Drawing.DrawBlocks | maze.py:242-252 | returns the block rows joined by newlines, with no newline at the end |
| Drawing.PictureLayout | maze.py:242-252 | the drawing has `BlocksHeight()` lines of `BlocksWidth()` characters; column x of line y is block exactly where HasBlockAt holds and space elsewhere; a newline ends every line but the last |
| Drawing.DrawingShowsPassages | maze.py:231-252 | drawn with two different characters, a well-formed maze shows space exactly at rooms and between rooms joined by a passage |
| Scenarios.SingleRoom | maze.py:193-252 | a one-room maze has no way out of its room and is drawn as `***`, `* *`, `***` |
| Scenarios.TwoRoomsJoined | maze.py:193-230 | a two-room maze side by side with one passage has 'E' as the only way from the western room and 'W' as the only way from the eastern room |

## Left out

- `random.shuffle` (maze.py:206) is not modelled. `NewMaze` takes the shuffled candidate list as a parameter. It requires only that the list be a permutation of the candidates. So every property holds for every order the shuffle can produce, given that every lookup completes (see the next line). Determinism for a given seed is not stated.
- UnionFind.GoalGrid.Goal: lookup depth is unbounded in the model. The source's lookup is recursive, and each pointer costs two Python frames (`CanAccess.goal` calls `GoalGrid.__getitem__`, maze.py:30, 49). Under CPython's default recursion limit, a lookup through a chain of about 500 pointers raises `RecursionError`. Chains can grow that long, because `setGoal` points a root at p2 itself (maze.py:46) and only the two cells looked up are compressed. For example, in a 2 by 600 maze, processing the candidates (0, y, 'S') for y = 0 … 598 first leaves a 599-pointer chain from (0, 0). For such orders the source raises an error where `NewMaze` returns a spanning tree.
- Construction requires `width > 0` and `height > 0`. The source documents that non-positive sizes are not supported.
- The `__str__` methods (maze.py:13-14, 24-25) are left out: they only produce debugging text.
- The usage examples in the class documentation of `Maze` (maze.py:70-189) describe one particular random maze and are not modelled. The method that draws a maze is `drawBlocks`; the documentation calls a `draw` that does not exist.
- `GoalLocation` and `CanAccess` are two variants of one datatype stored by value in `rows`. Python object identity and method dispatch on the class are not modelled. Compression rewrites the cell in `rows` instead of mutating the shared `CanAccess` object; every such object is referenced from exactly one cell, so the effect is the same.
- The ghost rank map of `GoalGrid` has no counterpart in the source. It exists only to prove that lookup terminates and that the pointers have no cycle.
- `Grid.__getitem__` returns the stored list itself, and the construction loop appends to it in place (maze.py:211, 215). The model writes `Get(a) + [w]` back with `Set`, which has the same effect because each cell holds its own list (`init.copy()`, maze.py:54). Aliasing between cells is not modelled.
- Construction.Join: the two `if` bodies of the loop (maze.py:208-215) are identical apart from the neighbour, so both call one method. The comparison `goalGrid[A] == goalGrid[B]` compares two looked-up goal locations by value.
- Mazes.Maze.WaysFrom: its own contract states only that the room's list comes first and at most two directions follow. For well-formed mazes, `WaysFromIsLinked` states which directions follow and `WaysFromOrder` states that 'W' comes before 'N'.
- Acyclicity of the passages is stated as the count invariant: the number of goals plus the number of passages is the number of rooms. A passage is only added between two different sets, so it never closes a cycle. No separate cycle-freedom predicate is defined.
- `StringIO` (maze.py:245-251) is modelled as the `TextStream` class, whose text only grows. `getvalue` reads that text. `close` has no observable effect and is left out.
- The default arguments `block='*'` and `space=' '` of `drawBlocks` are not modelled: callers pass both characters.
- `blocksWidth` and `blocksHeight` are attributes in the source and functions of the maze in the model. Both are always `2 * width + 1` and `2 * height + 1`.
