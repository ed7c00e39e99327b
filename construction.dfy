/**
  Maze construction (Maze.__init__ of the source): a randomised Kruskal
  algorithm. Every candidate wall (x, y, 'E') and (x, y, 'S') is listed and
  shuffled; each candidate that joins two rooms of the maze whose goals differ
  unions the two rooms in the goal grid and records the passage.

  The shuffle is not modelled: the candidates arrive in an arbitrary order,
  any permutation of the list the source builds, and every property below
  holds for every such order.
 */
module Construction {
  import opened Locations
  import opened Grids
  import opened UnionFind
  import opened Passages
  import opened Mazes

  /** A candidate wall: room (x, y) and the direction 'E' or 'S' of the wall it might open. */
  type Wall = (int, int, char)

  /** The candidates (i, j, w) for one column i, j running over range(0, height). */
  function Column(i: int, w: char, height: nat): (walls: seq<Wall>)
    ensures |walls| == height
    ensures forall t :: t in walls <==> t.0 == i && 0 <= t.1 < height && t.2 == w
  {
    var walls := seq(height, j => (i, j, w));
    assert forall t: Wall :: t.0 == i && 0 <= t.1 < height && t.2 == w ==> walls[t.1] == t;
    walls
  }

  /** The candidates (i, j, w) for i in range(0, width), j in range(0, height). */
  function Sweep(w: char, width: nat, height: nat): (walls: seq<Wall>)
    ensures |walls| == width * height
    ensures forall t :: t in walls <==> 0 <= t.0 < width && 0 <= t.1 < height && t.2 == w
  {
    if width == 0 then [] else Sweep(w, width - 1, height) + Column(width - 1, w, height)
  }

  /**
    Every candidate wall of the source, in the order it lists them before
    shuffling: all East candidates, then all South candidates. It includes
    the East candidates of the last column and the South candidates of the
    last row, which lead out of the maze and are skipped.
   */
  function Walls(width: nat, height: nat): (walls: seq<Wall>)
    ensures |walls| == 2 * width * height
    ensures forall t :: t in walls <==> 0 <= t.0 < width && 0 <= t.1 < height && (t.2 == 'E' || t.2 == 'S')
  {
    Sweep('E', width, height) + Sweep('S', width, height)
  }

  /**
    Every recorded passage is a way list entry that stays inside the maze and
    joins two rooms with the same goal.
   */
  ghost predicate PassagesSound(g: Rows, rank: map<GridLocation, nat>, wy: Ways, width: int, height: int)
    requires Shaped(g, width, height) && Ranked(g, rank) && Shaped(wy, width, height)
  {
    forall c :: Within(c, width, height) ==>
      && WayList(At(wy, c))
      && ('E' in At(wy, c) ==> c.x < width - 1 && Find(g, rank, c) == Find(g, rank, East(c)))
      && ('S' in At(wy, c) ==> c.y < height - 1 && Find(g, rank, c) == Find(g, rank, South(c)))
  }

  /** Every room is connected by recorded passages to its goal. */
  ghost predicate ReachesGoals(g: Rows, rank: map<GridLocation, nat>, wy: Ways, width: int, height: int)
    requires Shaped(g, width, height) && Ranked(g, rank) && Shaped(wy, width, height)
  {
    forall c :: Within(c, width, height) ==> Connected(wy, c, Find(g, rank, c))
  }

  /**
    The construction invariant, over the goal grid g (with rank witness) and
    the passages wy: the passages are sound, every room reaches its goal, and
    the number of sets plus the number of passages is the number of rooms,
    so every passage was added between two different sets (the passages form
    a forest).
   */
  ghost predicate Forest(g: Rows, rank: map<GridLocation, nat>, wy: Ways, width: int, height: int) {
    && Shaped(g, width, height) && Ranked(g, rank) && Shaped(wy, width, height)
    && PassagesSound(g, rank, wy, width, height)
    && ReachesGoals(g, rank, wy, width, height)
    && RootCount(g) + PassageCount(wy) == width * height
  }

  /** The neighbour that candidate direction w leads to. */
  function Across(a: GridLocation, w: char): GridLocation {
    if w == 'E' then East(a) else South(a)
  }

  /** Candidate (x, y, w) leads to a room inside the maze. */
  predicate Inside(t: Wall, width: int, height: int) {
    && Within(GridLocation(t.0, t.1), width, height)
    && ((t.2 == 'E' && t.0 < width - 1) || (t.2 == 'S' && t.1 < height - 1))
  }

  /** Candidate t has been dealt with: if it lies inside the maze, its two rooms share a goal. */
  ghost predicate Settled(g: Rows, rank: map<GridLocation, nat>, t: Wall, width: int, height: int)
    requires Shaped(g, width, height) && Ranked(g, rank)
  {
    Inside(t, width, height) ==>
      Find(g, rank, GridLocation(t.0, t.1)) == Find(g, rank, Across(GridLocation(t.0, t.1), t.2))
  }

  /** g2 joins whatever g1 joins: rooms with equal goals in g1 have equal goals in g2. */
  ghost predicate Coarsens(g1: Rows, rank1: map<GridLocation, nat>, g2: Rows, rank2: map<GridLocation, nat>,
                           width: int, height: int)
    requires Shaped(g1, width, height) && Ranked(g1, rank1) && Shaped(g2, width, height) && Ranked(g2, rank2)
  {
    forall c, d :: Within(c, width, height) && Within(d, width, height) && Find(g1, rank1, c) == Find(g1, rank1, d) ==>
      Find(g2, rank2, c) == Find(g2, rank2, d)
  }

  /** The invariant holds at the start: every room alone, no passage. */
  lemma ForestInit(width: nat, height: nat, rank: map<GridLocation, nat>)
    requires Ranked(FreshRows(width, height), rank)
    ensures Forest(FreshRows(width, height), rank, Filled([], width, height), width, height)
  {
    var g, wy := FreshRows(width, height), Filled([], width, height);
    FreshRootCount(width, height);
    TotalZero(wy, WayWeight);
    forall c | Within(c, width, height) ensures Connected(wy, c, Find(g, rank, c)) {
      ConnectedRefl(wy, c);
    }
  }

  /** The invariant depends on the goal grid only through the goals and the number of sets. */
  lemma ForestRegoal(g: Rows, rank: map<GridLocation, nat>, g': Rows, rank': map<GridLocation, nat>, wy: Ways,
                     width: int, height: int)
    requires Forest(g, rank, wy, width, height)
    requires Shaped(g', width, height) && Ranked(g', rank')
    requires forall c :: Within(c, width, height) ==> Find(g', rank', c) == Find(g, rank, c)
    requires RootCount(g') == RootCount(g)
    ensures Forest(g', rank', wy, width, height)
  {
  }

  /** The goals after the rooms a and b, whose goals differ, are united: a's set takes b's goal. */
  ghost predicate United(g: Rows, rank: map<GridLocation, nat>, g': Rows, rank': map<GridLocation, nat>,
                         a: GridLocation, b: GridLocation, width: int, height: int)
    requires Shaped(g, width, height) && Ranked(g, rank) && Shaped(g', width, height) && Ranked(g', rank')
    requires Within(a, width, height) && Within(b, width, height)
  {
    forall c :: Within(c, width, height) ==>
      Find(g', rank', c) == if Find(g, rank, c) == Find(g, rank, a) then Find(g, rank, b) else Find(g, rank, c)
  }

  /** Soundness of the passages survives the union and the new passage. */
  lemma UnionSound(g: Rows, rank: map<GridLocation, nat>, wy: Ways, g': Rows, rank': map<GridLocation, nat>,
                   a: GridLocation, w: char, width: int, height: int)
    requires Shaped(g, width, height) && Ranked(g, rank) && Shaped(wy, width, height)
    requires Shaped(g', width, height) && Ranked(g', rank')
    requires PassagesSound(g, rank, wy, width, height)
    requires Inside((a.x, a.y, w), width, height)
    requires Find(g, rank, a) != Find(g, rank, Across(a, w))
    requires United(g, rank, g', rank', a, Across(a, w), width, height)
    ensures w !in At(wy, a)
    ensures PassagesSound(g', rank', Write(wy, a, At(wy, a) + [w]), width, height)
  {
    var wy' := Write(wy, a, At(wy, a) + [w]);
    assert WayList(At(wy, a));
    forall c | Within(c, width, height)
      ensures && WayList(At(wy', c))
              && ('E' in At(wy', c) ==> c.x < width - 1 && Find(g', rank', c) == Find(g', rank', East(c)))
              && ('S' in At(wy', c) ==> c.y < height - 1 && Find(g', rank', c) == Find(g', rank', South(c)))
    {
      UnionSoundAt(g, rank, wy, g', rank', a, w, width, height, c);
    }
  }

  /** UnionSound for one room c. */
  lemma UnionSoundAt(g: Rows, rank: map<GridLocation, nat>, wy: Ways, g': Rows, rank': map<GridLocation, nat>,
                     a: GridLocation, w: char, width: int, height: int, c: GridLocation)
    requires Shaped(g, width, height) && Ranked(g, rank) && Shaped(wy, width, height)
    requires Shaped(g', width, height) && Ranked(g', rank')
    requires PassagesSound(g, rank, wy, width, height)
    requires Inside((a.x, a.y, w), width, height)
    requires w !in At(wy, a)
    requires United(g, rank, g', rank', a, Across(a, w), width, height)
    requires Within(c, width, height)
    ensures WayList(At(Write(wy, a, At(wy, a) + [w]), c))
    ensures 'E' in At(Write(wy, a, At(wy, a) + [w]), c) ==>
              c.x < width - 1 && Find(g', rank', c) == Find(g', rank', East(c))
    ensures 'S' in At(Write(wy, a, At(wy, a) + [w]), c) ==>
              c.y < height - 1 && Find(g', rank', c) == Find(g', rank', South(c))
  {
    var b := Across(a, w);
    var l := At(wy, c);
    var l' := At(Write(wy, a, At(wy, a) + [w]), c);
    assert WayList(l);
    assert Find(g', rank', b) == Find(g, rank, b);
    if c == a {
      WayListAppend(l, w);
      assert l' == l + [w];
      assert Find(g', rank', a) == Find(g, rank, b);
    } else {
      assert l' == l;
    }
    if 'E' in l {
      var e := East(c);
      assert Within(e, width, height) && Find(g, rank, c) == Find(g, rank, e);
      assert Find(g', rank', c) == Find(g', rank', e);
    }
    if 'S' in l {
      var s := South(c);
      assert Within(s, width, height) && Find(g, rank, c) == Find(g, rank, s);
      assert Find(g', rank', c) == Find(g', rank', s);
    }
  }

  /** Every room still reaches its goal after the union and the new passage. */
  lemma UnionReaches(g: Rows, rank: map<GridLocation, nat>, wy: Ways, g': Rows, rank': map<GridLocation, nat>,
                     a: GridLocation, w: char, width: int, height: int)
    requires Shaped(g, width, height) && Ranked(g, rank) && Shaped(wy, width, height)
    requires Shaped(g', width, height) && Ranked(g', rank')
    requires ReachesGoals(g, rank, wy, width, height)
    requires Inside((a.x, a.y, w), width, height)
    requires United(g, rank, g', rank', a, Across(a, w), width, height)
    ensures ReachesGoals(g', rank', Write(wy, a, At(wy, a) + [w]), width, height)
  {
    var b := Across(a, w);
    var wy' := Write(wy, a, At(wy, a) + [w]);
    var ra, rb := Find(g, rank, a), Find(g, rank, b);
    RecordPassage(wy, a, w);
    assert Linked(wy', a, b);
    LinkedConnected(wy', a, b);
    ConnectedSym(wy, a, ra);
    ConnectedExtends(wy, wy', ra, a);
    ConnectedExtends(wy, wy', b, rb);
    ConnectedTrans(wy', ra, a, b);
    ConnectedTrans(wy', ra, b, rb);
    forall c | Within(c, width, height) ensures Connected(wy', c, Find(g', rank', c)) {
      ConnectedExtends(wy, wy', c, Find(g, rank, c));
      if Find(g, rank, c) == ra {
        ConnectedTrans(wy', c, ra, rb);
      }
    }
  }

  /**
    Union of the rooms a and Across(a, w), whose goals differ, with the
    passage recorded at a: the invariant is kept, and w was not yet recorded
    at a.
   */
  lemma ForestUnion(g: Rows, rank: map<GridLocation, nat>, wy: Ways, g': Rows, rank': map<GridLocation, nat>,
                    a: GridLocation, w: char, width: int, height: int)
    requires Forest(g, rank, wy, width, height)
    requires Inside((a.x, a.y, w), width, height)
    requires Find(g, rank, a) != Find(g, rank, Across(a, w))
    requires Shaped(g', width, height) && Ranked(g', rank')
    requires United(g, rank, g', rank', a, Across(a, w), width, height)
    requires RootCount(g') + 1 == RootCount(g)
    ensures w !in At(wy, a)
    ensures Forest(g', rank', Write(wy, a, At(wy, a) + [w]), width, height)
  {
    RecordPassage(wy, a, w);
    UnionSound(g, rank, wy, g', rank', a, w, width, height);
    UnionReaches(g, rank, wy, g', rank', a, w, width, height);
  }

  /** Rooms linked by a passage share a goal, and so do rooms connected by a walk. */
  lemma {:induction false} WalkKeepsGoal(g: Rows, rank: map<GridLocation, nat>, wy: Ways, width: int, height: int,
                                         path: seq<GridLocation>)
    requires Forest(g, rank, wy, width, height) && IsWalk(wy, path)
    ensures Find(g, rank, path[0]) == Find(g, rank, path[|path| - 1])
  {
    if |path| > 1 {
      WalkKeepsGoal(g, rank, wy, width, height, path[1..]);
      var a, b := path[0], path[1];
      assert Linked(wy, a, b);
    }
  }

  /**
    Under the invariant two rooms share a goal exactly when recorded passages
    connect them: the goal grid's sets are the connected components of the
    passage graph.
   */
  lemma SameGoalIffConnected(g: Rows, rank: map<GridLocation, nat>, wy: Ways, width: int, height: int,
                             a: GridLocation, b: GridLocation)
    requires Forest(g, rank, wy, width, height)
    requires Within(a, width, height) && Within(b, width, height)
    ensures Find(g, rank, a) == Find(g, rank, b) <==> Connected(wy, a, b)
  {
    if Find(g, rank, a) == Find(g, rank, b) {
      ConnectedSym(wy, b, Find(g, rank, b));
      ConnectedTrans(wy, a, Find(g, rank, a), b);
    }
    if Connected(wy, a, b) {
      var path :| IsWalk(wy, path) && path[0] == a && path[|path| - 1] == b;
      WalkKeepsGoal(g, rank, wy, width, height, path);
    }
  }

  /** A candidate once settled stays settled when sets are joined. */
  lemma SettledKept(g: Rows, rank: map<GridLocation, nat>, g': Rows, rank': map<GridLocation, nat>,
                    t: Wall, width: int, height: int)
    requires Shaped(g, width, height) && Ranked(g, rank) && Shaped(g', width, height) && Ranked(g', rank')
    requires Coarsens(g, rank, g', rank', width, height)
    requires Settled(g, rank, t, width, height)
    ensures Settled(g', rank', t, width, height)
  {
    if Inside(t, width, height) {
      var a := GridLocation(t.0, t.1);
      assert Within(Across(a, t.2), width, height);
    }
  }

  /** If every pair of neighbouring rooms shares a goal, all rooms share the goal of room (0, 0). */
  lemma {:induction false} OneGoal(g: Rows, rank: map<GridLocation, nat>, width: int, height: int, c: GridLocation)
    requires Shaped(g, width, height) && Ranked(g, rank)
    requires forall t :: Inside(t, width, height) ==> Settled(g, rank, t, width, height)
    requires Within(c, width, height)
    ensures Find(g, rank, c) == Find(g, rank, GridLocation(0, 0))
    decreases c.x + c.y
  {
    if c.x > 0 {
      var d := GridLocation(c.x - 1, c.y);
      OneGoal(g, rank, width, height, d);
      assert Settled(g, rank, (d.x, d.y, 'E'), width, height);
    } else if c.y > 0 {
      var d := GridLocation(c.x, c.y - 1);
      OneGoal(g, rank, width, height, d);
      assert Settled(g, rank, (d.x, d.y, 'S'), width, height);
    }
  }

  /** A goal grid in which every room has the same goal holds exactly one set. */
  lemma OneRoot(g: Rows, rank: map<GridLocation, nat>, width: int, height: int, r: GridLocation)
    requires Shaped(g, width, height) && Ranked(g, rank) && Within(r, width, height)
    requires forall c :: Within(c, width, height) ==> Find(g, rank, c) == r
    ensures RootCount(g) == 1
  {
    var g0 := Write(g, r, CanAccess(r));
    forall q | InGrid(g0, q) ensures RootWeight(At(g0, q)) == 0 {
      assert At(g, q).GoalLocation? ==> Find(g, rank, q) == q;
    }
    TotalZero(g0, RootWeight);
    TotalUpdate(g, r, CanAccess(r), RootWeight);
    assert At(g, r) == GoalLocation(r);
  }

  /**
    Once every candidate is settled, the invariant makes the passages a
    spanning tree of the grid of rooms: they keep inside the maze and never
    repeat, they connect every room to every other, and they number one fewer
    than the rooms.
   */
  lemma SpanningTree(g: Rows, rank: map<GridLocation, nat>, wy: Ways, width: int, height: int, walls: seq<Wall>)
    requires width > 0 && height > 0
    requires Forest(g, rank, wy, width, height)
    requires multiset(walls) == multiset(Walls(width, height))
    requires forall i :: 0 <= i < |walls| ==> Settled(g, rank, walls[i], width, height)
    ensures Maze(width, height, wy).WellFormed()
    ensures forall a, b :: Within(a, width, height) && Within(b, width, height) ==> Connected(wy, a, b)
    ensures PassageCount(wy) == width * height - 1
  {
    forall t | Inside(t, width, height) ensures Settled(g, rank, t, width, height) {
      assert t in Walls(width, height);
      assert t in multiset(walls);
    }
    var r := Find(g, rank, GridLocation(0, 0));
    forall c | Within(c, width, height) ensures Find(g, rank, c) == r {
      OneGoal(g, rank, width, height, c);
    }
    OneRoot(g, rank, width, height, r);
    forall a, b | Within(a, width, height) && Within(b, width, height) ensures Connected(wy, a, b) {
      SameGoalIffConnected(g, rank, wy, width, height, a, b);
    }
  }

  /**
    The effect of one candidate whose rooms already share a goal: looking up
    the goals only compresses paths, so the invariant and every goal are kept
    and the candidate is settled.
   */
  lemma JoinSame(g: Rows, rank: map<GridLocation, nat>, g': Rows, rank': map<GridLocation, nat>, wy: Ways,
                 a: GridLocation, w: char, width: int, height: int)
    requires Forest(g, rank, wy, width, height)
    requires Inside((a.x, a.y, w), width, height)
    requires Shaped(g', width, height) && Ranked(g', rank')
    requires forall c :: Within(c, width, height) ==> Find(g', rank', c) == Find(g, rank, c)
    requires RootCount(g') == RootCount(g)
    requires Find(g, rank, a) == Find(g, rank, Across(a, w))
    ensures Forest(g', rank', wy, width, height)
    ensures Coarsens(g, rank, g', rank', width, height)
    ensures Settled(g', rank', (a.x, a.y, w), width, height)
  {
    ForestRegoal(g, rank, g', rank', wy, width, height);
    assert Within(Across(a, w), width, height);
  }

  /**
    The effect of one candidate whose rooms have different goals: after the
    lookups (g to g1) and the union (g1 to g2) with the passage recorded, the
    invariant is kept, rooms that shared a goal still do, and the candidate
    is settled.
   */
  lemma JoinDifferent(g: Rows, rank: map<GridLocation, nat>, g1: Rows, g2: Rows, rank2: map<GridLocation, nat>,
                      wy: Ways, a: GridLocation, w: char, width: int, height: int)
    requires Forest(g, rank, wy, width, height)
    requires Inside((a.x, a.y, w), width, height)
    requires Shaped(g1, width, height) && Ranked(g1, rank)
    requires forall c :: Within(c, width, height) ==> Find(g1, rank, c) == Find(g, rank, c)
    requires RootCount(g1) == RootCount(g)
    requires Find(g, rank, a) != Find(g, rank, Across(a, w))
    requires Shaped(g2, width, height) && Ranked(g2, rank2)
    requires United(g1, rank, g2, rank2, a, Across(a, w), width, height)
    requires RootCount(g2) + 1 == RootCount(g1)
    ensures Forest(g2, rank2, Write(wy, a, At(wy, a) + [w]), width, height)
    ensures Coarsens(g, rank, g2, rank2, width, height)
    ensures Settled(g2, rank2, (a.x, a.y, w), width, height)
  {
    var b := Across(a, w);
    assert Within(b, width, height);
    ForestRegoal(g, rank, g1, rank, wy, width, height);
    ForestUnion(g1, rank, wy, g2, rank2, a, w, width, height);
    forall c, d | Within(c, width, height) && Within(d, width, height) && Find(g, rank, c) == Find(g, rank, d)
      ensures Find(g2, rank2, c) == Find(g2, rank2, d)
    {
      assert Find(g1, rank, c) == Find(g1, rank, d);
    }
    assert Find(g2, rank2, a) == Find(g1, rank, b);
    assert Find(g2, rank2, b) == Find(g1, rank, b);
  }

  /**
    One candidate inside the maze (the body of either `if` of the loop of
    Maze.__init__): look up the goals of its two rooms and, when they differ,
    unite them and record the passage. When the goals were equal no goal and
    no passage changes; when they differed, a's set takes the goal of the
    neighbour and w is appended to a's list, and no other list changes. The
    invariant is kept, no two rooms that shared a goal are separated, and the
    candidate's rooms end up sharing a goal.
   */
  method Join(goalGrid: GoalGrid, wayGrid: Grid<seq<char>>, a: GridLocation, w: char)
    requires goalGrid.Valid() && wayGrid.Valid()
    requires wayGrid.width == goalGrid.width && wayGrid.height == goalGrid.height
    requires Inside((a.x, a.y, w), goalGrid.width, goalGrid.height)
    requires Forest(goalGrid.rows, goalGrid.rank, wayGrid.cells, goalGrid.width, goalGrid.height)
    modifies goalGrid, wayGrid
    ensures goalGrid.Valid() && wayGrid.Valid()
    ensures Forest(goalGrid.rows, goalGrid.rank, wayGrid.cells, goalGrid.width, goalGrid.height)
    ensures Coarsens(old(goalGrid.rows), old(goalGrid.rank), goalGrid.rows, goalGrid.rank,
                     goalGrid.width, goalGrid.height)
    ensures Settled(goalGrid.rows, goalGrid.rank, (a.x, a.y, w), goalGrid.width, goalGrid.height)
    ensures Find(old(goalGrid.rows), old(goalGrid.rank), a) == Find(old(goalGrid.rows), old(goalGrid.rank), Across(a, w)) ==>
              && wayGrid.cells == old(wayGrid.cells)
              && forall c :: Within(c, goalGrid.width, goalGrid.height) ==>
                   Find(goalGrid.rows, goalGrid.rank, c) == Find(old(goalGrid.rows), old(goalGrid.rank), c)
    ensures Find(old(goalGrid.rows), old(goalGrid.rank), a) != Find(old(goalGrid.rows), old(goalGrid.rank), Across(a, w)) ==>
              && wayGrid.cells == Write(old(wayGrid.cells), a, At(old(wayGrid.cells), a) + [w])
              && United(old(goalGrid.rows), old(goalGrid.rank), goalGrid.rows, goalGrid.rank, a, Across(a, w),
                        goalGrid.width, goalGrid.height)
  {
    var width, height := goalGrid.width, goalGrid.height;
    ghost var g0, rank0, wy := goalGrid.rows, goalGrid.rank, wayGrid.cells;
    var b := Across(a, w);
    var ga := goalGrid.Goal(a);
    var gb := goalGrid.Goal(b);
    ghost var g1 := goalGrid.rows;
    if ga != gb {
      goalGrid.SetGoal(a, b);
      JoinDifferent(g0, rank0, g1, goalGrid.rows, goalGrid.rank, wy, a, w, width, height);
      wayGrid.Set(a, wayGrid.Get(a) + [w]);
    } else {
      JoinSame(g0, rank0, g1, rank0, wy, a, w, width, height);
    }
  }

  /** Joining sets keeps the candidates already settled; with candidate k settled too, the prefix grows by one. */
  lemma SettledPrefix(g: Rows, rank: map<GridLocation, nat>, g': Rows, rank': map<GridLocation, nat>,
                      walls: seq<Wall>, k: int, width: int, height: int)
    requires Shaped(g, width, height) && Ranked(g, rank) && Shaped(g', width, height) && Ranked(g', rank')
    requires 0 <= k < |walls|
    requires forall i :: 0 <= i < k ==> Settled(g, rank, walls[i], width, height)
    requires Coarsens(g, rank, g', rank', width, height)
    requires Settled(g', rank', walls[k], width, height)
    ensures forall i :: 0 <= i < k + 1 ==> Settled(g', rank', walls[i], width, height)
  {
    forall i | 0 <= i < k ensures Settled(g', rank', walls[i], width, height) {
      SettledKept(g, rank, g', rank', walls[i], width, height);
    }
  }

  /**
    Builds a maze (Maze.__init__). `walls` is the shuffled candidate list:
    any permutation of Walls(width, height). The passages form a spanning
    tree of the width by height grid of rooms: they stay inside the maze,
    never repeat, connect every room to every other, and number one fewer
    than the rooms.
   */
  method NewMaze(width: int, height: int, walls: seq<Wall>) returns (m: Maze)
    requires width > 0 && height > 0
    requires multiset(walls) == multiset(Walls(width, height))
    ensures m.width == width && m.height == height
    ensures m.WellFormed()
    ensures forall a, b :: Within(a, width, height) && Within(b, width, height) ==> Connected(m.wayGrid, a, b)
    ensures PassageCount(m.wayGrid) == width * height - 1
  {
    var goalGrid := new GoalGrid(width, height);
    var wayGrid := new Grid<seq<char>>([], width, height);
    ForestInit(width, height, goalGrid.rank);
    for k := 0 to |walls|
      invariant goalGrid.Valid() && wayGrid.Valid()
      invariant goalGrid.width == width && goalGrid.height == height
      invariant wayGrid.width == width && wayGrid.height == height
      invariant Forest(goalGrid.rows, goalGrid.rank, wayGrid.cells, width, height)
      invariant forall i :: 0 <= i < k ==> Settled(goalGrid.rows, goalGrid.rank, walls[i], width, height)
    {
      ghost var g0, rank0 := goalGrid.rows, goalGrid.rank;
      assert walls[k] in multiset(Walls(width, height));
      var (x, y, w) := walls[k];
      if w == 'E' && x < width - 1 {
        Join(goalGrid, wayGrid, GridLocation(x, y), w);
      }
      if w == 'S' && y < height - 1 {
        Join(goalGrid, wayGrid, GridLocation(x, y), w);
      }
      SettledPrefix(g0, rank0, goalGrid.rows, goalGrid.rank, walls, k, width, height);
    }
    SpanningTree(goalGrid.rows, goalGrid.rank, wayGrid.cells, width, height, walls);
    m := Maze(width, height, wayGrid.cells);
  }
}
