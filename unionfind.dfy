/**
  The goal grid: a union-find (disjoint-set) forest over the rooms of a maze
  (GoalLocation, CanAccess and GoalGrid of the source).

  Every cell is either a root, holding its own location, or a pointer to
  another location. Looking a cell up follows the pointers to a root and, on
  the way back, repoints every pointer it passed straight at that root (path
  compression). Lookup terminates because no pointer cycle exists; the model
  makes that explicit with a ghost rank that strictly decreases along every
  pointer.
 */
module UnionFind {
  import opened Locations
  import opened Grids

  /** A cell of the goal grid: a root (its own goal) or a pointer to another location. */
  datatype Cell = GoalLocation(location: GridLocation) | CanAccess(accessTo: GridLocation)

  type Rows = seq<seq<Cell>>

  /** Ranks are given for every cell of g. */
  ghost predicate RankedCells(g: Rows, rank: map<GridLocation, nat>) {
    forall p :: InGrid(g, p) ==> p in rank
  }

  /**
    `rank` witnesses that g has no pointer cycle: every root holds its own
    location and every pointer leads to a cell of strictly smaller rank.
   */
  ghost predicate Ranked(g: Rows, rank: map<GridLocation, nat>) {
    && RankedCells(g, rank)
    && forall p {:trigger At(g, p)} :: InGrid(g, p) ==>
         match At(g, p)
         case GoalLocation(l) => l == p
         case CanAccess(q) => InGrid(g, q) && q in rank && rank[q] < rank[p]
  }

  /** The goal of p: the root reached by following pointers from p. */
  ghost function Find(g: Rows, rank: map<GridLocation, nat>, p: GridLocation): (r: GridLocation)
    requires Ranked(g, rank) && InGrid(g, p)
    ensures InGrid(g, r) && At(g, r) == GoalLocation(r)
    ensures r in rank && p in rank && rank[r] <= rank[p]
    ensures At(g, p).CanAccess? ==> rank[r] < rank[p]
    decreases rank[p]
  {
    match At(g, p)
    case GoalLocation(l) => l
    case CanAccess(q) => Find(g, rank, q)
  }

  /** The cells visited when looking p up: p and every cell on its pointer chain. */
  ghost function Chain(g: Rows, rank: map<GridLocation, nat>, p: GridLocation): (s: set<GridLocation>)
    requires Ranked(g, rank) && InGrid(g, p)
    ensures p in s
    ensures forall c :: c in s ==> InGrid(g, c) && Find(g, rank, c) == Find(g, rank, p)
    ensures forall c :: c in s ==> c in rank && rank[c] <= rank[p]
    decreases rank[p]
  {
    match At(g, p)
    case GoalLocation(_) => {p}
    case CanAccess(q) => {p} + Chain(g, rank, q)
  }

  /** Every cell of a fresh goal grid is a root holding its own location. */
  function FreshRows(width: nat, height: nat): (g: Rows)
    ensures Shaped(g, width, height)
    ensures forall p :: InGrid(g, p) ==> At(g, p) == GoalLocation(p)
  {
    seq(height, j => seq(width, i => GoalLocation(GridLocation(i, j))))
  }

  /** The locations of a width by height grid. */
  function AllLocations(width: nat, height: nat): (s: set<GridLocation>)
    ensures forall p :: p in s <==> Within(p, width, height)
  {
    var s := set i, j | 0 <= i < width && 0 <= j < height :: GridLocation(i, j);
    assert forall p :: Within(p, width, height) ==> GridLocation(p.x, p.y) in s;
    s
  }

  /** In a fresh goal grid every cell is its own goal. */
  lemma FreshGoals(width: nat, height: nat, p: GridLocation)
    requires Within(p, width, height)
    ensures Ranked(FreshRows(width, height), map q | q in AllLocations(width, height) :: 0)
    ensures Find(FreshRows(width, height), map q | q in AllLocations(width, height) :: 0, p) == p
  {
  }

  /** The weight of a cell in the count of roots. */
  function RootWeight(c: Cell): nat { if c.GoalLocation? then 1 else 0 }

  /** The number of roots in g, that is, of disjoint sets. */
  function RootCount(g: Rows): nat { Total(g, RootWeight) }

  /** A fresh width by height goal grid has width * height roots. */
  lemma FreshRootCount(width: nat, height: nat)
    ensures RootCount(FreshRows(width, height)) == width * height
  {
    TotalOnes(FreshRows(width, height), RootWeight, width, height);
  }

  /**
    Path compression of one cell: repointing a pointer cell at its own goal
    keeps the rank a witness and changes no cell's goal.
   */
  lemma {:induction false} RepointKeepsGoals(g: Rows, rank: map<GridLocation, nat>, p: GridLocation, c: GridLocation)
    requires Ranked(g, rank) && InGrid(g, p) && At(g, p).CanAccess?
    requires InGrid(g, c)
    ensures Ranked(Write(g, p, CanAccess(Find(g, rank, p))), rank)
    ensures Find(Write(g, p, CanAccess(Find(g, rank, p))), rank, c) == Find(g, rank, c)
    decreases rank[c]
  {
    var h := Write(g, p, CanAccess(Find(g, rank, p)));
    assert Ranked(h, rank) by {
      forall q | InGrid(h, q)
        ensures match At(h, q)
                case GoalLocation(l) => l == q
                case CanAccess(t) => InGrid(h, t) && t in rank && rank[t] < rank[q]
      {
        assert InGrid(g, q) && At(g, q) == At(g, q);
      }
    }
    if c == p {
      var r := Find(g, rank, p);
      assert At(h, r) == GoalLocation(r);
    } else {
      assert At(h, c) == At(g, c);
      match At(g, c)
      case GoalLocation(_) =>
      case CanAccess(q) =>
        RepointKeepsGoals(g, rank, p, q);
    }
  }

  /**
    The rank after root r1 is linked to p2: every cell whose goal was r1 is
    raised above p2, so that the new pointer r1 -> p2 goes down in rank.
   */
  ghost function Relink(g: Rows, rank: map<GridLocation, nat>, r1: GridLocation, p2: GridLocation): (rank': map<GridLocation, nat>)
    requires Ranked(g, rank) && InGrid(g, r1) && At(g, r1) == GoalLocation(r1)
    requires InGrid(g, p2) && Find(g, rank, p2) != r1
    ensures Ranked(Write(g, r1, CanAccess(p2)), rank')
  {
    var rank' := map c | c in rank :: if InGrid(g, c) && Find(g, rank, c) == r1 then rank[c] + rank[p2] + 1 else rank[c];
    var h := Write(g, r1, CanAccess(p2));
    forall q | InGrid(h, q)
      ensures match At(h, q)
              case GoalLocation(l) => l == q
              case CanAccess(t) => InGrid(h, t) && t in rank' && rank'[t] < rank'[q]
    {
      assert InGrid(g, q) && At(g, q) == At(g, q);
    }
    rank'
  }

  /**
    Union: once root r1 points at p2 (whose goal differs from r1), every cell
    whose goal was r1 has p2's goal, and every other cell keeps its goal.
   */
  lemma {:induction false} LinkGoals(g: Rows, rank: map<GridLocation, nat>, r1: GridLocation, p2: GridLocation,
                                     rank': map<GridLocation, nat>, c: GridLocation)
    requires Ranked(g, rank) && InGrid(g, r1) && At(g, r1) == GoalLocation(r1)
    requires InGrid(g, p2) && Find(g, rank, p2) != r1
    requires Ranked(Write(g, r1, CanAccess(p2)), rank')
    requires InGrid(g, c)
    ensures Find(Write(g, r1, CanAccess(p2)), rank', c) ==
            if Find(g, rank, c) == r1 then Find(g, rank, p2) else Find(g, rank, c)
    decreases rank'[c]
  {
    var h := Write(g, r1, CanAccess(p2));
    if c == r1 {
      LinkGoals(g, rank, r1, p2, rank', p2);
    } else {
      assert At(h, c) == At(g, c);
      match At(g, c)
      case GoalLocation(_) =>
      case CanAccess(q) =>
        LinkGoals(g, rank, r1, p2, rank', q);
    }
  }

  /**
    Pointing goal r at p2 when p2 already has goal r: under any rank for the
    new grid, every cell whose goal was r ranks at least as high as r, and
    p2 ranks strictly below r.
   */
  lemma {:induction false} RankAboveGoal(g: Rows, rank: map<GridLocation, nat>, r: GridLocation, p2: GridLocation,
                                         rank': map<GridLocation, nat>, c: GridLocation)
    requires Ranked(g, rank) && InGrid(g, r) && At(g, r) == GoalLocation(r) && InGrid(g, p2)
    requires Ranked(Write(g, r, CanAccess(p2)), rank')
    requires InGrid(g, c) && Find(g, rank, c) == r
    ensures c in rank' && r in rank' && p2 in rank'
    ensures rank'[r] <= rank'[c] && rank'[p2] < rank'[r]
    decreases rank[c]
  {
    var h := Write(g, r, CanAccess(p2));
    assert At(h, r) == CanAccess(p2);
    if c != r {
      FindStep(g, rank, c);
      var q := At(g, c).accessTo;
      assert At(h, c) == At(g, c);
      RankAboveGoal(g, rank, r, p2, rank', q);
    }
  }

  /**
    Why setGoal needs goals that differ: pointing the goal of p1 at p2 when
    p2 already has that goal closes a pointer cycle, so no rank exists and a
    later lookup through it would never end.
   */
  lemma SameGoalLinkCycles(g: Rows, rank: map<GridLocation, nat>, p1: GridLocation, p2: GridLocation)
    requires Ranked(g, rank) && InGrid(g, p1) && InGrid(g, p2)
    requires Find(g, rank, p1) == Find(g, rank, p2)
    ensures forall rank' :: !Ranked(Write(g, Find(g, rank, p1), CanAccess(p2)), rank')
  {
    var r := Find(g, rank, p1);
    forall rank' ensures !Ranked(Write(g, r, CanAccess(p2)), rank') {
      if Ranked(Write(g, r, CanAccess(p2)), rank') {
        RankAboveGoal(g, rank, r, p2, rank', p2);
        assert false;
      }
    }
  }

  /** The goal of p in terms of its first step: the goal of the cell it points at. */
  lemma FindStep(g: Rows, rank: map<GridLocation, nat>, p: GridLocation)
    requires Ranked(g, rank) && InGrid(g, p) && At(g, p).CanAccess?
    ensures InGrid(g, At(g, p).accessTo)
    ensures Find(g, rank, p) == Find(g, rank, At(g, p).accessTo)
  {
  }

  /**
    The last step of a lookup of pointer cell p: once the lookup of the cell p
    points at has compressed that cell's chain (turning `before` into `mid`)
    and found goal r, repointing p at r compresses p's whole chain.
   */
  lemma CompressStep(before: Rows, mid: Rows, rank: map<GridLocation, nat>, p: GridLocation, r: GridLocation,
                     width: nat, height: nat)
    requires Shaped(before, width, height) && Ranked(before, rank)
    requires Within(p, width, height) && At(before, p).CanAccess?
    requires Shaped(mid, width, height) && Ranked(mid, rank)
    requires r == Find(before, rank, At(before, p).accessTo)
    requires forall c :: Within(c, width, height) ==>
               At(mid, c) == if c in Chain(before, rank, At(before, p).accessTo) && At(before, c).CanAccess?
                             then CanAccess(r) else At(before, c)
    requires forall c :: Within(c, width, height) ==> Find(mid, rank, c) == Find(before, rank, c)
    requires RootCount(mid) == RootCount(before)
    ensures Shaped(Write(mid, p, CanAccess(r)), width, height)
    ensures Ranked(Write(mid, p, CanAccess(r)), rank)
    ensures r == Find(before, rank, p)
    ensures forall c :: Within(c, width, height) ==>
              At(Write(mid, p, CanAccess(r)), c) ==
                if c in Chain(before, rank, p) && At(before, c).CanAccess? then CanAccess(r) else At(before, c)
    ensures forall c :: Within(c, width, height) ==> Find(Write(mid, p, CanAccess(r)), rank, c) == Find(before, rank, c)
    ensures RootCount(Write(mid, p, CanAccess(r))) == RootCount(before)
  {
    var q := At(before, p).accessTo;
    FindStep(before, rank, p);
    assert p !in Chain(before, rank, q);
    assert At(mid, p) == At(before, p);
    assert Find(mid, rank, p) == r;
    forall c | Within(c, width, height)
      ensures Find(Write(mid, p, CanAccess(r)), rank, c) == Find(before, rank, c)
    {
      RepointKeepsGoals(mid, rank, p, c);
    }
    RepointKeepsGoals(mid, rank, p, p);
    TotalUpdate(mid, p, CanAccess(r), RootWeight);
  }

  /**
    The goal grid of one maze construction (GoalGrid of the source). `rows`
    is reassigned where the source writes into its list of rows; `rank` is
    ghost and exists only to prove that lookups terminate.
   */
  class GoalGrid {
    const width: nat
    const height: nat
    var rows: Rows
    ghost var rank: map<GridLocation, nat>

    ghost predicate Valid()
      reads this
    {
      Shaped(rows, width, height) && Ranked(rows, rank)
    }

    /** A grid in which every cell is the goal of itself. */
    constructor (width: nat, height: nat)
      ensures Valid() && this.width == width && this.height == height
      ensures rows == FreshRows(width, height)
      ensures forall p :: Within(p, width, height) ==> Find(rows, rank, p) == p
    {
      this.width := width;
      this.height := height;
      rows := FreshRows(width, height);
      rank := map q | q in AllLocations(width, height) :: 0;
    }

    /**
      The goal of p (GoalGrid.__getitem__ with GoalLocation.goal and
      CanAccess.goal). Every pointer on p's chain is repointed at the goal;
      roots, ranks, goals and the number of roots stay as they were.
     */
    method Goal(p: GridLocation) returns (r: GridLocation)
      requires Valid() && Within(p, width, height)
      modifies this
      ensures Valid() && rank == old(rank)
      ensures r == Find(old(rows), rank, p)
      ensures At(rows, r) == GoalLocation(r)
      ensures forall c :: Within(c, width, height) ==>
                At(rows, c) == if c in Chain(old(rows), rank, p) && At(old(rows), c).CanAccess?
                               then CanAccess(r) else At(old(rows), c)
      ensures forall c :: Within(c, width, height) ==> Find(rows, rank, c) == Find(old(rows), rank, c)
      ensures RootCount(rows) == RootCount(old(rows))
      decreases rank[p]
    {
      match At(rows, p) {
        case GoalLocation(l) =>
          r := l;
        case CanAccess(q) =>
          ghost var before := rows;
          FindStep(before, rank, p);
          r := Goal(q);
          CompressStep(before, rows, rank, p, r, width, height);
          rows := Write(rows, p, CanAccess(r));
      }
    }

    /**
      Union (GoalGrid.setGoal): the root of p1's set is overwritten with a
      pointer to p2 itself, not to p2's goal. Afterwards every cell that shared
      p1's goal has p2's goal and every other cell keeps its goal; apart from
      the compression done by looking p1 up, only that root cell changes, and
      there is one set fewer.
     */
    method SetGoal(p1: GridLocation, p2: GridLocation)
      requires Valid() && Within(p1, width, height) && Within(p2, width, height)
      requires Find(rows, rank, p1) != Find(rows, rank, p2)
      modifies this
      ensures Valid()
      ensures forall c :: Within(c, width, height) ==>
                Find(rows, rank, c) ==
                  if Find(old(rows), old(rank), c) == Find(old(rows), old(rank), p1)
                  then Find(old(rows), old(rank), p2) else Find(old(rows), old(rank), c)
      ensures At(rows, Find(old(rows), old(rank), p1)) == CanAccess(p2)
      ensures forall c :: Within(c, width, height) && c != Find(old(rows), old(rank), p1) ==>
                At(rows, c) ==
                  if c in Chain(old(rows), old(rank), p1) && At(old(rows), c).CanAccess?
                  then CanAccess(Find(old(rows), old(rank), p1)) else At(old(rows), c)
      ensures RootCount(rows) + 1 == RootCount(old(rows))
    {
      ghost var before := rows;
      var q1 := Goal(p1);
      ghost var mid := rows;
      assert Find(mid, rank, p2) == Find(before, rank, p2);
      ghost var rank' := Relink(mid, rank, q1, p2);
      forall c | Within(c, width, height)
        ensures Find(Write(mid, q1, CanAccess(p2)), rank', c) ==
                  if Find(before, rank, c) == q1 then Find(before, rank, p2) else Find(before, rank, c)
      {
        LinkGoals(mid, rank, q1, p2, rank', c);
      }
      forall c | Within(c, width, height) && c != q1
        ensures || At(mid, c) == At(before, c)
                || (At(before, c).CanAccess? && At(mid, c) == CanAccess(Find(before, rank, c)))
      {
        if c in Chain(before, rank, p1) && At(before, c).CanAccess? {
          assert Find(before, rank, c) == q1;
        }
      }
      TotalUpdate(mid, q1, CanAccess(p2), RootWeight);
      rows := Write(rows, q1, CanAccess(p2));
      rank := rank';
    }
  }
}
