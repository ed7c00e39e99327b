/**
  The passage grid of a maze (wayGrid of the source): for every room, the list
  of directions, 'E' and/or 'S', in which a passage was opened from it. West
  and North passages are never stored; they are the East and South passages of
  the neighbour.
 */
module Passages {
  import opened Locations
  import opened Grids

  type Ways = seq<seq<seq<char>>>

  /** A room's list holds only 'E' and 'S', each at most once. */
  predicate WayList(l: seq<char>) {
    && (forall i :: 0 <= i < |l| ==> l[i] == 'E' || l[i] == 'S')
    && (forall i, j :: 0 <= i < j < |l| ==> l[i] != l[j])
  }

  /** Appending a direction that is not yet in the list keeps it a way list. */
  lemma WayListAppend(l: seq<char>, w: char)
    requires WayList(l) && (w == 'E' || w == 'S') && w !in l
    ensures WayList(l + [w])
  {
  }

  /** A way list that holds neither 'E' nor 'S' is empty. */
  lemma NoWays(l: seq<char>)
    requires WayList(l) && 'E' !in l && 'S' !in l
    ensures l == []
  {
    if l != [] {
      HeadIn(l);
      assert false;
    }
  }

  /** The first element of a non-empty list is in it. */
  lemma HeadIn(l: seq<char>)
    requires l != []
    ensures l[0] in l
  {
  }

  /** Rooms a and b are next to each other and a passage between them is recorded. */
  predicate Linked(wy: Ways, a: GridLocation, b: GridLocation) {
    && InGrid(wy, a) && InGrid(wy, b)
    && (|| (b == East(a) && 'E' in At(wy, a))
        || (b == South(a) && 'S' in At(wy, a))
        || (a == East(b) && 'E' in At(wy, b))
        || (a == South(b) && 'S' in At(wy, b)))
  }

  /** A walk through recorded passages: a non-empty sequence of rooms, each linked to the next. */
  ghost predicate IsWalk(wy: Ways, path: seq<GridLocation>) {
    && |path| > 0
    && (forall i :: 0 <= i < |path| ==> InGrid(wy, path[i]))
    && (forall i :: 0 <= i < |path| - 1 ==> Linked(wy, path[i], path[i + 1]))
  }

  /** Some walk through recorded passages leads from a to b. */
  ghost predicate Connected(wy: Ways, a: GridLocation, b: GridLocation) {
    exists path :: IsWalk(wy, path) && path[0] == a && path[|path| - 1] == b
  }

  /** Every room is connected to itself. */
  lemma ConnectedRefl(wy: Ways, a: GridLocation)
    requires InGrid(wy, a)
    ensures Connected(wy, a, a)
  {
    assert IsWalk(wy, [a]);
  }

  /** Two linked rooms are connected. */
  lemma LinkedConnected(wy: Ways, a: GridLocation, b: GridLocation)
    requires Linked(wy, a, b)
    ensures Connected(wy, a, b)
  {
    assert IsWalk(wy, [a, b]);
  }

  /** The reverse of a walk is a walk. */
  function Reverse(path: seq<GridLocation>): (r: seq<GridLocation>)
    ensures |r| == |path|
    ensures forall i :: 0 <= i < |path| ==> r[i] == path[|path| - 1 - i]
  {
    if path == [] then [] else Reverse(path[1..]) + [path[0]]
  }

  /** Connection is symmetric: passages can be walked both ways. */
  lemma ConnectedSym(wy: Ways, a: GridLocation, b: GridLocation)
    requires Connected(wy, a, b)
    ensures Connected(wy, b, a)
  {
    var path :| IsWalk(wy, path) && path[0] == a && path[|path| - 1] == b;
    var back := Reverse(path);
    forall i | 0 <= i < |back| - 1 ensures Linked(wy, back[i], back[i + 1]) {
      assert Linked(wy, path[|path| - 2 - i], path[|path| - 1 - i]);
    }
    assert IsWalk(wy, back);
  }

  /** Connection is transitive: two walks that meet make one walk. */
  lemma ConnectedTrans(wy: Ways, a: GridLocation, b: GridLocation, c: GridLocation)
    requires Connected(wy, a, b) && Connected(wy, b, c)
    ensures Connected(wy, a, c)
  {
    var p1 :| IsWalk(wy, p1) && p1[0] == a && p1[|p1| - 1] == b;
    var p2 :| IsWalk(wy, p2) && p2[0] == b && p2[|p2| - 1] == c;
    var path := p1 + p2[1..];
    forall i | 0 <= i < |path| - 1 ensures Linked(wy, path[i], path[i + 1]) {
      if i < |p1| - 1 {
        assert Linked(wy, p1[i], p1[i + 1]);
      } else {
        var k := i - (|p1| - 1);
        assert path[i] == p2[k] && path[i + 1] == p2[k + 1];
      }
    }
    assert IsWalk(wy, path);
  }

  /** wy2 records every passage wy1 records (passages are only ever added). */
  ghost predicate Extends(wy1: Ways, wy2: Ways) {
    && SameShape(wy1, wy2)
    && forall p, w :: InGrid(wy1, p) && w in At(wy1, p) ==> w in At(wy2, p)
  }

  /** Recording more passages keeps every connection. */
  lemma ConnectedExtends(wy1: Ways, wy2: Ways, a: GridLocation, b: GridLocation)
    requires Extends(wy1, wy2) && Connected(wy1, a, b)
    ensures Connected(wy2, a, b)
  {
    var path :| IsWalk(wy1, path) && path[0] == a && path[|path| - 1] == b;
    forall i | 0 <= i < |path| - 1 ensures Linked(wy2, path[i], path[i + 1]) {
      assert Linked(wy1, path[i], path[i + 1]);
    }
    assert IsWalk(wy2, path);
  }

  /** The weight of a room in the count of passages: the length of its list. */
  function WayWeight(l: seq<char>): nat { |l| }

  /** The number of passages recorded in wy. */
  function PassageCount(wy: Ways): nat { Total(wy, WayWeight) }

  /**
    Recording direction w at room a adds exactly the passage from a in
    direction w: one more passage, and every earlier passage kept.
   */
  lemma RecordPassage(wy: Ways, a: GridLocation, w: char)
    requires InGrid(wy, a)
    ensures PassageCount(Write(wy, a, At(wy, a) + [w])) == PassageCount(wy) + 1
    ensures Extends(wy, Write(wy, a, At(wy, a) + [w]))
  {
    TotalUpdate(wy, a, At(wy, a) + [w], WayWeight);
  }
}
