/** What looking along a ray means: views, lasers, and how they agree (src/maze.c). */
module Sight {
  import opened Compass
  import opened Grids

  /** A ray stays in the maze for exactly Room cells. */
  lemma RoomIsReach(g: Grid, p: Pos, d: Direction, k: nat)
    requires g.InBounds(p)
    ensures g.InBounds(p.Ahead(d, k)) <==> k < g.Room(p, d)
  {
  }

  /** A side cell is out of bounds for one distance only if it is for all. */
  lemma SidesFollowTheRay(g: Grid, p: Pos, gaze: Direction, k: nat)
    requires g.InBounds(p.Ahead(gaze, k)) && g.SidesInBounds(p, gaze)
    ensures g.SidesInBounds(p.Ahead(gaze, k), gaze)
  {
  }

  /** Exactly then a view from p reads no cell outside the maze. */
  lemma SeesExactly(g: Grid, p: Pos, gaze: Direction)
    ensures g.Sees(p, gaze) <==> g.InBounds(p) && g.SidesInBounds(p, gaze)
  {
  }

  /** Stepping along the line of sight, forward or back, never takes the side cells away. */
  lemma StepStillSees(g: Grid, p: Pos, gaze: Direction, to: Pos)
    requires g.Sees(p, gaze) && g.InBounds(to)
    requires to == p.Ahead(gaze, 1) || to == p.Ahead(Reverse(gaze), 1)
    ensures g.Sees(to, gaze)
  {
  }

  lemma {:induction false} ScanSkipsBlanks(g: Grid, p: Pos, d: Direction, k: nat)
    requires g.InBounds(p) && forall j :: 0 <= j < k ==> g.Free(p.Ahead(d, j))
    ensures g.Scan(p, d) == g.Scan(p.Ahead(d, k), d)
    decreases k
  {
    if k > 0 {
      ScanSkipsBlanks(g, p, d, k - 1);
      assert g.Free(p.Ahead(d, k - 1));
      assert p.Ahead(d, k - 1).Ahead(d, 1) == p.Ahead(d, k);
    } else {
      assert p.Ahead(d, 0) == p;
    }
  }

  /** The search returns what is on the first non-blank cell when that is an avatar. */
  lemma TargetIsFirstThing(g: Grid, p: Pos, d: Direction, k: nat)
    requires g.InBounds(p) && g.FirstThing(p, d, k)
    ensures g.FindTarget(p, d) == if IsAvatar(g.At(p.Ahead(d, k))) then g.At(p.Ahead(d, k)) else EMPTY
  {
    var start := p.Ahead(d, 1);
    forall j | 0 <= j < k - 1 ensures g.Free(start.Ahead(d, j)) {
      assert start.Ahead(d, j) == p.Ahead(d, j + 1);
    }
    assert start.Ahead(d, k - 1) == p.Ahead(d, k);
    RoomIsReach(g, p, d, k);
    RoomIsReach(g, p, d, 1);
    ScanSkipsBlanks(g, start, d, k - 1);
  }

  /** Either there is a first thing ahead, or the ray is blank up to the edge. */
  lemma {:induction false} FirstThingOrEdge(g: Grid, p: Pos, d: Direction, from: nat) returns (k: nat)
    requires g.InBounds(p) && 0 < from <= g.Room(p, d)
    requires forall j :: 0 < j < from ==> g.Free(p.Ahead(d, j))
    ensures from <= k <= g.Room(p, d)
    ensures forall j :: 0 < j < k ==> g.Free(p.Ahead(d, j))
    ensures if k < g.Room(p, d) then g.FirstThing(p, d, k) else g.FindTarget(p, d) == EMPTY
    decreases g.Room(p, d) - from
  {
    RoomIsReach(g, p, d, from);
    if from < g.Room(p, d) && g.Free(p.Ahead(d, from)) {
      k := FirstThingOrEdge(g, p, d, from + 1);
    } else {
      k := from;
      if k == g.Room(p, d) && k > 1 {
        var start := p.Ahead(d, 1);
        forall j | 0 <= j < k - 1 ensures g.Free(start.Ahead(d, j)) {
          assert start.Ahead(d, j) == p.Ahead(d, j + 1);
        }
        assert start.Ahead(d, k - 1) == p.Ahead(d, k);
        RoomIsReach(g, p, d, 1);
        ScanSkipsBlanks(g, start, d, k - 1);
      }
    }
  }

  /** maze_find_target, both ways: it returns avatar a exactly when a is the first thing ahead. */
  lemma TargetExactly(g: Grid, p: Pos, d: Direction, a: Avatar)
    requires g.InBounds(p)
    ensures g.FindTarget(p, d) == a <==>
            exists k: nat :: g.FirstThing(p, d, k) && g.At(p.Ahead(d, k)) == a
  {
    if k: nat :| g.FirstThing(p, d, k) && g.At(p.Ahead(d, k)) == a {
      TargetIsFirstThing(g, p, d, k);
    }
    var k := FirstThingOrEdge(g, p, d, 1);
    if k < g.Room(p, d) {
      TargetIsFirstThing(g, p, d, k);
    }
  }

  /** The ray behind a ray: from the first thing, looking back, the origin comes first. */
  lemma FirstThingReversed(g: Grid, p: Pos, d: Direction, k: nat)
    requires g.InBounds(p) && !IsEmpty(g.At(p)) && g.FirstThing(p, d, k)
    ensures g.FirstThing(p.Ahead(d, k), Reverse(d), k)
    ensures p.Ahead(d, k).Ahead(Reverse(d), k) == p
  {
    var q := p.Ahead(d, k);
    forall j | 0 < j < k ensures g.Free(q.Ahead(Reverse(d), j)) {
      assert q.Ahead(Reverse(d), j) == p.Ahead(d, k - j);
    }
  }

  /** Line of fire is symmetric: whoever avatar a can hit can hit a by shooting back, in a maze
      of any size and at any distance. */
  lemma LineOfFireIsSymmetric(g: Grid, p: Pos, d: Direction, a: Avatar, b: Avatar)
    requires g.InBounds(p) && g.At(p) == a
    ensures g.FindTarget(p, d) == b <==>
            exists k: nat :: g.FirstThing(p, d, k) && g.At(p.Ahead(d, k)) == b
                             && g.FindTarget(p.Ahead(d, k), Reverse(d)) == a
  {
    TargetExactly(g, p, d, b);
    if g.FindTarget(p, d) == b {
      var k: nat :| g.FirstThing(p, d, k) && g.At(p.Ahead(d, k)) == b;
      FirstThingReversed(g, p, d, k);
      TargetIsFirstThing(g, p.Ahead(d, k), Reverse(d), k);
    }
  }

  /** A view of n slices is what the ray shows when only its last slice may hold something and
      something (a thing, the edge of the maze, the maximum depth) ends it there. */
  ghost predicate EndsAfter(g: Grid, p: Pos, gaze: Direction, depth: nat, n: nat) {
    && 0 < n <= depth && n <= g.Room(p, gaze)
    && (forall j :: 0 < j < n - 1 ==> g.Free(p.Ahead(gaze, j)))
    && (n == depth || n == g.Room(p, gaze) || g.FirstThing(p, gaze, n - 1))
  }

  lemma {:induction false} ViewFromExactly(g: Grid, p: Pos, gaze: Direction, k: nat, depth: nat, n: nat)
    requires g.InBounds(p) && EndsAfter(g, p, gaze, depth, n) && k < n
    ensures |g.ViewFrom(p, gaze, k, depth)| == n - k
    ensures forall i :: 0 <= i < n - k ==>
                          g.ViewFrom(p, gaze, k, depth)[i] == g.SliceAt(p, gaze, k + i)
    decreases n - k
  {
    RoomIsReach(g, p, gaze, k);
    if k < n - 1 {
      assert k > 0 ==> g.Free(p.Ahead(gaze, k));
      ViewFromExactly(g, p, gaze, k + 1, depth, n);
    } else {
      RoomIsReach(g, p, gaze, n);
    }
  }

  /** maze_get_view: the depth is the distance of the first thing plus one, cut by the maximum
      depth and the edge, and slice i shows the three cells at distance i. */
  lemma ViewExactly(g: Grid, p: Pos, gaze: Direction, depth: nat) returns (n: nat)
    requires g.InBounds(p) && 0 < depth
    ensures EndsAfter(g, p, gaze, depth, n)
    ensures |g.GetView(p, gaze, depth)| == n
    ensures forall i :: 0 <= i < n ==> g.GetView(p, gaze, depth)[i] == g.SliceAt(p, gaze, i)
  {
    var k := FirstThingOrEdge(g, p, gaze, 1);
    n := if k < g.Room(p, gaze) then k + 1 else k;
    if n > depth { n := depth; }
    ViewFromExactly(g, p, gaze, 0, depth, n);
  }

  /** What a laser hits is what the view shows at its far end.  When a thing lies ahead within the
      depth of the view, the view ends exactly there with a blank corridor before it, and its last
      corridor cell is the target, or a solid object when the search reports none; otherwise
      the view is blank to the maximum depth or to the edge. */
  lemma LaserAgreesWithView(g: Grid, p: Pos, d: Direction)
    requires g.InBounds(p)
    ensures var v := g.GetView(p, d, VIEW_DEPTH); var n := |v|;
            && 0 < n
            && (forall j :: 0 < j < n - 1 ==> v[j].corridor == EMPTY)
            && (forall k: nat :: k < VIEW_DEPTH && g.FirstThing(p, d, k) ==>
                  n == k + 1 && if g.FindTarget(p, d) == EMPTY then IsSolid(v[k].corridor)
                                else v[k].corridor == g.FindTarget(p, d))
            && ((forall k: nat :: k < VIEW_DEPTH ==> !g.FirstThing(p, d, k)) ==>
                  n == (if VIEW_DEPTH <= g.Room(p, d) then VIEW_DEPTH else g.Room(p, d))
                  && forall j :: 0 < j < n ==> v[j].corridor == EMPTY)
  {
    var v := g.GetView(p, d, VIEW_DEPTH);
    var n := ViewExactly(g, p, d, VIEW_DEPTH);
    forall j | 0 < j < n - 1 ensures v[j].corridor == EMPTY {
      assert g.Free(p.Ahead(d, j));
    }
    forall k: nat | k < VIEW_DEPTH && g.FirstThing(p, d, k)
      ensures n == k + 1 && if g.FindTarget(p, d) == EMPTY then IsSolid(v[k].corridor)
                            else v[k].corridor == g.FindTarget(p, d)
    {
      TargetIsFirstThing(g, p, d, k);
      RoomIsReach(g, p, d, k);
      assert n > k + 1 ==> k < n - 1 && g.Free(p.Ahead(d, k));
    }
    if forall k: nat :: k < VIEW_DEPTH ==> !g.FirstThing(p, d, k) {
      assert n > 1 ==> !g.FirstThing(p, d, n - 1);
      RoomIsReach(g, p, d, n - 1);
      assert n > 1 ==> g.Free(p.Ahead(d, n - 1));
    }
  }

  /** Two avatars facing each other down a blank stretch see each other's corridor backwards, with
      left and right exchanged: view reversal. */
  lemma ViewsReverse(g: Grid, p: Pos, d: Direction, n: nat)
    requires g.InBounds(p) && g.SidesInBounds(p, d) && 0 < n < VIEW_DEPTH
    requires IsAvatar(g.At(p)) && g.FirstThing(p, d, n) && IsAvatar(g.At(p.Ahead(d, n)))
    ensures var here := g.GetView(p, d, VIEW_DEPTH);
            var there := g.GetView(p.Ahead(d, n), Reverse(d), VIEW_DEPTH);
            && |here| == n + 1 == |there|
            && forall k :: 0 <= k <= n ==>
                 && here[k].corridor == there[n - k].corridor
                 && here[k].left == there[n - k].right
                 && here[k].right == there[n - k].left
  {
    var q, r := p.Ahead(d, n), Reverse(d);
    FirstThingReversed(g, p, d, n);
    RoomIsReach(g, p, d, n);
    RoomIsReach(g, q, r, n);
    ViewFromExactly(g, p, d, 0, VIEW_DEPTH, n + 1);
    ViewFromExactly(g, q, r, 0, VIEW_DEPTH, n + 1);
    forall k | 0 <= k <= n
      ensures g.SliceAt(p, d, k).corridor == g.SliceAt(q, r, n - k).corridor
      ensures g.SliceAt(p, d, k).left == g.SliceAt(q, r, n - k).right
      ensures g.SliceAt(p, d, k).right == g.SliceAt(q, r, n - k).left
    {
      assert q.Ahead(r, n - k) == p.Ahead(d, k);
    }
  }

  /** From strictly inside the maze every cell a view reads, side cells included, exists. */
  lemma ViewReadsInBounds(g: Grid, p: Pos, gaze: Direction, k: nat)
    requires g.Interior(p) && k < |g.GetView(p, gaze, VIEW_DEPTH)|
    ensures g.InBounds(p.Ahead(gaze, k)) && g.SidesInBounds(p.Ahead(gaze, k), gaze)
  {
    var n := ViewExactly(g, p, gaze, VIEW_DEPTH);
    RoomIsReach(g, p, gaze, k);
    SidesFollowTheRay(g, p, gaze, k);
  }

  /** The cells beside distance i, by compass: facing north the left hand is west, facing west it is
      south, facing south it is east, and facing east it is north. */
  function LeftOf(p: Pos, gaze: Direction, i: int): Pos {
    if gaze == 0 then Pos(p.row - i, p.col - 1)
    else if gaze == 1 then Pos(p.row + 1, p.col - i)
    else if gaze == 2 then Pos(p.row + i, p.col + 1)
    else Pos(p.row - 1, p.col + i)
  }

  function RightOf(p: Pos, gaze: Direction, i: int): Pos {
    if gaze == 0 then Pos(p.row - i, p.col + 1)
    else if gaze == 1 then Pos(p.row - 1, p.col - i)
    else if gaze == 2 then Pos(p.row + i, p.col - 1)
    else Pos(p.row + 1, p.col + i)
  }

  function StraightAhead(p: Pos, gaze: Direction, i: int): Pos {
    if gaze == 0 then Pos(p.row - i, p.col)
    else if gaze == 1 then Pos(p.row, p.col - i)
    else if gaze == 2 then Pos(p.row + i, p.col)
    else Pos(p.row, p.col + i)
  }

  /** maze_get_view by coordinates: which cell of the maze is the left wall, the corridor and the right
      wall of slice i. */
  lemma ViewByCoordinates(g: Grid, p: Pos, gaze: Direction, depth: nat, i: nat)
    requires g.InBounds(p) && i < |g.GetView(p, gaze, depth)|
    ensures var s := g.GetView(p, gaze, depth)[i];
            && s.left == g.At(LeftOf(p, gaze, i))
            && s.corridor == g.At(StraightAhead(p, gaze, i))
            && s.right == g.At(RightOf(p, gaze, i))
  {
    var n := ViewExactly(g, p, gaze, depth);
    assert g.GetView(p, gaze, depth)[i] == g.SliceAt(p, gaze, i);
  }
}
