/** What every run of maze operations keeps (src/maze.c:63-154). */
module MazeRuns {
  import opened Compass
  import opened Grids

  datatype MazeOp =
    | Set(avatar: Avatar, at: Pos)
    | SetRandom(avatar: Avatar, draw: nat)
    | Move(from: Pos, dir: int)
    | Remove(avatar: Avatar, at: Pos)

  function Apply(g: Grid, op: MazeOp): Grid {
    match op
    case Set(a, p) => g.SetPlayer(a, p).0
    case SetRandom(a, draw) =>
      (match g.RandomSpot(draw)
       case None => g
       case Some(p) => g.Put(p, a))
    case Move(p, dir) => g.Move(p, dir).0
    case Remove(a, p) => g.RemovePlayer(a, p)
  }

  function Run(g: Grid, ops: seq<MazeOp>): Grid
    decreases ops
  {
    if ops == [] then g else Run(Apply(g, ops[0]), ops[1..])
  }

  /** Same size, and the same solid objects in the same cells. */
  ghost predicate SameWalls(g: Grid, h: Grid) {
    && g.Valid() && h.Valid() && g.rows == h.rows && g.cols == h.cols
    && forall p :: IsSolid(g.At(p)) || IsSolid(h.At(p)) ==> g.At(p) == h.At(p)
  }

  ghost predicate Absent(g: Grid, a: Object) {
    forall p :: g.InBounds(p) ==> g.At(p) != a
  }

  ghost predicate AvatarFree(g: Grid) {
    forall p :: g.InBounds(p) ==> !IsAvatar(g.At(p))
  }

  /** No avatar stands on two cells. */
  ghost predicate Unique(g: Grid) {
    forall p, q :: g.InBounds(p) && g.InBounds(q) && IsAvatar(g.At(p)) && g.At(p) == g.At(q) ==> p == q
  }

  /** Placements in the run are only ever for avatars that are not in the maze at that time. */
  ghost predicate PlacesOnlyTheAbsent(g: Grid, ops: seq<MazeOp>)
    decreases ops
  {
    ops == [] ||
    ((ops[0].Set? || ops[0].SetRandom? ==> Absent(g, ops[0].avatar))
     && PlacesOnlyTheAbsent(Apply(g, ops[0]), ops[1..]))
  }

  lemma ApplyKeepsWalls(g: Grid, op: MazeOp)
    requires g.Valid()
    ensures SameWalls(g, Apply(g, op))
    ensures Unique(g) && (op.Set? || op.SetRandom? ==> Absent(g, op.avatar)) ==> Unique(Apply(g, op))
  {
    if op.SetRandom? {
      RandomSpotIsFree(g, op.draw);
    }
  }

  lemma {:induction false} RunKeepsWalls(g: Grid, ops: seq<MazeOp>)
    requires g.Valid()
    ensures SameWalls(g, Run(g, ops))
    ensures Unique(g) && PlacesOnlyTheAbsent(g, ops) ==> Unique(Run(g, ops))
    decreases ops
  {
    if ops != [] {
      ApplyKeepsWalls(g, ops[0]);
      RunKeepsWalls(Apply(g, ops[0]), ops[1..]);
    }
  }

  ghost function BlankCells(g: Grid): set<Pos> {
    set p | p in g.cell && IsEmpty(g.cell[p])
  }

  ghost function AvatarCells(g: Grid): set<Pos> {
    set p | p in g.cell && IsAvatar(g.cell[p])
  }

  /** From an avatar-free template, however the maze is used: the solid cells are the template's,
      blank cells and avatars together are as many as the template's blank cells, and when only
      absent avatars are placed no avatar stands twice. */
  lemma RunsConserveCells(template: Grid, ops: seq<MazeOp>)
    requires template.Valid() && AvatarFree(template)
    ensures var g := Run(template, ops);
            && SameWalls(template, g)
            && |BlankCells(g)| + |AvatarCells(g)| == |BlankCells(template)|
            && (PlacesOnlyTheAbsent(template, ops) ==> Unique(g))
  {
    var g := Run(template, ops);
    RunKeepsWalls(template, ops);
    forall p ensures p in BlankCells(template) <==> p in BlankCells(g) + AvatarCells(g) {
      assert p in g.cell <==> p in template.cell;
    }
    assert BlankCells(g) + AvatarCells(g) == BlankCells(template);
    assert BlankCells(g) * AvatarCells(g) == {};
  }

  /** Behind a solid border avatars stay strictly inside. */
  lemma BorderContainsAvatars(template: Grid, ops: seq<MazeOp>, p: Pos)
    requires template.Valid() && template.SolidBorder()
    ensures var g := Run(template, ops);
            g.SolidBorder() && (g.InBounds(p) && IsAvatar(g.At(p)) ==> g.Interior(p))
  {
    RunKeepsWalls(template, ops);
    var g := Run(template, ops);
    forall q | g.InBounds(q) && !g.Interior(q) ensures IsSolid(g.At(q)) {
      assert IsSolid(template.At(q));
    }
  }

  /** A move can be taken back: one step in the reverse direction restores the maze. */
  lemma MovesAreUndone(g: Grid, p: Pos, d: Direction)
    requires g.Valid() && g.CanMove(p, d)
    ensures var (h, result) := g.Move(p, d);
            result == 0 && h.Move(p.Ahead(d, 1), Reverse(d)) == (g, 0)
  {
    var h := g.Move(p, d).0;
    var q := p.Ahead(d, 1);
    assert q.Ahead(Reverse(d), 1) == p && h.CanMove(q, Reverse(d));
    var back := h.Move(q, Reverse(d)).0;
    forall x | x in g.cell ensures x in back.cell && back.cell[x] == g.cell[x] {
    }
    assert back.cell == g.cell;
  }
}
