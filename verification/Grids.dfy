/** The maze contents as a value, and what each maze operation (src/maze.c) does to it. */
module Grids {
  import opened Compass

  const VIEW_DEPTH := 16

  /** One distance of a view: the left-hand cell, the corridor cell and the right-hand cell. */
  datatype Slice = Slice(left: Object, corridor: Object, right: Object) {
    function Cell(w: nat): Object
      requires w < 3
    {
      if w == 0 then left else if w == 1 then corridor else right
    }
  }

  type View = seq<Slice>

  datatype Grid = Grid(rows: nat, cols: nat, cell: map<Pos, Object>) {

    predicate InBounds(p: Pos) {
      0 <= p.row < rows && 0 <= p.col < cols
    }

    ghost predicate Valid() {
      forall p :: p in cell <==> InBounds(p)
    }

    /** The contents of a cell; addresses outside the maze read as blank. */
    function At(p: Pos): Object {
      if p in cell then cell[p] else EMPTY
    }

    function Put(p: Pos, o: Object): Grid {
      this.(cell := cell[p := o])
    }

    predicate Free(p: Pos) {
      InBounds(p) && IsEmpty(At(p))
    }

    /** How many cells of the maze lie on the ray that starts at p in direction d, p included. */
    function Room(p: Pos, d: Direction): nat {
      if !InBounds(p) then 0
      else if d == NORTH then p.row + 1
      else if d == WEST then p.col + 1
      else if d == SOUTH then rows - p.row
      else cols - p.col
    }

    // ---- operations that change the maze ----

    function SetPlayer(avatar: Object, p: Pos): (Grid, int) {
      if !Free(p) then (this, 1) else (Put(p, avatar), 0)
    }

    function RemovePlayer(avatar: Object, p: Pos): Grid {
      if InBounds(p) && At(p) == avatar then Put(p, EMPTY) else this
    }

    predicate CanMove(p: Pos, dir: int) {
      InBounds(p) && 0 <= dir < NUM_DIRECTIONS && IsAvatar(At(p)) && Free(p.Ahead(dir, 1))
    }

    function Move(p: Pos, dir: int): (Grid, int) {
      if CanMove(p, dir)
      then (Put(p, EMPTY).Put(p.Ahead(dir, 1), At(p)), 0)
      else (this, 1)
    }

    /** The blank cells met before (r, c) in a row-by-row scan. */
    function BlanksBefore(r: nat, c: nat): seq<Pos>
      decreases r, c
    {
      if c > 0 then
        BlanksBefore(r, c - 1) + (if IsEmpty(At(Pos(r, c - 1))) then [Pos(r, c - 1)] else [])
      else if r > 0 then BlanksBefore(r - 1, cols)
      else []
    }

    function Blanks(): seq<Pos> {
      BlanksBefore(rows, 0)
    }

    /** Where a draw of the random generator places an avatar, if there is room. */
    function RandomSpot(draw: nat): Option<Pos> {
      var blanks := Blanks();
      if |blanks| == 0 then None else Some(blanks[draw % |blanks|])
    }

    // ---- operations that look along a ray ----

    /** The avatar that stops the ray that starts on p itself, or EMPTY. */
    function Scan(p: Pos, d: Direction): Object
      decreases Room(p, d)
    {
      if !InBounds(p) then EMPTY
      else if !IsEmpty(At(p)) then (if IsAvatar(At(p)) then At(p) else EMPTY)
      else Scan(p.Ahead(d, 1), d)
    }

    function FindTarget(p: Pos, d: Direction): Object {
      Scan(p.Ahead(d, 1), d)
    }

    function SliceAt(p: Pos, gaze: Direction, k: nat): Slice {
      var q := p.Ahead(gaze, k);
      Slice(At(q.Ahead(TurnLeft(gaze), 1)), At(q), At(q.Ahead(TurnRight(gaze), 1)))
    }

    /** The view of at most `depth` slices, from distance k on. */
    function ViewFrom(p: Pos, gaze: Direction, k: nat, depth: int): (v: View)
      ensures |v| <= if depth <= k then 0 else depth - k
      decreases depth - k, p
    {
      if k >= depth || !InBounds(p.Ahead(gaze, k)) then []
      else if k > 0 && SliceAt(p, gaze, k).corridor != EMPTY then [SliceAt(p, gaze, k)]
      else [SliceAt(p, gaze, k)] + ViewFrom(p, gaze, k + 1, depth)
    }

    function GetView(p: Pos, gaze: Direction, depth: int): (v: View)
      ensures |v| <= if depth <= 0 then 0 else depth
    {
      ViewFrom(p, gaze, 0, depth)
    }

    /** Both side cells of the ray lie in the maze; they do for every k at once, because moving
        along the ray does not change the coordinate across it. */
    predicate SidesInBounds(p: Pos, gaze: Direction) {
      InBounds(p.Ahead(TurnLeft(gaze), 1)) && InBounds(p.Ahead(TurnRight(gaze), 1))
    }

    /** p lies in the maze and so do the cells beside it, looking in direction `gaze`. */
    predicate Sees(p: Pos, gaze: Direction) {
      InBounds(p) && if gaze == NORTH || gaze == SOUTH then 0 < p.col < cols - 1 else 0 < p.row < rows - 1
    }

    predicate Interior(p: Pos) {
      0 < p.row < rows - 1 && 0 < p.col < cols - 1
    }

    ghost predicate SolidBorder() {
      forall p :: InBounds(p) && !Interior(p) ==> IsSolid(At(p))
    }

    /** The first thing on the ray from p, p excluded, is at distance k. */
    ghost predicate FirstThing(p: Pos, d: Direction, k: nat) {
      && k > 0
      && (forall j :: 0 < j < k ==> Free(p.Ahead(d, j)))
      && InBounds(p.Ahead(d, k)) && !IsEmpty(At(p.Ahead(d, k)))
    }
  }

  // ---- the blank cells, in scan order ----

  lemma {:induction false} BlanksBeforeExact(g: Grid, r: nat, c: nat)
    requires g.Valid() && c <= g.cols && (r < g.rows || (r == g.rows && c == 0))
    ensures forall p :: p in g.BlanksBefore(r, c) <==> g.Free(p) && p.Before(Pos(r, c))
    ensures forall i, j :: 0 <= i < j < |g.BlanksBefore(r, c)| ==>
                             g.BlanksBefore(r, c)[i].Before(g.BlanksBefore(r, c)[j])
    decreases r, c
  {
    if c > 0 {
      BlanksBeforeExact(g, r, c - 1);
    } else if r > 0 {
      BlanksBeforeExact(g, r - 1, g.cols);
    }
  }

  /** The list behind a random placement: every blank cell, once, in row-major order. */
  lemma BlanksExact(g: Grid)
    requires g.Valid()
    ensures forall p :: p in g.Blanks() <==> g.Free(p)
    ensures forall i, j :: 0 <= i < j < |g.Blanks()| ==> g.Blanks()[i].Before(g.Blanks()[j])
  {
    BlanksBeforeExact(g, g.rows, 0);
  }

  /** The list so far is always a prefix of the whole list, and strictly shorter when the cell
      about to be scanned is blank: the second scan cannot overrun what the first one counted. */
  lemma {:induction false} BlanksBeforePrefix(g: Grid, r: nat, c: nat)
    requires c <= g.cols && (r < g.rows || (r == g.rows && c == 0))
    ensures g.BlanksBefore(r, c) <= g.Blanks()
    ensures r < g.rows && c < g.cols && IsEmpty(g.At(Pos(r, c))) ==> |g.BlanksBefore(r, c)| < |g.Blanks()|
    decreases g.rows - r, g.cols - c
  {
    if r < g.rows {
      if c < g.cols {
        BlanksBeforePrefix(g, r, c + 1);
      } else {
        BlanksBeforePrefix(g, r + 1, 0);
      }
    }
  }

  lemma RandomSpotIsFree(g: Grid, draw: nat)
    requires g.Valid()
    ensures g.RandomSpot(draw).Some? ==> g.Free(g.RandomSpot(draw).value)
    ensures g.RandomSpot(draw).None? <==> forall q :: !g.Free(q)
  {
    BlanksExact(g);
    var blanks := g.Blanks();
    if blanks != [] {
      assert blanks[draw % |blanks|] in blanks && blanks[0] in blanks;
    }
  }

  /** A draw that lands on p. */
  lemma DrawFor(g: Grid, p: Pos) returns (draw: nat)
    requires g.Valid() && g.Free(p)
    ensures g.RandomSpot(draw) == Some(p)
  {
    BlanksExact(g);
    assert p in g.Blanks();
    draw :| draw < |g.Blanks()| && g.Blanks()[draw] == p;
    assert draw % |g.Blanks()| == draw;
  }

  /** Random placement fails exactly when nothing is blank; every draw lands on a blank cell, and
      every blank cell is the landing place of some draw. */
  lemma RandomSpotReachesExactlyTheBlanks(g: Grid, p: Pos)
    requires g.Valid()
    ensures g.Free(p) <==> exists draw: nat :: g.RandomSpot(draw) == Some(p)
    ensures (forall draw: nat :: g.RandomSpot(draw) == None) <==> forall q :: !g.Free(q)
  {
    RandomSpotIsFree(g, 0);
    forall draw: nat ensures g.RandomSpot(draw).None? <==> g.RandomSpot(0).None? {
    }
    if g.Free(p) {
      var draw := DrawFor(g, p);
    }
    if draw: nat :| g.RandomSpot(draw) == Some(p) {
      RandomSpotIsFree(g, draw);
    }
  }

  ghost function FreeCells(g: Grid): set<Pos> {
    set p | p in g.cell && g.Free(p)
  }

  ghost predicate Ascending(s: seq<Pos>) {
    forall i, j :: 0 <= i < j < |s| ==> s[i].Before(s[j])
  }

  lemma {:induction false} AscendingCount(s: seq<Pos>)
    requires Ascending(s)
    ensures |set p | p in s| == |s|
    decreases s
  {
    if s != [] {
      var n := |s| - 1;
      var rest := s[..n];
      AscendingCount(rest);
      assert (set p | p in s) == (set p | p in rest) + {s[n]};
      assert s[n] !in rest;
    }
  }

  /** Which cell a draw picks: the blank cell that has just as many blank cells before it, row by row,
      as the draw leaves when it is divided by the number of blank cells. */
  lemma PickExactly(g: Grid, draw: nat)
    requires g.Valid() && g.RandomSpot(draw).Some?
    ensures var p := g.RandomSpot(draw).value;
            && FreeCells(g) != {} && p in FreeCells(g)
            && |set q | q in FreeCells(g) && q.Before(p)| == draw % |FreeCells(g)|
  {
    var blanks := g.Blanks();
    BlanksExact(g);
    var i := draw % |blanks|;
    assert (set q | q in blanks) == FreeCells(g);
    AscendingCount(blanks);
    AscendingCount(blanks[..i]);
    assert blanks[i] in blanks;
    forall q ensures q in FreeCells(g) && q.Before(blanks[i]) <==> q in blanks[..i] {
      if q in FreeCells(g) && q.Before(blanks[i]) {
        var j :| 0 <= j < |blanks| && blanks[j] == q;
        assert j < i;
      }
    }
    assert (set q | q in FreeCells(g) && q.Before(blanks[i])) == (set q | q in blanks[..i]);
  }

  /** Placing succeeds, with result 0, exactly on a blank cell of the maze, and then changes that cell
      only; otherwise the result is 1 and nothing changes. */
  lemma SetPlayerExactly(g: Grid, avatar: Object, p: Pos, q: Pos)
    requires g.Valid()
    ensures var (h, result) := g.SetPlayer(avatar, p);
            var blank := 0 <= p.row < g.rows && 0 <= p.col < g.cols && g.cell[p] == 32;
            && result == (if blank then 0 else 1)
            && (h.rows, h.cols) == (g.rows, g.cols)
            && h.At(q) == if blank && q == p then avatar else g.At(q)
  {
  }

  /** Moving succeeds, with result 0, exactly when an avatar stands on the cell and the next one in the
      direction is blank; then those two cells change.  Otherwise the result is 1 and nothing does. */
  lemma MoveExactly(g: Grid, p: Pos, dir: int, q: Pos)
    requires g.Valid()
    ensures var (h, result) := g.Move(p, dir);
            var to := if dir == 0 then Pos(p.row - 1, p.col) else if dir == 1 then Pos(p.row, p.col - 1)
                      else if dir == 2 then Pos(p.row + 1, p.col) else Pos(p.row, p.col + 1);
            var moves := && 0 <= dir < 4 && p in g.cell && 65 <= g.cell[p] <= 90 && to in g.cell && g.cell[to] == 32;
            && result == (if moves then 0 else 1)
            && (h.rows, h.cols) == (g.rows, g.cols)
            && h.At(q) == if moves && q == to then g.At(p) else if moves && q == p then EMPTY else g.At(q)
  {
  }
}
