/** The maze module as it runs (src/maze.c): cells changed in place, scanned by loops. */
module Mazes {
  import opened Compass
  import opened Grids
  import MazeRuns
  import Sight

  class Maze {
    var rows: nat
    var cols: nat
    var cells: array2<Object>
    /** The maze contents as a value. */
    ghost var grid: Grid

    ghost predicate Valid()
      reads this, cells
    {
      && rows == grid.rows == cells.Length0 && cols == grid.cols
      && (rows > 0 ==> cols == cells.Length1)
      && grid.Valid()
      && forall r, c :: 0 <= r < rows && 0 <= c < cols ==> grid.At(Pos(r, c)) == cells[r, c]
    }

    constructor ()
      ensures Valid() && fresh(cells) && rows == 0
    {
      rows, cols := 0, 0;
      cells := new Object[0, 0];
      grid := Grid(0, 0, map[]);
    }

    /** Load a template; a template whose rows differ in length is rejected (the program exits). */
    method Init(template: seq<seq<Object>>) returns (ok: bool)
      requires Valid()
      modifies this
      ensures Valid() && (ok ==> fresh(cells))
      ensures ok <==> forall r :: 0 <= r < |template| ==> |template[r]| == |template[0]|
      ensures ok ==> rows == |template| && (rows > 0 ==> cols == |template[0]|)
      ensures ok ==> forall p :: grid.InBounds(p) ==> grid.At(p) == template[p.row][p.col]
      ensures !ok ==> grid == old(grid) && cells == old(cells)
    {
      if |template| == 0 {
        rows, cols := 0, 0;
        cells := new Object[0, 0];
        grid := Grid(0, 0, map[]);
        return true;
      }
      var width := |template[0]|;
      for r := 1 to |template|
        invariant forall k :: 0 <= k < r ==> |template[k]| == width
      {
        if |template[r]| != width {
          return false;
        }
      }
      var copy := new Object[|template|, width];
      for r := 0 to |template|
        invariant forall i, c :: 0 <= i < r && 0 <= c < width ==> copy[i, c] == template[i][c]
      {
        for c := 0 to width
          invariant forall i, j :: 0 <= i < r && 0 <= j < width ==> copy[i, j] == template[i][j]
          invariant forall j :: 0 <= j < c ==> copy[r, j] == template[r][j]
        {
          copy[r, c] := template[r][c];
        }
      }
      rows, cols, cells := |template|, width, copy;
      grid := Grid(rows, cols, map r, c | 0 <= r < rows && 0 <= c < cols :: Pos(r, c) := template[r][c]);
      ok := true;
    }

    method SetPlayer(avatar: Object, row: int, col: int) returns (result: int)
      requires Valid()
      modifies `grid, cells
      ensures Valid()
      ensures (grid, result) == old(grid).SetPlayer(avatar, Pos(row, col))
    {
      if row < 0 || row >= rows || col < 0 || col >= cols || !IsEmpty(cells[row, col]) {
        result := 1;
      } else {
        cells[row, col] := avatar;
        grid := grid.Put(Pos(row, col), avatar);
        result := 0;
      }
    }

    /** The first scan. */
    method CountBlanks() returns (emptyCount: nat)
      requires Valid()
      ensures emptyCount == |grid.Blanks()|
    {
      emptyCount := 0;
      for r := 0 to rows
        invariant emptyCount == |grid.BlanksBefore(r, 0)|
      {
        for c := 0 to cols
          invariant emptyCount == |grid.BlanksBefore(r, c)|
        {
          if cells[r, c] == EMPTY {
            emptyCount := emptyCount + 1;
          }
        }
      }
    }

    /** The second scan. */
    method ListBlanks(emptyCount: nat) returns (empties: array<Pos>)
      requires Valid() && emptyCount == |grid.Blanks()|
      ensures fresh(empties) && empties[..] == grid.Blanks()
    {
      empties := new Pos[emptyCount];
      var index := 0;
      for r := 0 to rows
        invariant index <= emptyCount && empties[..index] == grid.BlanksBefore(r, 0)
        invariant Valid() && grid == old(grid)
      {
        for c := 0 to cols
          invariant index <= emptyCount && empties[..index] == grid.BlanksBefore(r, c)
          invariant Valid() && grid == old(grid)
        {
          BlanksBeforePrefix(grid, r, c);
          if cells[r, c] == EMPTY {
            empties[index] := Pos(r, c);
            index := index + 1;
          }
        }
      }
    }

    /** `draw` is what the random generator returns; `row0`, `col0` are the values of the
        caller's variables before the call. */
    method SetPlayerRandom(avatar: Object, draw: nat, row0: int, col0: int) returns (result: int, row: int, col: int)
      requires Valid()
      modifies `grid, cells
      ensures Valid()
      ensures match old(grid).RandomSpot(draw)
              case None =>
                && result == 1 && grid == old(grid)
                && (row, col) == (if rows == 0 || cols == 0 then (row0, col0) else (-1, -1))
              case Some(p) =>
                result == 0 && Pos(row, col) == p && grid == old(grid).Put(p, avatar)
    {
      row, col := row0, col0;
      BlanksExact(grid);
      if rows == 0 || cols == 0 {
        assert forall p :: !grid.Free(p);
        RandomSpotIsFree(grid, draw);
        return 1, row, col;
      }
      var emptyCount := CountBlanks();
      if emptyCount == 0 {
        return 1, -1, -1;
      }
      var empties := ListBlanks(emptyCount);
      var pick := draw % emptyCount;
      var spot := empties[pick];
      assert spot in empties[..];
      cells[spot.row, spot.col] := avatar;
      grid := grid.Put(spot, avatar);
      result, row, col := 0, spot.row, spot.col;
    }

    method RemovePlayer(avatar: Object, row: int, col: int)
      requires Valid()
      modifies `grid, cells
      ensures Valid()
      ensures grid == old(grid).RemovePlayer(avatar, Pos(row, col))
    {
      if row >= 0 && row < rows && col >= 0 && col < cols && cells[row, col] == avatar {
        cells[row, col] := EMPTY;
        grid := grid.Put(Pos(row, col), EMPTY);
      }
    }

    method Move(row: int, col: int, dir: int) returns (result: int)
      requires Valid()
      modifies `grid, cells
      ensures Valid()
      ensures (grid, result) == old(grid).Move(Pos(row, col), dir)
    {
      if row < 0 || row >= rows || col < 0 || col >= cols || dir < 0 || dir >= NUM_DIRECTIONS {
        return 1;
      }
      var thing := cells[row, col];
      if !IsAvatar(thing) {
        return 1;
      }
      var newRow, newCol := row + Dr(dir), col + Dc(dir);
      assert Pos(newRow, newCol) == Pos(row, col).Ahead(dir, 1);
      if newRow < 0 || newRow >= rows || newCol < 0 || newCol >= cols || !IsEmpty(cells[newRow, newCol]) {
        return 1;
      }
      cells[row, col] := EMPTY;
      cells[newRow, newCol] := thing;
      grid := grid.Put(Pos(row, col), EMPTY).Put(Pos(newRow, newCol), thing);
      result := 0;
    }

    /** What the loop of the search does at p: beyond the edge and on a thing it ends, on a blank cell it
        goes on, with less of the way left. */
    lemma ScanAt(p: Pos, d: Direction)
      ensures !grid.InBounds(p) ==> grid.Scan(p, d) == EMPTY
      ensures grid.InBounds(p) && !IsEmpty(grid.At(p)) ==>
                grid.Scan(p, d) == if IsAvatar(grid.At(p)) then grid.At(p) else EMPTY
      ensures var next := Pos(p.row + Dr(d), p.col + Dc(d));
              grid.InBounds(p) && IsEmpty(grid.At(p)) ==>
                grid.Scan(p, d) == grid.Scan(next, d) && grid.Room(next, d) < grid.Room(p, d)
    {
      assert Pos(p.row + Dr(d), p.col + Dc(d)) == p.Ahead(d, 1);
    }

    method FindTarget(row: int, col: int, dir: Direction) returns (target: Object)
      requires Valid()
      ensures target == grid.FindTarget(Pos(row, col), dir)
    {
      var r, c := row + Dr(dir), col + Dc(dir);
      assert Pos(r, c) == Pos(row, col).Ahead(dir, 1);
      ghost var wanted := grid.Scan(Pos(r, c), dir);
      while r >= 0 && r < rows && c >= 0 && c < cols
        invariant grid.Scan(Pos(r, c), dir) == wanted
        decreases grid.Room(Pos(r, c), dir)
      {
        ScanAt(Pos(r, c), dir);
        var thing := cells[r, c];
        if !IsEmpty(thing) {
          return if IsAvatar(thing) then thing else EMPTY;
        }
        r, c := r + Dr(dir), c + Dc(dir);
      }
      ScanAt(Pos(r, c), dir);
      target := EMPTY;
    }

    /** Line k of the buffer holds the slice s. */
    ghost predicate Shows(view: array2<Object>, k: nat, s: Slice)
      requires k < view.Length0 && view.Length1 == 3
      reads view
    {
      view[k, 0] == s.left && view[k, 1] == s.corridor && view[k, 2] == s.right
    }

    /** The first n lines of the buffer hold the first n slices. */
    ghost predicate Filled(view: array2<Object>, n: nat, slices: View)
      requires n <= view.Length0 && n <= |slices| && view.Length1 == 3
      reads view
    {
      forall k :: 0 <= k < n ==> Shows(view, k, slices[k])
    }

    lemma StartIsInside(p: Pos, gaze: Direction, k: nat)
      requires k == 0 || grid.InBounds(p)
      requires grid.InBounds(p.Ahead(gaze, k))
      ensures grid.InBounds(p)
    {
      assert k == 0 ==> p.Ahead(gaze, k) == p;
    }

    /** One turn of the copying loop. */
    method CopySlice(view: array2<Object>, distance: nat, at: Pos, gaze: Direction)
      requires Valid() && grid.InBounds(at) && grid.SidesInBounds(at, gaze)
      requires view != cells && distance < view.Length0 && view.Length1 == 3
      modifies view
      ensures Shows(view, distance, grid.SliceAt(at, gaze, 0))
      ensures forall k, w :: 0 <= k < view.Length0 && 0 <= w < 3 && k != distance ==> view[k, w] == old(view[k, w])
    {
      var left, right := TurnLeft(gaze), TurnRight(gaze);
      assert at.Ahead(left, 1) == Pos(at.row + Dr(left), at.col + Dc(left));
      assert at.Ahead(right, 1) == Pos(at.row + Dr(right), at.col + Dc(right));
      assert at.Ahead(gaze, 0) == at;
      view[distance, 0] := cells[at.row + Dr(left), at.col + Dc(left)];
      view[distance, 1] := cells[at.row, at.col];
      view[distance, 2] := cells[at.row + Dr(right), at.col + Dc(right)];
    }

    /** What the copying loop does at a distance that lies in the maze. */
    lemma NextSlice(p: Pos, gaze: Direction, k: nat, depth: int) returns (slice: Slice)
      requires k < depth && grid.InBounds(p.Ahead(gaze, k))
      ensures k == 0 ==> p.Ahead(gaze, k) == p
      ensures slice == grid.SliceAt(p, gaze, k) == grid.SliceAt(p.Ahead(gaze, k), gaze, 0)
      ensures grid.SidesInBounds(p, gaze) ==> grid.SidesInBounds(p.Ahead(gaze, k), gaze)
      ensures grid.ViewFrom(p, gaze, k, depth) ==
              [slice] + (if k > 0 && slice.corridor != EMPTY then [] else grid.ViewFrom(p, gaze, k + 1, depth))
    {
      slice := grid.SliceAt(p, gaze, k);
      assert p.Ahead(gaze, k).Ahead(gaze, 0) == p.Ahead(gaze, k);
      if grid.SidesInBounds(p, gaze) {
        Sight.SidesFollowTheRay(grid, p, gaze, k);
      }
    }

    /** The loop body for a distance k that lies in the maze: line k is filled, and there is more to
        copy unless something blocks the view. */
    method CopyNext(view: array2<Object>, row: int, col: int, gaze: Direction, depth: int, k: nat, ghost whole: View)
        returns (more: bool)
      requires Valid() && k < depth && grid.InBounds(Pos(row, col).Ahead(gaze, k))
      requires grid.SidesInBounds(Pos(row, col), gaze)
      requires view != cells && view.Length0 >= depth && view.Length1 == 3
      requires k <= |whole| && whole[k..] == grid.ViewFrom(Pos(row, col), gaze, k, depth)
      modifies view
      ensures k < |whole| && Shows(view, k, whole[k])
      ensures whole[k + 1..] == if more then grid.ViewFrom(Pos(row, col), gaze, k + 1, depth) else []
      ensures forall j, w :: 0 <= j < view.Length0 && 0 <= w < 3 && j != k ==> view[j, w] == old(view[j, w])
    {
      ghost var slice := NextSlice(Pos(row, col), gaze, k, depth);
      CopySlice(view, k, Pos(row, col).Ahead(gaze, k), gaze);
      assert whole[k] == slice == whole[k..][0];
      assert whole[k + 1..] == whole[k..][1..];
      more := !(k > 0 && view[k, 1] != EMPTY);
    }

    /** The loop, for a view whose slices are `whole`. */
    method CopyAll(view: array2<Object>, row: int, col: int, gaze: Direction, depth: int, ghost whole: View)
        returns (distance: int)
      requires Valid() && whole == grid.ViewFrom(Pos(row, col), gaze, 0, depth)
      requires grid.InBounds(Pos(row, col)) && depth > 0 ==> grid.SidesInBounds(Pos(row, col), gaze)
      requires view != cells && view.Length0 >= depth && view.Length1 == 3
      modifies view
      ensures distance == |whole| <= view.Length0 && Filled(view, distance, whole)
      ensures forall k, w :: distance <= k < view.Length0 && 0 <= w < 3 ==> view[k, w] == old(view[k, w])
    {
      distance := 0;
      while distance < depth
        invariant 0 <= distance <= |whole|
        invariant distance > 0 ==> grid.InBounds(Pos(row, col))
        invariant whole[distance..] == grid.ViewFrom(Pos(row, col), gaze, distance, depth)
        invariant Filled(view, distance, whole)
        invariant forall k, w :: distance <= k < view.Length0 && 0 <= w < 3 ==> view[k, w] == old(view[k, w])
      {
        var at := Pos(row, col).Ahead(gaze, distance);
        if at.row < 0 || at.row >= rows || at.col < 0 || at.col >= cols {
          break;
        }
        StartIsInside(Pos(row, col), gaze, distance);
        var more := CopyNext(view, row, col, gaze, depth, distance, whole);
        distance := distance + 1;
        if !more {
          break;
        }
      }
    }

    /** Fills `view` from the front and leaves the rest of it alone.  The cells at both sides of
        the line of sight must lie in the maze. */
    method GetView(view: array2<Object>, row: int, col: int, gaze: Direction, depth: int) returns (distance: int)
      requires Valid()
      requires grid.InBounds(Pos(row, col)) && depth > 0 ==> grid.SidesInBounds(Pos(row, col), gaze)
      requires view != cells && view.Length0 >= depth && view.Length1 == 3
      modifies view
      ensures distance == |grid.GetView(Pos(row, col), gaze, depth)| <= view.Length0
      ensures Filled(view, distance, grid.GetView(Pos(row, col), gaze, depth))
      ensures forall k, w :: distance <= k < view.Length0 && 0 <= w < 3 ==> view[k, w] == old(view[k, w])
    {
      distance := CopyAll(view, row, col, gaze, depth, grid.GetView(Pos(row, col), gaze, depth));
    }

    /** One maze operation, carried out by the method that stands for it. */
    method Perform(op: MazeRuns.MazeOp)
      requires Valid()
      modifies `grid, cells
      ensures Valid() && grid == MazeRuns.Apply(old(grid), op)
    {
      match op
      case Set(avatar, at) =>
        var result := SetPlayer(avatar, at.row, at.col);
      case SetRandom(avatar, draw) =>
        var result, row, col := SetPlayerRandom(avatar, draw, -1, -1);
      case Move(from, dir) =>
        var result := Move(from.row, from.col, dir);
      case Remove(avatar, at) =>
        RemovePlayer(avatar, at.row, at.col);
    }
  }
}
