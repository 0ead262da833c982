/** The player module as it runs (src/player.c): records changed in place, a table of 26 slots walked
    by loops.  Every operation is proved equal to the operation of module Games on the value that the
    objects represent. */
module Players {
  import opened Compass
  import opened Grids
  import opened Display
  import opened Games
  import opened Mazes
  import Sight

  class Player {
    const avatar: Avatar
    const name: seq<Object>
    ghost const glass: Screen
    var row: int
    var col: int
    var gaze: Direction
    var score: nat
    var prevView: Option<View>
    var prevDepth: nat
    var refcount: nat
    var hitPending: bool
    /** Where the serving thread stands. */
    var phase: Phase
    /** Everything written to the client's connection. */
    var sent: seq<Packet>

    ghost predicate Valid()
      reads this
    {
      prevDepth == if prevView.None? then 0 else |prevView.value|
    }

    ghost function State(): PlayerState
      reads this
    {
      PlayerState(avatar, name, row, col, gaze, score, prevView, refcount, hitPending, phase, glass, sent)
    }

    constructor (avatar: Avatar, name: Option<seq<Object>>, ghost glass: Screen)
      ensures Valid() && State() == NewPlayer(avatar - 65, name, glass)
    {
      this.avatar := avatar;
      this.name := if name.Some? && name.value != [] then name.value else ANONYMOUS;
      this.glass := glass;
      row, col, gaze, score := -1, -1, EAST, 0;
      prevView, prevDepth, refcount, hitPending := None, 0, 1, false;
      phase, sent := Active, [];
    }

    /** player_send_packet */
    method SendPacket(p: Packet)
      requires Valid()
      modifies `sent
      ensures Valid() && State() == old(State()).Send([p])
    {
      sent := sent + [p];
    }

    /** player_invalidate_view */
    method InvalidateView()
      modifies `prevView, `prevDepth
      ensures Valid() && State() == old(State()).Invalidated()
    {
      if prevView.Some? {
        prevView := None;
      }
      prevDepth := 0;
    }

    /** player_get_location; the results mean something only when `found`. */
    method GetLocation(maze: Maze) returns (found: bool, r: int, c: int, dir: Direction)
      requires maze.Valid()
      ensures found <==> maze.grid.InBounds(State().Spot())
      ensures (r, c, dir) == (row, col, gaze)
    {
      r, c, dir := row, col, gaze;
      found := !(row < 0 || row >= maze.rows || col < 0 || col >= maze.cols);
    }

    /** The inner loop of player_update_view: the SHOW packets for distance d. */
    method SendLine(now: View, full: bool, d: nat)
      requires Valid() && d < |now| <= VIEW_DEPTH
      modifies `sent
      ensures Valid()
      ensures var prev := if full then None else prevView;
              sent + Shows(now, prev, d + 1, 0) == old(sent) + Shows(now, prev, d, 0)
    {
      ghost var prev := if full then None else prevView;
      ghost var total := sent + Shows(now, prev, d, 0);
      for w := 0 to 3
        invariant sent + Shows(now, prev, d, w) == total
      {
        var newCell := now[d].Cell(w);
        var oldCell := if prevView.Some? && d < prevDepth then prevView.value[d].Cell(w) else 0;
        ghost var rest := Shows(now, prev, d, w + 1);
        if full || prevView.None? || newCell != oldCell {
          assert Shows(now, prev, d, w) == [Show(newCell, w, d)] + rest;
          assert sent + ([Show(newCell, w, d)] + rest) == (sent + [Show(newCell, w, d)]) + rest;
          SendPacket(Show(newCell, w, d));
        } else {
          assert Shows(now, prev, d, w) == rest;
        }
      }
    }

    /** The outer loop of player_update_view: all cells in a full update, the changed cells in an
        incremental one. */
    method SendShows(now: View, full: bool)
      requires Valid() && |now| <= VIEW_DEPTH
      modifies `sent
      ensures Valid()
      ensures State() == old(State()).Send(Shows(now, if full then None else prevView, 0, 0))
    {
      ghost var prev := if full then None else prevView;
      ghost var total := sent + Shows(now, prev, 0, 0);
      for d := 0 to |now|
        invariant sent + Shows(now, prev, d, 0) == total
      {
        SendLine(now, full, d);
      }
    }

    /** What player_update_view sees: the view from the recorded location, as far as it was filled. */
    method LookAhead(maze: Maze) returns (newView: View)
      requires maze.Valid() && maze.grid.Sees(State().Spot(), gaze)
      ensures newView == State().SeenIn(maze.grid)
    {
      var found, r, c, dir := GetLocation(maze);
      var buffer := new Object[VIEW_DEPTH, 3];
      Sight.SeesExactly(maze.grid, State().Spot(), gaze);
      var newDepth := maze.GetView(buffer, r, c, gaze, VIEW_DEPTH);
      newView := seq(newDepth, d requires 0 <= d < newDepth reads buffer =>
                     Slice(buffer[d, 0], buffer[d, 1], buffer[d, 2]));
    }

    /** The packets of one update: in full, or the changes only. */
    method SendUpdate(newView: View)
      requires Valid() && |newView| <= VIEW_DEPTH
      modifies `sent
      ensures Valid() && State() == old(State()).Send(UpdatePackets(newView, prevView))
    {
      if prevView.None? || prevDepth != |newView| {
        SendPacket(Clear);
        SendShows(newView, true);
        assert old(sent) + [Clear] + Shows(newView, None, 0, 0) == old(sent) + ([Clear] + Shows(newView, None, 0, 0));
      } else {
        SendShows(newView, false);
      }
    }

    /** player_update_view */
    method UpdateView(maze: Maze)
      requires Valid() && maze.Valid() && maze.grid.Sees(State().Spot(), gaze)
      modifies `sent, `prevView, `prevDepth
      ensures Valid() && State() == old(State()).Updated(maze.grid)
    {
      var newView := LookAhead(maze);
      SendUpdate(newView);
      prevView := Some(newView);
      prevDepth := |newView|;
    }

    /** Invalidate the view and draw it again in full. */
    method Redraw(maze: Maze)
      requires maze.Valid() && maze.grid.Sees(State().Spot(), gaze)
      modifies `sent, `prevView, `prevDepth
      ensures Valid() && State() == old(State()).Invalidated().Updated(maze.grid)
    {
      InvalidateView();
      UpdateView(maze);
    }
  }

  // ---- the table ----

  /** Every player of the table has a view that stays in the maze, slot `except` perhaps not. */
  ghost predicate SeeingBut(grid: Grid, t: Table, except: int) {
    forall i :: 0 <= i < NUM_AVATARS && i != except && t[i].Some? ==> grid.Sees(t[i].value.Spot(), t[i].value.gaze)
  }

  /** Slot k gets a record with such a view in a maze of the same size. */
  lemma SeeingAfter(grid: Grid, now: Grid, t: Table, k: nat, q: PlayerState)
    requires k < NUM_AVATARS && (SeeingBut(grid, t, k) || SeeingBut(grid, t, -1))
    requires (now.rows, now.cols) == (grid.rows, grid.cols) && now.Sees(q.Spot(), q.gaze)
    ensures SeeingBut(now, t[k := Some(q)], -1)
  {
    forall i | 0 <= i < NUM_AVATARS && i != k && t[i].Some? ensures now.Sees(t[i].value.Spot(), t[i].value.gaze) {
      assert grid.Sees(t[i].value.Spot(), t[i].value.gaze);
    }
  }

  lemma SameSizeSees(grid: Grid, now: Grid, t: Table, k: nat, at: Pos, gaze: Direction)
    requires SeeingBut(grid, t, -1) && grid.Sees(at, gaze) && (now.rows, now.cols) == (grid.rows, grid.cols)
    ensures SeeingBut(now, t, k) && now.Sees(at, gaze)
  {
    forall i | 0 <= i < NUM_AVATARS && t[i].Some? ensures now.Sees(t[i].value.Spot(), t[i].value.gaze) {
      assert grid.Sees(t[i].value.Spot(), t[i].value.gaze);
    }
  }

  /** The game after player k has gone one step in direction `heading`. */
  function Stepped(g: Game, k: nat, heading: Direction): Game
    requires g.Present(k)
  {
    var p := g.Player(k);
    var moved := g.grid.Move(p.Spot(), heading).0;
    Game(moved, EachUpdated(moved, g.table[k := Some(p.(row := p.row + Dr(heading), col := p.col + Dc(heading)))]))
  }

  /** What a move does when its player is located, and that it still sees from where it arrives. */
  lemma MoveSees(g: Game, k: nat, dir: int)
    requires g.Present(k) && g.grid.Sees(g.Player(k).Spot(), g.Player(k).gaze)
    ensures var p := g.Player(k); var heading := if dir == 1 then p.gaze else Reverse(p.gaze);
            if g.grid.CanMove(p.Spot(), heading) then
              g.grid.Sees(Pos(p.row + Dr(heading), p.col + Dc(heading)), p.gaze) && g.Move(k, dir) == Stepped(g, k, heading)
            else g.Move(k, dir) == g
  {
    var p := g.Player(k);
    var heading := if dir == 1 then p.gaze else Reverse(p.gaze);
    var to := Pos(p.row + Dr(heading), p.col + Dc(heading));
    assert to == p.Spot().Ahead(heading, 1);
    if g.grid.CanMove(p.Spot(), heading) {
      Sight.StepStillSees(g.grid, p.Spot(), p.gaze, to);
    }
  }

  /** Who is not located does not move. */
  lemma LostStays(g: Game, k: nat, dir: int)
    requires g.Present(k) && !g.Located(k)
    ensures g.Move(k, dir) == g && forall d: Direction :: !g.grid.CanMove(g.Player(k).Spot(), d)
  {
  }

  /** A join is a login, READY and the first reset, and a logout when that found no room. */
  lemma JoinInSteps(g: Game, k: nat, name: Option<seq<Object>>, glass: Screen, draw: nat)
    requires k < NUM_AVATARS
    ensures var n := NewPlayer(k, name, glass);
            var placed := g.With(k, n).With(k, n.Send([Ready])).Reset(k, draw);
            && placed.Present(k)
            && g.Join(k, name, glass, draw) == (if placed.Player(k).phase == Ended then placed.Logout(k) else placed)
            && (g.Join(k, name, glass, draw).Present(k) <==> placed.Player(k).phase != Ended)
  {
    var n := NewPlayer(k, name, glass);
    assert g.table[k := Some(n)][k := Some(n.Send([Ready]))] == g.table[k := Some(n.Send([Ready]))];
  }

  /** The table of players over one maze. */
  class PlayerTable {
    const maze: Maze
    const players: array<Player?>

    constructor (maze: Maze)
      requires maze.Valid()
      ensures Valid() && this.maze == maze && fresh(players) && Abs() == Start(maze.grid)
    {
      this.maze := maze;
      players := new Player?[NUM_AVATARS](_ => null);
    }

    ghost function Objects(): set<object>
      reads players
    {
      set p: Player | p in players[..]
    }

    ghost predicate Valid()
      reads this, maze, maze.cells, players, Objects()
    {
      && maze.Valid() && players.Length == NUM_AVATARS
      && (forall i, j :: 0 <= i < j < NUM_AVATARS && players[i] != null ==> players[i] != players[j])
      && (forall i :: 0 <= i < NUM_AVATARS && players[i] != null ==>
            players[i].Valid() && players[i].avatar == 65 + i && players[i].refcount >= 1)
    }

    ghost function SlotAt(i: nat): Slot
      requires i < players.Length
      reads players, players[i]
    {
      if players[i] == null then None else Some(players[i].State())
    }

    ghost function Table(): Table
      requires players.Length == NUM_AVATARS
      reads players, Objects()
    {
      seq(NUM_AVATARS, i requires 0 <= i < players.Length reads players, Objects() => SlotAt(i))
    }

    /** The game that the objects represent. */
    ghost function Abs(): Game
      requires players.Length == NUM_AVATARS
      reads maze, players, Objects()
    {
      Game(maze.grid, Table())
    }

    /** Every player's view stays in the maze, slot `except`'s perhaps not. */
    ghost predicate Seeing(except: int)
      requires players.Length == NUM_AVATARS
      reads maze, players, Objects()
    {
      SeeingBut(maze.grid, Table(), except)
    }

    /** Object p serves slot k. */
    ghost predicate Holds(k: nat, p: Player)
      reads players
    {
      k < players.Length && players[k] == p
    }

    /** Compared with table t only the record of slot k has changed. */
    lemma OnlySlot(t: Table, k: nat, p: Player)
      requires players.Length == NUM_AVATARS && Holds(k, p)
      requires forall j :: 0 <= j < NUM_AVATARS && j != k ==> SlotAt(j) == t[j]
      ensures Table() == t[k := Some(p.State())]
    {
      assert SlotAt(k) == Some(p.State());
    }

    // ---- loops over the table ----

    /** One turn of that loop. */
    method UpdateSlot(i: nat)
      requires Valid() && i < NUM_AVATARS && (SlotAt(i).Some? ==> maze.grid.Sees(SlotAt(i).value.Spot(), SlotAt(i).value.gaze))
      modifies Objects()
      ensures Valid() && SlotAt(i) == UpdatedSlot(maze.grid, old(SlotAt(i)))
      ensures forall j :: 0 <= j < NUM_AVATARS && j != i ==> SlotAt(j) == old(SlotAt(j))
    {
      var p := players[i];
      if p != null {
        p.UpdateView(maze);
      }
    }

    /** The loop that updates everyone's view. */
    method UpdateEveryone()
      requires Valid() && Seeing(-1)
      modifies Objects()
      ensures Valid() && Table() == EachUpdated(maze.grid, old(Table()))
    {
      ghost var table := Table();
      for i := 0 to NUM_AVATARS
        invariant Valid()
        invariant forall j :: 0 <= j < i ==> SlotAt(j) == UpdatedSlot(maze.grid, table[j])
        invariant forall j :: i <= j < NUM_AVATARS ==> SlotAt(j) == table[j]
      {
        UpdateSlot(i);
      }
    }

    /** One turn of that loop. */
    method RedrawSlot(i: nat)
      requires Valid() && i < NUM_AVATARS && (SlotAt(i).Some? ==> maze.grid.Sees(SlotAt(i).value.Spot(), SlotAt(i).value.gaze))
      modifies Objects()
      ensures Valid() && SlotAt(i) == RefreshedSlot(maze.grid, old(SlotAt(i)))
      ensures forall j :: 0 <= j < NUM_AVATARS && j != i ==> SlotAt(j) == old(SlotAt(j))
    {
      var p := players[i];
      if p != null {
        p.Redraw(maze);
      }
    }

    /** The loop that redraws everyone's view in full. */
    method RefreshEveryone()
      requires Valid() && Seeing(-1)
      modifies Objects()
      ensures Valid() && Table() == EachRefreshed(maze.grid, old(Table()))
    {
      ghost var table := Table();
      for i := 0 to NUM_AVATARS
        invariant Valid()
        invariant forall j :: 0 <= j < i ==> SlotAt(j) == RefreshedSlot(maze.grid, table[j])
        invariant forall j :: i <= j < NUM_AVATARS ==> SlotAt(j) == table[j]
      {
        RedrawSlot(i);
      }
    }

    /** The loop that sends one packet to everyone but `except`. */
    method Broadcast(pkt: Packet, except: Player?, ghost slot: int)
      requires Valid() && (if except == null then slot == -1 else 0 <= slot && Holds(slot, except))
      modifies Objects()
      ensures Valid() && Table() == EachSent(old(Table()), pkt, slot)
    {
      for i := 0 to NUM_AVATARS
        invariant Valid()
        invariant forall j :: 0 <= j < NUM_AVATARS ==>
                    SlotAt(j) == if j < i && j != slot then SentSlot(old(SlotAt(j)), pkt) else old(SlotAt(j))
      {
        var p := players[i];
        if p != null && p != except {
          assert SlotAt(i) == old(SlotAt(i));
          p.SendPacket(pkt);
        }
      }
    }

    /** The loop that sends the scores of everyone to one player. */
    method TellScores(p: Player, ghost k: nat)
      requires Valid() && Holds(k, p)
      modifies p`sent
      ensures Valid()
      ensures Table() == old(Table())[k := Some(old(p.State()).Send(ScoreList(old(Table()), 0)))]
    {
      ghost var table := Table();
      ghost var total := p.sent + ScoreList(table, 0);
      var i := 0;
      while i < NUM_AVATARS
        invariant i <= NUM_AVATARS && Valid()
        invariant p.State() == old(p.State()).(sent := p.sent)
        invariant forall j :: 0 <= j < NUM_AVATARS && j != k ==> SlotAt(j) == table[j]
        invariant p.sent + ScoreList(table, i) == total
      {
        var q := players[i];
        ghost var rest := ScoreList(table, i + 1);
        if q != null {
          assert table[i].Some? && q.State().ScorePacket() == table[i].value.ScorePacket();
          var pkt := Score(q.avatar, ToInt8(q.score));
          assert ScoreList(table, i) == [pkt] + rest;
          assert p.sent + ([pkt] + rest) == (p.sent + [pkt]) + rest;
          p.SendPacket(pkt);
        } else {
          assert ScoreList(table, i) == rest;
        }
        i := i + 1;
      }
      assert p.sent + [] == p.sent == total;
      assert SlotAt(k) == Some(old(p.State()).Send(ScoreList(table, 0)));
    }

    // ---- references ----

    /** player_get */
    method Get(avatar: Object) returns (p: Player?)
      requires Valid()
      modifies Objects()
      ensures Valid()
      ensures p == if IsAvatar(avatar) then players[avatar - 65] else null
      ensures Table() == if p == null then old(Table())
                         else old(Table())[avatar - 65 := Some(old(p.State()).(refs := old(p.refcount) + 1))]
    {
      if !IsAvatar(avatar) {
        return null;
      }
      p := players[avatar - 65];
      if p != null {
        p.refcount := p.refcount + 1;
        assert SlotAt(avatar - 65) == Some(p.State());
      }
    }

    /** player_unref; the last reference frees the record, after slot k has been cleared (once
        more, when a logout has cleared it before). */
    method Unref(p: Player, ghost k: nat)
      requires players.Length == NUM_AVATARS && k < NUM_AVATARS && p.avatar == 65 + k && p.refcount >= 1
      requires Valid() && (players[k] == p || (players[k] == null && p !in players[..]))
      modifies p`refcount, players
      ensures Valid()
      ensures p.State() == old(p.State()).(refs := old(p.refcount) - 1)
      ensures Table() == old(Table())[k := if old(p.refcount) == 1 || old(players[k]) == null then None
                                           else Some(old(p.State()).(refs := old(p.refcount) - 1))]
      ensures players[..] == if old(p.refcount) == 1 then old(players[..])[k := null] else old(players[..])
      ensures fresh(Objects() - old(Objects()))
    {
      p.refcount := p.refcount - 1;
      if p.refcount == 0 {
        players[p.avatar - 65] := null;
      }
      assert forall j :: 0 <= j < NUM_AVATARS && j != k ==> SlotAt(j) == old(SlotAt(j));
    }

    method ClearSlot(p: Player, ghost k: nat)
      requires Valid() && Holds(k, p)
      modifies players
      ensures Valid() && Table() == old(Table())[k := None]
      ensures players[..] == old(players[..])[k := null]
      ensures p !in players[..]
      ensures fresh(Objects() - old(Objects()))
    {
      players[p.avatar - 65] := null;
      assert forall j :: 0 <= j < NUM_AVATARS && j != k ==> SlotAt(j) == old(SlotAt(j));
    }

    // ---- joining and leaving ----

    /** The letter player_login settles on, or 0. */
    method ChooseAvatar(avatar: Object, name: Option<seq<Object>>) returns (realAvatar: Object)
      requires Valid() && ValidLogin(avatar, name)
      ensures realAvatar == match ChooseSlot(old(Table()), avatar, name) case None => 0 case Some(k) => 65 + k
      ensures IsAvatar(realAvatar) ==> players[realAvatar - 65] == null
    {
      var requested := ToUpper(avatar);
      ghost var table := Table();
      if IsAvatar(requested) && players[requested - 65] == null {
        assert table[requested - 65] == SlotAt(requested - 65);
        return requested;
      }
      assert !FreeLetter(table, requested);
      var first := if name.Some? && name.value != [] then name.value[0] else 0;
      if IsAvatar(first) && players[first - 65] == null {
        assert table[first - 65] == SlotAt(first - 65);
        return first;
      }
      assert !FreeLetter(table, first);
      var i := 0;
      while i < NUM_AVATARS && players[i] != null
        invariant i <= NUM_AVATARS && LeastFree(table, 0) == LeastFree(table, i)
      {
        assert table[i] == SlotAt(i);
        i := i + 1;
      }
      assert i < NUM_AVATARS ==> table[i] == SlotAt(i);
      realAvatar := if i < NUM_AVATARS then 65 + i else 0;
    }

    /** A fresh record takes the free slot of its letter. */
    method Seat(realAvatar: Avatar, name: Option<seq<Object>>, ghost glass: Screen) returns (p: Player)
      requires Valid() && players[realAvatar - 65] == null
      modifies players
      ensures Valid() && fresh(p) && p.avatar == realAvatar
      ensures players[..] == old(players[..])[realAvatar - 65 := p]
      ensures Table() == old(Table())[realAvatar - 65 := Some(NewPlayer(realAvatar - 65, name, glass))]
      ensures fresh(Objects() - old(Objects()))
    {
      p := new Player(realAvatar, name, glass);
      players[realAvatar - 65] := p;
      OnlySlot(old(Table()), realAvatar - 65, p);
    }

    /** player_login */
    method LogIn(avatar: Object, name: Option<seq<Object>>, ghost glass: Screen) returns (p: Player?)
      requires Valid()
      modifies players
      ensures Valid()
      ensures match ChooseSlot(old(Table()), avatar, name)
              case None => p == null && players[..] == old(players[..]) && Table() == old(Table())
              case Some(k) =>
                && p != null && fresh(p) && p.avatar == 65 + k
                && players[..] == old(players[..])[k := p]
                && Table() == old(Table())[k := Some(NewPlayer(k, name, glass))]
      ensures fresh(Objects() - old(Objects()))
    {
      if name.Some? && name.value != [] && !IsAvatar(name.value[0]) {
        return null;
      }
      if avatar != 0 && !IsAvatar(avatar) && !IsLower(avatar) {
        return null;
      }
      ghost var slot := ChooseSlot(Table(), avatar, name);
      var realAvatar := ChooseAvatar(avatar, name);
      assert realAvatar == if slot.None? then 0 else 65 + slot.value;
      if !IsAvatar(realAvatar) {
        return null;
      }
      p := Seat(realAvatar, name, glass);
    }

    /** The avatar of p leaves the maze, as the first step of a logout, a reset and a hit. */
    method Vacate(p: Player, ghost k: nat) returns (found: bool)
      requires Valid() && Holds(k, p)
      modifies maze`grid, maze.cells
      ensures Valid() && Table() == old(Table())
      ensures found == old(Abs()).Located(k) && maze.grid == old(Abs()).Unplaced(k)
    {
      var row, col, dir;
      found, row, col, dir := p.GetLocation(maze);
      if found {
        maze.RemovePlayer(p.avatar, row, col);
      }
    }

    /** Vacate, and show everyone. */
    method Vanish(p: Player, ghost k: nat)
      requires Valid() && Holds(k, p) && (Abs().Located(k) ==> Seeing(-1))
      modifies Objects(), maze`grid, maze.cells
      ensures Valid() && maze.grid == old(Abs()).Unplaced(k)
      ensures Table() == if old(Abs()).Located(k) then EachUpdated(maze.grid, old(Table())) else old(Table())
    {
      ghost var g := Abs();
      assert g.table[k] == Some(p.State());
      var found := Vacate(p, k);
      if found {
        assert g.table[k := Some(p.State())] == g.table;
        SeeingAfter(g.grid, maze.grid, g.table, k, p.State());
        UpdateEveryone();
      }
    }

    /** player_logout; a reference that another thread still holds keeps the record, but not the slot. */
    method LogOut(p: Player, ghost k: nat)
      requires Valid() && Holds(k, p) && (Abs().Located(k) ==> Seeing(-1))
      modifies players, Objects(), maze`grid, maze.cells
      ensures Valid() && Abs() == old(Abs()).Logout(k)
      ensures fresh(Objects() - old(Objects()))
    {
      ghost var g := Abs();
      assert g.table[k] == Some(p.State());
      Vanish(p, k);
      ghost var shown := Table();
      assert shown[k].Some? && shown[k].value.avatar == p.avatar;
      Broadcast(Score(p.avatar, -1), p, k);
      assert Table() == EachSent(shown, Score(p.avatar, -1), k) && Table()[k] == Some(p.State());
      ClearSlot(p, k);
      Unref(p, k);
    }

    /** The second half of player_reset: p has a new place; draw it for everyone and exchange scores. */
    method Announce(p: Player, ghost k: nat)
      requires Valid() && Holds(k, p) && Seeing(-1)
      modifies Objects()
      ensures Valid() && Table() == Announced(maze.grid, old(Table()), k)
    {
      ghost var table := Table();
      assert table[k] == Some(p.State());
      RefreshEveryone();
      ghost var shown := EachRefreshed(maze.grid, table);
      assert shown[k] == Some(p.State());
      TellScores(p, k);
      ghost var told := shown[k := Some(shown[k].value.Send(ScoreList(shown, 0)))];
      assert told[k] == Some(p.State()) && p.State().ScorePacket() == table[k].value.ScorePacket();
      Broadcast(Score(p.avatar, ToInt8(p.score)), p, k);
    }

    /** p is placed at (row, col) and awake. */
    method Settle(p: Player, ghost k: nat, row: int, col: int)
      requires Valid() && Holds(k, p)
      modifies p`row, p`col, p`phase
      ensures Valid() && old(Table())[k] == Some(old(p.State()))
      ensures Table() == old(Table())[k := Some(old(p.State()).(row := row, col := col, phase := Active))]
    {
      p.row := row;
      p.col := col;
      p.phase := Active;
    }

    /** p has found no place: its session is over. */
    method GiveUp(p: Player, ghost k: nat)
      requires Valid() && Holds(k, p)
      modifies p`phase
      ensures Valid() && old(Table())[k] == Some(old(p.State()))
      ensures Table() == old(Table())[k := Some(old(p.State()).(phase := Ended))]
    {
      p.phase := Ended;
    }

    /** The first half of player_reset: p leaves its place and gets a random new one; when there is
        none its session is over. */
    method TryPlace(p: Player, ghost k: nat, draw: nat) returns (placed: bool)
      requires Valid() && Holds(k, p)
      modifies p`row, p`col, p`phase, maze`grid, maze.cells
      ensures Valid()
      ensures var bare := old(Abs()).Unplaced(k); var q := old(p.State());
              match bare.RandomSpot(draw)
              case None => !placed && maze.grid == bare && Table() == old(Table())[k := Some(q.(phase := Ended))]
              case Some(spot) =>
                && placed && maze.grid == bare.Put(spot, q.avatar)
                && Table() == old(Table())[k := Some(q.(row := spot.row, col := spot.col, phase := Active))]
    {
      var found := Vacate(p, k);
      var result, row, col := maze.SetPlayerRandom(p.avatar, draw, p.row, p.col);
      placed := result == 0;
      if placed {
        Settle(p, k, row, col);
      } else {
        GiveUp(p, k);
      }
    }

    /** player_reset; when the draw finds a place, p and all others must see from where they are. */
    method Reset(p: Player, ghost k: nat, draw: nat)
      requires Valid() && Holds(k, p)
      requires var spot := Abs().Unplaced(k).RandomSpot(draw);
               spot.Some? ==> Seeing(k) && maze.grid.Sees(spot.value, p.gaze)
      modifies Objects(), maze`grid, maze.cells
      ensures Valid() && Abs() == old(Abs()).Reset(k, draw)
    {
      ghost var g := Abs();
      assert g.table[k] == Some(p.State());
      var placed := TryPlace(p, k, draw);
      if placed {
        ghost var spot := g.Unplaced(k).RandomSpot(draw).value;
        SeeingAfter(g.grid, maze.grid, g.table, k, g.Player(k).(row := spot.row, col := spot.col, phase := Active));
        Announce(p, k);
      }
    }

    /** READY and the first reset of a player just logged in; without room it is logged out. */
    method Enter(p: Player, ghost k: nat, draw: nat) returns (ended: bool)
      requires Valid() && Holds(k, p) && p.State().Spot() == Pos(-1, -1)
      requires var spot := maze.grid.RandomSpot(draw);
               spot.Some? ==> Seeing(k) && maze.grid.Sees(spot.value, p.gaze)
      modifies players, Objects(), maze`grid, maze.cells
      ensures Valid()
      ensures var placed := old(Abs()).With(k, old(p.State()).Send([Ready])).Reset(k, draw);
              && ended == (placed.table[k].value.phase == Ended)
              && Abs() == if ended then placed.Logout(k) else placed
      ensures fresh(Objects() - old(Objects()))
    {
      ghost var g := Abs();
      ghost var q := p.State().Send([Ready]);
      p.SendPacket(Ready);
      OnlySlot(g.table, k, p);
      assert Abs() == g.With(k, q) && Abs().Unplaced(k) == g.grid;
      Reset(p, k, draw);
      ghost var placed := g.With(k, q).Reset(k, draw);
      assert placed.table[k] == Some(p.State());
      ended := p.phase == Ended;
      if ended {
        assert placed.table[k] == Some(q.(phase := Ended));
        LogOut(p, k);
      }
    }

    /** The rest of a join, once the record has its slot; g is the game before. */
    method Admit(p: Player, ghost k: nat, name: Option<seq<Object>>, ghost glass: Screen, draw: nat, ghost g: Game)
        returns (ended: bool)
      requires Valid() && Holds(k, p) && p.State() == NewPlayer(k, name, glass) && Abs() == g.With(k, p.State())
      requires var spot := maze.grid.RandomSpot(draw);
               spot.Some? ==> Seeing(k) && maze.grid.Sees(spot.value, EAST)
      modifies players, Objects(), maze`grid, maze.cells
      ensures Valid() && Abs() == g.Join(k, name, glass, draw) && (ended <==> !Abs().Present(k))
      ensures fresh(Objects() - old(Objects()))
    {
      JoinInSteps(g, k, name, glass, draw);
      ended := Enter(p, k, draw);
    }

    /** A LOGIN packet up to the point where the session waits for its next packet. */
    method Join(avatar: Object, name: Option<seq<Object>>, ghost glass: Screen, draw: nat) returns (p: Player?, ended: bool)
      requires Valid()
      requires var spot := maze.grid.RandomSpot(draw);
               ChooseSlot(Table(), avatar, name).Some? && spot.Some? ==> Seeing(-1) && maze.grid.Sees(spot.value, EAST)
      modifies players, Objects(), maze`grid, maze.cells
      ensures Valid()
      ensures match ChooseSlot(old(Table()), avatar, name)
              case None => p == null && Abs() == old(Abs())
              case Some(k) =>
                && p != null && p.avatar == 65 + k
                && Abs() == old(Abs()).Join(k, name, glass, draw) && (ended <==> !Abs().Present(k))
      ensures fresh(Objects() - old(Objects()))
    {
      ghost var g := Abs();
      p := LogIn(avatar, name, glass);
      ended := false;
      if p != null {
        ghost var k := p.avatar - 65;
        assert Table()[k] == Some(p.State()) && Abs() == g.With(k, p.State());
        ended := Admit(p, k, name, glass, draw, g);
      }
    }

    // ---- playing ----

    /** p has moved to (row, col) in the maze; record it and show everyone. */
    method Arrive(p: Player, ghost k: nat, row: int, col: int)
      requires Valid() && Holds(k, p) && maze.grid.Sees(Pos(row, col), p.gaze)
      requires SeeingBut(maze.grid, Table(), k)
      modifies Objects()
      ensures Valid()
      ensures Table() == EachUpdated(maze.grid, old(Table())[k := Some(old(p.State()).(row := row, col := col))])
    {
      ghost var q := p.State().(row := row, col := col);
      p.row := row;
      p.col := col;
      OnlySlot(old(Table()), k, p);
      assert p.State() == q;
      SeeingAfter(maze.grid, maze.grid, old(Table()), k, q);
      UpdateEveryone();
    }

    /** The avatar of p tries one step in the maze. */
    method StepAvatar(p: Player, ghost k: nat, heading: Direction) returns (result: int)
      requires Valid() && Holds(k, p)
      modifies maze`grid, maze.cells
      ensures Valid() && Table() == old(Table()) && old(Table())[k] == Some(p.State())
      ensures result == 0 <==> old(maze.grid).CanMove(p.State().Spot(), heading)
      ensures maze.grid == if result == 0 then old(maze.grid).Move(p.State().Spot(), heading).0 else old(maze.grid)
      ensures (maze.grid.rows, maze.grid.cols) == old((maze.grid.rows, maze.grid.cols))
    {
      result := maze.Move(p.row, p.col, heading);
      assert SlotAt(k) == Table()[k];
    }

    /** The maze has carried p one step on, from game g; the record and the views follow. */
    method RecordStep(p: Player, ghost k: nat, heading: Direction, ghost g: Game)
      requires Valid() && Holds(k, p) && g.Present(k) && Table() == g.table && p.State() == g.Player(k)
      requires maze.grid == g.grid.Move(p.State().Spot(), heading).0 && SeeingBut(maze.grid, g.table, k)
      requires maze.grid.Sees(Pos(p.row + Dr(heading), p.col + Dc(heading)), p.gaze)
      modifies Objects()
      ensures Valid() && Abs() == Stepped(g, k, heading)
    {
      Arrive(p, k, p.row + Dr(heading), p.col + Dc(heading));
    }

    /** The part of player_move that tries one step in direction `heading`. */
    method Advance(p: Player, ghost k: nat, heading: Direction) returns (result: int)
      requires Valid() && Holds(k, p) && Seeing(-1)
      requires var q := p.State(); maze.grid.CanMove(q.Spot(), heading) ==>
                 maze.grid.Sees(Pos(q.row + Dr(heading), q.col + Dc(heading)), q.gaze)
      modifies Objects(), maze`grid, maze.cells
      ensures Valid()
      ensures result == 0 <==> old(maze.grid.CanMove(p.State().Spot(), heading))
      ensures Abs() == if result == 0 then Stepped(old(Abs()), k, heading) else old(Abs())
    {
      ghost var g := Abs();
      result := StepAvatar(p, k, heading);
      if result == 0 {
        SameSizeSees(g.grid, maze.grid, g.table, k, Pos(p.row + Dr(heading), p.col + Dc(heading)), p.gaze);
        RecordStep(p, k, heading, g);
      }
    }

    /** player_move once p is located. */
    method MoveLocated(p: Player, ghost k: nat, dir: int) returns (result: int)
      requires Valid() && Holds(k, p) && Seeing(-1)
      modifies Objects(), maze`grid, maze.cells
      ensures Valid() && Abs() == old(Abs()).Move(k, dir)
      ensures result == 0 <==> old(maze.grid.CanMove(p.State().Spot(), if dir == 1 then p.gaze else Reverse(p.gaze)))
    {
      assert Table()[k] == Some(p.State());
      MoveSees(Abs(), k, dir);
      result := Advance(p, k, if dir == 1 then p.gaze else Reverse(p.gaze));
    }

    /** player_move */
    method MovePlayer(p: Player, ghost k: nat, dir: int) returns (result: int)
      requires Valid() && Holds(k, p) && (Abs().Located(k) ==> Seeing(-1))
      modifies Objects(), maze`grid, maze.cells
      ensures Valid() && Abs() == old(Abs()).Move(k, dir)
      ensures result == 0 <==> old(maze.grid.CanMove(p.State().Spot(), if dir == 1 then p.gaze else Reverse(p.gaze)))
    {
      assert Table()[k] == Some(p.State());
      var found, row, col, gaze := p.GetLocation(maze);
      if !found {
        LostStays(Abs(), k, dir);
        return -1;
      }
      result := MoveLocated(p, k, dir);
    }

    /** player_rotate */
    method Rotate(p: Player, ghost k: nat, dir: int)
      requires Valid() && Holds(k, p)
      requires maze.grid.Sees(p.State().Spot(), if dir == 1 then TurnLeft(p.gaze) else TurnRight(p.gaze))
      modifies p
      ensures Valid() && Abs() == old(Abs()).Rotate(k, dir)
    {
      if dir == 1 {
        p.gaze := TurnLeft(p.gaze);
      } else {
        p.gaze := TurnRight(p.gaze);
      }
      p.Redraw(maze);
      OnlySlot(old(Table()), k, p);
    }

    /** A REFRESH packet. */
    method Refresh(p: Player, ghost k: nat)
      requires Valid() && Holds(k, p) && maze.grid.Sees(p.State().Spot(), p.gaze)
      modifies p
      ensures Valid() && Abs() == old(Abs()).Refresh(k)
    {
      p.Redraw(maze);
      OnlySlot(old(Table()), k, p);
    }

    /** The signal to the struck player's thread raises its flag. */
    method Signal(victim: Player, ghost k: nat)
      requires Valid() && Holds(k, victim)
      modifies victim`hitPending
      ensures Valid() && victim.State() == old(victim.State()).(hit := true)
      ensures old(Table())[k] == Some(old(victim.State())) && Table() == old(Table())[k := Some(victim.State())]
    {
      victim.hitPending := true;
      OnlySlot(old(Table()), k, victim);
    }

    /** The struck player is looked up, signalled and released again. */
    method Strike(a: Avatar)
      requires Valid()
      modifies players, Objects()
      ensures Valid() && Abs() == old(Abs()).Struck(a) && players[..] == old(players[..])
      ensures fresh(Objects() - old(Objects()))
    {
      ghost var t := Table();
      ghost var k := a - 65;
      assert t[k] == SlotAt(k);
      var victim := Get(a);
      if victim != null {
        Signal(victim, k);
        Unref(victim, k);
        assert Table() == t[k := Some(t[k].value.(hit := true))];
      }
    }

    /** p has one point more. */
    method AddPoint(p: Player, ghost k: nat)
      requires Valid() && Holds(k, p)
      modifies p`score
      ensures Valid() && p.State() == old(p.State()).(score := old(p.score) + 1)
      ensures old(Table())[k] == Some(old(p.State())) && Table() == old(Table())[k := Some(p.State())]
    {
      p.score := p.score + 1;
      OnlySlot(old(Table()), k, p);
    }

    /** p scores a point and everyone is told. */
    method ScorePoint(p: Player, ghost k: nat)
      requires Valid() && Holds(k, p)
      modifies Objects()
      ensures Valid() && Abs() == old(Abs()).Point(k)
    {
      AddPoint(p, k);
      assert Score(p.avatar, ToInt8(p.score)) == p.State().ScorePacket();
      Broadcast(Score(p.avatar, ToInt8(p.score)), null, -1);
    }

    /** player_fire_laser; the signal raises the flag of the struck player. */
    method FireLaser(p: Player, ghost k: nat)
      requires Valid() && Holds(k, p)
      modifies players, Objects()
      ensures Valid() && Abs() == old(Abs()).Fire(k)
      ensures fresh(Objects() - old(Objects()))
    {
      ghost var g := Abs();
      assert Table()[k] == Some(p.State());
      var found, row, col, dir := p.GetLocation(maze);
      if !found {
        return;
      }
      var target := maze.FindTarget(row, col, p.gaze);
      if IsAvatar(target) {
        Strike(target);
        assert Abs() == g.Struck(target) && Holds(k, p);
        ScorePoint(p, k);
      }
    }

    /** p is told and goes to sleep. */
    method Freeze(p: Player, ghost k: nat)
      requires Valid() && Holds(k, p)
      modifies p`sent, p`phase
      ensures Valid() && Table() == old(Table())[k := Some(old(p.State()).Send([Alert]).(phase := Frozen))]
      ensures old(Table())[k] == Some(old(p.State()))
    {
      p.SendPacket(Alert);
      p.phase := Frozen;
      OnlySlot(old(Table()), k, p);
    }

    /** The hit flag of p comes down. */
    method Unhit(p: Player, ghost k: nat)
      requires Valid() && Holds(k, p)
      modifies p`hitPending
      ensures Valid() && p.State() == old(p.State()).(hit := false)
      ensures old(Table())[k] == Some(old(p.State())) && Table() == old(Table())[k := Some(p.State())]
    {
      p.hitPending := false;
      OnlySlot(old(Table()), k, p);
    }

    /** player_check_for_laser_hit, up to the sleep. */
    method CheckForLaserHit(p: Player, ghost k: nat)
      requires Valid() && Holds(k, p) && (p.hitPending && Abs().Located(k) ==> Seeing(-1))
      modifies Objects(), maze`grid, maze.cells
      ensures Valid() && Abs() == old(Abs()).TakeHit(k)
    {
      ghost var g := Abs();
      assert g.table[k] == Some(p.State());
      if p.hitPending {
        Unhit(p, k);
        ghost var unhit := Table();
        if g.Located(k) {
          SeeingAfter(g.grid, g.grid, g.table, k, p.State());
        }
        Vanish(p, k);
        assert maze.grid == g.Unplaced(k);
        assert Table() == if g.Located(k) then EachUpdated(maze.grid, unhit) else unhit;
        Freeze(p, k);
      }
    }

    /** player_send_chat */
    method SendChat(p: Player, ghost k: nat, msg: seq<Object>)
      requires Valid() && Holds(k, p)
      modifies Objects()
      ensures Valid() && Abs() == old(Abs()).Say(k, msg)
    {
      var letter: Object := p.avatar;
      var tag: seq<Object> := [91, letter, 93, 32];
      var buf := p.name + tag + msg;
      Broadcast(Chat(buf[..|buf| % 65536]), null, -1);
    }
  }
}
