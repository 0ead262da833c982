/** What holds after every atomic step of the server, whatever the clients send. */
module GameRuns {
  import opened Compass
  import opened Grids
  import opened Display
  import opened Games
  import opened MazeRuns

  // ---- the invariant ----

  /** The client's screen is the padded view from its player's recorded location. */
  ghost predicate InSync(grid: Grid, p: PlayerState) {
    && p.prev == Some(p.SeenIn(grid))
    && p.Screen() == Pad(p.SeenIn(grid))
  }

  function Entry(s: Slot): int {
    if s.None? then -1 else ToInt8(s.value.score)
  }

  /** The client's scoreboard lists exactly the players in the table. */
  ghost predicate BoardOk(t: Table, b: Board) {
    forall j :: 0 <= j < NUM_AVATARS ==> b[j] == Entry(t[j])
  }

  /** The same, but entry k may be anything. */
  ghost predicate BoardOkBut(t: Table, k: nat, b: Board) {
    forall j :: 0 <= j < NUM_AVATARS && j != k ==> b[j] == Entry(t[j])
  }

  /** What slot i's scoreboard must be before slot k is announced: k's own client need only show
      nobody who has gone, the others everyone but k. */
  ghost predicate BoardBefore(t: Table, k: nat, i: nat, b: Board) {
    if i == k then forall j :: 0 <= j < NUM_AVATARS && t[j].None? ==> b[j] == -1 else BoardOkBut(t, k, b)
  }

  /** A record that matches the maze: an active player's avatar is at its recorded place. */
  ghost predicate PlaceOk(grid: Grid, k: nat, p: PlayerState) {
    && p.avatar == 65 + k && p.refs == 1
    && grid.Interior(p.Spot())
    && (p.phase == Active ==> grid.At(p.Spot()) == p.avatar)
  }

  /** Every avatar in the maze belongs to an active player recorded there. */
  ghost predicate AvatarsOk(grid: Grid, t: Table) {
    forall q :: grid.InBounds(q) && IsAvatar(grid.At(q)) ==>
      var s := t[grid.At(q) - 65]; s.Some? && s.value.phase == Active && s.value.Spot() == q
  }

  ghost predicate Placed(grid: Grid, t: Table) {
    && (forall k :: 0 <= k < NUM_AVATARS && t[k].Some? ==> PlaceOk(grid, k, t[k].value))
    && AvatarsOk(grid, t)
  }

  ghost predicate Synced(grid: Grid, t: Table) {
    forall k :: 0 <= k < NUM_AVATARS && t[k].Some? ==> InSync(grid, t[k].value)
  }

  ghost predicate Scored(t: Table) {
    forall k :: 0 <= k < NUM_AVATARS && t[k].Some? ==> BoardOk(t, t[k].value.Board())
  }

  ghost predicate Inv(template: Grid, g: Game) {
    && template.SolidBorder() && SameWalls(template, g.grid)
    && Placed(g.grid, g.table) && Synced(g.grid, g.table) && Scored(g.table)
  }

  // ---- one player's packets ----

  /** The screen can take an incremental update. */
  ghost predicate Ready4Update(p: PlayerState) {
    ScreenShows(p.Screen(), p.prev)
  }

  lemma UpdateSyncs(grid: Grid, p: PlayerState)
    requires Ready4Update(p)
    ensures InSync(grid, p.Updated(grid))
    ensures p.Updated(grid).Board() == p.Board()
  {
    var ps := UpdatePackets(p.SeenIn(grid), p.prev);
    UpdateShowsTheView(p.Screen(), p.SeenIn(grid), p.prev);
    DrawAllAppends(p.glass, p.sent, ps);
    TallyAllAppends(EmptyBoard(), p.sent, ps);
    UpdatesKeepBoard(p.Board(), p.SeenIn(grid), p.prev);
    assert p.Updated(grid).SeenIn(grid) == p.SeenIn(grid);
  }

  lemma SendKeepsScreen(p: PlayerState, ps: seq<Packet>)
    requires forall x :: x in ps ==> !x.Clear? && !x.Show?
    ensures p.Send(ps).Screen() == p.Screen()
  {
    DrawAllAppends(p.glass, p.sent, ps);
    OtherPacketsKeepScreen(p.Screen(), ps);
  }

  lemma SendTallies(p: PlayerState, ps: seq<Packet>)
    ensures p.Send(ps).Board() == TallyAll(p.Board(), ps)
  {
    TallyAllAppends(EmptyBoard(), p.sent, ps);
  }

  lemma SendOne(p: PlayerState, x: Packet)
    requires !x.Clear? && !x.Show?
    ensures p.Send([x]).Screen() == p.Screen()
    ensures p.Send([x]).Board() == Tally(p.Board(), x)
  {
    SendKeepsScreen(p, [x]);
    SendTallies(p, [x]);
    assert TallyAll(p.Board(), [x]) == TallyAll(Tally(p.Board(), x), [x][1..]);
  }

  // ---- the whole table ----

  /** Two tables list the same players, differing at most in what their clients were sent. */
  ghost predicate SameRecords(t: Table, u: Table) {
    forall i :: 0 <= i < NUM_AVATARS ==>
      && t[i].Some? == u[i].Some?
      && (t[i].Some? ==> u[i].value == t[i].value.(prev := u[i].value.prev, sent := u[i].value.sent))
  }

  lemma SameRecordsSameEntries(t: Table, u: Table)
    requires SameRecords(t, u)
    ensures forall b: Board :: BoardOk(t, b) <==> BoardOk(u, b)
  {
    assert forall j :: 0 <= j < NUM_AVATARS ==> Entry(t[j]) == Entry(u[j]);
  }

  /** Only the fields that say who and where decide whether records match the maze. */
  lemma SameRecordsStayPlaced(grid: Grid, t: Table, u: Table)
    requires Placed(grid, t) && SameRecords(t, u)
    ensures Placed(grid, u)
  {
  }

  /** All clients can take an incremental update. */
  ghost predicate AllReady(t: Table) {
    forall k :: 0 <= k < NUM_AVATARS && t[k].Some? ==> Ready4Update(t[k].value)
  }

  /** Updating everyone after a change of the maze. */
  lemma UpdatedTable(grid: Grid, t: Table)
    requires AllReady(t)
    ensures Synced(grid, EachUpdated(grid, t)) && SameRecords(t, EachUpdated(grid, t))
    ensures Scored(t) ==> Scored(EachUpdated(grid, t))
    ensures Placed(grid, t) ==> Placed(grid, EachUpdated(grid, t))
  {
    var u := EachUpdated(grid, t);
    forall k | 0 <= k < NUM_AVATARS && t[k].Some?
      ensures InSync(grid, u[k].value) && u[k].value.Board() == t[k].value.Board()
    {
      UpdateSyncs(grid, t[k].value);
    }
    SameRecordsSameEntries(t, u);
    if Placed(grid, t) {
      SameRecordsStayPlaced(grid, t, u);
    }
  }

  /** A broadcast that is not about the view keeps screens and tallies boards. */
  lemma SentTable(grid: Grid, t: Table, x: Packet, except: int)
    requires !x.Clear? && !x.Show?
    ensures SameRecords(t, EachSent(t, x, except))
    ensures Synced(grid, t) ==> Synced(grid, EachSent(t, x, except))
    ensures forall k :: 0 <= k < NUM_AVATARS && t[k].Some? ==>
              EachSent(t, x, except)[k].value.Board() ==
              if k == except then t[k].value.Board() else Tally(t[k].value.Board(), x)
    ensures Placed(grid, t) ==> Placed(grid, EachSent(t, x, except))
  {
    var u := EachSent(t, x, except);
    forall k | 0 <= k < NUM_AVATARS && t[k].Some?
      ensures u[k].value.Screen() == t[k].value.Screen()
      ensures u[k].value.Board() == if k == except then t[k].value.Board() else Tally(t[k].value.Board(), x)
    {
      SendOne(t[k].value, x);
    }
    if Placed(grid, t) {
      SameRecordsStayPlaced(grid, t, u);
    }
  }

  /** The list of all scores sets exactly the entries of the players from slot i on. */
  lemma {:induction false} ScoreListTallies(t: Table, b: Board, i: nat)
    requires i <= NUM_AVATARS
    requires forall k :: 0 <= k < NUM_AVATARS && t[k].Some? ==> t[k].value.avatar == 65 + k
    ensures forall j :: 0 <= j < NUM_AVATARS ==>
              TallyAll(b, ScoreList(t, i))[j] == if j >= i && t[j].Some? then Entry(t[j]) else b[j]
    decreases |t| - i
  {
    if i < NUM_AVATARS {
      if t[i].Some? {
        var x := t[i].value.ScorePacket();
        assert ScoreList(t, i)[1..] == ScoreList(t, i + 1);
        ScoreListTallies(t, Tally(b, x), i + 1);
      } else {
        ScoreListTallies(t, b, i + 1);
        assert ScoreList(t, i) == ScoreList(t, i + 1);
      }
    }
  }

  // ---- leaving the maze ----

  /** Slot k holds the right letter; its player need not be placed, or in sync, or known to others. */
  ghost predicate OthersOk(template: Grid, g: Game, k: nat)
    requires g.Present(k)
  {
    && template.SolidBorder() && SameWalls(template, g.grid)
    && g.Player(k).avatar == 65 + k && g.Player(k).refs == 1
    && (forall j :: 0 <= j < NUM_AVATARS && j != k && g.table[j].Some? ==> PlaceOk(g.grid, j, g.table[j].value))
    && AvatarsOk(g.grid, g.table)
    && (forall i :: 0 <= i < NUM_AVATARS && g.table[i].Some? ==> BoardBefore(g.table, k, i, g.table[i].value.Board()))
  }

  /** Everyone but slot k is where the table says, and k's avatar is not in the maze. */
  ghost predicate PlacedBut(grid: Grid, t: Table, k: nat)
    requires k < NUM_AVATARS
  {
    && (forall j :: 0 <= j < NUM_AVATARS && j != k && t[j].Some? ==> PlaceOk(grid, j, t[j].value))
    && AvatarsOk(grid, t) && Absent(grid, 65 + k)
  }

  /** An avatar has at most the one place its record gives. */
  lemma OnlyPlace(grid: Grid, t: Table, k: nat, q: Pos)
    requires k < NUM_AVATARS && t[k].Some? && AvatarsOk(grid, t)
    requires grid.InBounds(q) && grid.At(q) == 65 + k
    ensures q == t[k].value.Spot() && t[k].value.phase == Active
  {
    assert IsAvatar(grid.At(q));
  }

  /** A maze that differs only in that avatar k is gone. */
  lemma WithoutAvatar(grid: Grid, bare: Grid, t: Table, k: nat)
    requires k < NUM_AVATARS && AvatarsOk(grid, t) && (bare.rows, bare.cols) == (grid.rows, grid.cols)
    requires forall j :: 0 <= j < NUM_AVATARS && j != k && t[j].Some? ==> PlaceOk(grid, j, t[j].value)
    requires forall q :: bare.At(q) == if grid.At(q) == 65 + k then EMPTY else grid.At(q)
    ensures PlacedBut(bare, t, k)
  {
    forall q | bare.InBounds(q) && IsAvatar(bare.At(q))
      ensures var s := t[bare.At(q) - 65]; s.Some? && s.value.phase == Active && s.value.Spot() == q
    {
      assert grid.At(q) == bare.At(q);
    }
  }

  /** Once its owner has been taken out, avatar k is nowhere and nobody else has moved; a player
      that is not active was not there in the first place. */
  lemma UnplacedIsGone(template: Grid, g: Game, k: nat)
    requires g.Present(k) && OthersOk(template, g, k)
    ensures SameWalls(template, g.Unplaced(k)) && PlacedBut(g.Unplaced(k), g.table, k)
    ensures !(g.Player(k).phase == Active && g.Located(k)) ==> g.Unplaced(k) == g.grid
    ensures forall q :: g.Unplaced(k).At(q) == if g.grid.At(q) == 65 + k then EMPTY else g.grid.At(q)
  {
    var bare, p := g.Unplaced(k), g.Player(k);
    forall q | g.grid.InBounds(q) && g.grid.At(q) == 65 + k
      ensures q == p.Spot() && p.phase == Active
    {
      OnlyPlace(g.grid, g.table, k, q);
    }
    forall q ensures bare.At(q) == if g.grid.At(q) == 65 + k then EMPTY else g.grid.At(q) {
    }
    WithoutAvatar(g.grid, bare, g.table, k);
  }

  lemma PutBack(template: Grid, grid: Grid, t: Table, k: nat, q: PlayerState)
    requires template.SolidBorder() && SameWalls(template, grid)
    requires k < NUM_AVATARS && PlacedBut(grid, t, k) && grid.Free(q.Spot())
    requires q.avatar == 65 + k && q.refs == 1 && q.phase == Active
    ensures SameWalls(template, grid.Put(q.Spot(), q.avatar))
    ensures Placed(grid.Put(q.Spot(), q.avatar), t[k := Some(q)])
  {
    var spot := q.Spot();
    var full := grid.Put(spot, q.avatar);
    assert template.InBounds(spot) && !IsSolid(template.At(spot));
    forall p ensures full.At(p) == if p == spot then 65 + k else grid.At(p) {
    }
  }

  // ---- player_reset ----

  lemma {:induction false} ScoreListIsScores(t: Table, i: nat)
    ensures forall x :: x in ScoreList(t, i) ==> x.Score?
    decreases |t| - i
  {
    if i < NUM_AVATARS {
      ScoreListIsScores(t, i + 1);
    }
  }

  /** What the announcements of a reset do to one record. */
  lemma AnnouncedSlot(grid: Grid, t: Table, k: nat, i: nat)
    requires k < NUM_AVATARS && t[k].Some? && i < NUM_AVATARS && t[i].Some?
    ensures var s := Announced(grid, t, k)[i];
            && s.Some? && s.value == t[i].value.(prev := s.value.prev, sent := s.value.sent)
            && InSync(grid, s.value)
            && s.value.Board() == if i == k then TallyAll(t[i].value.Board(), ScoreList(EachRefreshed(grid, t), 0))
                                  else Tally(t[i].value.Board(), t[k].value.ScorePacket())
  {
    var p := t[i].value.Invalidated();
    var q := p.Updated(grid);
    assert Ready4Update(p);
    UpdateSyncs(grid, p);
    assert p.Board() == t[i].value.Board();
    if i == k {
      ScoreListIsScores(EachRefreshed(grid, t), 0);
      SendKeepsScreen(q, ScoreList(EachRefreshed(grid, t), 0));
      SendTallies(q, ScoreList(EachRefreshed(grid, t), 0));
    } else {
      SendOne(q, t[k].value.ScorePacket());
    }
  }

  lemma AnnouncedRecords(grid: Grid, t: Table, k: nat)
    requires k < NUM_AVATARS && t[k].Some?
    ensures SameRecords(t, Announced(grid, t, k)) && Synced(grid, Announced(grid, t, k))
  {
    forall i | 0 <= i < NUM_AVATARS && t[i].Some?
      ensures var s := Announced(grid, t, k)[i];
              s.Some? && s.value == t[i].value.(prev := s.value.prev, sent := s.value.sent) && InSync(grid, s.value)
    {
      AnnouncedSlot(grid, t, k, i);
    }
  }

  lemma AnnouncedBoard(grid: Grid, t: Table, k: nat, i: nat)
    requires k < NUM_AVATARS && t[k].Some? && i < NUM_AVATARS && t[i].Some?
    requires forall j :: 0 <= j < NUM_AVATARS && t[j].Some? ==> t[j].value.avatar == 65 + j
    requires BoardBefore(t, k, i, t[i].value.Board())
    ensures Announced(grid, t, k)[i].Some? && BoardOk(t, Announced(grid, t, k)[i].value.Board())
  {
    AnnouncedSlot(grid, t, k, i);
    if i == k {
      var t1 := EachRefreshed(grid, t);
      assert forall j :: 0 <= j < NUM_AVATARS ==> Entry(t1[j]) == Entry(t[j]);
      ScoreListTallies(t1, t[i].value.Board(), 0);
    }
  }

  /** The announcements of a reset bring every screen and every scoreboard up to date. */
  lemma AnnouncedIsCurrent(grid: Grid, t: Table, k: nat)
    requires k < NUM_AVATARS && t[k].Some?
    requires forall i :: 0 <= i < NUM_AVATARS && t[i].Some? ==> t[i].value.avatar == 65 + i
    requires forall i :: 0 <= i < NUM_AVATARS && t[i].Some? ==> BoardBefore(t, k, i, t[i].value.Board())
    ensures var u := Announced(grid, t, k); SameRecords(t, u) && Synced(grid, u) && Scored(u)
  {
    var u := Announced(grid, t, k);
    AnnouncedRecords(grid, t, k);
    SameRecordsSameEntries(t, u);
    forall i | 0 <= i < NUM_AVATARS && u[i].Some? ensures BoardOk(u, u[i].value.Board()) {
      AnnouncedBoard(grid, t, k, i);
    }
  }

  /** A reset that finds room makes the whole invariant hold, whatever was amiss with slot k. */
  lemma ResetEstablishes(template: Grid, g: Game, k: nat, draw: nat)
    requires g.Present(k) && OthersOk(template, g, k)
    requires g.Unplaced(k).RandomSpot(draw).Some?
    ensures Inv(template, g.Reset(k, draw)) && g.Reset(k, draw).Serving(k, Active)
  {
    var bare, p := g.Unplaced(k), g.Player(k);
    UnplacedIsGone(template, g, k);
    RandomSpotIsFree(bare, draw);
    var spot := bare.RandomSpot(draw).value;
    var full := bare.Put(spot, p.avatar);
    var q := p.(row := spot.row, col := spot.col, phase := Active);
    var t := g.table[k := Some(q)];
    PutBack(template, bare, g.table, k, q);
    AnnouncedIsCurrent(full, t, k);
    SameRecordsStayPlaced(full, t, Announced(full, t, k));
  }

  // ---- the other operations ----

  /** Slot k gets the record q.  When q and the old record differ neither in score nor in what the
      client shows, all scoreboards stay right; when q's client is ready for an update, all are. */
  lemma ChangeOne(t: Table, k: nat, q: PlayerState)
    requires k < NUM_AVATARS && t[k].Some? && q.score == t[k].value.score
    requires q.Board() == t[k].value.Board()
    ensures Scored(t) ==> Scored(t[k := Some(q)])
    ensures AllReady(t) && Ready4Update(q) ==> AllReady(t[k := Some(q)])
  {
    var u := t[k := Some(q)];
    assert forall j :: 0 <= j < NUM_AVATARS ==> Entry(t[j]) == Entry(u[j]);
    if Scored(t) {
      forall i | 0 <= i < NUM_AVATARS && u[i].Some? ensures BoardOk(u, u[i].value.Board()) {
        assert BoardOk(t, t[i].value.Board());
      }
    }
  }

  lemma SyncedAreReady(grid: Grid, t: Table)
    requires Synced(grid, t)
    ensures AllReady(t)
  {
  }

  lemma MoveStaysInside(template: Grid, grid: Grid, p: Pos, dir: Direction)
    requires template.SolidBorder() && SameWalls(template, grid) && grid.CanMove(p, dir)
    ensures grid.Interior(p.Ahead(dir, 1)) && SameWalls(template, grid.Move(p, dir).0)
  {
    assert template.InBounds(p.Ahead(dir, 1)) && !IsSolid(template.At(p.Ahead(dir, 1)));
    ApplyKeepsWalls(grid, MazeOp.Move(p, dir));
  }

  lemma MovePlaces(template: Grid, grid: Grid, t: Table, k: nat, dir: Direction)
    requires template.SolidBorder() && SameWalls(template, grid) && Placed(grid, t)
    requires k < NUM_AVATARS && t[k].Some? && t[k].value.phase == Active && grid.CanMove(t[k].value.Spot(), dir)
    ensures var p := t[k].value; var to := p.Spot().Ahead(dir, 1);
            Placed(grid.Move(p.Spot(), dir).0, t[k := Some(p.(row := to.row, col := to.col))])
  {
    MoveStaysInside(template, grid, t[k].value.Spot(), dir);
  }

  lemma MoveKeeps(template: Grid, g: Game, k: nat, dir: int)
    requires Inv(template, g) && g.Serving(k, Active)
    ensures Inv(template, g.Move(k, dir))
  {
    var p := g.Player(k);
    var heading := if dir == 1 then p.gaze else Reverse(p.gaze);
    if g.grid.CanMove(p.Spot(), heading) {
      var moved := g.grid.Move(p.Spot(), heading).0;
      var to := p.Spot().Ahead(heading, 1);
      var q := p.(row := to.row, col := to.col);
      MoveStaysInside(template, g.grid, p.Spot(), heading);
      MovePlaces(template, g.grid, g.table, k, heading);
      SyncedAreReady(g.grid, g.table);
      ChangeOne(g.table, k, q);
      UpdatedTable(moved, g.table[k := Some(q)]);
    }
  }

  lemma SamePlaces(grid: Grid, t: Table, k: nat, q: PlayerState)
    requires Placed(grid, t) && k < NUM_AVATARS && t[k].Some?
    requires q == t[k].value.(gaze := q.gaze, prev := q.prev, sent := q.sent)
    ensures Placed(grid, t[k := Some(q)])
  {
  }

  /** Slot k gets a record for the same player at the same place, in sync. */
  lemma ReplaceKeeps(template: Grid, g: Game, k: nat, q: PlayerState)
    requires Inv(template, g) && g.Present(k)
    requires q == g.Player(k).(gaze := q.gaze, prev := q.prev, sent := q.sent)
    requires InSync(g.grid, q) && q.Board() == g.Player(k).Board()
    ensures Inv(template, g.With(k, q))
  {
    ChangeOne(g.table, k, q);
    SamePlaces(g.grid, g.table, k, q);
  }

  /** Redrawing one client in full, after its own gaze changed. */
  lemma RedrawKeeps(template: Grid, g: Game, k: nat, gaze: Direction)
    requires Inv(template, g) && g.Present(k)
    ensures Inv(template, g.With(k, g.Player(k).(gaze := gaze).Invalidated().Updated(g.grid)))
  {
    var p := g.Player(k).(gaze := gaze).Invalidated();
    assert p.Board() == g.Player(k).Board();
    UpdateSyncs(g.grid, p);
    ReplaceKeeps(template, g, k, p.Updated(g.grid));
  }

  /** Slot k scores a point and everyone is told. */
  lemma ScoreKeeps(grid: Grid, t: Table, k: nat, q: PlayerState)
    requires k < NUM_AVATARS && t[k].Some? && Scored(t) && q.avatar == 65 + k
    requires q.Board() == t[k].value.Board()
    ensures Scored(EachSent(t[k := Some(q)], q.ScorePacket(), -1))
  {
    var u := t[k := Some(q)];
    var v := EachSent(u, q.ScorePacket(), -1);
    SentTable(grid, u, q.ScorePacket(), -1);
    forall i | 0 <= i < NUM_AVATARS && v[i].Some? ensures BoardOk(v, v[i].value.Board()) {
      assert BoardOk(t, t[i].value.Board());
      assert v[i].value.Board() == Tally(t[i].value.Board(), q.ScorePacket());
      assert forall j :: 0 <= j < NUM_AVATARS && j != k ==> Entry(v[j]) == Entry(t[j]);
    }
  }

  /** A record may change score and hit flag without moving anyone or changing any screen. */
  lemma ChangeQuietly(grid: Grid, t: Table, k: nat, q: PlayerState)
    requires k < NUM_AVATARS && t[k].Some? && q == t[k].value.(score := q.score, hit := q.hit)
    ensures Placed(grid, t) ==> Placed(grid, t[k := Some(q)])
    ensures Synced(grid, t) ==> Synced(grid, t[k := Some(q)])
  {
  }

  lemma PointKeeps(template: Grid, g: Game, k: nat)
    requires Inv(template, g) && g.Present(k)
    ensures Inv(template, g.Point(k))
  {
    var q := g.Player(k).(score := g.Player(k).score + 1);
    ChangeQuietly(g.grid, g.table, k, q);
    ScoreKeeps(g.grid, g.table, k, q);
    SentTable(g.grid, g.table[k := Some(q)], q.ScorePacket(), -1);
  }

  lemma StruckKeeps(template: Grid, g: Game, a: Avatar)
    requires Inv(template, g)
    ensures Inv(template, g.Struck(a))
  {
    if g.Present(a - 65) {
      ChangeQuietly(g.grid, g.table, a - 65, g.Player(a - 65).(hit := true));
      ChangeOne(g.table, a - 65, g.Player(a - 65).(hit := true));
    }
  }

  lemma FireKeeps(template: Grid, g: Game, k: nat)
    requires Inv(template, g) && g.Serving(k, Active)
    ensures Inv(template, g.Fire(k))
  {
    if IsAvatar(g.Target(k)) {
      StruckKeeps(template, g, g.Target(k));
      PointKeeps(template, g.Struck(g.Target(k)), k);
    }
  }

  lemma SayKeeps(template: Grid, g: Game, k: nat, msg: seq<Object>)
    requires Inv(template, g) && g.Present(k)
    ensures Inv(template, g.Say(k, msg))
  {
    SentTable(g.grid, g.table, Chat(g.ChatText(k, msg)), -1);
    SameRecordsSameEntries(g.table, g.Say(k, msg).table);
  }

  lemma InvMeansOthersOk(template: Grid, g: Game, k: nat)
    requires Inv(template, g) && g.Present(k)
    ensures OthersOk(template, g, k) && g.Located(k)
  {
  }

  lemma SameRecordsStayPlacedBut(grid: Grid, t: Table, u: Table, k: nat)
    requires k < NUM_AVATARS && t[k].Some? && PlacedBut(grid, t, k) && SameRecords(t, u)
    ensures PlacedBut(grid, u, k)
  {
  }

  /** Taking k's avatar out and bringing every screen up to date, as a hit and a logout both do. */
  lemma VanishAndUpdate(template: Grid, g: Game, k: nat)
    requires Inv(template, g) && g.Present(k)
    ensures var bare := g.Unplaced(k); var u := EachUpdated(bare, g.table);
            SameWalls(template, bare) && Synced(bare, u) && Scored(u) && SameRecords(g.table, u) && PlacedBut(bare, u, k)
  {
    var bare := g.Unplaced(k);
    InvMeansOthersOk(template, g, k);
    UnplacedIsGone(template, g, k);
    SyncedAreReady(g.grid, g.table);
    UpdatedTable(bare, g.table);
    SameRecordsStayPlacedBut(bare, g.table, EachUpdated(bare, g.table), k);
  }

  lemma FreezeOne(grid: Grid, p: PlayerState)
    requires InSync(grid, p)
    ensures var q := p.Send([Alert]).(phase := Frozen); InSync(grid, q) && q.Board() == p.Board()
  {
    SendOne(p, Alert);
    assert p.Send([Alert]).(phase := Frozen).SeenIn(grid) == p.SeenIn(grid);
  }

  lemma FreezeKeeps(grid: Grid, t: Table, k: nat)
    requires k < NUM_AVATARS && t[k].Some? && Synced(grid, t) && Scored(t)
    requires PlacedBut(grid, t, k) && PlaceOk(grid, k, t[k].value.(phase := Frozen))
    ensures var u := t[k := Some(t[k].value.Send([Alert]).(phase := Frozen))];
            Synced(grid, u) && Scored(u) && Placed(grid, u)
  {
    FreezeOne(grid, t[k].value);
    ChangeOne(t, k, t[k].value.Send([Alert]).(phase := Frozen));
  }

  lemma TakeHitKeeps(template: Grid, g: Game, k: nat)
    requires Inv(template, g) && g.Serving(k, Active)
    ensures Inv(template, g.TakeHit(k))
  {
    var p := g.Player(k);
    if p.hit {
      var q := p.(hit := false);
      ChangeOne(g.table, k, q);
      ChangeQuietly(g.grid, g.table, k, q);
      var h := Game(g.grid, g.table[k := Some(q)]);
      VanishAndUpdate(template, h, k);
      FreezeKeeps(g.Unplaced(k), EachUpdated(g.Unplaced(k), h.table), k);
    }
  }

  lemma LeaveBoard(t: Table, k: nat, i: nat)
    requires k < NUM_AVATARS && i < NUM_AVATARS && i != k && t[i].Some?
    requires BoardOkBut(t, k, t[i].value.Board())
    ensures var x := Score(65 + k, -1); var u := EachSent(t, x, k)[k := None];
            u[i] == Some(t[i].value.Send([x])) && BoardOk(u, u[i].value.Board())
  {
    var x := Score(65 + k, -1);
    var u := EachSent(t, x, k)[k := None];
    SendOne(t[i].value, x);
    forall j | 0 <= j < NUM_AVATARS ensures u[i].value.Board()[j] == Entry(u[j]) {
      assert j != k ==> Entry(u[j]) == Entry(t[j]);
    }
  }

  lemma LeavePlaced(grid: Grid, t: Table, u: Table, k: nat)
    requires k < NUM_AVATARS && t[k].Some? && u[k].None? && AvatarsOk(grid, t) && Absent(grid, 65 + k)
    requires forall j :: 0 <= j < NUM_AVATARS && j != k && t[j].Some? ==> PlaceOk(grid, j, t[j].value)
    requires forall j :: 0 <= j < NUM_AVATARS && j != k ==>
      && t[j].Some? == u[j].Some?
      && (t[j].Some? ==> u[j].value == t[j].value.(sent := u[j].value.sent))
    ensures Placed(grid, u)
  {
  }

  /** The end of a logout, once the avatar is out of the maze and the views are current. */
  lemma LeaveTable(template: Grid, g: Game, k: nat)
    requires g.Present(k) && OthersOk(template, g, k) && Absent(g.grid, 65 + k)
    requires forall j :: 0 <= j < NUM_AVATARS && j != k && g.table[j].Some? ==> InSync(g.grid, g.table[j].value)
    ensures Inv(template, Game(g.grid, EachSent(g.table, Score(g.Player(k).avatar, -1), k)[k := None]))
  {
    var x := Score(65 + k, -1);
    var t := EachSent(g.table, x, k)[k := None];
    forall i | 0 <= i < NUM_AVATARS && t[i].Some?
      ensures InSync(g.grid, t[i].value) && BoardOk(t, t[i].value.Board())
    {
      LeaveBoard(g.table, k, i);
      SendOne(g.table[i].value, x);
    }
    LeavePlaced(g.grid, g.table, t, k);
  }

  lemma LogoutKeeps(template: Grid, g: Game, k: nat)
    requires Inv(template, g) && g.Present(k)
    ensures Inv(template, g.Logout(k))
  {
    VanishAndUpdate(template, g, k);
    var h := Game(g.Unplaced(k), EachUpdated(g.Unplaced(k), g.table));
    assert OthersOk(template, h, k);
    LeaveTable(template, h, k);
  }

  // ---- joining ----

  /** A newcomer's scoreboard is empty, and to the others its entry may be anything. */
  lemma NewcomerBoards(t: Table, k: nat, name: Option<seq<Object>>, glass: Screen, i: nat)
    requires Scored(t) && k < NUM_AVATARS && t[k].None? && i < NUM_AVATARS && (i == k || t[i].Some?)
    ensures var u := t[k := Some(NewPlayer(k, name, glass).Send([Ready]))];
            BoardBefore(u, k, i, u[i].value.Board())
  {
    var u := t[k := Some(NewPlayer(k, name, glass).Send([Ready]))];
    if i == k {
      SendOne(NewPlayer(k, name, glass), Ready);
      assert u[k].value.Board() == EmptyBoard();
    } else {
      assert BoardOk(t, t[i].value.Board());
      assert forall j :: 0 <= j < NUM_AVATARS && j != k ==> Entry(u[j]) == Entry(t[j]);
    }
  }

  lemma NewcomerAvatars(grid: Grid, t: Table, k: nat, p: PlayerState)
    requires AvatarsOk(grid, t) && k < NUM_AVATARS && t[k].None?
    ensures AvatarsOk(grid, t[k := Some(p)])
  {
    forall q | grid.InBounds(q) && IsAvatar(grid.At(q)) ensures grid.At(q) != 65 + k {
    }
  }

  lemma NewcomerOthersOk(template: Grid, g: Game, k: nat, name: Option<seq<Object>>, glass: Screen)
    requires Inv(template, g) && k < NUM_AVATARS && g.table[k].None?
    ensures OthersOk(template, g.With(k, NewPlayer(k, name, glass).Send([Ready])), k)
  {
    var h := g.With(k, NewPlayer(k, name, glass).Send([Ready]));
    forall i | 0 <= i < NUM_AVATARS && h.table[i].Some?
      ensures BoardBefore(h.table, k, i, h.table[i].value.Board())
    {
      NewcomerBoards(g.table, k, name, glass, i);
    }
    NewcomerAvatars(g.grid, g.table, k, h.Player(k));
  }

  /** A newcomer that found no room is not in the maze. */
  lemma EndedOthersOk(template: Grid, h: Game, k: nat)
    requires h.Present(k) && OthersOk(template, h, k) && !h.Located(k)
    requires forall j :: 0 <= j < NUM_AVATARS && j != k && h.table[j].Some? ==> InSync(h.grid, h.table[j].value)
    ensures var e := h.With(k, h.Player(k).(phase := Ended));
            OthersOk(template, e, k) && Absent(h.grid, 65 + k)
  {
    UnplacedIsGone(template, h, k);
    var e := h.With(k, h.Player(k).(phase := Ended));
    assert e.Player(k).Board() == h.Player(k).Board();
    assert forall j :: 0 <= j < NUM_AVATARS ==> Entry(h.table[j]) == Entry(e.table[j]);
    forall i | 0 <= i < NUM_AVATARS && e.table[i].Some?
      ensures BoardBefore(e.table, k, i, e.table[i].value.Board())
    {
      assert BoardBefore(h.table, k, i, h.table[i].value.Board());
    }
  }

  lemma JoinKeeps(template: Grid, g: Game, k: nat, name: Option<seq<Object>>, glass: Screen, draw: nat)
    requires Inv(template, g) && k < NUM_AVATARS && g.table[k].None?
    ensures Inv(template, g.Join(k, name, glass, draw))
    ensures g.Join(k, name, glass, draw).Serving(k, Active) <==> exists q :: g.grid.Free(q)
    ensures g.Join(k, name, glass, draw).Present(k) ==> g.Join(k, name, glass, draw).Serving(k, Active)
  {
    var h := g.With(k, NewPlayer(k, name, glass).Send([Ready]));
    NewcomerOthersOk(template, g, k, name, glass);
    RandomSpotIsFree(g.grid, draw);
    if g.grid.RandomSpot(draw).Some? {
      ResetEstablishes(template, h, k, draw);
    } else {
      var e := h.Reset(k, draw);
      assert e == Game(g.grid, h.table[k := Some(h.Player(k).(phase := Ended))]);
      EndedOthersOk(template, h, k);
      LeaveTable(template, e, k);
    }
  }

  lemma WakeKeeps(template: Grid, g: Game, k: nat, draw: nat)
    requires Inv(template, g) && g.Serving(k, Frozen)
    ensures Inv(template, g.Reset(k, draw))
  {
    InvMeansOthersOk(template, g, k);
    UnplacedIsGone(template, g, k);
    if g.grid.RandomSpot(draw).Some? {
      ResetEstablishes(template, g, k, draw);
    } else {
      var q := g.Player(k).(phase := Ended);
      assert g.Reset(k, draw) == g.With(k, q);
      ChangeOne(g.table, k, q);
      assert InSync(g.grid, q);
    }
  }

  // ---- every run ----

  lemma {:induction false} LeastFreeExactly(t: Table, i: nat)
    requires i <= NUM_AVATARS
    ensures match LeastFree(t, i)
            case None => forall j :: i <= j < NUM_AVATARS ==> t[j].Some?
            case Some(k) => i <= k < NUM_AVATARS && t[k].None? && forall j :: i <= j < k ==> t[j].Some?
    decreases NUM_AVATARS - i
  {
    if i < NUM_AVATARS && t[i].Some? {
      LeastFreeExactly(t, i + 1);
    }
  }

  lemma ChosenSlotIsFree(t: Table, avatar: Object, name: Option<seq<Object>>)
    ensures ChooseSlot(t, avatar, name).Some? ==> t[ChooseSlot(t, avatar, name).value].None?
  {
    LeastFreeExactly(t, 0);
  }

  lemma LogInKeeps(template: Grid, g: Game, avatar: Object, name: Option<seq<Object>>, glass: Screen, draw: nat)
    requires Inv(template, g)
    ensures Inv(template, Step(g, LogIn(avatar, name, glass, draw)))
  {
    ChosenSlotIsFree(g.table, avatar, name);
    var slot := ChooseSlot(g.table, avatar, name);
    if slot.Some? { JoinKeeps(template, g, slot.value, name, glass, draw); }
  }

  lemma TurnKeeps(template: Grid, g: Game, k: nat, dir: int)
    requires Inv(template, g) && g.Present(k)
    ensures Inv(template, g.Rotate(k, dir)) && Inv(template, g.Refresh(k))
  {
    var gaze := g.Player(k).gaze;
    RedrawKeeps(template, g, k, if dir == 1 then TurnLeft(gaze) else TurnRight(gaze));
    RedrawKeeps(template, g, k, gaze);
  }

  /** One atomic step, whatever it is, keeps the invariant. */
  lemma StepKeeps(template: Grid, g: Game, e: Event)
    requires Inv(template, g)
    ensures Inv(template, Step(g, e))
  {
    match e
    case LogIn(avatar, name, glass, draw) => LogInKeeps(template, g, avatar, name, glass, draw);
    case LogOut(k) => if g.Present(k) { LogoutKeeps(template, g, k); }
    case MoveBy(k, dir) => if g.Serving(k, Active) { MoveKeeps(template, g, k, dir); }
    case TurnBy(k, dir) => if g.Serving(k, Active) { TurnKeeps(template, g, k, dir); }
    case FireLaser(k) => if g.Serving(k, Active) { FireKeeps(template, g, k); }
    case RefreshView(k) => if g.Serving(k, Active) { TurnKeeps(template, g, k, 0); }
    case SendChat(k, msg) => if g.Serving(k, Active) { SayKeeps(template, g, k, msg); }
    case CheckHit(k) => if g.Serving(k, Active) { TakeHitKeeps(template, g, k); }
    case Wake(k, draw) => if g.Serving(k, Frozen) { WakeKeeps(template, g, k, draw); }
  }

  lemma StartOk(template: Grid)
    requires template.Valid() && template.SolidBorder() && AvatarFree(template)
    ensures Inv(template, Start(template))
  {
  }

  lemma {:induction false} RunKeeps(template: Grid, g: Game, es: seq<Event>)
    requires Inv(template, g)
    ensures Inv(template, Play(g, es))
    decreases es
  {
    if es != [] {
      StepKeeps(template, g, es[0]);
      RunKeeps(template, Step(g, es[0]), es[1..]);
    }
  }
}
