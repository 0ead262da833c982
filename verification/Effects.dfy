/** What every operation of the server does and what it sends to whom, in the terms of a client: cells,
    records and packets. */
module Effects {
  import opened Compass
  import opened Grids
  import opened Display
  import opened Games
  import opened GameRuns
  import opened GameTheorems
  import Sight

  // ---- what is sent ----

  /** What player j is looking at. */
  function Sight16(g: Game, j: nat): (v: View)
    requires g.Present(j)
    ensures |v| <= 16
  {
    g.grid.GetView(Pos(g.Player(j).row, g.Player(j).col), g.Player(j).gaze, 16)
  }

  /** Player j was sent what takes its client from its old view to its new one, and then `tail`. */
  ghost predicate SentUpdate(g: Game, h: Game, j: nat, tail: seq<Packet>)
    requires g.Present(j) && h.Present(j)
  {
    exists ps :: DrawsUpdate(ps, Sight16(g, j), Sight16(h, j)) && h.Player(j).sent == g.Player(j).sent + ps + tail
  }

  /** Player j was sent its whole new view, and then `tail`. */
  ghost predicate SentRedraw(g: Game, h: Game, j: nat, tail: seq<Packet>)
    requires g.Present(j) && h.Present(j)
  {
    exists ps :: Redraws(ps, Sight16(h, j)) && h.Player(j).sent == g.Player(j).sent + ps + tail
  }

  /** Player j's record is the same but for its view. */
  ghost predicate SameRecord(g: Game, h: Game, j: nat) {
    && g.Present(j) == h.Present(j)
    && (g.Present(j) ==> h.Player(j) == g.Player(j).(prev := h.Player(j).prev, sent := h.Player(j).sent))
  }

  /** Player k is somewhere in the maze, and its avatar, if it is there, is there only; the view that the server
      remembers is the one the player has. */
  ghost predicate Settled(g: Game, k: nat) {
    && g.Present(k) && g.Located(k) && g.Player(k).avatar == 65 + k
    && g.Player(k).prev == Some(g.Player(k).SeenIn(g.grid))
    && (g.Player(k).phase == Active ==> g.grid.At(g.Player(k).Spot()) == 65 + k)
    && (forall q :: g.grid.At(q) == 65 + k ==> q == g.Player(k).Spot() && g.Player(k).phase == Active)
  }

  lemma ReachableSettled(template: Grid, g: Game, k: nat)
    requires Reachable(template, g) && g.Present(k)
    ensures Settled(g, k)
  {
    ReachableOk(template, g);
    assert PlaceOk(g.grid, k, g.table[k].value) && InSync(g.grid, g.table[k].value);
    forall q | g.grid.At(q) == 65 + k ensures q == g.Player(k).Spot() && g.Player(k).phase == Active {
      assert g.grid.InBounds(q) && IsAvatar(g.grid.At(q));
    }
  }

  lemma ReachableValid(template: Grid, g: Game)
    requires Reachable(template, g)
    ensures g.grid.Valid()
  {
    ReachableOk(template, g);
  }

  /** An update, of a record that may just have moved, sends what leads from the old view to the new. */
  lemma UpdateSends(grid: Grid, now: Grid, p: PlayerState, q: PlayerState)
    requires p.prev == Some(p.SeenIn(grid)) && q == p.(row := q.row, col := q.col, hit := q.hit)
    ensures var ps := UpdatePackets(q.SeenIn(now), q.prev);
            q.Updated(now).sent == p.sent + ps && DrawsUpdate(ps, p.SeenIn(grid), q.SeenIn(now))
  {
    UpdateDraws(p.SeenIn(grid), q.SeenIn(now));
  }

  /** An update after an invalidation sends the whole view. */
  lemma RedrawSends(now: Grid, p: PlayerState)
    ensures var ps := UpdatePackets(p.SeenIn(now), None);
            p.Invalidated().Updated(now).sent == p.sent + ps && Redraws(ps, p.SeenIn(now))
  {
    assert p.Invalidated().SeenIn(now) == p.SeenIn(now);
    FullUpdateRedraws(p.SeenIn(now), None);
  }

  // ---- MOVE ----

  /** Where a step in a direction leads. */
  function OneStep(p: Pos, gaze: Direction, forward: bool): Pos {
    if forward then Sight.StraightAhead(p, gaze, 1) else Sight.StraightAhead(p, gaze, -1)
  }

  lemma MoveIsOneStep(g: Game, k: nat, dir: int)
    requires Settled(g, k) && g.Serving(k, Active) && g.grid.Valid()
    ensures var p := g.Player(k); var to := OneStep(p.Spot(), p.gaze, dir == 1); var moved := g.grid.Put(p.Spot(), 32).Put(to, 65 + k);
            && (g.grid.Free(to) <==> to in g.grid.cell && g.grid.cell[to] == 32)
            && g.Move(k, dir) == if g.grid.Free(to) then
                                   Game(moved, EachUpdated(moved, g.table[k := Some(p.(row := to.row, col := to.col))]))
                                 else g
  {
    var p := g.Player(k);
    assert OneStep(p.Spot(), p.gaze, dir == 1) == p.Spot().Ahead(if dir == 1 then p.gaze else Reverse(p.gaze), 1);
  }

  lemma MoveSends(g: Game, h: Game, k: nat, j: nat, to: Pos)
    requires g.Present(k) && Settled(g, j)
    requires h == Game(h.grid, EachUpdated(h.grid, g.table[k := Some(g.Player(k).(row := to.row, col := to.col))]))
    ensures h.Present(j) && SentUpdate(g, h, j, [])
    ensures if j == k then
              h.Player(k) == g.Player(k).(row := to.row, col := to.col, prev := h.Player(k).prev, sent := h.Player(k).sent)
            else SameRecord(g, h, j)
  {
    var p := g.Player(j);
    var q := if j == k then p.(row := to.row, col := to.col) else p;
    UpdateSends(g.grid, h.grid, p, q);
    var ps := UpdatePackets(q.SeenIn(h.grid), q.prev);
    assert Sight16(g, j) == p.SeenIn(g.grid) && Sight16(h, j) == q.SeenIn(h.grid);
    assert h.Player(j).sent == p.sent + ps + [];
  }

  /** A MOVE with parameter 1 goes one cell along the gaze, any other one cell against it.  It succeeds
      exactly when that cell is a blank cell of the maze.  Then the avatar changes cells, the record
      says so, and nothing else changes; every client is sent the changes of its view.  When it fails,
      nothing happens at all. */
  lemma MoveEffect(template: Grid, g: Game, h: Game, k: nat, dir: int, j: nat)
    requires Reachable(template, g) && g.Serving(k, Active) && h == Step(g, MoveBy(k, dir))
    ensures var p := g.Player(k); var to := OneStep(p.Spot(), p.gaze, dir == 1);
            if to in g.grid.cell && g.grid.cell[to] == 32 then
              && h.grid == g.grid.Put(p.Spot(), 32).Put(to, 65 + k)
              && h.Present(k) && h.Player(k) == p.(row := to.row, col := to.col, prev := h.Player(k).prev, sent := h.Player(k).sent)
              && (j != k ==> SameRecord(g, h, j))
              && (g.Present(j) ==> h.Present(j) && SentUpdate(g, h, j, []))
            else h == g
  {
    var p := g.Player(k);
    var to := OneStep(p.Spot(), p.gaze, dir == 1);
    ReachableSettled(template, g, k);
    ReachableValid(template, g);
    MoveIsOneStep(g, k, dir);
    if g.grid.Free(to) {
      MoveSends(g, h, k, k, to);
      if g.Present(j) {
        ReachableSettled(template, g, j);
        MoveSends(g, h, k, j, to);
      }
    }
  }

  // ---- TURN and REFRESH ----

  /** A TURN with parameter 1 turns the gaze a quarter to the left, any other a quarter to the right; the
      client is sent its whole new view, and nobody else notices. */
  lemma TurnEffect(g: Game, k: nat, dir: int)
    requires g.Serving(k, Active)
    ensures var h := Step(g, TurnBy(k, dir)); var d := g.Player(k).gaze;
            && h.grid == g.grid && h.Present(k) && (forall j :: 0 <= j < NUM_AVATARS && j != k ==> h.table[j] == g.table[j])
            && var e := h.Player(k).gaze;
            && h.Player(k) == g.Player(k).(gaze := e, prev := h.Player(k).prev, sent := h.Player(k).sent)
            && (dir == 1 ==> Dr(e) == -Dc(d) && Dc(e) == Dr(d))
            && (dir != 1 ==> Dr(e) == Dc(d) && Dc(e) == -Dr(d))
            && SentRedraw(g, h, k, [])
  {
    var h, d := Step(g, TurnBy(k, dir)), g.Player(k).gaze;
    TurnsRotateTheStep(d, Pos(0, 0), 0);
    TurnsRotateTheStep(TurnRight(d), Pos(0, 0), 0);
    var p := g.Player(k).(gaze := h.Player(k).gaze);
    RedrawSends(g.grid, p);
    assert h.Player(k).sent == g.Player(k).sent + UpdatePackets(p.SeenIn(g.grid), None) + [];
  }

  /** A REFRESH sends the client its whole view, and does nothing else. */
  lemma RefreshEffect(g: Game, k: nat)
    requires g.Serving(k, Active)
    ensures var h := Step(g, RefreshView(k));
            && h.grid == g.grid && h.Present(k) && (forall j :: 0 <= j < NUM_AVATARS && j != k ==> h.table[j] == g.table[j])
            && SameRecord(g, h, k) && SentRedraw(g, h, k, [])
  {
    var h := Step(g, RefreshView(k));
    RedrawSends(g.grid, g.Player(k));
    assert h.Player(k).sent == g.Player(k).sent + UpdatePackets(g.Player(k).SeenIn(g.grid), None) + [];
  }

  // ---- FIRE ----

  lemma StruckSendsNothing(g: Game, a: Avatar, j: nat)
    requires g.Present(j)
    ensures var h := g.Struck(a); h.Present(j) && h.Player(j) == g.Player(j).(hit := h.Player(j).hit)
  {
  }

  lemma PointSends(g: Game, k: nat, j: nat)
    requires g.Present(k) && g.Present(j) && g.Player(k).avatar == 65 + k
    ensures var h := g.Point(k);
            h.Present(j) && h.Player(j).sent == g.Player(j).sent + [Score(65 + k, ToInt8(g.Player(k).score + 1))]
  {
  }

  /** A shot that finds nobody does nothing. */
  lemma MissEffect(g: Game, k: nat)
    requires g.Serving(k, Active) && !IsAvatar(g.Target(k))
    ensures Step(g, FireLaser(k)) == g
  {
  }

  lemma HitTells(g: Game, k: nat, a: Avatar, j: nat)
    requires g.Present(k) && g.Present(j) && g.Player(k).avatar == 65 + k
    ensures var h := g.Struck(a).Point(k);
            h.Present(j) && h.Player(j).sent == g.Player(j).sent + [Score(65 + k, ToInt8(g.Player(k).score + 1))]
  {
    StruckSendsNothing(g, a, k);
    StruckSendsNothing(g, a, j);
    PointSends(g.Struck(a), k, j);
  }

  /** A shot that finds an avatar tells everyone the shooter's new score, once. */
  lemma FireSends(g: Game, k: nat, j: nat)
    requires g.Serving(k, Active) && g.Player(k).avatar == 65 + k && g.Present(j) && IsAvatar(g.Target(k))
    ensures var h := Step(g, FireLaser(k));
            h.Present(j) && h.Player(j).sent == g.Player(j).sent + [Score(65 + k, ToInt8(g.Player(k).score + 1))]
  {
    HitTells(g, k, g.Target(k), j);
  }

  // ---- leaving the maze ----

  lemma VanishSends(g: Game, bare: Grid, k: nat, hit: bool, j: nat)
    requires g.Present(k) && Settled(g, j)
    ensures var t := EachUpdated(bare, g.table[k := Some(g.Player(k).(hit := hit))]);
            && t[j].Some?
            && t[j].value == g.Player(j).(hit := if j == k then hit else g.Player(j).hit, prev := t[j].value.prev, sent := t[j].value.sent)
            && exists ps :: DrawsUpdate(ps, g.Player(j).SeenIn(g.grid), g.Player(j).SeenIn(bare))
                            && t[j].value.sent == g.Player(j).sent + ps
  {
    var p := g.Player(j);
    var q := if j == k then p.(hit := hit) else p;
    UpdateSends(g.grid, bare, p, q);
    assert q.SeenIn(bare) == p.SeenIn(bare);
  }

  /** Taking player k out blanks its avatar's cell and no other. */
  lemma UnplacedCells(g: Game, k: nat)
    requires Settled(g, k)
    ensures forall q :: g.Unplaced(k).At(q) == if g.grid.At(q) == 65 + k then 32 else g.grid.At(q)
  {
  }

  lemma LeaverSends(g: Game, h: Game, k: nat, j: nat)
    requires Settled(g, k) && h == g.Logout(k) && j != k && Settled(g, j)
    ensures SameRecord(g, h, j) && SentUpdate(g, h, j, [Score(65 + k, -1)])
  {
    var bare := g.Unplaced(k);
    VanishSends(g, bare, k, g.Player(k).hit, j);
    assert g.table[k := Some(g.Player(k).(hit := g.Player(k).hit))] == g.table;
    var t := EachUpdated(bare, g.table);
    assert h.Player(j) == t[j].value.Send([Score(65 + k, -1)]);
    assert Sight16(g, j) == g.Player(j).SeenIn(g.grid) && Sight16(h, j) == g.Player(j).SeenIn(bare);
    var ps :| DrawsUpdate(ps, g.Player(j).SeenIn(g.grid), g.Player(j).SeenIn(bare)) && t[j].value.sent == g.Player(j).sent + ps;
    assert h.Player(j).sent == g.Player(j).sent + ps + [Score(65 + k, -1)];
  }

  /** A logout: the avatar is off the maze and nothing else in the maze changes; the slot is free; all who
      stay keep their records and are sent the changes of their views and then the score -1 of the one
      who left, once. */
  lemma LogoutEffect(template: Grid, g: Game, h: Game, k: nat, j: nat)
    requires Reachable(template, g) && (g.Serving(k, Active) || g.Serving(k, Ended)) && h == Step(g, LogOut(k))
    ensures && (forall q :: h.grid.At(q) == if g.grid.At(q) == 65 + k then 32 else g.grid.At(q))
            && !h.Present(k)
            && (j != k && !g.Present(j) ==> !h.Present(j))
            && (j != k && g.Present(j) ==> SameRecord(g, h, j) && SentUpdate(g, h, j, [Score(65 + k, -1)]))
  {
    ReachableSettled(template, g, k);
    UnplacedCells(g, k);
    if j != k && g.Present(j) {
      ReachableSettled(template, g, j);
      LeaverSends(g, h, k, j);
    }
  }

  lemma StruckSends(g: Game, h: Game, k: nat, j: nat)
    requires Settled(g, k) && g.Player(k).hit && h == g.TakeHit(k) && Settled(g, j)
    ensures h.Present(j) && SentUpdate(g, h, j, if j == k then [Alert] else [])
    ensures if j == k then
              h.Player(k) == g.Player(k).(hit := false, phase := Frozen, prev := h.Player(k).prev, sent := h.Player(k).sent)
            else SameRecord(g, h, j)
  {
    var bare := g.Unplaced(k);
    VanishSends(g, bare, k, false, j);
    var t := EachUpdated(bare, g.table[k := Some(g.Player(k).(hit := false))]);
    var tail := if j == k then [Alert] else [];
    assert h.Player(j).sent == t[j].value.sent + tail;
    assert Sight16(g, j) == g.Player(j).SeenIn(g.grid) && Sight16(h, j) == g.Player(j).SeenIn(bare);
    var ps :| DrawsUpdate(ps, g.Player(j).SeenIn(g.grid), g.Player(j).SeenIn(bare)) && t[j].value.sent == g.Player(j).sent + ps;
    assert h.Player(j).sent == g.Player(j).sent + ps + tail;
  }

  /** The check for a hit does nothing without one. */
  lemma NoHitNoEffect(g: Game, k: nat)
    requires g.Serving(k, Active) && !g.Player(k).hit
    ensures Step(g, CheckHit(k)) == g
  {
  }

  /** With a hit: the avatar of the struck player is off the maze, its flag down and its thread asleep; the
      others keep their records; everyone is sent the changes of its view, and the struck client, and
      nobody else, then one ALERT. */
  lemma HitEffect(template: Grid, g: Game, h: Game, k: nat, j: nat)
    requires Reachable(template, g) && g.Serving(k, Active) && g.Player(k).hit && h == Step(g, CheckHit(k))
    ensures && (forall q :: h.grid.At(q) == if g.grid.At(q) == 65 + k then 32 else g.grid.At(q))
            && h.Present(k)
            && h.Player(k) == g.Player(k).(hit := false, phase := Frozen, prev := h.Player(k).prev, sent := h.Player(k).sent)
            && (j != k && !g.Present(j) ==> !h.Present(j))
            && (j != k && g.Present(j) ==> SameRecord(g, h, j))
            && (g.Present(j) ==> h.Present(j) && SentUpdate(g, h, j, if j == k then [Alert] else []))
  {
    ReachableSettled(template, g, k);
    UnplacedCells(g, k);
    StruckSends(g, h, k, k);
    if g.Present(j) {
      ReachableSettled(template, g, j);
      StruckSends(g, h, k, j);
    }
  }

  // ---- coming to a new place ----

  /** How many packets of the list are about the score of avatar a. */
  function ScoreCount(ps: seq<Packet>, a: Avatar): nat
    decreases ps
  {
    if ps == [] then 0 else (if ps[0].Score? && ps[0].avatar == a then 1 else 0) + ScoreCount(ps[1..], a)
  }

  /** The list tells the scores of all players in the game, each once, and nothing else. */
  ghost predicate ScoreSheet(ps: seq<Packet>, g: Game) {
    && (forall x :: x in ps ==> x.Score? && g.Present(x.avatar - 65) && x.score == ToInt8(g.Player(x.avatar - 65).score))
    && (forall j :: 0 <= j < NUM_AVATARS ==> ScoreCount(ps, 65 + j) == if g.Present(j) then 1 else 0)
  }

  lemma {:induction false} ScoreListIsSheet(t: Table, i: nat, a: Avatar)
    requires i <= NUM_AVATARS && forall j :: 0 <= j < NUM_AVATARS && t[j].Some? ==> t[j].value.avatar == 65 + j
    ensures forall x :: x in ScoreList(t, i) ==>
              x.Score? && t[x.avatar - 65].Some? && x.score == ToInt8(t[x.avatar - 65].value.score)
    ensures ScoreCount(ScoreList(t, i), a) == if a - 65 >= i && t[a - 65].Some? then 1 else 0
    decreases |t| - i
  {
    if i < NUM_AVATARS {
      ScoreListIsSheet(t, i + 1, a);
      var rest := ScoreList(t, i + 1);
      if t[i].Some? {
        assert ScoreList(t, i) == [t[i].value.ScorePacket()] + rest && ScoreList(t, i)[1..] == rest;
      } else {
        assert ScoreList(t, i) == rest;
      }
    }
  }

  lemma SheetOfTable(t: Table, u: Table, g: Game)
    requires forall j :: 0 <= j < NUM_AVATARS && t[j].Some? ==> t[j].value.avatar == 65 + j
    requires g.table == u && SameRecords(t, u)
    ensures ScoreSheet(ScoreList(t, 0), g)
  {
    forall j | 0 <= j < NUM_AVATARS
      ensures ScoreCount(ScoreList(t, 0), 65 + j) == if g.Present(j) then 1 else 0
    {
      ScoreListIsSheet(t, 0, 65 + j);
    }
    ScoreListIsSheet(t, 0, 65);
  }

  /** What the announcements of a reset send to slot i. */
  lemma AnnouncementsSend(grid: Grid, t: Table, k: nat, i: nat)
    requires k < NUM_AVATARS && t[k].Some? && i < NUM_AVATARS && t[i].Some?
    ensures var s := Announced(grid, t, k)[i];
            && s.Some?
            && var ps := UpdatePackets(t[i].value.SeenIn(grid), None);
            && Redraws(ps, t[i].value.SeenIn(grid))
            && s.value.sent == t[i].value.sent + ps
                               + if i == k then ScoreList(EachRefreshed(grid, t), 0) else [t[k].value.ScorePacket()]
  {
    RedrawSends(grid, t[i].value);
  }

  lemma SentAtReset(g: Game, h: Game, t: Table, k: nat, j: nat)
    requires g.Present(k) && g.Present(j) && t[k].Some? && t[k].value.avatar == 65 + k && t[k].value.score == g.Player(k).score
    requires t[k].value.sent == g.Player(k).sent && forall i :: 0 <= i < NUM_AVATARS && i != k ==> t[i] == g.table[i]
    requires forall i :: 0 <= i < NUM_AVATARS && t[i].Some? ==> t[i].value.avatar == 65 + i
    requires h.table == Announced(h.grid, t, k) && SameRecords(t, h.table)
    ensures h.Present(j)
    ensures j != k ==> SentRedraw(g, h, j, [Score(65 + k, ToInt8(g.Player(k).score))])
    ensures j == k ==> exists scores :: ScoreSheet(scores, h) && SentRedraw(g, h, k, scores)
  {
    AnnouncementsSend(h.grid, t, k, j);
    var ps := UpdatePackets(t[j].value.SeenIn(h.grid), None);
    assert Sight16(h, j) == t[j].value.SeenIn(h.grid);
    if j == k {
      var shown := EachRefreshed(h.grid, t);
      assert SameRecords(shown, h.table);
      SheetOfTable(shown, h.table, h);
      assert SentRedraw(g, h, k, ScoreList(shown, 0));
    }
  }

  /** A reset that finds a place: who and what has changed, and who was sent what. */
  lemma ResetEffect(g: Game, k: nat, draw: nat, j: nat)
    requires g.Present(k) && g.Unplaced(k).RandomSpot(draw).Some?
    requires forall i :: 0 <= i < NUM_AVATARS && g.table[i].Some? ==> g.table[i].value.avatar == 65 + i
    ensures var h := g.Reset(k, draw); var spot := g.Unplaced(k).RandomSpot(draw).value; var p := g.Player(k);
            && h.grid == g.Unplaced(k).Put(spot, 65 + k)
            && h.Present(k)
            && h.Player(k) == p.(row := spot.row, col := spot.col, phase := Active, prev := h.Player(k).prev, sent := h.Player(k).sent)
            && (j != k ==> SameRecord(g, h, j) && (g.Present(j) ==> SentRedraw(g, h, j, [Score(65 + k, ToInt8(p.score))])))
            && exists scores :: ScoreSheet(scores, h) && SentRedraw(g, h, k, scores)
  {
    var h, spot, p := g.Reset(k, draw), g.Unplaced(k).RandomSpot(draw).value, g.Player(k);
    var full := g.Unplaced(k).Put(spot, p.avatar);
    var q := p.(row := spot.row, col := spot.col, phase := Active);
    var t := g.table[k := Some(q)];
    AnnouncedRecords(full, t, k);
    assert h == Game(full, Announced(full, t, k));
    SentAtReset(g, h, t, k, k);
    if j != k && g.Present(j) {
      SentAtReset(g, h, t, k, j);
    }
  }

  lemma WakeIsReset(template: Grid, g: Game, k: nat, draw: nat)
    requires Reachable(template, g) && g.Serving(k, Frozen)
    ensures Step(g, Wake(k, draw)) == g.Reset(k, draw) && g.Unplaced(k) == g.grid
    ensures forall i :: 0 <= i < NUM_AVATARS && g.table[i].Some? ==> g.table[i].value.avatar == 65 + i
  {
    ReachableOk(template, g);
    InvMeansOthersOk(template, g, k);
    UnplacedIsGone(template, g, k);
  }

  /** The end of the sleep when no cell is blank: only the session ends. */
  lemma NoPlaceEndsTheSession(template: Grid, g: Game, k: nat, draw: nat)
    requires Reachable(template, g) && g.Serving(k, Frozen) && g.grid.RandomSpot(draw).None?
    ensures Step(g, Wake(k, draw)) == g.With(k, g.Player(k).(phase := Ended))
  {
    WakeIsReset(template, g, k, draw);
  }

  /** Otherwise the player is back on the drawn cell and awake with all else in its record as it was; its
      client is sent the whole view and all scores, everyone else's the whole view and its score. */
  lemma WakeEffect(template: Grid, g: Game, k: nat, draw: nat, j: nat)
    requires Reachable(template, g) && g.Serving(k, Frozen) && g.grid.RandomSpot(draw).Some?
    ensures var h := Step(g, Wake(k, draw)); var p := g.Player(k); var spot := g.grid.RandomSpot(draw).value;
            && h.grid == g.grid.Put(spot, 65 + k)
            && h.Present(k)
            && h.Player(k) == p.(row := spot.row, col := spot.col, phase := Active, prev := h.Player(k).prev, sent := h.Player(k).sent)
            && (j != k ==> SameRecord(g, h, j) && (g.Present(j) ==> SentRedraw(g, h, j, [Score(65 + k, ToInt8(p.score))])))
            && exists scores :: ScoreSheet(scores, h) && SentRedraw(g, h, k, scores)
  {
    WakeIsReset(template, g, k, draw);
    ResetEffect(g, k, draw, j);
  }

  /** A newcomer that finds a place: on the drawn cell, looking east, with no points, unhurt, named as asked
      or Anonymous.  Its client is sent READY, the whole view and all scores; everyone else's is sent
      the whole view and the newcomer's score 0. */
  lemma JoinEffect(template: Grid, g: Game, k: nat, name: Option<seq<Object>>, glass: Screen, draw: nat, j: nat)
    requires Reachable(template, g) && k < NUM_AVATARS && g.table[k].None? && g.grid.RandomSpot(draw).Some?
    ensures var h := g.Join(k, name, glass, draw); var spot := g.grid.RandomSpot(draw).value;
            && h.grid == g.grid.Put(spot, 65 + k)
            && h.Serving(k, Active)
            && var p := h.Player(k);
            && p.avatar == 65 + k && p.Spot() == spot && p.gaze == EAST && p.score == 0 && !p.hit && p.glass == glass
            && p.name == (if name.None? || name.value == [] then [65, 110, 111, 110, 121, 109, 111, 117, 115] else name.value)
            && (exists ps, scores :: Redraws(ps, Sight16(h, k)) && ScoreSheet(scores, h) && p.sent == [Ready] + ps + scores)
            && (j != k ==> SameRecord(g, h, j) && (g.Present(j) ==> SentRedraw(g, h, j, [Score(65 + k, 0)])))
  {
    var n := NewPlayer(k, name, glass).Send([Ready]);
    var h0 := g.With(k, n);
    assert h0.Unplaced(k) == g.grid;
    forall i | 0 <= i < NUM_AVATARS && h0.table[i].Some? ensures h0.table[i].value.avatar == 65 + i {
      if i != k { ReachableSettled(template, g, i); }
    }
    ResetEffect(h0, k, draw, j);
    var h := h0.Reset(k, draw);
    assert g.Join(k, name, glass, draw) == h;
    var scores :| ScoreSheet(scores, h) && SentRedraw(h0, h, k, scores);
    var ps :| Redraws(ps, Sight16(h, k)) && h.Player(k).sent == n.sent + ps + scores;
    assert n.sent == [Ready];
    if j != k && g.Present(j) {
      assert SentRedraw(h0, h, j, [Score(65 + k, 0)]);
    }
  }
}
