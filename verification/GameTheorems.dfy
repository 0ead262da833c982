/** What clients and operators can rely on in every run of the server, at atomic-operation grain. */
module GameTheorems {
  import opened Compass
  import opened Grids
  import opened Display
  import opened Games
  import opened GameRuns
  import MazeRuns
  import Sight

  /** A maze the server may be started on. */
  ghost predicate Playable(template: Grid) {
    template.Valid() && template.SolidBorder() && MazeRuns.AvatarFree(template)
  }

  /** The game g is the outcome of some run on this maze. */
  ghost predicate Reachable(template: Grid, g: Game) {
    Playable(template) && exists es :: g == Play(Start(template), es)
  }

  lemma ReachableOk(template: Grid, g: Game)
    requires Reachable(template, g)
    ensures Inv(template, g)
  {
    var es :| g == Play(Start(template), es);
    StartOk(template);
    RunKeeps(template, Start(template), es);
  }

  /** After every step of every run, the screen of every player in the table, rebuilt from all
      CLEAR and SHOW packets its client was ever sent and whatever it showed before, is the view
      of the current maze from the recorded place and gaze, blank beyond the depth of the view. */
  lemma ScreensShowTheMaze(template: Grid, g: Game, k: nat)
    requires Reachable(template, g)
    ensures g.Present(k) ==>
              var p := g.Player(k);
              && g.Located(k)
              && DrawAll(p.glass, p.sent) == Pad(g.grid.GetView(p.Spot(), p.gaze, VIEW_DEPTH))
  {
    ReachableOk(template, g);
    if g.Present(k) {
      assert InSync(g.grid, g.table[k].value);
      assert PlaceOk(g.grid, k, g.table[k].value);
    }
  }

  /** Every client's scoreboard has an entry for exactly the players in the table: the score as a
      signed byte, which is the score exactly when that is at most 127; every other entry is -1. */
  lemma ScoreboardsAreCurrent(template: Grid, g: Game, k: nat, j: nat)
    requires Reachable(template, g) && j < NUM_AVATARS
    ensures g.Present(k) ==>
              var shown := TallyAll(EmptyBoard(), g.Player(k).sent)[j];
              if g.Present(j)
              then shown == ToInt8(g.Player(j).score) && (shown == g.Player(j).score <==> g.Player(j).score <= 127)
              else shown == -1
  {
    ReachableOk(template, g);
    if g.Present(k) {
      assert BoardOk(g.table, g.table[k].value.Board());
      if g.Present(j) {
        ScoreFitsExactly(g.Player(j).score);
      }
    }
  }

  /** The maze and the records agree: an active player's avatar is at the recorded place and
      nowhere else, the avatar of anyone else is nowhere, and everyone is strictly inside. */
  lemma MazeAndRecordsAgree(template: Grid, g: Game, k: nat, q: Pos)
    requires Reachable(template, g) && k < NUM_AVATARS
    ensures && MazeRuns.SameWalls(template, g.grid)
            && (g.grid.InBounds(q) && g.grid.At(q) == 65 + k <==> g.Serving(k, Active) && q == g.Player(k).Spot())
            && (g.Present(k) ==> g.Player(k).avatar == 65 + k && g.grid.Interior(g.Player(k).Spot()))
  {
    ReachableOk(template, g);
    if g.Present(k) {
      assert PlaceOk(g.grid, k, g.table[k].value);
    }
    if g.grid.InBounds(q) && g.grid.At(q) == 65 + k {
      assert IsAvatar(g.grid.At(q));
    }
  }

  /** No view of a player in the table ever reads a cell outside the maze, side cells included. */
  lemma ViewsStayInBounds(template: Grid, g: Game, k: nat, d: nat)
    requires Reachable(template, g)
    ensures g.Present(k) && d < |g.Player(k).SeenIn(g.grid)| ==>
              var at := g.Player(k).Spot().Ahead(g.Player(k).gaze, d);
              g.grid.InBounds(at) && g.grid.SidesInBounds(at, g.Player(k).gaze)
  {
    ReachableOk(template, g);
    if g.Present(k) && d < |g.Player(k).SeenIn(g.grid)| {
      assert PlaceOk(g.grid, k, g.table[k].value);
      Sight.ViewReadsInBounds(g.grid, g.Player(k).Spot(), g.Player(k).gaze, d);
    }
  }

  // ---- moving and turning ----

  /** Where a move of player k leads. */
  function Heading(p: PlayerState, dir: int): Direction {
    if dir == 1 then p.gaze else Reverse(p.gaze)
  }

  /** Player k's record says place `to`; nobody else's differs but for its view. */
  ghost predicate OnlyMoved(g: Game, h: Game, k: nat, to: Pos) {
    forall j :: 0 <= j < NUM_AVATARS ==>
      && g.Present(j) == h.Present(j)
      && (g.Present(j) ==>
            && h.Player(j).Spot() == (if j == k then to else g.Player(j).Spot())
            && h.Player(j) == g.Player(j).(row := h.Player(j).row, col := h.Player(j).col,
                                           prev := h.Player(j).prev, sent := h.Player(j).sent))
  }

  /** player_move succeeds exactly when the next cell in its direction is blank.  Then the player's
      avatar and its record are one step further on, and no other record changes but for its view. */
  lemma MoveRecords(template: Grid, g: Game, k: nat, dir: int)
    requires Inv(template, g) && g.Serving(k, Active)
    ensures var h := g.Move(k, dir); var p := g.Player(k); var to := p.Spot().Ahead(Heading(p, dir), 1);
            if g.grid.Free(to)
            then h.grid == g.grid.Put(p.Spot(), EMPTY).Put(to, p.avatar) && OnlyMoved(g, h, k, to)
            else h == g
  {
    assert PlaceOk(g.grid, k, g.table[k].value);
  }

  /** The same players at the same places with the same gazes and scores. */
  ghost predicate SameButViews(g: Game, h: Game) {
    forall j :: 0 <= j < NUM_AVATARS ==>
      && g.Present(j) == h.Present(j)
      && (g.Present(j) ==> h.Player(j) == g.Player(j).(prev := h.Player(j).prev, sent := h.Player(j).sent))
  }

  /** And the same maze, with the same on every screen. */
  ghost predicate LooksTheSame(g: Game, h: Game) {
    && g.grid == h.grid && SameButViews(g, h)
    && forall j :: 0 <= j < NUM_AVATARS && g.Present(j) ==> h.Player(j).Screen() == g.Player(j).Screen()
  }

  /** Screens depend on the maze and the records alone. */
  lemma SameRecordsSameScreens(template: Grid, g: Game, h: Game)
    requires Inv(template, g) && Inv(template, h) && g.grid == h.grid && SameButViews(g, h)
    ensures LooksTheSame(g, h)
  {
    forall j | 0 <= j < NUM_AVATARS && g.Present(j) ensures h.Player(j).Screen() == g.Player(j).Screen() {
      assert InSync(g.grid, g.table[j].value) && InSync(h.grid, h.table[j].value);
      assert h.Player(j).SeenIn(g.grid) == g.Player(j).SeenIn(g.grid);
    }
  }

  lemma MovedBack(g: Game, h: Game, b: Game, k: nat, to: Pos)
    requires g.Present(k) && OnlyMoved(g, h, k, to) && OnlyMoved(h, b, k, g.Player(k).Spot())
    ensures SameButViews(g, b)
  {
  }

  lemma MovedOnce(template: Grid, g: Game, k: nat, dir: int)
    requires Inv(template, g) && g.Serving(k, Active)
    requires g.grid.Free(g.Player(k).Spot().Ahead(Heading(g.Player(k), dir), 1))
    ensures var h := g.Move(k, dir); var p := g.Player(k); var to := p.Spot().Ahead(Heading(p, dir), 1);
            && Inv(template, h) && h.Serving(k, Active)
            && h.Player(k).Spot() == to && h.Player(k).gaze == p.gaze
            && g.grid.CanMove(p.Spot(), Heading(p, dir)) && h.grid == g.grid.Move(p.Spot(), Heading(p, dir)).0
  {
    MoveKeeps(template, g, k, dir);
    MoveRecords(template, g, k, dir);
    assert PlaceOk(g.grid, k, g.table[k].value);
  }

  lemma ThereAndBack(template: Grid, g: Game, h: Game, k: nat, dir: int)
    requires Inv(template, g) && g.Serving(k, Active) && (dir == 1 || dir == -1)
    requires g.grid.Free(g.Player(k).Spot().Ahead(Heading(g.Player(k), dir), 1)) && h == g.Move(k, dir)
    ensures && h.Serving(k, Active) && Inv(template, h)
            && h.grid.Free(h.Player(k).Spot().Ahead(Heading(h.Player(k), -dir), 1))
            && h.Player(k).Spot().Ahead(Heading(h.Player(k), -dir), 1) == g.Player(k).Spot()
            && h.grid.Move(h.Player(k).Spot(), Heading(h.Player(k), -dir)).0 == g.grid
  {
    var p := g.Player(k);
    MovedOnce(template, g, k, dir);
    MazeRuns.MovesAreUndone(g.grid, p.Spot(), Heading(p, dir));
    TurnsRotateTheStep(p.gaze, p.Spot(), 1);
    assert Heading(h.Player(k), -dir) == Reverse(Heading(p, dir));
  }

  /** A step forward and a step back, or the other way round, undo each other, in the maze and on
      every screen, when the first one succeeds. */
  lemma StepsUndo(template: Grid, g: Game, h: Game, b: Game, k: nat, dir: int)
    requires Reachable(template, g) && g.Serving(k, Active) && (dir == 1 || dir == -1)
    requires g.grid.Free(g.Player(k).Spot().Ahead(Heading(g.Player(k), dir), 1))
    requires h == g.Move(k, dir) && h.Present(k) && b == h.Move(k, -dir)
    ensures LooksTheSame(g, b)
  {
    ReachableOk(template, g);
    ThereAndBack(template, g, h, k, dir);
    MoveRecords(template, g, k, dir);
    MoveRecords(template, h, k, -dir);
    MovedOnce(template, h, k, -dir);
    MovedBack(g, h, b, k, h.Player(k).Spot());
    SameRecordsSameScreens(template, g, b);
  }

  lemma TurnedTwice(g: Game, k: nat, dir: int)
    requires g.Present(k) && (dir == 1 || dir == -1)
    ensures var b := g.Rotate(k, dir).Rotate(k, -dir); b.grid == g.grid && SameButViews(g, b)
  {
    TurnsRotateTheStep(g.Player(k).gaze, g.Player(k).Spot(), 1);
  }

  lemma RotateAgain(template: Grid, g: Game, h: Game, b: Game, k: nat, dir: int)
    requires Inv(template, g) && Inv(template, h) && h.Present(k) && b == h.Rotate(k, dir)
    requires b.grid == g.grid && SameButViews(g, b)
    ensures LooksTheSame(g, b)
  {
    TurnKeeps(template, h, k, dir);
    SameRecordsSameScreens(template, g, b);
  }

  /** Turning left and right, or right and left, undo each other on every screen. */
  lemma TurnsUndo(template: Grid, g: Game, h: Game, k: nat, dir: int)
    requires Reachable(template, g) && g.Serving(k, Active) && (dir == 1 || dir == -1)
    requires h == g.Rotate(k, dir)
    ensures h.Present(k) && LooksTheSame(g, h.Rotate(k, -dir))
  {
    ReachableOk(template, g);
    TurnKeeps(template, g, k, dir);
    TurnedTwice(g, k, dir);
    RotateAgain(template, g, h, h.Rotate(k, -dir), k, -dir);
  }

  // ---- lasers ----

  /** One shot changes the shooter's score and the struck player's flag, and no place. */
  lemma FireRecords(g: Game, k: nat, j: nat)
    requires g.Serving(k, Active) && j < NUM_AVATARS
    ensures var h := g.Fire(k); var t := g.Target(k);
            && h.grid == g.grid && (!IsAvatar(t) ==> h == g)
            && g.Present(j) == h.Present(j)
            && (g.Present(j) ==>
                  h.Player(j) == g.Player(j).(hit := g.Player(j).hit || t == 65 + j,
                                              score := g.Player(j).score + if j == k && IsAvatar(t) then 1 else 0,
                                              sent := h.Player(j).sent))
  {
  }

  /** Player j's recorded place is the first thing that player k looks at. */
  ghost predicate InLine(g: Game, k: nat, j: nat)
    requires g.Present(k) && g.Present(j)
  {
    exists n: nat :: g.grid.FirstThing(g.Player(k).Spot(), g.Player(k).gaze, n)
                     && g.Player(k).Spot().Ahead(g.Player(k).gaze, n) == g.Player(j).Spot()
  }

  lemma StandsInLine(template: Grid, g: Game, k: nat, j: nat)
    requires Inv(template, g) && g.Serving(k, Active) && g.Serving(j, Active) && InLine(g, k, j)
    ensures var p := g.Player(k);
            exists n: nat :: g.grid.FirstThing(p.Spot(), p.gaze, n) && g.grid.At(p.Spot().Ahead(p.gaze, n)) == 65 + j
  {
    var p := g.Player(k);
    assert PlaceOk(g.grid, j, g.table[j].value);
    var n: nat :| g.grid.FirstThing(p.Spot(), p.gaze, n) && p.Spot().Ahead(p.gaze, n) == g.Player(j).Spot();
    assert g.grid.At(p.Spot().Ahead(p.gaze, n)) == 65 + j;
  }

  /** Whoever's avatar stands at q is active and recorded at q. */
  lemma HolderOf(g: Game, j: nat, q: Pos)
    requires AvatarsOk(g.grid, g.table) && j < NUM_AVATARS && g.grid.InBounds(q) && g.grid.At(q) == 65 + j
    ensures g.Serving(j, Active) && g.Player(j).Spot() == q
  {
    assert IsAvatar(g.grid.At(q));
  }

  /** The search down the line of sight finds the player recorded at the cell that stops it. */
  lemma TargetIsItsOwner(template: Grid, g: Game, k: nat, j: nat)
    requires Inv(template, g) && g.Serving(k, Active) && j < NUM_AVATARS
    ensures g.Target(k) == 65 + j <==> g.Serving(j, Active) && j != k && InLine(g, k, j)
  {
    var p := g.Player(k);
    assert PlaceOk(g.grid, k, g.table[k].value);
    Sight.TargetExactly(g.grid, p.Spot(), p.gaze, 65 + j);
    assert g.Target(k) == g.grid.FindTarget(p.Spot(), p.gaze);
    if n: nat :| g.grid.FirstThing(p.Spot(), p.gaze, n) && g.grid.At(p.Spot().Ahead(p.gaze, n)) == 65 + j {
      HolderOf(g, j, p.Spot().Ahead(p.gaze, n));
      assert p.Spot().Ahead(p.gaze, n) != p.Spot();
    }
    if g.Serving(j, Active) && j != k && InLine(g, k, j) {
      StandsInLine(template, g, k, j);
    }
  }

  /** Whoever a laser hits is an active player, recorded at the cell that stopped it, and not the
      shooter.  The shot raises that player's flag, adds one to the shooter's score and touches
      nothing else but the packets sent; a shot that hits nobody changes nothing. */
  lemma ShotsHitWhoeverIsAhead(template: Grid, g: Game, k: nat, j: nat)
    requires Reachable(template, g) && j < NUM_AVATARS
    requires g.Serving(k, Active)
    ensures var h := Step(g, FireLaser(k));
            var hit := g.Serving(j, Active) && j != k && InLine(g, k, j);
            && h.grid == g.grid
            && (hit <==> g.Target(k) == 65 + j)
            && g.Present(j) == h.Present(j)
            && (g.Present(j) ==>
                  h.Player(j) == g.Player(j).(hit := g.Player(j).hit || hit,
                                              score := g.Player(j).score + if j == k && IsAvatar(g.Target(k)) then 1 else 0,
                                              sent := h.Player(j).sent))
            && (!IsAvatar(g.Target(k)) ==> h == g)
  {
    ReachableOk(template, g);
    TargetIsItsOwner(template, g, k, j);
    FireRecords(g, k, j);
  }

  /** What you see is what you hit: an avatar shown straight ahead on the client's own screen is
      the one the laser hits, and a laser that hits someone out of sight hits beyond the screen. */
  lemma WhatYouSeeIsWhatYouHit(template: Grid, g: Game, k: nat, d: nat)
    requires Reachable(template, g) && 0 < d < VIEW_DEPTH
    requires g.Serving(k, Active)
    ensures var shown := DrawAll(g.Player(k).glass, g.Player(k).sent)[d].corridor;
            && (IsAvatar(shown) ==> g.Target(k) == shown)
            && (IsAvatar(g.Target(k)) ==>
                  shown == g.Target(k) || shown == EMPTY)
  {
    ReachableOk(template, g);
    var p := g.Player(k);
    ScreensShowTheMaze(template, g, k);
    var v := g.grid.GetView(p.Spot(), p.gaze, VIEW_DEPTH);
    var n := Sight.ViewExactly(g.grid, p.Spot(), p.gaze, VIEW_DEPTH);
    if d < n {
      var at := p.Spot().Ahead(p.gaze, d);
      assert v[d].corridor == g.grid.At(at);
      Sight.RoomIsReach(g.grid, p.Spot(), p.gaze, d);
      if d < n - 1 {
        assert g.grid.Free(at);
      } else if v[d].corridor != EMPTY {
        assert g.grid.FirstThing(p.Spot(), p.gaze, d);
        Sight.TargetIsFirstThing(g.grid, p.Spot(), p.gaze, d);
      }
    }
  }

  function Shots(k: nat, n: nat): seq<Event> {
    seq(n, _ => FireLaser(k))
  }

  /** Player k is active, has a target ahead and the given score. */
  ghost predicate Aims(template: Grid, g: Game, k: nat, score: nat) {
    Inv(template, g) && g.Serving(k, Active) && IsAvatar(g.Target(k)) && g.Player(k).score == score
  }

  lemma AimKept(template: Grid, g: Game, h: Game, k: nat, score: nat)
    requires Aims(template, g, k, score) && Inv(template, h) && h.Present(k) && g.grid == h.grid
    requires h.Player(k) == g.Player(k).(hit := h.Player(k).hit, score := score + 1, sent := h.Player(k).sent)
    ensures Aims(template, h, k, score + 1)
  {
  }

  /** A shot at a target leaves the shooter where it is, with the same target and one more point. */
  lemma OneShot(template: Grid, g: Game, k: nat, score: nat)
    requires Aims(template, g, k, score)
    ensures Aims(template, Step(g, FireLaser(k)), k, score + 1)
  {
    FireKeeps(template, g, k);
    FireRecords(g, k, k);
    AimKept(template, g, g.Fire(k), k, score);
  }

  lemma PlayRepeated(g: Game, e: Event, n: nat)
    requires n > 0
    ensures Play(g, seq(n, _ => e)) == Play(Step(g, e), seq(n - 1, _ => e))
  {
    assert seq(n, _ => e)[1..] == seq(n - 1, _ => e);
  }

  /** What one step always does, n equal steps do n times. */
  lemma {:induction false} StepsAddUp(good: (Game, int) -> bool, g: Game, s: int, e: Event, n: nat)
    requires good(g, s) && forall h, t :: good(h, t) ==> good(Step(h, e), t + 1)
    ensures good(Play(g, seq(n, _ => e)), s + n)
    decreases n
  {
    if n == 0 {
      assert seq(n, _ => e) == [];
    } else {
      PlayRepeated(g, e, n);
      StepsAddUp(good, Step(g, e), s + 1, e, n - 1);
    }
  }

  /** Shots at someone who stays in the line of fire add up: n shots later the shooter's score is
      higher by n. */
  lemma ShotsAddUp(template: Grid, g: Game, k: nat, n: nat)
    requires Inv(template, g) && g.Serving(k, Active) && IsAvatar(g.Target(k))
    ensures var h := Play(g, Shots(k, n));
            Inv(template, h) && h.Serving(k, Active) && h.Player(k).score == g.Player(k).score + n
  {
    forall h: Game, s: nat | Aims(template, h, k, s) ensures Aims(template, Step(h, FireLaser(k)), k, s + 1) {
      OneShot(template, h, k, s);
    }
    StepsAddUp((h, s) => s >= 0 && Aims(template, h, k, s), g, g.Player(k).score, FireLaser(k), n);
  }

  lemma OwnEntry(template: Grid, g: Game, k: nat)
    requires Inv(template, g) && g.Present(k)
    ensures g.Player(k).Board()[k] == ToInt8(g.Player(k).score)
  {
    assert BoardOk(g.table, g.table[k].value.Board());
  }

  /** Scores above 127 break the scoreboard promise: whoever keeps a target ahead sees on its own
      scoreboard the number of its points as a signed byte.  That is the number itself exactly while
      it is at most 127; point 128 shows as -128, and point 255 as the mark of a player that left. */
  lemma ScoreboardPromiseBreaks(template: Grid, g: Game, k: nat, n: nat)
    requires Inv(template, g) && g.Serving(k, Active) && IsAvatar(g.Target(k)) && g.Player(k).score == 0
    ensures var h := Play(g, Shots(k, n));
            && h.Serving(k, Active) && h.Player(k).score == n
            && (h.Player(k).Board()[k] == n <==> n <= 127)
            && (n == 128 ==> h.Player(k).Board()[k] == -128) && (n == 255 ==> h.Player(k).Board()[k] == -1)
  {
    ShotsAddUp(template, g, k, n);
    OwnEntry(template, Play(g, Shots(k, n)), k);
    ScoreFitsExactly(n);
  }

  // ---- chatting ----

  /** What a chat packet is meant to say: the name, the bracketed avatar, a blank and the message. */
  function MeantChat(p: PlayerState, msg: seq<Object>): seq<Object> {
    var letter: Object := p.avatar;
    var tag: seq<Object> := [91, letter, 93, 32];
    p.name + tag + msg
  }

  /** player_send_chat: every player in the table is sent one packet and nothing else changes.  It
      carries the whole text exactly when that is shorter than 65536 bytes; else the 16-bit size has
      wrapped round and what arrives is the beginning of the text, nothing at all of 65536 bytes. */
  lemma ChatArrivesWholeExactly(g: Game, k: nat, msg: seq<Object>, j: nat) returns (text: Text)
    requires g.Present(k) && g.Present(j)
    ensures var h := g.Say(k, msg);
            && h.grid == g.grid && h.Present(j)
            && h.Player(j) == g.Player(j).(sent := g.Player(j).sent + [Chat(text)])
    ensures var whole := MeantChat(g.Player(k), msg);
            && text <= whole && |text| < 65536 && |text| % 65536 == |whole| % 65536
            && (text == whole <==> |whole| < 65536) && (|whole| == 65536 ==> text == [])
  {
    text := g.ChatText(k, msg);
  }

  // ---- coming and going ----

  function Taken(t: Table): set<nat> {
    set i: nat | i < NUM_AVATARS && t[i].Some?
  }

  lemma {:induction false} CountBelow(s: set<nat>, n: nat)
    requires forall i :: i in s ==> i < n
    ensures |s| <= n
    ensures |s| == n <==> forall i :: 0 <= i < n ==> i in s
    decreases n
  {
    if n == 0 {
      assert s == {};
    } else {
      CountBelow(s - {n - 1}, n - 1);
      if n - 1 in s {
        assert forall i :: 0 <= i < n - 1 ==> (i in s <==> i in s - {n - 1});
      } else {
        assert s - {n - 1} == s;
      }
    }
  }

  /** player_login, letter by letter.  Valid arguments: no name, an empty one or one that begins with a
      capital, and as avatar 0 or a letter of either case.  With valid arguments a login succeeds exactly
      when fewer than 26 avatars are taken.  It gets the letter it asks for, a small one standing for the
      capital, if that is free; else the first letter of the name, if free; else the least free one. */
  lemma LoginExactly(t: Table, avatar: Object, name: Option<seq<Object>>)
    ensures var slot := ChooseSlot(t, avatar, name);
            var named := name.Some? && name.value != [];
            var valid := (!named || 65 <= name.value[0] <= 90) && (avatar == 0 || 65 <= avatar <= 90 || 97 <= avatar <= 122);
            var wanted := if 65 <= avatar <= 90 then avatar - 65 else if 97 <= avatar <= 122 then avatar - 97 else -1;
            && (slot.Some? <==> valid && |Taken(t)| < 26)
            && (slot.Some? ==> slot.value < 26 && t[slot.value].None?)
            && (valid && wanted >= 0 && t[wanted].None? ==> slot == Some(wanted))
            && (valid && !(wanted >= 0 && t[wanted].None?) ==>
                  if named && t[name.value[0] - 65].None? then slot == Some(name.value[0] - 65)
                  else slot.Some? ==> forall j :: 0 <= j < slot.value ==> t[j].Some?)
  {
    LeastFreeExactly(t, 0);
    CountBelow(Taken(t), NUM_AVATARS);
    var slot := ChooseSlot(t, avatar, name);
    if slot.Some? {
      assert slot.value !in Taken(t);
    }
  }

  /** A LOGIN that gets a slot puts its player in the game exactly when some cell is blank; with no
      blank cell the table and the maze are as before. */
  lemma JoiningNeedsRoom(template: Grid, g: Game, avatar: Object, name: Option<seq<Object>>, glass: Screen, draw: nat)
    requires Reachable(template, g)
    requires ChooseSlot(g.table, avatar, name).Some?
    ensures var h := Step(g, LogIn(avatar, name, glass, draw));
            var k := ChooseSlot(g.table, avatar, name).value;
            && (h.Serving(k, Active) <==> exists q :: g.grid.Free(q))
            && (!h.Serving(k, Active) ==> h.grid == g.grid && Taken(h.table) == Taken(g.table))
  {
    var k := ChooseSlot(g.table, avatar, name).value;
    ReachableOk(template, g);
    ChosenSlotIsFree(g.table, avatar, name);
    JoinKeeps(template, g, k, name, glass, draw);
    RandomSpotIsFree(g.grid, draw);
  }

  lemma HitFreezes(g: Game, k: nat)
    requires g.Serving(k, Active) && g.Player(k).hit
    ensures var h := g.TakeHit(k);
            h.grid == g.Unplaced(k) && h.Serving(k, Frozen) && !h.Player(k).hit
  {
  }

  lemma GoneWhenHit(template: Grid, g: Game, k: nat)
    requires Inv(template, g) && g.Serving(k, Active)
    ensures MazeRuns.Absent(g.Unplaced(k), 65 + k)
  {
    InvMeansOthersOk(template, g, k);
    UnplacedIsGone(template, g, k);
  }

  /** A player that was hit is out of the maze while it sleeps. */
  lemma HitPlayersVanish(template: Grid, g: Game, k: nat)
    requires Reachable(template, g) && g.Serving(k, Active) && g.Player(k).hit
    ensures var h := Step(g, CheckHit(k));
            h.Serving(k, Frozen) && !h.Player(k).hit && MazeRuns.Absent(h.grid, 65 + k)
  {
    ReachableOk(template, g);
    GoneWhenHit(template, g, k);
    HitFreezes(g, k);
  }

  lemma BackAt(g: Game, k: nat, draw: nat)
    requires g.Serving(k, Frozen) && g.Unplaced(k) == g.grid
    ensures var h := g.Reset(k, draw);
            match g.grid.RandomSpot(draw)
            case None => h.Serving(k, Ended) && h.grid == g.grid
            case Some(spot) =>
              h.Serving(k, Active) && h.Player(k).Spot() == spot && h.grid == g.grid.Put(spot, g.Player(k).avatar)
  {
    if g.grid.RandomSpot(draw).Some? {
      var spot := g.grid.RandomSpot(draw).value;
      var q := g.Player(k).(row := spot.row, col := spot.col, phase := Active);
      AnnouncedRecords(g.grid.Put(spot, g.Player(k).avatar), g.table[k := Some(q)], k);
    }
  }

  lemma NotThere(template: Grid, g: Game, k: nat)
    requires Inv(template, g) && g.Present(k) && g.Player(k).phase != Active
    ensures g.Unplaced(k) == g.grid && g.Player(k).avatar == 65 + k
  {
    InvMeansOthersOk(template, g, k);
    UnplacedIsGone(template, g, k);
  }

  /** The reset that ends its sleep brings it back on a blank cell, with nobody else moved, unless
      the maze has filled up meanwhile; exactly then its session is over. */
  lemma HitPlayersComeBack(template: Grid, g: Game, k: nat, draw: nat)
    requires Reachable(template, g) && g.Serving(k, Frozen)
    ensures var h := g.Reset(k, draw);
            if exists q :: g.grid.Free(q)
            then h.Serving(k, Active) && g.grid.Free(h.Player(k).Spot())
                 && h.grid == g.grid.Put(h.Player(k).Spot(), 65 + k)
            else h.Serving(k, Ended) && h.grid == g.grid
  {
    ReachableOk(template, g);
    NotThere(template, g, k);
    RandomSpotIsFree(g.grid, draw);
    BackAt(g, k, draw);
  }
}
