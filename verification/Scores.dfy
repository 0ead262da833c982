/** Where scores come from, and a game in which they outgrow the scoreboard. */
module Scores {
  import opened Compass
  import opened Grids
  import opened Display
  import opened Games
  import opened GameRuns
  import opened GameTheorems

  // ---- a score is the number of hits ----

  /** The step is a shot of player k that finds a target. */
  predicate Hits(g: Game, e: Event, k: nat) {
    e == FireLaser(k) && g.Serving(k, Active) && IsAvatar(g.Target(k))
  }

  /** How many shots of player k have found a target since it joined; `before` counts those before
      this run. */
  function HitCount(g: Game, es: seq<Event>, k: nat, before: nat): nat
    decreases es
  {
    if es == [] then before
    else HitCount(Step(g, es[0]), es[1..], k,
                  if !g.Present(k) then 0 else if Hits(g, es[0], k) then before + 1 else before)
  }

  /** The same players with the same scores, slot `except` perhaps not. */
  ghost predicate SameScores(g: Game, h: Game, except: int) {
    forall j: nat :: j != except ==>
      g.Present(j) == h.Present(j) && (g.Present(j) ==> g.Player(j).score == h.Player(j).score)
  }

  lemma QuietOperations(g: Game, k: nat, dir: int, msg: seq<Object>)
    requires g.Present(k)
    ensures SameScores(g, g.Move(k, dir), -1) && SameScores(g, g.Rotate(k, dir), -1)
    ensures SameScores(g, g.Refresh(k), -1) && SameScores(g, g.Say(k, msg), -1)
  {
  }

  lemma TakeHitKeepsScores(g: Game, k: nat)
    requires g.Present(k)
    ensures SameScores(g, g.TakeHit(k), -1)
  {
  }

  lemma LogoutKeepsScores(g: Game, k: nat)
    requires g.Present(k)
    ensures SameScores(g, g.Logout(k), k) && !g.Logout(k).Present(k)
  {
  }

  lemma ResetKeepsScores(g: Game, k: nat, draw: nat)
    requires g.Present(k)
    ensures SameScores(g, g.Reset(k, draw), -1)
  {
    if g.Unplaced(k).RandomSpot(draw).Some? {
      var spot := g.Unplaced(k).RandomSpot(draw).value;
      var t := g.table[k := Some(g.Player(k).(row := spot.row, col := spot.col, phase := Active))];
      AnnouncedRecords(g.Unplaced(k).Put(spot, g.Player(k).avatar), t, k);
    }
  }

  lemma JoinKeepsScores(g: Game, k: nat, name: Option<seq<Object>>, glass: Screen, draw: nat)
    requires k < NUM_AVATARS
    ensures var h := g.Join(k, name, glass, draw);
            SameScores(g, h, k) && (h.Present(k) ==> h.Player(k).score == 0)
  {
    var h := g.With(k, NewPlayer(k, name, glass).Send([Ready]));
    ResetKeepsScores(h, k, draw);
    LogoutKeepsScores(h.Reset(k, draw), k);
  }

  lemma FireScores(g: Game, k: nat, j: nat)
    requires g.Serving(k, Active) && j < NUM_AVATARS
    ensures var h := g.Fire(k);
            && g.Present(j) == h.Present(j)
            && (g.Present(j) ==>
                  h.Player(j).score == g.Player(j).score + if j == k && IsAvatar(g.Target(k)) then 1 else 0)
  {
    FireRecords(g, k, j);
  }

  /** One step: a newcomer has no points, and a player's score changes in no way but by one point for
      each shot of its own that finds a target. */
  lemma StepScores(g: Game, e: Event, j: nat)
    ensures Step(g, e).Present(j) ==>
              Step(g, e).Player(j).score ==
              if !g.Present(j) then 0 else g.Player(j).score + if Hits(g, e, j) then 1 else 0
  {
    match e
    case LogIn(avatar, name, glass, draw) =>
      ChosenSlotIsFree(g.table, avatar, name);
      var slot := ChooseSlot(g.table, avatar, name);
      if slot.Some? { JoinKeepsScores(g, slot.value, name, glass, draw); }
    case LogOut(k) => if g.Present(k) { LogoutKeepsScores(g, k); }
    case Wake(k, draw) => if g.Present(k) { ResetKeepsScores(g, k, draw); }
    case MoveBy(k, dir) => if g.Present(k) { QuietOperations(g, k, dir, []); }
    case TurnBy(k, dir) => if g.Present(k) { QuietOperations(g, k, dir, []); }
    case SendChat(k, msg) => if g.Present(k) { QuietOperations(g, k, 0, msg); }
    case RefreshView(k) => if g.Present(k) { QuietOperations(g, k, 0, []); }
    case FireLaser(k) => if g.Serving(k, Active) && j < NUM_AVATARS { FireScores(g, k, j); }
    case CheckHit(k) => if g.Present(k) { TakeHitKeepsScores(g, k); }
  }

  lemma {:induction false} ScoresCountHitsFrom(g: Game, es: seq<Event>, k: nat, before: nat)
    requires g.Present(k) ==> g.Player(k).score == before
    ensures Play(g, es).Present(k) ==> Play(g, es).Player(k).score == HitCount(g, es, k, before)
    decreases es
  {
    if es != [] {
      var now := if !g.Present(k) then 0 else if Hits(g, es[0], k) then before + 1 else before;
      StepScores(g, es[0], k);
      ScoresCountHitsFrom(Step(g, es[0]), es[1..], k, now);
    }
  }

  /** After every run a player's score is the number of its shots that found a target since it joined. */
  lemma ScoresCountHits(template: Grid, es: seq<Event>, k: nat)
    ensures var g := Play(Start(template), es);
            g.Present(k) ==> g.Player(k).score == HitCount(Start(template), es, k, 0)
  {
    ScoresCountHitsFrom(Start(template), es, k, 0);
  }

  // ---- a game that outgrows the scoreboard ----

  const BRICK: Object := 42

  /** A solid border around two cells. */
  function Arena(): Grid {
    Grid(3, 4, map r, c | 0 <= r < 3 && 0 <= c < 4 :: Pos(r, c) := if r == 1 && 0 < c < 3 then EMPTY else BRICK)
  }

  lemma ArenaPlayable()
    ensures Playable(Arena())
    ensures forall p :: Arena().Free(p) <==> p == Pos(1, 1) || p == Pos(1, 2)
  {
  }

  /** A newcomer that finds room stands on a blank cell, looks east and has no points; nobody else's
      record changes but for its view. */
  lemma JoinRecords(g: Game, k: nat, name: Option<seq<Object>>, glass: Screen, draw: nat)
    requires k < NUM_AVATARS && g.table[k].None? && g.grid.RandomSpot(draw).Some?
    ensures var h := g.Join(k, name, glass, draw); var spot := g.grid.RandomSpot(draw).value;
            && h.grid == g.grid.Put(spot, 65 + k) && h.Serving(k, Active)
            && h.Player(k).Spot() == spot && h.Player(k).gaze == EAST && h.Player(k).score == 0
            && forall j: nat :: j != k ==>
                 && g.Present(j) == h.Present(j)
                 && (g.Present(j) ==> h.Player(j) == g.Player(j).(prev := h.Player(j).prev, sent := h.Player(j).sent))
  {
    var spot := g.grid.RandomSpot(draw).value;
    var n := NewPlayer(k, name, glass).Send([Ready]).(row := spot.row, col := spot.col, phase := Active);
    AnnouncedRecords(g.grid.Put(spot, 65 + k), g.table[k := Some(n)], k);
  }

  /** The arena with one newcomer in it. */
  ghost predicate OneIn(g: Game) {
    && g.Serving(0, Active) && g.Player(0).gaze == EAST && g.Player(0).score == 0 && g.table[1].None?
    && Arena().Free(g.Player(0).Spot()) && g.grid == Arena().Put(g.Player(0).Spot(), 65)
  }

  lemma FirstJoins(g: Game, glass: Screen)
    requires g == Start(Arena())
    ensures OneIn(g.Join(0, None, glass, 0))
  {
    ArenaPlayable();
    assert Arena().Free(Pos(1, 1));
    RandomSpotIsFree(Arena(), 0);
    JoinRecords(g, 0, None, glass, 0);
  }

  lemma SecondJoins(g: Game, glass: Screen)
    requires OneIn(g)
    ensures var h := g.Join(1, None, glass, 0);
            && h.Serving(0, Active) && h.Serving(1, Active) && h.Player(0).Spot() == g.Player(0).Spot()
            && h.Player(0).gaze == EAST == h.Player(1).gaze && h.Player(0).score == 0 == h.Player(1).score
            && g.grid.Free(h.Player(1).Spot()) && h.grid == g.grid.Put(h.Player(1).Spot(), 66)
  {
    ArenaPlayable();
    assert g.grid.Valid() && g.grid.Free(if g.Player(0).Spot() == Pos(1, 1) then Pos(1, 2) else Pos(1, 1));
    RandomSpotIsFree(g.grid, 0);
    JoinRecords(g, 1, None, glass, 0);
  }

  lemma TwoLogins(g: Game, glass: Screen)
    requires g == Start(Arena()) && g.Join(0, None, glass, 0).table[1].None?
    ensures Play(g, [LogIn(65, None, glass, 0), LogIn(66, None, glass, 0)]) ==
            g.Join(0, None, glass, 0).Join(1, None, glass, 0)
  {
    var first, second := LogIn(65, None, glass, 0), LogIn(66, None, glass, 0);
    assert [first, second][1..] == [second] && [second][1..] == [];
    assert ChooseSlot(g.table, 65, None) == Some(0);
    var one := Step(g, first);
    assert one == g.Join(0, None, glass, 0) && ChooseSlot(one.table, 66, None) == Some(1);
    assert Play(one, [second]) == Play(Step(one, second), []);
  }

  /** Two have joined, in this order. */
  ghost predicate TwoIn(one: Game, g: Game) {
    && OneIn(one) && g.Serving(0, Active) && g.Serving(1, Active) && g.Player(0).Spot() == one.Player(0).Spot()
    && g.Player(0).gaze == EAST == g.Player(1).gaze && g.Player(0).score == 0 == g.Player(1).score
    && one.grid.Free(g.Player(1).Spot()) && g.grid == one.grid.Put(g.Player(1).Spot(), 66)
  }

  lemma BothJoin(glass: Screen) returns (one: Game, g: Game)
    ensures g == Play(Start(Arena()), [LogIn(65, None, glass, 0), LogIn(66, None, glass, 0)]) && TwoIn(one, g)
  {
    var start := Start(Arena());
    one := start.Join(0, None, glass, 0);
    FirstJoins(start, glass);
    SecondJoins(one, glass);
    TwoLogins(start, glass);
    g := one.Join(1, None, glass, 0);
  }

  lemma FacesTheOther(g: Game, k: nat)
    requires g.Serving(k, Active) && g.Player(k).Spot() == Pos(1, 1) && g.Player(k).gaze == EAST
    requires g.grid.InBounds(Pos(1, 1)) && g.grid.InBounds(Pos(1, 2)) && IsAvatar(g.grid.At(Pos(1, 2)))
    ensures IsAvatar(g.Target(k))
  {
    assert Pos(1, 1).Ahead(EAST, 1) == Pos(1, 2);
  }

  lemma WhoAims(one: Game, g: Game) returns (k: nat)
    requires TwoIn(one, g)
    ensures g.Serving(k, Active) && g.Player(k).score == 0 && IsAvatar(g.Target(k))
  {
    ArenaPlayable();
    k := if g.Player(0).Spot() == Pos(1, 1) then 0 else 1;
    FacesTheOther(g, k);
  }

  /** Two players in the arena: whoever stands in the west has the other ahead. */
  lemma TwoInTheArena(glass: Screen) returns (g: Game, k: nat)
    ensures Reachable(Arena(), g) && Aims(Arena(), g, k, 0)
  {
    var one;
    one, g := BothJoin(glass);
    k := WhoAims(one, g);
    ArenaPlayable();
    ReachableOk(Arena(), g);
  }

  lemma {:induction false} PlayAppends(g: Game, es: seq<Event>, fs: seq<Event>)
    ensures Play(g, es + fs) == Play(Play(g, es), fs)
    decreases es
  {
    if es == [] {
      assert es + fs == fs;
    } else {
      assert (es + fs)[1..] == es[1..] + fs;
      PlayAppends(Step(g, es[0]), es[1..], fs);
    }
  }

  lemma StillReachable(template: Grid, g: Game, es: seq<Event>)
    requires Reachable(template, g)
    ensures Reachable(template, Play(g, es))
  {
    var before :| g == Play(Start(template), before);
    PlayAppends(Start(template), before, es);
  }

  /** For any number of points there is a reachable state in which a serving player has that many; its
      own scoreboard shows them if and only if they are at most 127. */
  lemma ScoresOutgrowTheBoard(glass: Screen, n: nat) returns (g: Game, k: nat)
    ensures Reachable(Arena(), g) && g.Serving(k, Active) && g.Player(k).score == n
    ensures TallyAll(EmptyBoard(), g.Player(k).sent)[k] == n <==> n <= 127
  {
    g, k := TwoInTheArena(glass);
    ScoreboardPromiseBreaks(Arena(), g, k, n);
    StillReachable(Arena(), g, Shots(k, n));
    g := Play(g, Shots(k, n));
  }
}
