/** The player table and what each operation on it does (src/player.c), on values: the maze, and
    for every slot the player record together with all packets its client was sent. */
module Games {
  import opened Compass
  import opened Grids
  import opened Display

  /** Where the thread serving a player stands: in its service loop, asleep after a hit, or on its
      way out because its last reset found no room. */
  datatype Phase = Active | Frozen | Ended

  datatype PlayerState = PlayerState(
    avatar: Avatar,
    name: seq<Object>,
    row: int,
    col: int,
    gaze: Direction,
    score: nat,
    prev: Option<View>,
    refs: nat,
    hit: bool,
    phase: Phase,
    glass: Screen,      // what the client's screen showed before it joined
    sent: seq<Packet>)  // everything the client was sent since
  {
    function Spot(): Pos {
      Pos(row, col)
    }

    function Screen(): Screen {
      DrawAll(glass, sent)
    }

    function Board(): Board {
      TallyAll(EmptyBoard(), sent)
    }

    function Send(ps: seq<Packet>): PlayerState {
      this.(sent := sent + ps)
    }

    function ScorePacket(): Packet {
      Score(avatar, ToInt8(score))
    }

    function Invalidated(): PlayerState {
      this.(prev := None)
    }

    function SeenIn(grid: Grid): (v: View)
      ensures |v| <= VIEW_DEPTH
    {
      grid.GetView(Spot(), gaze, VIEW_DEPTH)
    }

    function Updated(grid: Grid): PlayerState {
      Send(UpdatePackets(SeenIn(grid), prev)).(prev := Some(SeenIn(grid)))
    }
  }

  type Slot = Option<PlayerState>

  type Table = t: seq<Slot> | |t| == NUM_AVATARS witness seq(NUM_AVATARS, _ => None)

  function UpdatedSlot(grid: Grid, s: Slot): Slot {
    if s.None? then None else Some(s.value.Updated(grid))
  }

  function RefreshedSlot(grid: Grid, s: Slot): Slot {
    if s.None? then None else Some(s.value.Invalidated().Updated(grid))
  }

  function SentSlot(s: Slot, p: Packet): Slot {
    if s.None? then None else Some(s.value.Send([p]))
  }

  function EachUpdated(grid: Grid, t: Table): Table {
    seq(NUM_AVATARS, i requires 0 <= i < NUM_AVATARS => UpdatedSlot(grid, t[i]))
  }

  function EachRefreshed(grid: Grid, t: Table): Table {
    seq(NUM_AVATARS, i requires 0 <= i < NUM_AVATARS => RefreshedSlot(grid, t[i]))
  }

  /** Everybody in the table, slot `except` left out, is sent p. */
  function EachSent(t: Table, p: Packet, except: int): Table {
    seq(NUM_AVATARS, i requires 0 <= i < NUM_AVATARS => if i == except then t[i] else SentSlot(t[i], p))
  }

  /** One SCORE packet for every player in slots i and up. */
  function ScoreList(t: Table, i: nat): seq<Packet>
    decreases |t| - i
  {
    if i >= NUM_AVATARS then []
    else (if t[i].Some? then [t[i].value.ScorePacket()] else []) + ScoreList(t, i + 1)
  }

  /** The end of a reset: everyone's view is redrawn in full, the player of slot k is told all
      scores, and everyone else is told its score. */
  function Announced(grid: Grid, t: Table, k: nat): Table
    requires k < NUM_AVATARS && t[k].Some?
  {
    var shown := EachRefreshed(grid, t);
    var told := shown[k := Some(shown[k].value.Send(ScoreList(shown, 0)))];
    EachSent(told, t[k].value.ScorePacket(), k)
  }

  // ---- choosing an avatar at login ----

  predicate IsLower(o: Object) {
    97 <= o <= 122
  }

  function ToUpper(o: Object): Object {
    if IsLower(o) then o - 32 else o
  }

  predicate HasName(name: Option<seq<Object>>) {
    name.Some? && name.value != []
  }

  predicate ValidLogin(avatar: Object, name: Option<seq<Object>>) {
    && (HasName(name) ==> IsAvatar(name.value[0]))
    && (avatar == 0 || IsAvatar(avatar) || IsLower(avatar))
  }

  function Initial(name: Option<seq<Object>>): Object {
    if HasName(name) then name.value[0] else 0
  }

  predicate FreeLetter(t: Table, o: Object) {
    IsAvatar(o) && t[o - 65].None?
  }

  function LeastFree(t: Table, i: nat): Option<nat>
    decreases |t| - i
  {
    if i >= NUM_AVATARS then None
    else if t[i].None? then Some(i)
    else LeastFree(t, i + 1)
  }

  /** The slot a login gets, or None when it is refused. */
  function ChooseSlot(t: Table, avatar: Object, name: Option<seq<Object>>): (r: Option<nat>)
    ensures r.Some? ==> r.value < NUM_AVATARS
  {
    if !ValidLogin(avatar, name) then None
    else if FreeLetter(t, ToUpper(avatar)) then Some(ToUpper(avatar) - 65)
    else if FreeLetter(t, Initial(name)) then Some(Initial(name) - 65)
    else if LeastFree(t, 0).Some? && LeastFree(t, 0).value < NUM_AVATARS then LeastFree(t, 0)
    else None
  }

  const ANONYMOUS: seq<Object> := [65, 110, 111, 110, 121, 109, 111, 117, 115]

  function NewPlayer(k: nat, name: Option<seq<Object>>, glass: Screen): PlayerState
    requires k < NUM_AVATARS
  {
    PlayerState(65 + k, if HasName(name) then name.value else ANONYMOUS, -1, -1, EAST, 0, None, 1, false,
                Active, glass, [])
  }

  // ---- the game ----

  datatype Game = Game(grid: Grid, table: Table) {

    predicate Present(k: nat) {
      k < NUM_AVATARS && table[k].Some?
    }

    predicate Serving(k: nat, phase: Phase) {
      Present(k) && table[k].value.phase == phase
    }

    function Player(k: nat): PlayerState
      requires Present(k)
    {
      table[k].value
    }

    predicate Located(k: nat)
      requires Present(k)
    {
      grid.InBounds(Player(k).Spot())
    }

    function With(k: nat, p: PlayerState): Game
      requires k < NUM_AVATARS
    {
      this.(table := table[k := Some(p)])
    }

    /** The avatar of slot k leaves the maze. */
    function Unplaced(k: nat): Grid
      requires Present(k)
    {
      if Located(k) then grid.RemovePlayer(Player(k).avatar, Player(k).Spot()) else grid
    }

    /** player_reset */
    function Reset(k: nat, draw: nat): Game
      requires Present(k)
    {
      var bare := Unplaced(k);
      var p := Player(k);
      match bare.RandomSpot(draw)
      case None => Game(bare, table[k := Some(p.(phase := Ended))])
      case Some(spot) =>
        var full := bare.Put(spot, p.avatar);
        Game(full, Announced(full, table[k := Some(p.(row := spot.row, col := spot.col, phase := Active))], k))
    }

    /** player_logout */
    function Logout(k: nat): Game
      requires Present(k)
    {
      var bare := Unplaced(k);
      var shown := if Located(k) then EachUpdated(bare, table) else table;
      Game(bare, EachSent(shown, Score(Player(k).avatar, -1), k)[k := None])
    }

    /** A LOGIN packet: player_login, READY and the first reset; a client that finds no room is
        logged out at once. */
    function Join(k: nat, name: Option<seq<Object>>, glass: Screen, draw: nat): Game
      requires k < NUM_AVATARS
    {
      var placed := With(k, NewPlayer(k, name, glass).Send([Ready])).Reset(k, draw);
      if placed.table[k].value.phase == Ended then placed.Logout(k) else placed
    }

    /** player_move */
    function Move(k: nat, dir: int): Game
      requires Present(k)
    {
      var p := Player(k);
      var heading := if dir == 1 then p.gaze else Reverse(p.gaze);
      if !Located(k) || !grid.CanMove(p.Spot(), heading) then this
      else
        var moved := grid.Move(p.Spot(), heading).0;
        var to := p.Spot().Ahead(heading, 1);
        Game(moved, EachUpdated(moved, table[k := Some(p.(row := to.row, col := to.col))]))
    }

    /** player_rotate */
    function Rotate(k: nat, dir: int): Game
      requires Present(k)
    {
      var p := Player(k);
      var turned := p.(gaze := if dir == 1 then TurnLeft(p.gaze) else TurnRight(p.gaze));
      With(k, turned.Invalidated().Updated(grid))
    }

    /** A REFRESH packet. */
    function Refresh(k: nat): Game
      requires Present(k)
    {
      With(k, Player(k).Invalidated().Updated(grid))
    }

    /** What player k's laser would hit. */
    function Target(k: nat): Object
      requires Present(k)
    {
      if Located(k) then grid.FindTarget(Player(k).Spot(), Player(k).gaze) else EMPTY
    }

    /** Raise the hit flag of the player with this avatar, if it is in the table. */
    function Struck(a: Avatar): Game {
      if Present(a - 65) then With(a - 65, Player(a - 65).(hit := true)) else this
    }

    /** Player k scores, and everyone is told. */
    function Point(k: nat): Game
      requires Present(k)
    {
      var scorer := Player(k).(score := Player(k).score + 1);
      this.(table := EachSent(table[k := Some(scorer)], scorer.ScorePacket(), -1))
    }

    /** player_fire_laser */
    function Fire(k: nat): Game
      requires Present(k)
    {
      var target := Target(k);
      if IsAvatar(target) then Struck(target).Point(k) else this
    }

    /** player_check_for_laser_hit up to the sleep. */
    function TakeHit(k: nat): Game
      requires Present(k)
    {
      var p := Player(k);
      if !p.hit then this
      else
        var unhit := table[k := Some(p.(hit := false))];
        var bare := Unplaced(k);
        var shown := if Located(k) then EachUpdated(bare, unhit) else unhit;
        Game(bare, shown[k := Some(shown[k].value.Send([Alert]).(phase := Frozen))])
    }

    /** player_send_chat; the size field is 16 bits wide. */
    function ChatText(k: nat, msg: seq<Object>): Text
      requires Present(k)
    {
      var letter: Object := Player(k).avatar;
      var tag: seq<Object> := [91, letter, 93, 32];
      var buf := Player(k).name + tag + msg;
      buf[..|buf| % 65536]
    }

    function Say(k: nat, msg: seq<Object>): Game
      requires Present(k)
    {
      this.(table := EachSent(table, Chat(ChatText(k, msg)), -1))
    }
  }

  /** What the server can do in one atomic step; `draw` is what rand() returned. */
  datatype Event =
    | LogIn(avatar: Object, name: Option<seq<Object>>, glass: Screen, draw: nat)
    | LogOut(k: nat)
    | MoveBy(k: nat, dir: int)
    | TurnBy(k: nat, dir: int)
    | FireLaser(k: nat)
    | RefreshView(k: nat)
    | SendChat(k: nat, msg: seq<Object>)
    | CheckHit(k: nat)
    | Wake(k: nat, draw: nat)

  function Step(g: Game, e: Event): Game {
    match e
    case LogIn(avatar, name, glass, draw) =>
      var slot := ChooseSlot(g.table, avatar, name);
      if slot.Some? then g.Join(slot.value, name, glass, draw) else g
    case LogOut(k) => if g.Serving(k, Active) || g.Serving(k, Ended) then g.Logout(k) else g
    case MoveBy(k, dir) => if g.Serving(k, Active) then g.Move(k, dir) else g
    case TurnBy(k, dir) => if g.Serving(k, Active) then g.Rotate(k, dir) else g
    case FireLaser(k) => if g.Serving(k, Active) then g.Fire(k) else g
    case RefreshView(k) => if g.Serving(k, Active) then g.Refresh(k) else g
    case SendChat(k, msg) => if g.Serving(k, Active) then g.Say(k, msg) else g
    case CheckHit(k) => if g.Serving(k, Active) then g.TakeHit(k) else g
    case Wake(k, draw) => if g.Serving(k, Frozen) then g.Reset(k, draw) else g
  }

  function Play(g: Game, es: seq<Event>): Game
    decreases es
  {
    if es == [] then g else Play(Step(g, es[0]), es[1..])
  }

  function Start(template: Grid): Game {
    Game(template, seq(NUM_AVATARS, _ => None))
  }
}
