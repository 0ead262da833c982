/** Sessions at the grain of critical sections.  Any number of session threads interleave; one step is
    one locked section of the maze or of the player table, or one store to a player record
    (src/player.c, src/maze.c).  Readers of the maze and of other records change nothing and are not
    steps. */
module Threads {
  import opened Compass
  import opened Grids
  import opened MazeRuns

  /** The next thing a session thread does. */
  datatype Pc =
    | Out                               // no session
    | Joined                            // logged in; player_reset reads its location next
    | ResetTake(found: Option<Pos>)     // maze_remove_player, if a location was found
    | ResetPut                          // maze_set_player_random
    | StoreRow(to: Pos)                 // player->row = ...
    | StoreCol(to: Pos)                 // player->col = ...
    | Serving                           // between packets
    | Moving(from: Pos, heading: Direction)  // maze_move
    | HitTake(from: Pos)                // maze_remove_player after a hit
    | Asleep                            // sleep(3), then player_reset
    | Leaving                           // player_logout reads its location next
    | LeaveTake(found: Option<Pos>)     // maze_remove_player, if a location was found
    | LeaveClear                        // players[avatar] = NULL

  /** `placed` remembers whether the avatar has been put into the maze and not taken out since. */
  datatype Thread = Thread(avatar: Avatar, row: int, col: int, pc: Pc, placed: bool) {
    function Recorded(): Pos {
      Pos(row, col)
    }

    /** Where the avatar of a placed thread is: at the recorded cell, or at the destination while
        the stores to the record are under way. */
    function Where(): Pos {
      if pc.StoreRow? || pc.StoreCol? then pc.to else Recorded()
    }
  }

  /** The maze, the player table (which thread took each avatar) and the threads. */
  datatype World = World(grid: Grid, table: Slots, threads: seq<Thread>)

  datatype Command = Walk(heading: Direction) | TakeHit | HangUp

  /** Everything a step may depend on from outside: the avatar a login settles on, the next packet or
      signal, and the random draw. */
  datatype Choice = Choice(avatar: Avatar, command: Command, draw: nat)

  function Located(g: Grid, t: Thread): Option<Pos> {
    if g.InBounds(t.Recorded()) then Some(t.Recorded()) else None
  }

  function With(w: World, i: nat, t: Thread): World
    requires i < |w.threads|
  {
    w.(threads := w.threads[i := t])
  }

  function TakenFrom(g: Grid, a: Avatar, from: Option<Pos>): Grid {
    if from.None? then g else g.RemovePlayer(a, from.value)
  }

  /** One step of thread i.  A login whose avatar is taken waits. */
  function Step(w: World, i: nat, c: Choice): World
    requires i < |w.threads|
  {
    var t := w.threads[i];
    match t.pc
    case Out =>
      if w.table[c.avatar - 65].Some? then w
      else With(w, i, Thread(c.avatar, -1, -1, Joined, false)).(table := w.table[c.avatar - 65 := Some(i)])
    case Joined => With(w, i, t.(pc := ResetTake(Located(w.grid, t))))
    case ResetTake(from) =>
      With(w, i, t.(pc := ResetPut)).(grid := TakenFrom(w.grid, t.avatar, from))
    case ResetPut =>
      (match w.grid.RandomSpot(c.draw)
       case None => With(w, i, t.(pc := Leaving))
       case Some(spot) => With(w, i, t.(pc := StoreRow(spot), placed := true)).(grid := w.grid.Put(spot, t.avatar)))
    case StoreRow(to) => With(w, i, t.(row := to.row, pc := StoreCol(to)))
    case StoreCol(to) => With(w, i, t.(col := to.col, pc := Serving))
    case Serving =>
      (match c.command
       case Walk(heading) =>
         if Located(w.grid, t).Some? then With(w, i, t.(pc := Moving(t.Recorded(), heading))) else w
       case TakeHit =>
         if Located(w.grid, t).Some? then With(w, i, t.(pc := HitTake(t.Recorded()))) else With(w, i, t.(pc := Asleep))
       case HangUp => With(w, i, t.(pc := Leaving)))
    case Moving(from, heading) =>
      var (moved, result) := w.grid.Move(from, heading);
      With(w, i, t.(pc := if result == 0 then StoreRow(from.Ahead(heading, 1)) else Serving)).(grid := moved)
    case HitTake(from) =>
      With(w, i, t.(pc := Asleep, placed := false)).(grid := w.grid.RemovePlayer(t.avatar, from))
    case Asleep => With(w, i, t.(pc := Joined))
    case Leaving => With(w, i, t.(pc := LeaveTake(Located(w.grid, t))))
    case LeaveTake(from) =>
      With(w, i, t.(pc := LeaveClear, placed := false)).(grid := TakenFrom(w.grid, t.avatar, from))
    case LeaveClear => With(w, i, t.(pc := Out)).(table := w.table[t.avatar - 65 := None])
  }

  datatype Turn = Turn(thread: nat, choice: Choice)

  /** A schedule; turns of threads that do not exist are skipped. */
  function Schedule(w: World, turns: seq<Turn>): World
    decreases turns
  {
    if turns == [] then w
    else if turns[0].thread < |w.threads| then Schedule(Step(w, turns[0].thread, turns[0].choice), turns[1..])
    else Schedule(w, turns[1..])
  }

  function Idle(n: nat): seq<Thread> {
    seq(n, _ => Thread(65, -1, -1, Out, false))
  }

  function Begin(template: Grid, n: nat): World {
    World(template, seq(NUM_AVATARS, _ => None), Idle(n))
  }

  // ---- the invariant ----

  /** What the place in the program says about the maze. */
  ghost predicate PcOk(t: Thread) {
    match t.pc
    case Moving(from, _) => t.placed && from == t.Recorded()
    case HitTake(from) => t.placed && from == t.Recorded()
    case StoreRow(_) => t.placed
    case StoreCol(to) => t.placed && t.row == to.row
    case Serving => t.placed
    case Leaving => true
    case LeaveTake(from) => t.placed ==> from == Some(t.Recorded())
    case _ => !t.placed
  }

  ghost predicate ThreadOk(w: World, i: nat)
    requires i < |w.threads|
  {
    var t := w.threads[i];
    && PcOk(t)
    && (!t.pc.Out? ==> w.table[t.avatar - 65] == Some(i))
    && (t.placed ==> w.grid.InBounds(t.Where()) && w.grid.At(t.Where()) == t.avatar)
  }

  /** Slot k belongs to a live thread with that avatar. */
  ghost predicate SlotOk(w: World, k: nat)
    requires k < NUM_AVATARS
  {
    w.table[k].Some? ==>
      && w.table[k].value < |w.threads|
      && w.threads[w.table[k].value].avatar == 65 + k && !w.threads[w.table[k].value].pc.Out?
  }

  /** An avatar in the maze is the avatar of the placed thread in its slot, at that thread's place. */
  ghost predicate CellOk(w: World, q: Pos)
  {
    w.grid.InBounds(q) && IsAvatar(w.grid.At(q)) ==>
      var s := w.table[w.grid.At(q) - 65];
      s.Some? && s.value < |w.threads| && w.threads[s.value].placed && w.threads[s.value].Where() == q
  }

  ghost predicate Inv(template: Grid, w: World) {
    && SameWalls(template, w.grid)
    && (forall i :: 0 <= i < |w.threads| ==> ThreadOk(w, i))
    && (forall k :: 0 <= k < NUM_AVATARS ==> SlotOk(w, k))
    && (forall q :: CellOk(w, q))
  }

  /** Thread i changes its own record and program counter only, and the maze stays as it is. */
  lemma RecordStep(template: Grid, w: World, i: nat, t: Thread)
    requires Inv(template, w) && i < |w.threads|
    requires t.avatar == w.threads[i].avatar && t.placed == w.threads[i].placed && PcOk(t)
    requires t.placed ==> t.Where() == w.threads[i].Where()
    requires t.pc.Out? == w.threads[i].pc.Out?
    ensures Inv(template, With(w, i, t))
  {
    var v := With(w, i, t);
    forall j | 0 <= j < |v.threads| ensures ThreadOk(v, j) {
      assert ThreadOk(w, j);
    }
    forall k | 0 <= k < NUM_AVATARS ensures SlotOk(v, k) {
      assert SlotOk(w, k);
    }
    forall q ensures CellOk(v, q) {
      assert CellOk(w, q);
    }
  }

  /** Thread i takes its avatar out of the maze, if it is there. */
  lemma TakeStep(template: Grid, w: World, i: nat, from: Option<Pos>, t: Thread)
    requires Inv(template, w) && i < |w.threads| && !w.threads[i].pc.Out?
    requires w.threads[i].placed ==> from == Some(w.threads[i].Where())
    requires t.avatar == w.threads[i].avatar && !t.placed && PcOk(t) && !t.pc.Out?
    ensures Inv(template, With(w, i, t).(grid := TakenFrom(w.grid, t.avatar, from)))
    ensures Absent(TakenFrom(w.grid, t.avatar, from), t.avatar)
  {
    var g := TakenFrom(w.grid, t.avatar, from);
    var v := With(w, i, t).(grid := g);
    assert ThreadOk(w, i);
    forall q | w.grid.InBounds(q) && w.grid.At(q) == t.avatar ensures w.threads[i].placed && Some(q) == from {
      assert CellOk(w, q);
    }
    assert forall q :: g.At(q) == if w.grid.InBounds(q) && w.grid.At(q) == t.avatar then EMPTY else w.grid.At(q);
    forall j | 0 <= j < |v.threads| ensures ThreadOk(v, j) {
      assert ThreadOk(w, j);
    }
    forall k | 0 <= k < NUM_AVATARS ensures SlotOk(v, k) {
      assert SlotOk(w, k);
    }
    forall q ensures CellOk(v, q) {
      assert CellOk(w, q);
    }
  }

  /** Thread i, whose avatar is nowhere, puts it on a blank cell. */
  lemma PutStep(template: Grid, w: World, i: nat, spot: Pos, t: Thread)
    requires Inv(template, w) && i < |w.threads| && !w.threads[i].pc.Out? && !w.threads[i].placed
    requires w.grid.Free(spot)
    requires t.avatar == w.threads[i].avatar && t.placed && PcOk(t) && !t.pc.Out? && t.Where() == spot
    ensures Inv(template, With(w, i, t).(grid := w.grid.Put(spot, t.avatar)))
  {
    var g := w.grid.Put(spot, t.avatar);
    var v := With(w, i, t).(grid := g);
    assert ThreadOk(w, i);
    forall j | 0 <= j < |v.threads| ensures ThreadOk(v, j) {
      assert ThreadOk(w, j);
    }
    forall k | 0 <= k < NUM_AVATARS ensures SlotOk(v, k) {
      assert SlotOk(w, k);
    }
    forall q ensures CellOk(v, q) {
      assert CellOk(w, q);
    }
  }

  lemma MovedCells(g: Grid, from: Pos, heading: Direction)
    requires g.Valid() && g.CanMove(from, heading)
    ensures var h := g.Move(from, heading).0;
            && SameWalls(g, h)
            && forall q :: h.At(q) == if q == from.Ahead(heading, 1) then g.At(from)
                                      else if q == from then EMPTY else g.At(q)
  {
    ApplyKeepsWalls(g, MazeOp.Move(from, heading));
  }

  /** maze_move, called for a recorded cell, finds the caller's own avatar there and carries it to
      the cell that the caller is about to record; nobody else's place changes. */
  lemma MoveStep(template: Grid, w: World, i: nat, t: Thread)
    requires Inv(template, w) && i < |w.threads| && w.threads[i].pc.Moving?
    requires w.grid.CanMove(w.threads[i].pc.from, w.threads[i].pc.heading)
    requires t == w.threads[i].(pc := StoreRow(w.threads[i].pc.from.Ahead(w.threads[i].pc.heading, 1)))
    ensures Inv(template, With(w, i, t).(grid := w.grid.Move(w.threads[i].pc.from, w.threads[i].pc.heading).0))
  {
    var from, to := w.threads[i].pc.from, t.pc.to;
    var g := w.grid.Move(from, w.threads[i].pc.heading).0;
    var v := With(w, i, t).(grid := g);
    assert ThreadOk(w, i);
    MovedCells(w.grid, from, w.threads[i].pc.heading);
    forall j | 0 <= j < |v.threads| ensures ThreadOk(v, j) {
      assert ThreadOk(w, j);
    }
    forall k | 0 <= k < NUM_AVATARS ensures SlotOk(v, k) {
      assert SlotOk(w, k);
    }
    forall q ensures CellOk(v, q) {
      assert CellOk(w, q);
    }
  }

  lemma LoginStep(template: Grid, w: World, i: nat, a: Avatar)
    requires Inv(template, w) && i < |w.threads| && w.threads[i].pc.Out? && w.table[a - 65].None?
    ensures Inv(template, With(w, i, Thread(a, -1, -1, Joined, false)).(table := w.table[a - 65 := Some(i)]))
  {
    var v := With(w, i, Thread(a, -1, -1, Joined, false)).(table := w.table[a - 65 := Some(i)]);
    assert ThreadOk(w, i);
    forall j | 0 <= j < |v.threads| ensures ThreadOk(v, j) {
      assert ThreadOk(w, j);
    }
    forall k | 0 <= k < NUM_AVATARS ensures SlotOk(v, k) {
      assert SlotOk(w, k);
    }
    forall q ensures CellOk(v, q) {
      assert CellOk(w, q);
    }
  }

  lemma ClearStep(template: Grid, w: World, i: nat)
    requires Inv(template, w) && i < |w.threads| && w.threads[i].pc.LeaveClear?
    ensures Inv(template, With(w, i, w.threads[i].(pc := Out)).(table := w.table[w.threads[i].avatar - 65 := None]))
  {
    var t := w.threads[i];
    var v := With(w, i, t.(pc := Out)).(table := w.table[t.avatar - 65 := None]);
    assert ThreadOk(w, i);
    forall j | 0 <= j < |v.threads| ensures ThreadOk(v, j) {
      assert ThreadOk(w, j);
    }
    forall k | 0 <= k < NUM_AVATARS ensures SlotOk(v, k) {
      assert SlotOk(w, k);
    }
    forall q ensures CellOk(v, q) {
      assert CellOk(w, q);
    }
  }

  lemma StepKeeps(template: Grid, w: World, i: nat, c: Choice)
    requires Inv(template, w) && i < |w.threads|
    ensures Inv(template, Step(w, i, c))
  {
    var t := w.threads[i];
    assert ThreadOk(w, i);
    match t.pc
    case Out =>
      if w.table[c.avatar - 65].None? { LoginStep(template, w, i, c.avatar); }
    case Joined => RecordStep(template, w, i, t.(pc := ResetTake(Located(w.grid, t))));
    case ResetTake(from) => TakeStep(template, w, i, from, t.(pc := ResetPut));
    case ResetPut =>
      RandomSpotIsFree(w.grid, c.draw);
      match w.grid.RandomSpot(c.draw) {
        case None => RecordStep(template, w, i, t.(pc := Leaving));
        case Some(spot) => PutStep(template, w, i, spot, t.(pc := StoreRow(spot), placed := true));
      }
    case StoreRow(to) => RecordStep(template, w, i, t.(row := to.row, pc := StoreCol(to)));
    case StoreCol(to) => RecordStep(template, w, i, t.(col := to.col, pc := Serving));
    case Serving =>
      match c.command {
        case Walk(heading) => RecordStep(template, w, i, t.(pc := Moving(t.Recorded(), heading)));
        case TakeHit => RecordStep(template, w, i, t.(pc := HitTake(t.Recorded())));
        case HangUp => RecordStep(template, w, i, t.(pc := Leaving));
      }
    case Moving(from, heading) =>
      if w.grid.CanMove(from, heading) {
        MoveStep(template, w, i, t.(pc := StoreRow(from.Ahead(heading, 1))));
      } else {
        RecordStep(template, w, i, t.(pc := Serving));
      }
    case HitTake(from) => TakeStep(template, w, i, Some(from), t.(pc := Asleep, placed := false));
    case Asleep => RecordStep(template, w, i, t.(pc := Joined));
    case Leaving => RecordStep(template, w, i, t.(pc := LeaveTake(Located(w.grid, t))));
    case LeaveTake(from) => TakeStep(template, w, i, from, t.(pc := LeaveClear, placed := false));
    case LeaveClear => ClearStep(template, w, i);
  }

  lemma {:induction false} ScheduleKeeps(template: Grid, w: World, turns: seq<Turn>)
    requires Inv(template, w)
    ensures Inv(template, Schedule(w, turns))
    decreases turns
  {
    if turns != [] {
      if turns[0].thread < |w.threads| {
        StepKeeps(template, w, turns[0].thread, turns[0].choice);
        ScheduleKeeps(template, Step(w, turns[0].thread, turns[0].choice), turns[1..]);
      } else {
        ScheduleKeeps(template, w, turns[1..]);
      }
    }
  }

  // ---- what holds in every interleaving ----

  ghost predicate Reachable(template: Grid, w: World) {
    template.Valid() && AvatarFree(template)
    && exists n: nat, turns :: w == Schedule(Begin(template, n), turns)
  }

  lemma ReachableOk(template: Grid, w: World)
    requires Reachable(template, w)
    ensures Inv(template, w)
  {
    var n: nat, turns :| w == Schedule(Begin(template, n), turns);
    var b := Begin(template, n);
    forall q ensures CellOk(b, q) {
    }
    assert Inv(template, b);
    ScheduleKeeps(template, b, turns);
  }

  /** Maze and records agree: with any number of threads, in any interleaving, the avatar of a placed
      thread is at its recorded cell, or at its destination between maze_move (or the placement) and
      the stores, and nowhere else; the avatar of any other live thread is nowhere. */
  lemma AvatarsAreWhereRecorded(template: Grid, w: World, i: nat, q: Pos)
    requires Reachable(template, w) && i < |w.threads| && !w.threads[i].pc.Out? && w.grid.InBounds(q)
    ensures w.grid.At(q) == w.threads[i].avatar <==> w.threads[i].placed && q == w.threads[i].Where()
  {
    ReachableOk(template, w);
    assert ThreadOk(w, i);
    assert CellOk(w, q);
  }

  /** Live sessions hold distinct avatars. */
  lemma LiveAvatarsDiffer(template: Grid, w: World, i: nat, j: nat)
    requires Reachable(template, w) && i < j < |w.threads|
    requires !w.threads[i].pc.Out? && !w.threads[j].pc.Out?
    ensures w.threads[i].avatar != w.threads[j].avatar
  {
    ReachableOk(template, w);
    assert ThreadOk(w, i) && ThreadOk(w, j);
  }

  /** A thread about to call maze_move moves its own avatar and nobody else's: its avatar stands on
      the cell it passes, and the avatars of all others stand where they stood. */
  lemma MovesCarryTheCaller(template: Grid, w: World, i: nat, c: Choice, j: nat)
    requires Reachable(template, w) && i < |w.threads| && w.threads[i].pc.Moving?
    requires j < |w.threads| && j != i && w.threads[j].placed
    ensures w.grid.At(w.threads[i].pc.from) == w.threads[i].avatar
    ensures var v := Step(w, i, c);
            && v.threads[j] == w.threads[j] && v.grid.At(w.threads[j].Where()) == w.threads[j].avatar
            && v.grid.At(v.threads[i].Where()) == w.threads[i].avatar
  {
    ReachableOk(template, w);
    assert ThreadOk(w, i) && ThreadOk(w, j);
    StepKeeps(template, w, i, c);
    assert ThreadOk(Step(w, i, c), i) && ThreadOk(Step(w, i, c), j);
  }

  /** Nobody's solid cells change, and behind a solid border every avatar stays strictly inside, at
      this grain too. */
  lemma WallsStand(template: Grid, w: World, q: Pos)
    requires Reachable(template, w)
    ensures SameWalls(template, w.grid)
    ensures template.SolidBorder() && w.grid.InBounds(q) && IsAvatar(w.grid.At(q)) ==> w.grid.Interior(q)
  {
    ReachableOk(template, w);
    if template.SolidBorder() && w.grid.InBounds(q) && !w.grid.Interior(q) {
      assert IsSolid(template.At(q));
    }
  }

  // ---- one thread alone ----

  /** Thread i takes n turns and nobody else any. */
  function Alone(w: World, i: nat, c: Choice, n: nat): World
    requires i < |w.threads|
    decreases n
  {
    if n == 0 then w else Alone(Step(w, i, c), i, c, n - 1)
  }

  lemma AloneTwo(w: World, i: nat, c: Choice, w1: World, w2: World)
    requires i < |w.threads| && w1 == Step(w, i, c) && w2 == Step(w1, i, c)
    ensures Alone(w, i, c, 2) == w2
  {
    assert Alone(w1, i, c, 1) == Alone(w2, i, c, 0);
  }

  lemma AloneFour(w: World, i: nat, c: Choice, w1: World, w2: World, w3: World, w4: World)
    requires i < |w.threads| && w1 == Step(w, i, c) && w2 == Step(w1, i, c) && w3 == Step(w2, i, c) && w4 == Step(w3, i, c)
    ensures Alone(w, i, c, 4) == w4 && Alone(w, i, c, 3) == w3
  {
    AloneTwo(w2, i, c, w3, w4);
    assert Alone(w3, i, c, 0) == w3 && Alone(w2, i, c, 1) == w3;
    assert Alone(w1, i, c, 3) == Alone(w2, i, c, 2) && Alone(w1, i, c, 2) == Alone(w2, i, c, 1);
  }

  /** A step back or forward, undisturbed: four turns carry the avatar to the next cell and the record
      with it, if that cell is blank; else two turns leave everything as it was. */
  lemma MoveAlone(template: Grid, w: World, i: nat, c: Choice)
    requires Reachable(template, w) && i < |w.threads| && w.threads[i].pc.Serving? && c.command.Walk?
    ensures var t := w.threads[i]; var to := t.Recorded().Ahead(c.command.heading, 1);
            if w.grid.Free(to) then
              Alone(w, i, c, 4) == World(w.grid.Put(t.Recorded(), EMPTY).Put(to, t.avatar), w.table,
                                         w.threads[i := t.(row := to.row, col := to.col)])
            else Alone(w, i, c, 2) == w
  {
    ReachableOk(template, w);
    assert ThreadOk(w, i);
    var t, heading := w.threads[i], c.command.heading;
    var to := t.Recorded().Ahead(heading, 1);
    var w1 := Step(w, i, c);
    assert w1 == With(w, i, t.(pc := Moving(t.Recorded(), heading)));
    var w2 := Step(w1, i, c);
    if w.grid.Free(to) {
      assert w2 == With(w, i, t.(pc := StoreRow(to))).(grid := w.grid.Put(t.Recorded(), EMPTY).Put(to, t.avatar));
      var w3 := Step(w2, i, c);
      assert w3.threads == w.threads[i := t.(row := to.row, pc := StoreCol(to))];
      var w4 := Step(w3, i, c);
      assert w4.threads == w.threads[i := t.(row := to.row, col := to.col)];
      AloneFour(w, i, c, w1, w2, w3, w4);
    } else {
      assert w2.threads == w.threads[i := t] == w.threads;
      AloneTwo(w, i, c, w1, w2);
    }
  }

  /** A logout, undisturbed: three turns take the avatar out of the maze, free its slot and end the thread. */
  lemma LeaveAlone(template: Grid, w: World, i: nat, c: Choice)
    requires Reachable(template, w) && i < |w.threads| && w.threads[i].pc.Leaving?
    ensures var t := w.threads[i]; var v := Alone(w, i, c, 3);
            && Absent(v.grid, t.avatar) && v.table == w.table[t.avatar - 65 := None]
            && v.threads == w.threads[i := t.(pc := Out, placed := false)]
  {
    ReachableOk(template, w);
    assert ThreadOk(w, i);
    var t := w.threads[i];
    var from := Located(w.grid, t);
    var w1 := Step(w, i, c);
    assert w1 == With(w, i, t.(pc := LeaveTake(from)));
    StepKeeps(template, w, i, c);
    var w2 := Step(w1, i, c);
    assert w2 == With(w1, i, t.(pc := LeaveClear, placed := false)).(grid := TakenFrom(w.grid, t.avatar, from));
    assert ThreadOk(w1, i);
    TakeStep(template, w1, i, from, t.(pc := LeaveClear, placed := false));
    var w3 := Step(w2, i, c);
    assert w3.threads == w.threads[i := t.(pc := Out, placed := false)];
    AloneFour(w, i, c, w1, w2, w3, Step(w3, i, c));
  }

  /** A placement, undisturbed, after the avatar has been taken out: three turns put it on the drawn cell and
      record that, unless no cell is blank; then one turn sends the thread on its way out. */
  lemma PlaceAlone(template: Grid, w: World, i: nat, c: Choice)
    requires Reachable(template, w) && i < |w.threads| && w.threads[i].pc.ResetPut?
    ensures var t := w.threads[i];
            match w.grid.RandomSpot(c.draw)
            case None => Alone(w, i, c, 1) == With(w, i, t.(pc := Leaving))
            case Some(spot) =>
              Alone(w, i, c, 3) == World(w.grid.Put(spot, t.avatar), w.table,
                                         w.threads[i := t.(row := spot.row, col := spot.col, pc := Serving, placed := true)])
  {
    var t := w.threads[i];
    var w1 := Step(w, i, c);
    assert Alone(w1, i, c, 0) == w1;
    if w.grid.RandomSpot(c.draw).Some? {
      var spot := w.grid.RandomSpot(c.draw).value;
      assert w1 == With(w, i, t.(pc := StoreRow(spot), placed := true)).(grid := w.grid.Put(spot, t.avatar));
      var w2 := Step(w1, i, c);
      assert w2.threads == w.threads[i := t.(row := spot.row, pc := StoreCol(spot), placed := true)];
      var w3 := Step(w2, i, c);
      assert w3.threads == w.threads[i := t.(row := spot.row, col := spot.col, pc := Serving, placed := true)];
      AloneFour(w, i, c, w1, w2, w3, Step(w3, i, c));
    }
  }
}
