/** The service loop as it runs (src/server.c): every client thread receives and dispatches packets;
    a schedule says which thread goes next and what it receives. */
module Servers {
  import opened Compass
  import opened Grids
  import opened Display
  import opened Games
  import opened GameRuns
  import opened Sessions
  import opened Players
  import opened Mazes
  import GameTheorems

  /** Everyone is strictly inside a solid border. */
  ghost predicate FitGame(g: Game) {
    && g.grid.Valid() && g.grid.SolidBorder()
    && forall i :: 0 <= i < NUM_AVATARS && g.table[i].Some? ==> g.grid.Interior(g.table[i].value.Spot())
  }

  /** From inside one can look in every direction. */
  lemma FitSees(g: Game)
    requires FitGame(g)
    ensures forall i, d: Direction :: 0 <= i < NUM_AVATARS && g.table[i].Some? ==> g.grid.Sees(g.table[i].value.Spot(), d)
    ensures SeeingBut(g.grid, g.table, -1) && forall k :: SeeingBut(g.grid, g.table, k)
  {
    forall i, d: Direction | 0 <= i < NUM_AVATARS && g.table[i].Some? ensures g.grid.Sees(g.table[i].value.Spot(), d) {
      assert g.grid.Interior(g.table[i].value.Spot());
    }
  }

  /** So one can from wherever a draw leads, once somebody has perhaps left the maze. */
  lemma DrawSees(g: Game, bare: Grid, draw: nat)
    requires FitGame(g) && bare.Valid() && (bare.rows, bare.cols) == (g.grid.rows, g.grid.cols)
    requires forall p :: IsSolid(g.grid.At(p)) ==> bare.At(p) == g.grid.At(p)
    ensures bare.RandomSpot(draw).Some? ==> forall d: Direction :: g.grid.Sees(bare.RandomSpot(draw).value, d)
  {
    RandomSpotIsFree(bare, draw);
    if bare.RandomSpot(draw).Some? {
      assert g.grid.Interior(bare.RandomSpot(draw).value);
    }
  }

  lemma InvFits(template: Grid, g: Game)
    requires Inv(template, g)
    ensures FitGame(g)
  {
    forall i | 0 <= i < NUM_AVATARS && g.table[i].Some?
      ensures g.grid.Interior(g.table[i].value.Spot())
    {
      assert PlaceOk(g.grid, i, g.table[i].value);
    }
    forall q | g.grid.InBounds(q) && !g.grid.Interior(q) ensures IsSolid(g.grid.At(q)) {
      assert IsSolid(template.At(q));
    }
  }

  /** The switch on the packet type, in terms of the operations on the player table. */
  function Performed(g: Game, k: nat, input: Incoming): Game
    requires input.Received? && g.Present(k)
  {
    if input.ptype == MOVE_PKT then g.Move(k, input.param1)
    else if input.ptype == TURN_PKT then g.Rotate(k, input.param1)
    else if input.ptype == FIRE_PKT then g.Fire(k)
    else if input.ptype == REFRESH_PKT then g.Refresh(k)
    else if input.ptype == SEND_PKT then g.Say(k, Message(input.data))
    else g
  }

  lemma DispatchIsStep(g: Game, k: nat, input: Incoming)
    requires input.Received? && g.Present(k) && !g.Serving(k, Frozen)
    ensures (match Command(k, input) case None => g case Some(e) => Step(g, e)) ==
            if g.Serving(k, Active) then Performed(g, k, input) else g
  {
    var e := Command(k, input);
    if input.ptype == MOVE_PKT {
      assert e == Some(MoveBy(k, input.param1));
    } else if input.ptype == TURN_PKT {
      assert e == Some(TurnBy(k, input.param1));
    } else if input.ptype == FIRE_PKT {
      assert e == Some(FireLaser(k));
    } else if input.ptype == REFRESH_PKT {
      assert e == Some(RefreshView(k));
    } else if input.ptype == SEND_PKT {
      assert e == Some(SendChat(k, Message(input.data)));
    }
  }

  /** What the session step for a command is. */
  lemma CommandIsPerformed(s: Server, sid: nat, input: Incoming, glass: Screen, draw: nat)
    requires Listening(s, sid) && s.sessions[sid].state.Playing? && input.Received?
    ensures Act(s, Action.Receive(sid, input, glass, draw)) ==
            Server(match Command(s.sessions[sid].state.k, input) case None => s.game case Some(e) => Step(s.game, e), s.sessions)
  {
    assert s.sessions[sid := s.sessions[sid]] == s.sessions;
  }

  /** What the session step for a failed reception is. */
  lemma HangupIsLogout(s: Server, sid: nat, input: Incoming, glass: Screen, draw: nat)
    requires Matched(s) && Listening(s, sid) && Hangup(s.sessions[sid], input)
    ensures var state := s.sessions[sid].state;
            && (state.Playing? ==> s.game.Serving(state.k, Active) || s.game.Serving(state.k, Ended))
            && Act(s, Action.Receive(sid, input, glass, draw)) ==
               Server(if state.Playing? then s.game.Logout(state.k) else s.game,
                      s.sessions[sid := Session(Closed, if input.Failed? then false else s.sessions[sid].eintr)])
  {
  }

  /** What the session step for a LOGIN packet is. */
  lemma LoginInSteps(s: Server, sid: nat, param1: Int8, data: Option<seq<Object>>, glass: Screen, draw: nat)
      returns (t: Server)
    requires Known(s, sid) && s.sessions[sid].state.Lobby?
    ensures t == Act(s, Action.Receive(sid, Received(LOGIN_PKT, param1, data), glass, draw))
    ensures match ChooseSlot(s.game.table, AsObject(param1), NameOf(data))
            case None => t == s
            case Some(k) =>
              var h := s.game.Join(k, NameOf(data), glass, draw);
              t == Server(h, s.sessions[sid := s.sessions[sid].(state := if h.Present(k) then Playing(k) else Closed)])
  {
    t := Act(s, Action.Receive(sid, Received(LOGIN_PKT, param1, data), glass, draw));
    assert s.sessions[sid := s.sessions[sid]] == s.sessions;
  }

  /** The inputs that a session passes over. */
  lemma IgnoredInput(s: Server, sid: nat, input: Incoming, glass: Screen, draw: nat)
    requires Listening(s, sid) && !input.Interrupted? && !Hangup(s.sessions[sid], input)
    requires input.Received? ==> s.sessions[sid].state.Lobby? && input.ptype != LOGIN_PKT
    ensures Act(s, Action.Receive(sid, input, glass, draw)) == s
  {
    assert s.sessions[sid := s.sessions[sid]] == s.sessions;
  }

  lemma CheckIsStep(s: Server, sid: nat)
    ensures Act(s, Action.Check(sid)) ==
            if Known(s, sid) && s.sessions[sid].state.Playing? && s.game.Serving(s.sessions[sid].state.k, Active)
            then Server(s.game.TakeHit(s.sessions[sid].state.k), s.sessions) else s
  {
  }

  lemma WakeIsStep(s: Server, sid: nat, draw: nat)
    ensures Act(s, Action.WakeUp(sid, draw)) ==
            if Known(s, sid) && s.sessions[sid].state.Playing? && s.game.Serving(s.sessions[sid].state.k, Frozen)
            then Server(s.game.Reset(s.sessions[sid].state.k, draw), s.sessions) else s
  {
  }

  class GameServer {
    const table: PlayerTable
    var sessions: seq<Session>

    constructor (maze: Maze)
      requires maze.Valid()
      ensures fresh(table) && table.maze == maze && fresh(table.players) && table.Valid()
      ensures Abs() == Opened(maze.grid)
    {
      table := new PlayerTable(maze);
      sessions := [];
    }

    ghost function Abs(): Server
      requires table.players.Length == NUM_AVATARS
      reads this, table, table.maze, table.players, table.Objects()
    {
      Server(table.Abs(), sessions)
    }

    /** The player of slot k. */
    method PlayerOf(k: nat) returns (p: Player)
      requires table.Valid() && table.Abs().Present(k)
      ensures table.Holds(k, p) && table.Table()[k] == Some(p.State())
    {
      assert table.Table()[k] == table.SlotAt(k);
      p := table.players[k];
    }

    /** What the operations on the table need to know of the game. */
    ghost predicate Fit()
      reads this, table, table.maze, table.maze.cells, table.players, table.Objects()
    {
      table.Valid() && FitGame(table.Abs())
    }

    /** The operation that a packet asks for. */
    method Perform(p: Player, k: nat, input: Incoming)
      requires Fit() && input.Received? && table.Holds(k, p) && table.Abs().Serving(k, Active)
      modifies table.players, table.Objects(), table.maze`grid, table.maze.cells
      ensures table.Valid()
      ensures table.Abs() == Performed(old(table.Abs()), k, input)
      ensures fresh(table.Objects() - old(table.Objects()))
    {
      FitSees(table.Abs());
      assert table.Table()[k] == Some(p.State());
      if input.ptype == MOVE_PKT {
        var moved := table.MovePlayer(p, k, input.param1);
      } else if input.ptype == TURN_PKT {
        table.Rotate(p, k, input.param1);
      } else if input.ptype == FIRE_PKT {
        table.FireLaser(p, k);
      } else if input.ptype == REFRESH_PKT {
        table.Refresh(p, k);
      } else if input.ptype == SEND_PKT {
        table.SendChat(p, k, if input.data.None? then [] else input.data.value);
      }
    }

    /** The switch on the packet type, for the player of slot k. */
    method Dispatch(k: nat, input: Incoming)
      requires Fit() && input.Received? && table.Abs().Present(k) && !table.Abs().Serving(k, Frozen)
      modifies table.players, table.Objects(), table.maze`grid, table.maze.cells
      ensures table.Valid()
      ensures table.Abs() == match Command(k, input) case None => old(table.Abs()) case Some(e) => Step(old(table.Abs()), e)
      ensures fresh(table.Objects() - old(table.Objects()))
    {
      var p := PlayerOf(k);
      DispatchIsStep(table.Abs(), k, input);
      if p.phase != Ended {
        Perform(p, k, input);
      }
    }

    /** The player of slot k is logged out. */
    method Quit(k: nat)
      requires Fit() && table.Abs().Present(k)
      modifies table.players, table.Objects(), table.maze`grid, table.maze.cells
      ensures table.Valid() && table.Abs() == old(table.Abs()).Logout(k)
      ensures fresh(table.Objects() - old(table.Objects()))
    {
      var p := PlayerOf(k);
      FitSees(table.Abs());
      table.LogOut(p, k);
    }

    /** The end of the service function: a logged-in player is logged out. */
    method Close(sid: nat)
      requires Fit() && sid < |sessions|
      requires sessions[sid].state.Playing? ==>
                 var k := sessions[sid].state.k; table.Abs().Serving(k, Active) || table.Abs().Serving(k, Ended)
      modifies this, table.players, table.Objects(), table.maze`grid, table.maze.cells
      ensures table.Valid() && sessions == old(sessions)[sid := Session(Closed, old(sessions)[sid].eintr)]
      ensures table.Abs() == if old(sessions)[sid].state.Playing?
                             then old(table.Abs()).Logout(old(sessions)[sid].state.k) else old(table.Abs())
      ensures fresh(table.Objects() - old(table.Objects()))
    {
      var session := sessions[sid];
      if session.state.Playing? {
        Quit(session.state.k);
      }
      sessions := sessions[sid := session.(state := Closed)];
    }

    /** A LOGIN packet in the lobby. */
    method Login(sid: nat, param1: Int8, data: Option<seq<Object>>, ghost glass: Screen, draw: nat)
      requires Fit() && sid < |sessions| && sessions[sid].state.Lobby?
      modifies this, table.players, table.Objects(), table.maze`grid, table.maze.cells
      ensures table.Valid()
      ensures Abs() == Act(old(Abs()), Action.Receive(sid, Received(LOGIN_PKT, param1, data), glass, draw))
      ensures fresh(table.Objects() - old(table.Objects()))
    {
      FitSees(table.Abs());
      DrawSees(table.Abs(), table.maze.grid, draw);
      ghost var t := LoginInSteps(Abs(), sid, param1, data, glass, draw);
      var p, ended := table.Join(AsObject(param1), NameOf(data), glass, draw);
      if p != null {
        sessions := sessions[sid := sessions[sid].(state := if ended then Closed else Playing(p.avatar - 65))];
      }
      assert Abs() == t;
    }

    /** Reception was interrupted by a signal. */
    method NoteInterrupt(sid: nat, ghost glass: Screen, draw: nat)
      requires table.Valid() && sid < |sessions| && Listening(Abs(), sid)
      modifies `sessions
      ensures Abs() == Act(old(Abs()), Action.Receive(sid, Interrupted, glass, draw))
    {
      sessions := sessions[sid := sessions[sid].(eintr := true)];
    }

    /** Reception failed, or the stream has ended with errno not EINTR. */
    method HangUp(sid: nat, input: Incoming, ghost glass: Screen, draw: nat)
      requires Fit() && sid < |sessions| && Listening(Abs(), sid) && Matched(Abs()) && Hangup(sessions[sid], input)
      modifies this, table.players, table.Objects(), table.maze`grid, table.maze.cells
      ensures table.Valid()
      ensures Abs() == Act(old(Abs()), Action.Receive(sid, input, glass, draw))
      ensures fresh(table.Objects() - old(table.Objects()))
    {
      HangupIsLogout(Abs(), sid, input, glass, draw);
      Close(sid);
      if input.Failed? {
        sessions := sessions[sid := Session(Closed, false)];
      }
    }

    /** A packet of a logged-in session. */
    method Obey(sid: nat, input: Incoming, ghost glass: Screen, draw: nat)
      requires Fit() && sid < |sessions| && Listening(Abs(), sid) && Matched(Abs())
      requires input.Received? && sessions[sid].state.Playing?
      modifies table.players, table.Objects(), table.maze`grid, table.maze.cells
      ensures table.Valid()
      ensures Abs() == Act(old(Abs()), Action.Receive(sid, input, glass, draw))
      ensures fresh(table.Objects() - old(table.Objects()))
    {
      CommandIsPerformed(Abs(), sid, input, glass, draw);
      Dispatch(sessions[sid].state.k, input);
    }

    /** One pass of the loop of session sid, from reception on. */
    method Serve(sid: nat, input: Incoming, ghost glass: Screen, draw: nat)
      requires Fit() && Matched(Abs()) && Listening(Abs(), sid)
      modifies this, table.players, table.Objects(), table.maze`grid, table.maze.cells
      ensures table.Valid()
      ensures Abs() == Act(old(Abs()), Action.Receive(sid, input, glass, draw))
      ensures fresh(table.Objects() - old(table.Objects()))
    {
      if input.Interrupted? {
        NoteInterrupt(sid, glass, draw);
      } else if input.Failed? || (input.EndOfStream? && !sessions[sid].eintr) {
        HangUp(sid, input, glass, draw);
      } else if input.Received? && sessions[sid].state.Playing? {
        Obey(sid, input, glass, draw);
      } else if input.Received? && input.ptype == LOGIN_PKT {
        Login(sid, input.param1, input.data, glass, draw);
      } else {
        IgnoredInput(Abs(), sid, input, glass, draw);
      }
    }

    /** The check for a hit at the top of the loop, for the player of slot k. */
    method CheckHit(k: nat)
      requires Fit() && table.Abs().Present(k)
      modifies table.Objects(), table.maze`grid, table.maze.cells
      ensures table.Valid()
      ensures table.Abs() == if old(table.Abs()).Serving(k, Active) then old(table.Abs()).TakeHit(k) else old(table.Abs())
    {
      var p := PlayerOf(k);
      FitSees(table.Abs());
      if p.phase == Active {
        table.CheckForLaserHit(p, k);
      }
    }

    /** The end of the sleep after a hit. */
    method Wake(k: nat, draw: nat)
      requires Fit() && table.Abs().Present(k)
      modifies table.Objects(), table.maze`grid, table.maze.cells
      ensures table.Valid()
      ensures table.Abs() ==
              if old(table.Abs()).Serving(k, Frozen) then old(table.Abs()).Reset(k, draw) else old(table.Abs())
    {
      var p := PlayerOf(k);
      if p.phase == Frozen {
        FitSees(table.Abs());
        DrawSees(table.Abs(), table.Abs().Unplaced(k), draw);
        table.Reset(p, k, draw);
      }
    }

    /** The session's thread is not asleep after a hit. */
    method Awake(sid: nat) returns (awake: bool)
      requires table.Valid() && Matched(Abs())
      ensures sid < |sessions| ==>
                awake == !(sessions[sid].state.Playing? && table.Abs().Serving(sessions[sid].state.k, Frozen))
    {
      awake := true;
      if sid < |sessions| && sessions[sid].state.Playing? {
        var p := PlayerOf(sessions[sid].state.k);
        awake := p.phase != Frozen;
      }
    }

    /** Session sid receives, if it listens. */
    method ReceiveNext(sid: nat, input: Incoming, ghost glass: Screen, draw: nat)
      requires Fit() && Matched(Abs())
      modifies this, table.players, table.Objects(), table.maze`grid, table.maze.cells
      ensures table.Valid() && Abs() == Act(old(Abs()), Action.Receive(sid, input, glass, draw))
      ensures fresh(table.Objects() - old(table.Objects()))
    {
      var awake := Awake(sid);
      if sid < |sessions| && !sessions[sid].state.Closed? && awake {
        Serve(sid, input, glass, draw);
      }
    }

    /** Session sid is at the top of its loop. */
    method CheckNext(sid: nat)
      requires Fit() && Matched(Abs())
      modifies table.Objects(), table.maze`grid, table.maze.cells
      ensures table.Valid() && Abs() == Act(old(Abs()), Action.Check(sid))
    {
      CheckIsStep(Abs(), sid);
      if sid < |sessions| && sessions[sid].state.Playing? {
        CheckHit(sessions[sid].state.k);
      }
    }

    /** Session sid has slept long enough. */
    method WakeNext(sid: nat, draw: nat)
      requires Fit() && Matched(Abs())
      modifies table.Objects(), table.maze`grid, table.maze.cells
      ensures table.Valid() && Abs() == Act(old(Abs()), Action.WakeUp(sid, draw))
    {
      WakeIsStep(Abs(), sid, draw);
      if sid < |sessions| && sessions[sid].state.Playing? {
        Wake(sessions[sid].state.k, draw);
      }
    }

    /** One step of a schedule. */
    method Take(a: Action)
      requires Fit() && Matched(Abs())
      modifies this, table.players, table.Objects(), table.maze`grid, table.maze.cells
      ensures table.Valid() && Abs() == Act(old(Abs()), a)
      ensures fresh(table.Objects() - old(table.Objects()))
    {
      match a
      case Connect =>
        sessions := sessions + [Session(Lobby, false)];
      case CallFails(sid, eintr) =>
        if sid < |sessions| {
          sessions := sessions[sid := sessions[sid].(eintr := eintr)];
        }
      case Receive(sid, input, glass, draw) =>
        ReceiveNext(sid, input, glass, draw);
      case Check(sid) =>
        CheckNext(sid);
      case WakeUp(sid, draw) =>
        WakeNext(sid, draw);
    }

    /** A schedule of session steps; one that cannot be taken is skipped. */
    method Run(schedule: seq<Action>)
      requires GameTheorems.Playable(table.maze.grid) && table.Valid() && table.Objects() == {}
      requires Abs() == Opened(table.maze.grid)
      modifies this, table.players, table.maze`grid, table.maze.cells
      ensures table.Valid() && Abs() == ActAll(Opened(old(table.maze.grid)), schedule)
      ensures GameTheorems.Reachable(old(table.maze.grid), table.Abs()) && Matched(Abs())
    {
      ghost var template := table.maze.grid;
      StartOk(template);
      var i := 0;
      while i < |schedule|
        invariant i <= |schedule| && table.Valid()
        invariant Inv(template, table.Abs()) && Matched(Abs())
        invariant ActAll(Abs(), schedule[i..]) == ActAll(Opened(template), schedule)
        invariant fresh(table.Objects())
      {
        ghost var s := Abs();
        InvFits(template, s.game);
        ActKeeps(template, s, schedule[i]);
        Take(schedule[i]);
        assert schedule[i..][1..] == schedule[i + 1..];
        i := i + 1;
      }
      EveryServerRunIsAGame(template, schedule);
    }
  }
}
