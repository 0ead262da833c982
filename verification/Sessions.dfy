/** The session loop of src/server.c on values: what each client connection sends decides which
    atomic game operations happen. */
module Sessions {
  import opened Compass
  import opened Grids
  import opened Display
  import opened Games
  import opened GameRuns
  import GameTheorems

  const LOGIN_PKT := 1
  const MOVE_PKT := 2
  const TURN_PKT := 3
  const FIRE_PKT := 4
  const REFRESH_PKT := 5
  const SEND_PKT := 6

  /** What one attempt to receive a packet yields. */
  datatype Incoming =
    | Interrupted
    | EndOfStream
    | Failed
    | Received(ptype: nat, param1: Int8, data: Option<seq<Object>>)

  /** A connection: before login, serving the player of a slot, or closed.  `eintr` says that errno
      of its thread is EINTR; end of stream and successful calls do not touch errno. */
  datatype State = Lobby | Playing(k: nat) | Closed
  datatype Session = Session(state: State, eintr: bool)

  datatype Action =
    | Connect
    | Receive(sid: nat, input: Incoming, glass: Screen, draw: nat)
    | Check(sid: nat)
    | WakeUp(sid: nat, draw: nat)
    | CallFails(sid: nat, eintr: bool)  // a write or another call of the session's thread sets errno

  datatype Server = Server(game: Game, sessions: seq<Session>)

  /** A character string ends at its first zero byte. */
  function CString(data: seq<Object>): seq<Object>
    decreases data
  {
    if data == [] || data[0] == 0 then [] else [data[0]] + CString(data[1..])
  }

  function NameOf(data: Option<seq<Object>>): Option<seq<Object>> {
    if data.None? then None else Some(CString(data.value))
  }

  /** A signed parameter read as an unsigned character. */
  function AsObject(x: Int8): Object {
    if x < 0 then x + 256 else x
  }

  function Message(data: Option<seq<Object>>): seq<Object> {
    if data.None? then [] else data.value
  }

  /** The dispatch of a packet from a logged-in client. */
  function Command(k: nat, input: Incoming): Option<Event>
    requires input.Received?
  {
    if input.ptype == MOVE_PKT then Some(MoveBy(k, input.param1))
    else if input.ptype == TURN_PKT then Some(TurnBy(k, input.param1))
    else if input.ptype == FIRE_PKT then Some(FireLaser(k))
    else if input.ptype == REFRESH_PKT then Some(RefreshView(k))
    else if input.ptype == SEND_PKT then Some(SendChat(k, Message(input.data)))
    else None
  }

  predicate Known(s: Server, sid: nat) {
    sid < |s.sessions|
  }

  /** The session's thread is able to receive: it has not ended and is not asleep. */
  predicate Listening(s: Server, sid: nat) {
    Known(s, sid) && match s.sessions[sid].state
                     case Lobby => true
                     case Playing(k) => !s.game.Serving(k, Frozen)
                     case Closed => false
  }

  /** A failed reception ends the session unless errno says EINTR. */
  predicate Hangup(session: Session, input: Incoming) {
    input.Failed? || (input.EndOfStream? && !session.eintr)
  }

  function EventOf(s: Server, a: Action): Option<Event> {
    match a
    case Connect => None
    case CallFails(_, _) => None
    case Check(sid) =>
      if Known(s, sid) && s.sessions[sid].state.Playing? then Some(CheckHit(s.sessions[sid].state.k)) else None
    case WakeUp(sid, draw) =>
      if Known(s, sid) && s.sessions[sid].state.Playing? then Some(Wake(s.sessions[sid].state.k, draw)) else None
    case Receive(sid, input, glass, draw) =>
      if !Listening(s, sid) then None
      else if s.sessions[sid].state.Lobby? then
        if input.Received? && input.ptype == LOGIN_PKT
        then Some(LogIn(AsObject(input.param1), NameOf(input.data), glass, draw)) else None
      else
        var k := s.sessions[sid].state.k;
        if input.Received? then Command(k, input)
        else if Hangup(s.sessions[sid], input) then Some(LogOut(k)) else None
  }

  function GameAfter(s: Server, a: Action): Game {
    match EventOf(s, a)
    case None => s.game
    case Some(e) => Step(s.game, e)
  }

  /** Where a session stands after receiving. */
  function StateAfter(s: Server, sid: nat, a: Action): State
    requires Known(s, sid) && a.Receive?
  {
    var session := s.sessions[sid];
    if Hangup(session, a.input) then Closed
    else if session.state.Lobby? && a.input.Received? && a.input.ptype == LOGIN_PKT then
      var slot := ChooseSlot(s.game.table, AsObject(a.input.param1), NameOf(a.input.data));
      if slot.None? then Lobby
      else if GameAfter(s, a).Present(slot.value) then Playing(slot.value)
      else Closed
    else session.state
  }

  function ErrnoAfter(session: Session, input: Incoming): bool {
    if input.Interrupted? then true else if input.Failed? then false else session.eintr
  }

  function Act(s: Server, a: Action): Server {
    match a
    case Connect => Server(s.game, s.sessions + [Session(Lobby, false)])
    case CallFails(sid, eintr) =>
      if Known(s, sid) then Server(s.game, s.sessions[sid := s.sessions[sid].(eintr := eintr)]) else s
    case Receive(sid, input, _, _) =>
      if !Listening(s, sid) then s
      else Server(GameAfter(s, a),
                  s.sessions[sid := Session(StateAfter(s, sid, a), ErrnoAfter(s.sessions[sid], input))])
    case _ => Server(GameAfter(s, a), s.sessions)
  }

  function ActAll(s: Server, actions: seq<Action>): Server
    decreases actions
  {
    if actions == [] then s else ActAll(Act(s, actions[0]), actions[1..])
  }

  // ---- sessions and players ----

  ghost predicate Owned(s: Server, k: nat) {
    exists i :: 0 <= i < |s.sessions| && s.sessions[i].state == Playing(k)
  }

  /** Live sessions and players in the table are in one-to-one correspondence. */
  ghost predicate Matched(s: Server) {
    && (forall i :: 0 <= i < |s.sessions| && s.sessions[i].state.Playing? ==> s.game.Present(s.sessions[i].state.k))
    && (forall i, j :: 0 <= i < j < |s.sessions| && s.sessions[i].state.Playing? && s.sessions[j].state.Playing? ==>
          s.sessions[i].state.k != s.sessions[j].state.k)
    && (forall k: nat :: s.game.Present(k) ==> Owned(s, k))
  }

  /** The same slots are taken, slot `except` perhaps not. */
  ghost predicate SamePresence(g: Game, h: Game, except: int) {
    forall j: nat :: j != except ==> g.Present(j) == h.Present(j)
  }

  lemma TablesKeepPresence(g: Game, k: nat, dir: int, msg: seq<Object>)
    requires g.Present(k)
    ensures SamePresence(g, g.Move(k, dir), -1) && SamePresence(g, g.Rotate(k, dir), -1)
    ensures SamePresence(g, g.Refresh(k), -1) && SamePresence(g, g.Say(k, msg), -1)
  {
  }

  lemma LasersKeepPresence(g: Game, k: nat)
    requires g.Present(k)
    ensures SamePresence(g, g.TakeHit(k), -1) && SamePresence(g, g.Fire(k), -1)
  {
  }

  lemma ResetKeepsPresence(g: Game, k: nat, draw: nat)
    requires g.Present(k)
    ensures SamePresence(g, g.Reset(k, draw), -1)
  {
    if g.Unplaced(k).RandomSpot(draw).Some? {
      var spot := g.Unplaced(k).RandomSpot(draw).value;
      var t := g.table[k := Some(g.Player(k).(row := spot.row, col := spot.col, phase := Active))];
      AnnouncedRecords(g.Unplaced(k).Put(spot, g.Player(k).avatar), t, k);
    }
  }

  lemma LogoutClearsSlot(g: Game, k: nat)
    requires g.Present(k)
    ensures SamePresence(g, g.Logout(k), k) && !g.Logout(k).Present(k)
  {
  }

  lemma JoinKeepsPresence(g: Game, k: nat, name: Option<seq<Object>>, glass: Screen, draw: nat)
    requires k < NUM_AVATARS
    ensures SamePresence(g, g.Join(k, name, glass, draw), k)
  {
    var h := g.With(k, NewPlayer(k, name, glass).Send([Ready]));
    ResetKeepsPresence(h, k, draw);
    LogoutClearsSlot(h.Reset(k, draw), k);
  }

  /** Only logins and logouts change who is in the table, and then in one slot. */
  lemma PresenceChanges(g: Game, e: Event)
    ensures !e.LogIn? && !e.LogOut? ==> SamePresence(g, Step(g, e), -1)
    ensures e.LogOut? ==> SamePresence(g, Step(g, e), e.k)
                          && (g.Present(e.k) ==> (Step(g, e).Present(e.k) <==> g.Serving(e.k, Frozen)))
    ensures e.LogIn? ==> var slot := ChooseSlot(g.table, e.avatar, e.name);
                         SamePresence(g, Step(g, e), if slot.Some? then slot.value else -1)
  {
    match e
    case LogIn(avatar, name, glass, draw) =>
      var slot := ChooseSlot(g.table, avatar, name);
      if slot.Some? { JoinKeepsPresence(g, slot.value, name, glass, draw); }
    case LogOut(k) => if g.Present(k) { LogoutClearsSlot(g, k); }
    case Wake(k, draw) => if g.Present(k) { ResetKeepsPresence(g, k, draw); }
    case MoveBy(k, dir) => if g.Present(k) { TablesKeepPresence(g, k, dir, []); }
    case TurnBy(k, dir) => if g.Present(k) { TablesKeepPresence(g, k, dir, []); }
    case SendChat(k, msg) => if g.Present(k) { TablesKeepPresence(g, k, 0, msg); }
    case RefreshView(k) => if g.Present(k) { TablesKeepPresence(g, k, 0, []); }
    case FireLaser(k) => if g.Present(k) { LasersKeepPresence(g, k); }
    case CheckHit(k) => if g.Present(k) { LasersKeepPresence(g, k); }
  }

  /** Session sid changes state from `from` to `to` while the table changes accordingly. */
  lemma Rematch(s: Server, t: Server, sid: nat)
    requires Matched(s) && Known(s, sid) && |t.sessions| == |s.sessions|
    requires forall i :: 0 <= i < |s.sessions| && i != sid ==> t.sessions[i] == s.sessions[i]
    requires var from, to := s.sessions[sid].state, t.sessions[sid].state;
             || (from == to && SamePresence(s.game, t.game, -1))
             || (from.Lobby? && to.Closed? && SamePresence(s.game, t.game, -1))
             || (from.Playing? && to.Closed? && SamePresence(s.game, t.game, from.k) && !t.game.Present(from.k))
             || (from.Lobby? && to.Playing? && SamePresence(s.game, t.game, to.k)
                 && !s.game.Present(to.k) && t.game.Present(to.k))
    ensures Matched(t)
  {
    forall k: nat | t.game.Present(k) ensures Owned(t, k) {
      if s.game.Present(k) {
        var i :| 0 <= i < |s.sessions| && s.sessions[i].state == Playing(k);
        assert t.sessions[i].state == Playing(k);
      } else {
        assert t.sessions[sid].state == Playing(k);
      }
    }
  }

  lemma ReceiveKeeps(s: Server, a: Action)
    requires Matched(s) && a.Receive? && Listening(s, a.sid)
    ensures Matched(Act(s, a))
  {
    var session := s.sessions[a.sid];
    var e := EventOf(s, a);
    if e.Some? {
      PresenceChanges(s.game, e.value);
      if e.value.LogIn? {
        ChosenSlotIsFree(s.game.table, e.value.avatar, e.value.name);
      }
    }
    Rematch(s, Act(s, a), a.sid);
  }

  lemma ConnectKeeps(s: Server)
    requires Matched(s)
    ensures Matched(Act(s, Connect))
  {
    var t := Act(s, Connect);
    forall k: nat | t.game.Present(k) ensures Owned(t, k) {
      var i :| 0 <= i < |s.sessions| && s.sessions[i].state == Playing(k);
      assert t.sessions[i].state == Playing(k);
    }
  }

  lemma ActKeeps(template: Grid, s: Server, a: Action)
    requires Inv(template, s.game) && Matched(s)
    ensures Inv(template, Act(s, a).game) && Matched(Act(s, a))
  {
    var e := EventOf(s, a);
    if e.Some? {
      StepKeeps(template, s.game, e.value);
    }
    if a.Receive? && Listening(s, a.sid) {
      ReceiveKeeps(s, a);
    } else if (a.Check? || a.WakeUp?) && e.Some? {
      PresenceChanges(s.game, e.value);
      Rematch(s, Act(s, a), a.sid);
    } else if a.CallFails? && Known(s, a.sid) {
      Rematch(s, Act(s, a), a.sid);
    } else if a.Connect? {
      ConnectKeeps(s);
    }
  }

  // ---- every run of the server ----

  function Opened(template: Grid): Server {
    Server(Start(template), [])
  }

  /** The atomic game operations that a run of the server performs. */
  function Trace(s: Server, actions: seq<Action>): seq<Event>
    decreases actions
  {
    if actions == [] then []
    else (match EventOf(s, actions[0]) case None => [] case Some(e) => [e]) + Trace(Act(s, actions[0]), actions[1..])
  }

  lemma {:induction false} ActAllPlaysTrace(template: Grid, s: Server, actions: seq<Action>)
    requires Inv(template, s.game) && Matched(s)
    ensures ActAll(s, actions).game == Play(s.game, Trace(s, actions))
    ensures Matched(ActAll(s, actions))
    decreases actions
  {
    if actions != [] {
      var t := Act(s, actions[0]);
      var rest := Trace(t, actions[1..]);
      ActKeeps(template, s, actions[0]);
      ActAllPlaysTrace(template, t, actions[1..]);
      assert t.game == GameAfter(s, actions[0]);
      match EventOf(s, actions[0])
      case None =>
        assert Trace(s, actions) == rest;
      case Some(e) =>
        assert Trace(s, actions) == [e] + rest;
        assert Trace(s, actions)[1..] == rest;
    }
  }

  /** Whatever clients connect and send, in whatever order the sessions are served: the game is the
      outcome of a run of atomic operations, so that everything proved of those holds of the server,
      and live sessions and players correspond one to one: no two sessions share an avatar. */
  lemma EveryServerRunIsAGame(template: Grid, actions: seq<Action>)
    requires GameTheorems.Playable(template)
    ensures var s := ActAll(Opened(template), actions);
            GameTheorems.Reachable(template, s.game) && Matched(s)
  {
    StartOk(template);
    assert Matched(Opened(template));
    ActAllPlaysTrace(template, Opened(template), actions);
  }

  /** Before login only LOGIN packets do anything; after login they do nothing. */
  lemma LoginGatesTheSession(s: Server, sid: nat, input: Incoming, glass: Screen, draw: nat)
    requires Listening(s, sid) && input.Received?
    ensures var t := Act(s, Receive(sid, input, glass, draw));
            && (s.sessions[sid].state.Lobby? && input.ptype != LOGIN_PKT ==> t == s)
            && (s.sessions[sid].state.Playing? && input.ptype == LOGIN_PKT ==> t == s)
  {
    assert s.sessions[sid := s.sessions[sid]] == s.sessions;
  }

  /** A logged-in session acts for its own player only. */
  lemma SessionsActForThemselves(s: Server, a: Action)
    requires !a.Connect? && EventOf(s, a).Some? && s.sessions[a.sid].state.Playing?
    ensures var e := EventOf(s, a).value; !e.LogIn? && s.sessions[a.sid].state == Playing(e.k)
  {
  }

  // ---- what packets mean ----

  lemma CommandIs(k: nat, ptype: nat, param1: Int8, data: Option<seq<Object>>)
    ensures var c := Command(k, Received(ptype, param1, data));
            && (ptype == 2 ==> c == Some(MoveBy(k, param1)))
            && (ptype == 3 ==> c == Some(TurnBy(k, param1)))
            && (ptype == 4 ==> c == Some(FireLaser(k)))
            && (ptype == 5 ==> c == Some(RefreshView(k)))
            && (ptype == 6 ==> c == Some(SendChat(k, if data.None? then [] else data.value)))
            && (!(2 <= ptype <= 6) ==> c == None)
  {
  }

  /** A packet from the client of an awake player, by its type: 2 moves the player, 3 turns it, 4 fires, 5
      redraws, 6 chats with the payload or, without one, with nothing; every other type, a second
      login included, does nothing.  The session goes on. */
  lemma CommandsMean(s: Server, sid: nat, k: nat, ptype: nat, param1: Int8, data: Option<seq<Object>>, glass: Screen, draw: nat)
    requires Known(s, sid) && s.sessions[sid].state == Playing(k) && s.game.Serving(k, Active)
    ensures var t := Act(s, Receive(sid, Received(ptype, param1, data), glass, draw));
            && t.sessions == s.sessions
            && (ptype == 2 ==> t.game == s.game.Move(k, param1))
            && (ptype == 3 ==> t.game == s.game.Rotate(k, param1))
            && (ptype == 4 ==> t.game == s.game.Fire(k))
            && (ptype == 5 ==> t.game == s.game.Refresh(k))
            && (ptype == 6 ==> t.game == s.game.Say(k, if data.None? then [] else data.value))
            && (!(2 <= ptype <= 6) ==> t.game == s.game)
  {
    assert s.sessions[sid := s.sessions[sid]] == s.sessions;
    CommandIs(k, ptype, param1, data);
  }

  /** A character string is the payload up to its first zero byte. */
  lemma {:induction false} NameEnds(data: seq<Object>, n: nat)
    requires n <= |data| && (forall i :: 0 <= i < n ==> data[i] != 0) && (n < |data| ==> data[n] == 0)
    ensures CString(data) == data[..n]
    decreases n
  {
    if n > 0 {
      NameEnds(data[1..], n - 1);
      assert data[..n] == [data[0]] + data[1..][..n - 1];
    }
  }

  /** A packet of type 1 from a client that is not logged in, with its parameter read as a letter 0 .. 255
      and its payload up to the first zero byte as the name, is a login: when a letter is to be had its
      player joins, and the session serves it if it found a place and ends if not; otherwise nothing
      happens.  Packets of other types do nothing. */
  lemma LoginMeans(s: Server, sid: nat, ptype: nat, param1: Int8, letter: Object, data: Option<seq<Object>>, n: nat,
                   glass: Screen, draw: nat)
    requires Known(s, sid) && s.sessions[sid].state.Lobby? && (letter - param1) % 256 == 0
    requires data.Some? ==> n <= |data.value| && (forall i :: 0 <= i < n ==> data.value[i] != 0)
                            && (n < |data.value| ==> data.value[n] == 0)
    ensures var t := Act(s, Receive(sid, Received(ptype, param1, data), glass, draw));
            var name := if data.None? then None else Some(data.value[..n]);
            var slot := ChooseSlot(s.game.table, letter, name);
            if ptype != 1 || slot.None? then t == s
            else
              var h := s.game.Join(slot.value, name, glass, draw);
              t == Server(h, s.sessions[sid := Session(if h.Present(slot.value) then Playing(slot.value) else Closed,
                                                       s.sessions[sid].eintr)])
  {
    assert s.sessions[sid := s.sessions[sid]] == s.sessions;
    assert AsObject(param1) == letter;
    if data.Some? {
      NameEnds(data.value, n);
    }
    assert NameOf(data) == if data.None? then None else Some(data.value[..n]);
  }

  /** A reception that fails ends the session and logs its player out. */
  lemma FailureEndsTheSession(s: Server, sid: nat, glass: Screen, draw: nat)
    requires Matched(s) && Listening(s, sid)
    ensures var t := Act(s, Receive(sid, Failed, glass, draw)); var state := s.sessions[sid].state;
            && t.sessions == s.sessions[sid := Session(Closed, false)]
            && t.game == if state.Playing? then s.game.Logout(state.k) else s.game
  {
  }

  /** An interrupted reception changes nothing but errno. */
  lemma InterruptionIsNoted(s: Server, sid: nat, glass: Screen, draw: nat)
    requires Listening(s, sid)
    ensures Act(s, Receive(sid, Interrupted, glass, draw)) ==
            Server(s.game, s.sessions[sid := Session(s.sessions[sid].state, true)])
  {
  }

  // ---- hanging up ----

  /** A client that hangs up: its session ends, and its player leaves, exactly when errno does not
      still say that an earlier call was interrupted. */
  lemma HangupEndsTheSessionExactly(template: Grid, s: Server, sid: nat, glass: Screen, draw: nat)
    requires Inv(template, s.game) && Matched(s) && Listening(s, sid)
    ensures var t := Act(s, Receive(sid, EndOfStream, glass, draw));
            && (t.sessions[sid].state == Closed <==> !s.sessions[sid].eintr)
            && (s.sessions[sid].state.Playing? ==>
                  (t.game.Present(s.sessions[sid].state.k) <==> s.sessions[sid].eintr))
            && (s.sessions[sid].eintr ==> t == s)
  {
    var a := Receive(sid, EndOfStream, glass, draw);
    if s.sessions[sid].state.Playing? && EventOf(s, a).Some? {
      PresenceChanges(s.game, EventOf(s, a).value);
    }
    if s.sessions[sid].eintr {
      assert s.sessions[sid := s.sessions[sid]] == s.sessions;
    }
  }

  /** In this action no call of the session's thread fails for another reason than an interruption;
      and in the lobby it is no login. */
  predicate LeavesErrno(a: Action, sid: nat, lobby: bool) {
    && !(a.CallFails? && a.sid == sid && !a.eintr)
    && !(a.Receive? && a.sid == sid && a.input.Failed?)
    && !(lobby && a.Receive? && a.sid == sid && a.input.Received? && a.input.ptype == LOGIN_PKT)
  }

  /** The failing family: once errno says EINTR, no end of the stream ends the session, whatever else
      happens on the server meanwhile, until some call of its thread fails for another reason.  A
      session that has a player keeps it; one in the lobby stays there until it logs in. */
  lemma {:induction false} StaleErrnoKeepsTheSession(s: Server, sid: nat, actions: seq<Action>)
    requires Known(s, sid) && !s.sessions[sid].state.Closed? && s.sessions[sid].eintr
    requires forall a :: a in actions ==> LeavesErrno(a, sid, s.sessions[sid].state.Lobby?)
    ensures var t := ActAll(s, actions); Known(t, sid) && t.sessions[sid] == s.sessions[sid]
    decreases actions
  {
    if actions != [] {
      assert LeavesErrno(actions[0], sid, s.sessions[sid].state.Lobby?);
      assert Act(s, actions[0]).sessions[sid] == s.sessions[sid];
      StaleErrnoKeepsTheSession(Act(s, actions[0]), sid, actions[1..]);
    }
  }

  /** It does happen: a client connects, one reception is interrupted, and from then on the client may
      hang up as often as it likes. */
  lemma HangUpsGoUnnoticed(template: Grid, glass: Screen, n: nat)
    ensures var a := Receive(0, EndOfStream, glass, 0);
            var t := ActAll(Opened(template), [Connect, Receive(0, Interrupted, glass, 0)] + seq(n, _ => a));
            Known(t, 0) && t.sessions[0] == Session(Lobby, true)
  {
    var first := Receive(0, Interrupted, glass, 0);
    var rest := seq(n, _ => Receive(0, EndOfStream, glass, 0));
    var s := Act(Act(Opened(template), Connect), first);
    assert s.sessions[0] == Session(Lobby, true);
    var actions := [Connect, first] + rest;
    assert actions[1..] == [first] + rest && ([first] + rest)[1..] == rest;
    assert ActAll(Opened(template), actions) == ActAll(Act(Opened(template), Connect), [first] + rest) == ActAll(s, rest);
    StaleErrnoKeepsTheSession(s, 0, rest);
  }
}
