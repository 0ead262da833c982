/** The mutexes that every operation takes, and why no interleaving of operations can deadlock.  Sends
    are taken to complete; player_fini is not part of this model. */
module Locks {
  import opened Compass

  /** players_mutex, the recursive mutex of one player record, maze_mutex, the registry's mutex. */
  datatype Lock = TableLock | PlayerLock(p: nat) | MazeLock | RegistryLock {
    /** The order in which locks are taken. */
    function Rank(): nat {
      match this case TableLock => 0 case PlayerLock(_) => 1 case MazeLock => 2 case RegistryLock => 3
    }
  }

  datatype Instr = Acquire(l: Lock) | Release(l: Lock)

  type Program = seq<Instr>

  // ---- what each operation locks ----

  function Locked(l: Lock, body: Program): Program {
    [Acquire(l)] + body + [Release(l)]
  }

  function SendTo(p: nat): Program {
    Locked(PlayerLock(p), [])
  }

  /** Packets to the players of a list, one after the other. */
  function Sends(ps: seq<nat>): Program
    decreases ps
  {
    if ps == [] then [] else SendTo(ps[0]) + Sends(ps[1..])
  }

  function Repeat(p: nat, n: nat): seq<nat> {
    seq(n, _ => p)
  }

  /** A view update of player p that sends n packets. */
  datatype Update = Update(p: nat, n: nat)

  function UpdateView(u: Update): Program {
    Locked(PlayerLock(u.p), Locked(MazeLock, [])) + Sends(Repeat(u.p, u.n)) + Locked(PlayerLock(u.p), [])
  }

  function InvalidateView(p: nat): Program {
    Locked(PlayerLock(p), [])
  }

  function UpdateAll(us: seq<Update>): Program
    decreases us
  {
    if us == [] then [] else UpdateView(us[0]) + UpdateAll(us[1..])
  }

  function RedrawAll(us: seq<Update>): Program
    decreases us
  {
    if us == [] then [] else InvalidateView(us[0].p) + UpdateView(us[0]) + RedrawAll(us[1..])
  }

  function Unref(p: nat, last: bool): Program {
    Locked(PlayerLock(p), []) + if last then Locked(TableLock, []) else []
  }

  function Get(found: Option<nat>): Program {
    Locked(TableLock, if found.Some? then Locked(PlayerLock(found.value), []) else [])
  }

  /** Taking the avatar out of the maze and showing everyone, when a location was found. */
  function TakeOut(located: bool, us: seq<Update>): Program {
    if located then Locked(MazeLock, []) + UpdateAll(us) else []
  }

  /** Everything an operation's locking can depend on: which branches it takes, which players it finds
      in the table, and how many packets each view update sends. */
  datatype Op =
    | Login
    | Logout(p: nat, located: bool, us: seq<Update>, others: seq<nat>, last: bool)
    | Reset(p: nat, located: bool, roomy: bool, placed: bool, us: seq<Update>, scores: nat, others: seq<nat>)
    | Move(moved: bool, us: seq<Update>)
    | Rotate(u: Update)
    | Refresh(u: Update)
    | Fire(p: nat, hit: bool, victim: Option<nat>, last: bool, all: seq<nat>)
    | CheckHit(p: nat, hit: bool, located: bool, us: seq<Update>, reset: Op)
    | Chat(all: seq<nat>)
    | ShowMaze
    | Registration

  function Trace(op: Op): Program
    decreases op
  {
    match op
    case Login => Locked(TableLock, [])
    case Logout(p, located, us, others, last) =>
      TakeOut(located, us) + (Locked(TableLock, Sends(others)) + Unref(p, last))
    case Reset(p, located, roomy, placed, us, scores, others) =>
      (if located then Locked(MazeLock, []) else [])
      + ((if roomy then Locked(MazeLock, []) else [])
         + (if placed then RedrawAll(us) + (Sends(Repeat(p, scores)) + Sends(others)) else []))
    case Move(moved, us) => Locked(MazeLock, []) + if moved then UpdateAll(us) else []
    case Rotate(u) => Locked(PlayerLock(u.p), InvalidateView(u.p) + UpdateView(u))
    case Refresh(u) => InvalidateView(u.p) + UpdateView(u)
    case Fire(p, hit, victim, last, all) =>
      Locked(MazeLock, [])
      + (if hit then
           Get(victim) + ((if victim.Some? then Unref(victim.value, last) else [])
                          + (Locked(PlayerLock(p), []) + Locked(TableLock, Sends(all))))
         else [])
    case CheckHit(p, hit, located, us, reset) =>
      Locked(PlayerLock(p), [])
      + (if hit then TakeOut(located, us) + (SendTo(p) + Trace(reset)) else [])
    case Chat(all) => Locked(TableLock, Sends(all))
    case ShowMaze => Locked(MazeLock, [])
    case Registration => Locked(RegistryLock, [])
  }

  /** A thread's whole program: any operations in any order. */
  function Session(ops: seq<Op>): Program
    decreases ops
  {
    if ops == [] then [] else Trace(ops[0]) + Session(ops[1..])
  }

  // ---- the discipline ----

  /** A lock may be taken above everything held, or again if it is a player's. */
  predicate MayTake(held: multiset<Lock>, l: Lock) {
    (l in held && l.PlayerLock?) || forall h :: h in held ==> h.Rank() < l.Rank()
  }

  /** What is held after a program, or None if it breaks the order or releases what it has not got. */
  ghost function After(held: multiset<Lock>, program: Program): Option<multiset<Lock>>
    decreases program
  {
    if program == [] then Some(held)
    else match program[0]
         case Acquire(l) => if MayTake(held, l) then After(held + multiset{l}, program[1..]) else None
         case Release(l) => if l in held then After(held - multiset{l}, program[1..]) else None
  }

  lemma {:induction false} AfterConcat(held: multiset<Lock>, a: Program, b: Program)
    ensures After(held, a + b) == match After(held, a) case None => None case Some(h) => After(h, b)
    decreases a
  {
    if a == [] {
      assert a + b == b;
    } else {
      assert (a + b)[1..] == a[1..] + b;
      match a[0]
      case Acquire(l) => AfterConcat(held + multiset{l}, a[1..], b);
      case Release(l) => AfterConcat(held - multiset{l}, a[1..], b);
    }
  }

  /** The program keeps the order and gives back all it takes. */
  ghost predicate Neutral(held: multiset<Lock>, program: Program) {
    After(held, program) == Some(held)
  }

  lemma NeutralConcat(held: multiset<Lock>, a: Program, b: Program)
    requires Neutral(held, a) && Neutral(held, b)
    ensures Neutral(held, a + b)
  {
    AfterConcat(held, a, b);
  }

  lemma NeutralNil(held: multiset<Lock>)
    ensures Neutral(held, [])
  {
  }

  lemma NeutralLocked(held: multiset<Lock>, l: Lock, body: Program)
    requires MayTake(held, l) && Neutral(held + multiset{l}, body)
    ensures Neutral(held, Locked(l, body))
  {
    var inner := held + multiset{l};
    AfterConcat(inner, body, [Release(l)]);
    assert [Release(l)][1..] == [];
    assert After(inner - multiset{l}, []) == Some(held) by {
      assert inner - multiset{l} == held;
    }
    assert Locked(l, body) == [Acquire(l)] + (body + [Release(l)]);
    assert Locked(l, body)[1..] == body + [Release(l)];
  }

  /** Player locks may be taken here: nothing is held but the table lock or the same player's lock. */
  predicate Open(held: multiset<Lock>, p: nat) {
    forall h :: h in held ==> h == TableLock || h == PlayerLock(p)
  }

  lemma NeutralPlayer(held: multiset<Lock>, p: nat)
    requires Open(held, p)
    ensures Neutral(held, Locked(PlayerLock(p), []))
  {
    NeutralNil(held + multiset{PlayerLock(p)});
    NeutralLocked(held, PlayerLock(p), []);
  }

  lemma {:induction false} NeutralSends(held: multiset<Lock>, ps: seq<nat>)
    requires forall i :: 0 <= i < |ps| ==> Open(held, ps[i])
    ensures Neutral(held, Sends(ps))
    decreases ps
  {
    if ps == [] {
      NeutralNil(held);
    } else {
      NeutralPlayer(held, ps[0]);
      NeutralSends(held, ps[1..]);
      NeutralConcat(held, SendTo(ps[0]), Sends(ps[1..]));
    }
  }

  lemma NeutralMaze(held: multiset<Lock>)
    requires forall h :: h in held ==> h.Rank() < 2
    ensures Neutral(held, Locked(MazeLock, []))
  {
    NeutralNil(held + multiset{MazeLock});
    NeutralLocked(held, MazeLock, []);
  }

  lemma NeutralUpdate(held: multiset<Lock>, u: Update)
    requires Open(held, u.p)
    ensures Neutral(held, UpdateView(u))
  {
    var l := PlayerLock(u.p);
    NeutralMaze(held + multiset{l});
    NeutralLocked(held, l, Locked(MazeLock, []));
    NeutralSends(held, Repeat(u.p, u.n));
    NeutralPlayer(held, u.p);
    NeutralConcat(held, Locked(l, Locked(MazeLock, [])), Sends(Repeat(u.p, u.n)));
    NeutralConcat(held, Locked(l, Locked(MazeLock, [])) + Sends(Repeat(u.p, u.n)), Locked(l, []));
  }

  lemma {:induction false} NeutralUpdates(us: seq<Update>)
    ensures Neutral(multiset{}, UpdateAll(us)) && Neutral(multiset{}, RedrawAll(us))
    decreases us
  {
    if us == [] {
      NeutralNil(multiset{});
    } else {
      NeutralUpdate(multiset{}, us[0]);
      NeutralUpdates(us[1..]);
      NeutralPlayer(multiset{}, us[0].p);
      NeutralConcat(multiset{}, UpdateView(us[0]), UpdateAll(us[1..]));
      NeutralConcat(multiset{}, InvalidateView(us[0].p), UpdateView(us[0]));
      NeutralConcat(multiset{}, InvalidateView(us[0].p) + UpdateView(us[0]), RedrawAll(us[1..]));
    }
  }

  lemma NeutralTable(body: Program)
    requires Neutral(multiset{TableLock}, body)
    ensures Neutral(multiset{}, Locked(TableLock, body))
  {
    assert multiset{} + multiset{TableLock} == multiset{TableLock};
    NeutralLocked(multiset{}, TableLock, body);
  }

  lemma NeutralTableSends(ps: seq<nat>)
    ensures Neutral(multiset{}, Locked(TableLock, Sends(ps)))
  {
    NeutralSends(multiset{TableLock}, ps);
    NeutralTable(Sends(ps));
  }

  lemma NeutralUnref(p: nat, last: bool)
    ensures Neutral(multiset{}, Unref(p, last))
  {
    NeutralPlayer(multiset{}, p);
    NeutralNil(multiset{TableLock});
    NeutralTable([]);
    NeutralNil(multiset{});
    NeutralConcat(multiset{}, Locked(PlayerLock(p), []), if last then Locked(TableLock, []) else []);
  }

  lemma NeutralTakeOut(located: bool, us: seq<Update>)
    ensures Neutral(multiset{}, TakeOut(located, us))
  {
    NeutralNil(multiset{});
    NeutralMaze(multiset{});
    NeutralUpdates(us);
    NeutralConcat(multiset{}, Locked(MazeLock, []), UpdateAll(us));
  }

  lemma NeutralReset(op: Op)
    requires op.Reset?
    ensures Neutral(multiset{}, Trace(op))
  {
    var none: multiset<Lock> := multiset{};
    NeutralNil(none);
    NeutralMaze(none);
    NeutralUpdates(op.us);
    NeutralSends(none, Repeat(op.p, op.scores));
    NeutralSends(none, op.others);
    NeutralConcat(none, Sends(Repeat(op.p, op.scores)), Sends(op.others));
    NeutralConcat(none, RedrawAll(op.us), Sends(Repeat(op.p, op.scores)) + Sends(op.others));
    var tail := if op.placed then RedrawAll(op.us) + (Sends(Repeat(op.p, op.scores)) + Sends(op.others)) else [];
    var put := if op.roomy then Locked(MazeLock, []) else [];
    NeutralConcat(none, put, tail);
    NeutralConcat(none, if op.located then Locked(MazeLock, []) else [], put + tail);
  }

  lemma NeutralFire(op: Op)
    requires op.Fire?
    ensures Neutral(multiset{}, Trace(op))
  {
    var none: multiset<Lock> := multiset{};
    NeutralNil(none);
    NeutralMaze(none);
    NeutralNil(multiset{TableLock});
    if op.victim.Some? {
      NeutralPlayer(multiset{TableLock}, op.victim.value);
      NeutralUnref(op.victim.value, op.last);
    }
    NeutralTable(if op.victim.Some? then Locked(PlayerLock(op.victim.value), []) else []);
    NeutralPlayer(none, op.p);
    NeutralTableSends(op.all);
    var tell := Locked(PlayerLock(op.p), []) + Locked(TableLock, Sends(op.all));
    var unref := if op.victim.Some? then Unref(op.victim.value, op.last) else [];
    NeutralConcat(none, Locked(PlayerLock(op.p), []), Locked(TableLock, Sends(op.all)));
    NeutralConcat(none, unref, tell);
    NeutralConcat(none, Get(op.victim), unref + tell);
    NeutralConcat(none, Locked(MazeLock, []), if op.hit then Get(op.victim) + (unref + tell) else []);
  }

  /** Every operation, on every path, takes its locks in order and releases them all. */
  lemma {:induction false} OperationsAreNeutral(op: Op)
    ensures Neutral(multiset{}, Trace(op))
    decreases op
  {
    var none: multiset<Lock> := multiset{};
    NeutralNil(none);
    NeutralMaze(none);
    match op
    case Login =>
      NeutralNil(multiset{TableLock});
      NeutralTable([]);
    case Logout(p, located, us, others, last) =>
      NeutralTakeOut(located, us);
      NeutralTableSends(others);
      NeutralUnref(p, last);
      NeutralConcat(none, Locked(TableLock, Sends(others)), Unref(p, last));
      NeutralConcat(none, TakeOut(located, us), Locked(TableLock, Sends(others)) + Unref(p, last));
    case Reset(_, _, _, _, _, _, _) => NeutralReset(op);
    case Move(moved, us) =>
      NeutralUpdates(us);
      NeutralConcat(none, Locked(MazeLock, []), if moved then UpdateAll(us) else []);
    case Rotate(u) =>
      var mine := multiset{PlayerLock(u.p)};
      NeutralPlayer(mine, u.p);
      NeutralUpdate(mine, u);
      NeutralConcat(mine, InvalidateView(u.p), UpdateView(u));
      assert none + mine == mine;
      NeutralLocked(none, PlayerLock(u.p), InvalidateView(u.p) + UpdateView(u));
    case Refresh(u) =>
      NeutralPlayer(none, u.p);
      NeutralUpdate(none, u);
      NeutralConcat(none, InvalidateView(u.p), UpdateView(u));
    case Fire(_, _, _, _, _) => NeutralFire(op);
    case CheckHit(p, hit, located, us, reset) =>
      OperationsAreNeutral(reset);
      NeutralTakeOut(located, us);
      NeutralPlayer(none, p);
      NeutralConcat(none, SendTo(p), Trace(reset));
      NeutralConcat(none, TakeOut(located, us), SendTo(p) + Trace(reset));
      NeutralConcat(none, Locked(PlayerLock(p), []), if hit then TakeOut(located, us) + (SendTo(p) + Trace(reset)) else []);
    case Chat(all) => NeutralTableSends(all);
    case ShowMaze =>
    case Registration =>
      NeutralNil(none + multiset{RegistryLock});
      NeutralLocked(none, RegistryLock, []);
  }

  lemma {:induction false} SessionsAreNeutral(ops: seq<Op>)
    ensures Neutral(multiset{}, Session(ops))
    decreases ops
  {
    if ops == [] {
      NeutralNil(multiset{});
    } else {
      OperationsAreNeutral(ops[0]);
      SessionsAreNeutral(ops[1..]);
      NeutralConcat(multiset{}, Trace(ops[0]), Session(ops[1..]));
    }
  }

  // ---- interleavings ----

  datatype Thread = Thread(held: multiset<Lock>, todo: Program)

  type World = seq<Thread>

  /** Nobody else has the lock, and its owner may only take a player's lock again. */
  predicate Available(w: World, i: nat, l: Lock)
    requires i < |w|
  {
    && (forall j :: 0 <= j < |w| && j != i ==> l !in w[j].held)
    && (l in w[i].held ==> l.PlayerLock?)
  }

  predicate Enabled(w: World, i: nat)
    requires i < |w|
  {
    w[i].todo != [] && (w[i].todo[0].Acquire? ==> Available(w, i, w[i].todo[0].l))
  }

  function Next(t: Thread): Thread
    requires t.todo != []
  {
    match t.todo[0]
    case Acquire(l) => Thread(t.held + multiset{l}, t.todo[1..])
    case Release(l) => Thread(t.held - multiset{l}, t.todo[1..])
  }

  function Step(w: World, i: nat): World
    requires i < |w|
  {
    if Enabled(w, i) then w[i := Next(w[i])] else w
  }

  function Schedule(w: World, turns: seq<nat>): World
    decreases turns
  {
    if turns == [] then w
    else if turns[0] < |w| then Schedule(Step(w, turns[0]), turns[1..])
    else Schedule(w, turns[1..])
  }

  /** Thread i runs the operations programs[i]. */
  function Begin(programs: seq<seq<Op>>): World {
    seq(|programs|, i requires 0 <= i < |programs| => Thread(multiset{}, Session(programs[i])))
  }

  ghost predicate OnePlayer(held: multiset<Lock>) {
    forall a, b :: PlayerLock(a) in held && PlayerLock(b) in held ==> a == b
  }

  ghost predicate ThreadOk(t: Thread) {
    After(t.held, t.todo) == Some(multiset{}) && OnePlayer(t.held)
  }

  ghost predicate Disjoint(t: Thread, u: Thread) {
    forall l :: l in t.held ==> l !in u.held
  }

  ghost predicate Inv(w: World) {
    && (forall i :: 0 <= i < |w| ==> ThreadOk(w[i]))
    && (forall i, j :: 0 <= i < |w| && 0 <= j < |w| && i != j ==> Disjoint(w[i], w[j]))
  }

  lemma NextOk(t: Thread)
    requires t.todo != [] && ThreadOk(t)
    ensures ThreadOk(Next(t))
  {
    if t.todo[0].Acquire? {
      assert MayTake(t.held, t.todo[0].l);
    }
  }

  lemma StepKeeps(w: World, i: nat)
    requires Inv(w) && i < |w|
    ensures Inv(Step(w, i)) && |Step(w, i)| == |w|
  {
    if Enabled(w, i) {
      NextOk(w[i]);
      forall j | 0 <= j < |w| && j != i ensures Disjoint(Next(w[i]), w[j]) && Disjoint(w[j], Next(w[i])) {
        assert Disjoint(w[i], w[j]) && Disjoint(w[j], w[i]);
      }
    }
  }

  lemma {:induction false} ScheduleKeeps(w: World, turns: seq<nat>)
    requires Inv(w)
    ensures Inv(Schedule(w, turns))
    decreases turns
  {
    if turns != [] {
      if turns[0] < |w| {
        StepKeeps(w, turns[0]);
        ScheduleKeeps(Step(w, turns[0]), turns[1..]);
      } else {
        ScheduleKeeps(w, turns[1..]);
      }
    }
  }

  ghost predicate Reachable(w: World) {
    exists programs, turns :: w == Schedule(Begin(programs), turns)
  }

  lemma ReachableOk(w: World)
    requires Reachable(w)
    ensures Inv(w)
  {
    var programs, turns :| w == Schedule(Begin(programs), turns);
    forall i | 0 <= i < |programs| ensures Neutral(multiset{}, Session(programs[i])) {
      SessionsAreNeutral(programs[i]);
    }
    assert Inv(Begin(programs));
    ScheduleKeeps(Begin(programs), turns);
  }

  /** Whoever has a player's lock may take it again. */
  lemma OwnerMayTake(w: World, j: nat, m: Lock)
    requires Inv(w) && j < |w| && m in w[j].held && m.PlayerLock?
    ensures Available(w, j, m)
  {
    forall x | 0 <= x < |w| && x != j ensures m !in w[x].held {
      assert Disjoint(w[j], w[x]);
    }
  }

  /** A thread that waits holds only locks of lower rank than the one it waits for. */
  lemma WaitsHigher(w: World, j: nat, m: Lock)
    requires Inv(w) && j < |w| && w[j].todo != [] && w[j].todo[0] == Acquire(m) && !Enabled(w, j)
    ensures forall h :: h in w[j].held ==> h.Rank() < m.Rank()
  {
    assert ThreadOk(w[j]) && MayTake(w[j].held, m);
    if m in w[j].held && m.PlayerLock? {
      OwnerMayTake(w, j, m);
      assert false;
    }
  }

  /** What is left of the ranks for a thread to wait at: nothing counts higher than a thread that waits for a
      lock of low rank, and one that can step counts nothing. */
  function Height(w: World, i: nat): nat
    requires i < |w| && w[i].todo != []
  {
    if Enabled(w, i) || w[i].todo[0].Release? then 0 else 4 - w[i].todo[0].l.Rank()
  }

  /** A thread that waits, waits for an unfinished one, which waits, if at all, for a higher lock. */
  lemma WaitsFor(w: World, i: nat) returns (j: nat)
    requires Inv(w) && i < |w| && w[i].todo != [] && !Enabled(w, i)
    ensures j < |w| && w[j].todo != [] && Height(w, j) < Height(w, i)
  {
    var l := w[i].todo[0].l;
    assert ThreadOk(w[i]) && MayTake(w[i].held, l);
    j :| 0 <= j < |w| && j != i && l in w[j].held;
    assert ThreadOk(w[j]) && w[j].todo != [];
    if !Enabled(w, j) && w[j].todo[0].Acquire? {
      WaitsHigher(w, j, w[j].todo[0].l);
    }
  }

  /** Whoever waits, waits for a thread that is unfinished and waits, if at all, for a lock of higher
      rank; ranks are bounded, so somebody does not wait. */
  lemma {:induction false} SomeoneCanStep(w: World, i: nat) returns (k: nat)
    requires Inv(w) && i < |w| && w[i].todo != []
    ensures k < |w| && Enabled(w, k)
    decreases Height(w, i)
  {
    if Enabled(w, i) {
      k := i;
    } else {
      var j := WaitsFor(w, i);
      k := SomeoneCanStep(w, j);
    }
  }

  /** No deadlock: in every reachable state, if any thread is unfinished, some thread can step. */
  lemma NoDeadlock(w: World, i: nat) returns (k: nat)
    requires Reachable(w) && i < |w| && w[i].todo != []
    ensures k < |w| && Enabled(w, k)
  {
    ReachableOk(w);
    k := SomeoneCanStep(w, i);
  }

  /** No thread ever holds the mutexes of two players, no two threads hold the same mutex, and a
      finished thread holds none. */
  lemma LocksAreExclusive(w: World, i: nat, j: nat)
    requires Reachable(w) && i < |w| && j < |w|
    ensures forall a, b :: PlayerLock(a) in w[i].held && PlayerLock(b) in w[i].held ==> a == b
    ensures i != j ==> forall l :: l in w[i].held ==> l !in w[j].held
    ensures w[i].todo == [] ==> w[i].held == multiset{}
  {
    ReachableOk(w);
    assert ThreadOk(w[i]) && (i != j ==> Disjoint(w[i], w[j]));
  }

  function Remaining(w: World): nat
    decreases w
  {
    if w == [] then 0 else |w[0].todo| + Remaining(w[1..])
  }

  lemma {:induction false} RemainingUpdate(w: World, i: nat, t: Thread)
    requires i < |w|
    ensures Remaining(w[i := t]) == Remaining(w) - |w[i].todo| + |t.todo|
    decreases w
  {
    if i == 0 {
      assert w[0 := t][1..] == w[1..];
    } else {
      assert w[i := t][1..] == w[1..][i - 1 := t];
      RemainingUpdate(w[1..], i - 1, t);
    }
  }

  lemma StepShortens(w: World, i: nat)
    requires i < |w| && Enabled(w, i)
    ensures Remaining(Step(w, i)) == Remaining(w) - 1
    decreases w
  {
    var t := Step(w, i)[i];
    assert Step(w, i) == w[i := t] && |t.todo| == |w[i].todo| - 1;
    RemainingUpdate(w, i, t);
  }

  lemma {:induction false} WayToTheEnd(w: World) returns (turns: seq<nat>)
    requires Inv(w)
    ensures forall i :: 0 <= i < |Schedule(w, turns)| ==> Schedule(w, turns)[i].todo == []
    decreases Remaining(w)
  {
    if i :| 0 <= i < |w| && w[i].todo != [] {
      var k := SomeoneCanStep(w, i);
      StepShortens(w, k);
      StepKeeps(w, k);
      var rest := WayToTheEnd(Step(w, k));
      turns := [k] + rest;
      assert turns[1..] == rest;
    } else {
      turns := [];
    }
  }

  /** Every session can be brought to its end from every reachable state. */
  lemma EverybodyCanFinish(w: World) returns (turns: seq<nat>)
    requires Reachable(w)
    ensures forall i :: 0 <= i < |Schedule(w, turns)| ==> Schedule(w, turns)[i].todo == []
  {
    ReachableOk(w);
    turns := WayToTheEnd(w);
  }

  /** Every turn of the schedule is taken by a thread that can step. */
  ghost predicate Busy(w: World, turns: seq<nat>)
    decreases turns
  {
    turns == [] || (turns[0] < |w| && Enabled(w, turns[0]) && Busy(Step(w, turns[0]), turns[1..]))
  }

  /** No session runs on forever: every schedule that wastes no turn ends after the steps that were
      left at its start, and each turn is one of them. */
  lemma {:induction false} BusySchedulesEnd(w: World, turns: seq<nat>)
    requires Busy(w, turns)
    ensures Remaining(Schedule(w, turns)) == Remaining(w) - |turns|
    decreases turns
  {
    if turns != [] {
      StepShortens(w, turns[0]);
      BusySchedulesEnd(Step(w, turns[0]), turns[1..]);
    }
  }

  lemma {:induction false} NothingRemains(w: World)
    ensures Remaining(w) == 0 <==> forall i :: 0 <= i < |w| ==> w[i].todo == []
    decreases w
  {
    if w != [] {
      NothingRemains(w[1..]);
      assert forall i :: 0 < i < |w| ==> w[i] == w[1..][i - 1];
    }
  }

  lemma {:induction false} ScheduleAppends(w: World, turns: seq<nat>, more: seq<nat>)
    ensures Schedule(w, turns + more) == Schedule(Schedule(w, turns), more)
    decreases turns
  {
    if turns == [] {
      assert turns + more == more;
    } else {
      assert (turns + more)[1..] == turns[1..] + more;
      ScheduleAppends(if turns[0] < |w| then Step(w, turns[0]) else w, turns[1..], more);
    }
  }

  lemma StillReachable(w: World, turns: seq<nat>)
    requires Reachable(w)
    ensures Reachable(Schedule(w, turns))
  {
    var programs, before :| w == Schedule(Begin(programs), before);
    ScheduleAppends(Begin(programs), before, turns);
  }

  /** However a reachable world is scheduled, as long as no turn is wasted: no more turns than steps
      left, and after exactly that many, and only then, everybody is done and nobody can step. */
  lemma EverySchedulingFinishes(w: World, turns: seq<nat>)
    requires Reachable(w) && Busy(w, turns)
    ensures |turns| <= Remaining(w)
    ensures var v := Schedule(w, turns);
            && (|turns| == Remaining(w) <==> forall i :: 0 <= i < |v| ==> v[i].todo == [])
            && (|turns| == Remaining(w) <==> forall i :: 0 <= i < |v| ==> !Enabled(v, i))
  {
    BusySchedulesEnd(w, turns);
    var v := Schedule(w, turns);
    NothingRemains(v);
    StillReachable(w, turns);
    if i :| 0 <= i < |v| && v[i].todo != [] {
      var k := NoDeadlock(v, i);
    }
  }

  // ---- which locks are taken how often ----

  /** How often the program takes the lock. */
  function Takes(program: Program, l: Lock): nat
    decreases program
  {
    if program == [] then 0 else (if program[0] == Acquire(l) then 1 else 0) + Takes(program[1..], l)
  }

  lemma {:induction false} TakesConcat(a: Program, b: Program, l: Lock)
    ensures Takes(a + b, l) == Takes(a, l) + Takes(b, l)
    decreases a
  {
    if a == [] {
      assert a + b == b;
    } else {
      assert (a + b)[1..] == a[1..] + b;
      TakesConcat(a[1..], b, l);
    }
  }

  lemma TakesLocked(k: Lock, body: Program, l: Lock)
    ensures Takes(Locked(k, body), l) == (if k == l then 1 else 0) + Takes(body, l)
  {
    TakesConcat(body, [Release(k)], l);
    assert [Release(k)][1..] == [];
    assert Locked(k, body) == [Acquire(k)] + (body + [Release(k)]);
    assert Locked(k, body)[1..] == body + [Release(k)];
  }

  lemma {:induction false} TakesSends(ps: seq<nat>, l: Lock)
    requires !l.PlayerLock?
    ensures Takes(Sends(ps), l) == 0
    decreases ps
  {
    if ps != [] {
      TakesLocked(PlayerLock(ps[0]), [], l);
      TakesSends(ps[1..], l);
      TakesConcat(SendTo(ps[0]), Sends(ps[1..]), l);
    }
  }

  lemma TakesUpdate(u: Update, l: Lock)
    requires !l.PlayerLock?
    ensures Takes(UpdateView(u), l) == (if l == MazeLock then 1 else 0) && Takes(InvalidateView(u.p), l) == 0
  {
    var p := PlayerLock(u.p);
    TakesLocked(MazeLock, [], l);
    TakesLocked(p, Locked(MazeLock, []), l);
    TakesLocked(p, [], l);
    TakesSends(Repeat(u.p, u.n), l);
    TakesConcat(Locked(p, Locked(MazeLock, [])), Sends(Repeat(u.p, u.n)), l);
    TakesConcat(Locked(p, Locked(MazeLock, [])) + Sends(Repeat(u.p, u.n)), Locked(p, []), l);
  }

  lemma {:induction false} TakesUpdates(us: seq<Update>, l: Lock)
    requires !l.PlayerLock?
    ensures Takes(UpdateAll(us), l) == (if l == MazeLock then |us| else 0) == Takes(RedrawAll(us), l)
    decreases us
  {
    if us != [] {
      TakesUpdate(us[0], l);
      TakesUpdates(us[1..], l);
      TakesConcat(UpdateView(us[0]), UpdateAll(us[1..]), l);
      TakesConcat(InvalidateView(us[0].p), UpdateView(us[0]), l);
      TakesConcat(InvalidateView(us[0].p) + UpdateView(us[0]), RedrawAll(us[1..]), l);
    }
  }

  lemma TakesTakeOut(located: bool, us: seq<Update>, l: Lock)
    requires !l.PlayerLock?
    ensures Takes(TakeOut(located, us), l) == if l == MazeLock && located then 1 + |us| else 0
  {
    TakesLocked(MazeLock, [], l);
    TakesUpdates(us, l);
    TakesConcat(Locked(MazeLock, []), UpdateAll(us), l);
  }

  lemma TakesUnref(p: nat, last: bool, l: Lock)
    requires !l.PlayerLock?
    ensures Takes(Unref(p, last), l) == if l == TableLock && last then 1 else 0
  {
    TakesLocked(PlayerLock(p), [], l);
    TakesLocked(TableLock, [], l);
    TakesConcat(Locked(PlayerLock(p), []), if last then Locked(TableLock, []) else [], l);
  }

  lemma TakesReset(op: Op, l: Lock)
    requires op.Reset? && !l.PlayerLock?
    ensures Takes(Trace(op), l) ==
            if l == MazeLock then (if op.located then 1 else 0) + (if op.roomy then 1 else 0) + (if op.placed then |op.us| else 0)
            else 0
  {
    var sends := Sends(Repeat(op.p, op.scores)) + Sends(op.others);
    TakesLocked(MazeLock, [], l);
    TakesUpdates(op.us, l);
    TakesSends(Repeat(op.p, op.scores), l);
    TakesSends(op.others, l);
    TakesConcat(Sends(Repeat(op.p, op.scores)), Sends(op.others), l);
    TakesConcat(RedrawAll(op.us), sends, l);
    var tail := if op.placed then RedrawAll(op.us) + sends else [];
    var put := if op.roomy then Locked(MazeLock, []) else [];
    TakesConcat(put, tail, l);
    TakesConcat(if op.located then Locked(MazeLock, []) else [], put + tail, l);
  }

  lemma TakesFire(op: Op, l: Lock)
    requires op.Fire? && !l.PlayerLock?
    ensures Takes(Trace(op), l) ==
            if l == MazeLock then 1
            else if l == TableLock && op.hit then 2 + (if op.victim.Some? && op.last then 1 else 0)
            else 0
  {
    var get := Get(op.victim);
    var unref := if op.victim.Some? then Unref(op.victim.value, op.last) else [];
    var tell := Locked(PlayerLock(op.p), []) + Locked(TableLock, Sends(op.all));
    if op.victim.Some? {
      TakesLocked(PlayerLock(op.victim.value), [], l);
      TakesUnref(op.victim.value, op.last, l);
    }
    TakesLocked(TableLock, if op.victim.Some? then Locked(PlayerLock(op.victim.value), []) else [], l);
    TakesLocked(PlayerLock(op.p), [], l);
    TakesSends(op.all, l);
    TakesLocked(TableLock, Sends(op.all), l);
    TakesLocked(MazeLock, [], l);
    TakesConcat(Locked(PlayerLock(op.p), []), Locked(TableLock, Sends(op.all)), l);
    TakesConcat(unref, tell, l);
    TakesConcat(get, unref + tell, l);
    TakesConcat(Locked(MazeLock, []), if op.hit then get + (unref + tell) else [], l);
  }

  /** How often each operation takes players_mutex, on every path. */
  function TableTakes(op: Op): nat {
    match op
    case Login => 1
    case Logout(_, _, _, _, last) => if last then 2 else 1
    case Fire(_, hit, victim, last, _) => if !hit then 0 else if victim.Some? && last then 3 else 2
    case CheckHit(_, hit, _, _, reset) => if hit then TableTakes(reset) else 0
    case Chat(_) => 1
    case _ => 0
  }

  /** How often each operation takes maze_mutex, on every path: one look or change at a time, and once for
      every view that is drawn. */
  function MazeTakes(op: Op): nat {
    match op
    case Logout(_, located, us, _, _) => if located then 1 + |us| else 0
    case Reset(_, located, roomy, placed, us, _, _) =>
      (if located then 1 else 0) + (if roomy then 1 else 0) + (if placed then |us| else 0)
    case Move(moved, us) => if moved then 1 + |us| else 1
    case CheckHit(_, hit, located, us, reset) => if hit then (if located then 1 + |us| else 0) + MazeTakes(reset) else 0
    case Rotate(_) => 1
    case Refresh(_) => 1
    case Fire(_, _, _, _, _) => 1
    case ShowMaze => 1
    case _ => 0
  }

  lemma {:induction false} OperationsTake(op: Op, l: Lock)
    requires l == TableLock || l == MazeLock
    ensures Takes(Trace(op), l) == if l == TableLock then TableTakes(op) else MazeTakes(op)
    decreases op
  {
    TakesLocked(TableLock, [], l);
    TakesLocked(MazeLock, [], l);
    match op
    case Login =>
    case Logout(p, located, us, others, last) =>
      TakesTakeOut(located, us, l);
      TakesSends(others, l);
      TakesLocked(TableLock, Sends(others), l);
      TakesUnref(p, last, l);
      TakesConcat(Locked(TableLock, Sends(others)), Unref(p, last), l);
      TakesConcat(TakeOut(located, us), Locked(TableLock, Sends(others)) + Unref(p, last), l);
    case Reset(_, _, _, _, _, _, _) => TakesReset(op, l);
    case Move(moved, us) =>
      TakesUpdates(us, l);
      TakesConcat(Locked(MazeLock, []), if moved then UpdateAll(us) else [], l);
    case Rotate(u) =>
      TakesUpdate(u, l);
      TakesConcat(InvalidateView(u.p), UpdateView(u), l);
      TakesLocked(PlayerLock(u.p), InvalidateView(u.p) + UpdateView(u), l);
    case Refresh(u) =>
      TakesUpdate(u, l);
      TakesConcat(InvalidateView(u.p), UpdateView(u), l);
    case Fire(_, _, _, _, _) => TakesFire(op, l);
    case CheckHit(p, hit, located, us, reset) =>
      OperationsTake(reset, l);
      TakesTakeOut(located, us, l);
      TakesLocked(PlayerLock(p), [], l);
      TakesConcat(SendTo(p), Trace(reset), l);
      TakesConcat(TakeOut(located, us), SendTo(p) + Trace(reset), l);
      TakesConcat(Locked(PlayerLock(p), []), if hit then TakeOut(located, us) + (SendTo(p) + Trace(reset)) else [], l);
    case Chat(all) =>
      TakesSends(all, l);
      TakesLocked(TableLock, Sends(all), l);
    case ShowMaze =>
    case Registration => TakesLocked(RegistryLock, [], l);
  }
}
