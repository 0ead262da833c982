/** Reference counts of player records under any interleaving (src/player.c:83-156, 159-185, 239-281).
    One step is one critical section; only player_get is cut in two, because it takes the mutex of the
    record while it holds the mutex of the table. */
module RefCounts {
  import opened Compass

  type Letter = k: nat | k < NUM_AVATARS

  /** A player record: its avatar, the thread that logged it in, the count, and how often it has been
      freed. */
  datatype Record = Record(avatar: Letter, session: nat, refs: int, frees: nat)

  datatype Pc =
    | Idle
    | Looking(found: Option<nat>)   // in player_get, players_mutex held, about to count the reference
    | Releasing(what: nat)          // in player_logout, slot cleared, about to drop its own reference
    | Clearing(what: nat)           // in player_unref, count zero, about to clear the slot
    | Freeing(what: nat)            // in player_unref, about to free

  /** A thread: its own player if it is logged in, and the counted references it has got. */
  datatype Thread = Thread(own: Option<nat>, got: seq<nat>, pc: Pc)

  /** `locked` is the thread that holds players_mutex across steps. */
  datatype World = World(records: seq<Record>, table: Slots, threads: seq<Thread>, locked: Option<nat>)

  datatype Choice =
    | Login(a: Letter)
    | Logout
    | Get(a: Letter)
    | RefAgain(j: nat)
    | Unref(j: nat)
    | Continue

  function With(w: World, i: nat, t: Thread): World
    requires i < |w.threads|
  {
    w.(threads := w.threads[i := t])
  }

  function Counted(w: World, o: nat, change: int): World
    requires o < |w.records|
  {
    w.(records := w.records[o := w.records[o].(refs := w.records[o].refs + change)])
  }

  /** player_unref of record o by thread i, whose other state is already t. */
  function Dropped(w: World, i: nat, t: Thread, o: nat): World
    requires i < |w.threads| && o < |w.records|
  {
    var v := Counted(w, o, -1);
    With(v, i, t.(pc := if v.records[o].refs == 0 then Clearing(o) else Idle))
  }

  /** One step of thread i; a step that is not possible, or must wait for players_mutex, is none. */
  function Step(w: World, i: nat, c: Choice): World
    requires i < |w.threads|
  {
    var t := w.threads[i];
    match t.pc
    case Idle =>
      (match c
       case Login(a) =>
         if t.own.Some? || w.locked.Some? || w.table[a].Some? then w
         else With(w, i, t.(own := Some(|w.records|)))
              .(records := w.records + [Record(a, i, 1, 0)], table := w.table[a := Some(|w.records|)])
       case Logout =>
         if t.own.None? || t.own.value >= |w.records| || w.locked.Some? then w
         else With(w, i, t.(pc := Releasing(t.own.value)))
              .(table := w.table[w.records[t.own.value].avatar := None])
       case Get(a) =>
         if w.locked.Some? then w else With(w, i, t.(pc := Looking(w.table[a]))).(locked := Some(i))
       case RefAgain(j) =>
         if j >= |t.got| || t.got[j] >= |w.records| then w
         else With(Counted(w, t.got[j], 1), i, t.(got := t.got + [t.got[j]]))
       case Unref(j) =>
         if j >= |t.got| || t.got[j] >= |w.records| then w
         else Dropped(w, i, t.(got := t.got[..j] + t.got[j + 1..]), t.got[j])
       case Continue => w)
    case Looking(found) =>
      if found.None? || found.value >= |w.records| then With(w, i, t.(pc := Idle)).(locked := None)
      else With(Counted(w, found.value, 1), i, t.(pc := Idle, got := t.got + [found.value])).(locked := None)
    case Releasing(o) =>
      if o >= |w.records| then w else Dropped(w, i, t.(own := None), o)
    case Clearing(o) =>
      if o >= |w.records| || w.locked.Some? then w
      else With(w, i, t.(pc := Freeing(o))).(table := w.table[w.records[o].avatar := None])
    case Freeing(o) =>
      if o >= |w.records| then w
      else With(w, i, t.(pc := Idle)).(records := w.records[o := w.records[o].(frees := w.records[o].frees + 1)])
  }

  datatype Turn = Turn(thread: nat, choice: Choice)

  function Schedule(w: World, turns: seq<Turn>): World
    decreases turns
  {
    if turns == [] then w
    else if turns[0].thread < |w.threads| then Schedule(Step(w, turns[0].thread, turns[0].choice), turns[1..])
    else Schedule(w, turns[1..])
  }

  function Begin(n: nat): World {
    World([], seq(NUM_AVATARS, _ => None), seq(n, _ => Thread(None, [], Idle)), None)
  }

  // ---- counting references ----

  function Occurs(s: seq<nat>, o: nat): nat
    decreases s
  {
    if s == [] then 0 else (if s[0] == o then 1 else 0) + Occurs(s[1..], o)
  }

  /** Counted references to o that thread t holds: its own one and those it has got. */
  function Holds(t: Thread, o: nat): nat {
    (if t.own == Some(o) then 1 else 0) + Occurs(t.got, o)
  }

  function Held(threads: seq<Thread>, o: nat): nat
    decreases threads
  {
    if threads == [] then 0 else Holds(threads[0], o) + Held(threads[1..], o)
  }

  lemma {:induction false} OccursConcat(s: seq<nat>, u: seq<nat>, o: nat)
    ensures Occurs(s + u, o) == Occurs(s, o) + Occurs(u, o)
    decreases s
  {
    if s == [] {
      assert s + u == u;
    } else {
      assert (s + u)[1..] == s[1..] + u;
      OccursConcat(s[1..], u, o);
    }
  }

  lemma OccursAdded(s: seq<nat>, x: nat, o: nat)
    ensures Occurs(s + [x], o) == Occurs(s, o) + if x == o then 1 else 0
  {
    OccursConcat(s, [x], o);
    assert [x][1..] == [];
  }

  lemma OccursRemoved(s: seq<nat>, j: nat, o: nat)
    requires j < |s|
    ensures Occurs(s[..j] + s[j + 1..], o) == Occurs(s, o) - if s[j] == o then 1 else 0
  {
    OccursConcat(s[..j], s[j + 1..], o);
    OccursConcat(s[..j], s[j..], o);
    assert s[..j] + s[j..] == s;
    assert s[j..][1..] == s[j + 1..];
  }

  lemma {:induction false} HeldUpdate(threads: seq<Thread>, i: nat, t: Thread, o: nat)
    requires i < |threads|
    ensures Held(threads[i := t], o) == Held(threads, o) - Holds(threads[i], o) + Holds(t, o)
    decreases threads
  {
    if i == 0 {
      assert threads[0 := t][1..] == threads[1..];
    } else {
      assert threads[i := t][1..] == threads[1..][i - 1 := t];
      HeldUpdate(threads[1..], i - 1, t, o);
    }
  }

  lemma {:induction false} HeldAtLeast(threads: seq<Thread>, i: nat, o: nat)
    requires i < |threads|
    ensures Held(threads, o) >= Holds(threads[i], o)
    decreases threads
  {
    if i > 0 {
      HeldAtLeast(threads[1..], i - 1, o);
    }
  }

  lemma {:induction false} OccursMember(s: seq<nat>, j: nat)
    requires j < |s|
    ensures Occurs(s, s[j]) > 0
    decreases s
  {
    if j > 0 {
      OccursMember(s[1..], j - 1);
    }
  }

  lemma {:induction false} HeldNone(n: nat, o: nat)
    ensures Held(seq(n, _ => Thread(None, [], Idle)), o) == 0
    decreases n
  {
    if n > 0 {
      assert seq(n, _ => Thread(None, [], Idle))[1..] == seq(n - 1, _ => Thread(None, [], Idle));
      HeldNone(n - 1, o);
    }
  }

  // ---- the invariant ----

  /** Thread t is on its way to free record o. */
  predicate Ends(t: Thread, o: nat) {
    t.pc == Clearing(o) || t.pc == Freeing(o)
  }

  ghost predicate NobodyEnds(w: World, o: nat) {
    forall i :: 0 <= i < |w.threads| ==> !Ends(w.threads[i], o)
  }

  ghost predicate OneEnds(w: World, o: nat) {
    exists i :: 0 <= i < |w.threads| && Ends(w.threads[i], o)
                && forall j :: 0 <= j < |w.threads| && Ends(w.threads[j], o) ==> i == j
  }

  /** The count is the number of references, and a record without references has either been freed,
      once, or one thread is about to free it. */
  ghost predicate RecordOk(w: World, o: nat)
    requires o < |w.records|
  {
    && w.records[o].refs == Held(w.threads, o)
    && (w.records[o].refs > 0 ==> w.records[o].frees == 0 && NobodyEnds(w, o))
    && (w.records[o].refs == 0 ==>
          (w.records[o].frees == 0 && OneEnds(w, o)) || (w.records[o].frees == 1 && NobodyEnds(w, o)))
  }

  /** What the place in the program says. */
  ghost predicate PcOk(w: World, i: nat)
    requires i < |w.threads|
  {
    var t := w.threads[i];
    && (t.pc.Looking? <==> w.locked == Some(i))
    && (t.pc.Looking? && t.pc.found.Some? ==>
          && t.pc.found.value < |w.records|
          && w.table[w.records[t.pc.found.value].avatar] == t.pc.found)
    && (t.pc.Releasing? ==> t.own == Some(t.pc.what))
    && (t.pc.Clearing? || t.pc.Freeing? ==> t.pc.what < |w.records|)
  }

  /** What a thread has, exists; a thread holding the lock has seen the table as it still is. */
  ghost predicate ThreadOk(w: World, i: nat)
    requires i < |w.threads|
  {
    var t := w.threads[i];
    && (t.own.Some? ==> t.own.value < |w.records| && w.records[t.own.value].session == i)
    && (forall j :: 0 <= j < |t.got| ==> t.got[j] < |w.records|)
    && (forall o: nat :: o >= |w.records| ==> Holds(t, o) == 0)
    && PcOk(w, i)
  }

  /** A record in the table is owned by a session that has not begun to log out. */
  ghost predicate SlotOk(w: World, a: Letter) {
    w.table[a].Some? ==>
      && w.table[a].value < |w.records|
      && w.records[w.table[a].value].avatar == a
      && w.records[w.table[a].value].session < |w.threads|
      && w.threads[w.records[w.table[a].value].session].own == w.table[a]
      && !w.threads[w.records[w.table[a].value].session].pc.Releasing?
  }

  ghost predicate Inv(w: World) {
    && (forall o :: 0 <= o < |w.records| ==> RecordOk(w, o))
    && (forall i :: 0 <= i < |w.threads| ==> ThreadOk(w, i))
    && (forall a: Letter :: SlotOk(w, a))
    && (w.locked.Some? ==> w.locked.value < |w.threads|)
  }

  // ---- one step ----

  /** A record that thread i's step does not touch stays in order. */
  lemma Untouched(w: World, v: World, i: nat, t: Thread, o: nat)
    requires i < |w.threads| && v.threads == w.threads[i := t]
    requires o < |w.records| && o < |v.records| && v.records[o] == w.records[o] && RecordOk(w, o)
    requires Holds(t, o) == Holds(w.threads[i], o) && Ends(t, o) == Ends(w.threads[i], o)
    ensures RecordOk(v, o)
  {
    HeldUpdate(w.threads, i, t, o);
    assert forall j :: 0 <= j < |v.threads| ==> Ends(v.threads[j], o) == Ends(w.threads[j], o);
    if OneEnds(w, o) {
      var k :| 0 <= k < |w.threads| && Ends(w.threads[k], o)
               && forall j :: 0 <= j < |w.threads| && Ends(w.threads[j], o) ==> k == j;
      assert Ends(v.threads[k], o);
    }
  }

  /** A record that somebody holds a reference to is counted and not freed. */
  lemma HeldIsCounted(w: World, i: nat, o: nat)
    requires i < |w.threads| && o < |w.records| && RecordOk(w, o) && Holds(w.threads[i], o) > 0
    ensures w.records[o].refs > 0 && w.records[o].frees == 0 && NobodyEnds(w, o)
  {
    HeldAtLeast(w.threads, i, o);
  }

  /** Thread i gains a counted reference to a record that is counted already. */
  lemma GainStep(w: World, v: World, i: nat, t: Thread, o: nat)
    requires i < |w.threads| && o < |w.records| && RecordOk(w, o) && w.records[o].refs > 0
    requires v.threads == w.threads[i := t] && v.records == Counted(w, o, 1).records
    requires Holds(t, o) == Holds(w.threads[i], o) + 1 && !Ends(t, o)
    ensures RecordOk(v, o)
  {
    HeldUpdate(w.threads, i, t, o);
  }

  /** Thread i gives one up; when it was the last, thread i alone goes on to free the record. */
  lemma LoseStep(w: World, v: World, i: nat, t: Thread, o: nat)
    requires i < |w.threads| && o < |w.records| && RecordOk(w, o) && Holds(w.threads[i], o) > 0
    requires v.threads == w.threads[i := t] && v.records == Counted(w, o, -1).records
    requires Holds(t, o) == Holds(w.threads[i], o) - 1
    requires Ends(t, o) <==> v.records[o].refs == 0
    ensures RecordOk(v, o)
  {
    HeldUpdate(w.threads, i, t, o);
    HeldIsCounted(w, i, o);
    assert forall j :: 0 <= j < |v.threads| && j != i ==> !Ends(v.threads[j], o);
    if v.records[o].refs == 0 {
      assert Ends(v.threads[i], o);
    }
  }

  lemma FreeStep(w: World, i: nat)
    requires Inv(w) && i < |w.threads| && w.threads[i].pc.Freeing?
    ensures var o := w.threads[i].pc.what; o < |w.records| && w.records[o].refs == 0 && w.records[o].frees == 0
    ensures RecordOk(Step(w, i, Continue), w.threads[i].pc.what)
  {
    var t := w.threads[i];
    var o := t.pc.what;
    var v := Step(w, i, Continue);
    assert ThreadOk(w, i) && RecordOk(w, o) && Ends(t, o);
    HeldUpdate(w.threads, i, t.(pc := Idle), o);
    HeldAtLeast(w.threads, i, o);
    assert w.records[o].refs == 0;
    assert forall j :: 0 <= j < |v.threads| ==> !Ends(v.threads[j], o);
  }

  lemma {:induction false} NobodyHolds(threads: seq<Thread>, o: nat)
    requires forall i :: 0 <= i < |threads| ==> Holds(threads[i], o) == 0
    ensures Held(threads, o) == 0
    decreases threads
  {
    if threads != [] {
      NobodyHolds(threads[1..], o);
    }
  }

  lemma LoginStep(w: World, i: nat, a: Letter)
    requires Inv(w) && i < |w.threads| && w.threads[i].pc.Idle? && w.threads[i].own.None?
    requires w.locked.None? && w.table[a].None?
    ensures Inv(Step(w, i, Login(a)))
  {
    var n := |w.records|;
    var t := w.threads[i].(own := Some(n));
    var v := Step(w, i, Login(a));
    forall j | 0 <= j < |w.threads| ensures Holds(w.threads[j], n) == 0 {
      assert ThreadOk(w, j);
    }
    NobodyHolds(w.threads, n);
    HeldUpdate(w.threads, i, t, n);
    forall o | 0 <= o < |v.records| ensures RecordOk(v, o) {
      if o < n {
        Untouched(w, v, i, t, o);
      } else {
        forall j | 0 <= j < |v.threads| ensures !Ends(v.threads[j], n) {
          assert ThreadOk(w, j);
        }
      }
    }
    assert forall o: nat :: o > n ==> Holds(t, o) == Holds(w.threads[i], o);
    forall j | 0 <= j < |v.threads| ensures ThreadOk(v, j) {
      assert ThreadOk(w, j);
    }
    forall k: Letter ensures SlotOk(v, k) {
      assert SlotOk(w, k);
    }
  }

  /** A step that touches no record keeps the invariant when the thread and the slots stay in order. */
  lemma QuietStep(w: World, v: World, i: nat, t: Thread)
    requires Inv(w) && i < |w.threads| && v.threads == w.threads[i := t] && v.records == w.records
    requires t.own == w.threads[i].own && t.got == w.threads[i].got
    requires forall o: nat :: o < |w.records| ==> Ends(t, o) == Ends(w.threads[i], o)
    requires PcOk(v, i) && (v.locked.Some? ==> v.locked.value < |v.threads|)
    requires v.locked != w.locked ==> (w.locked.None? && v.locked == Some(i)) || (w.locked == Some(i) && v.locked.None?)
    requires v.table == w.table || w.locked.None?
    requires forall a: Letter :: v.table[a] == w.table[a] || v.table[a].None?
    requires t.pc.Releasing? ==> w.threads[i].pc.Releasing? || (t.own.Some? && t.own.value < |w.records| && v.table[w.records[t.own.value].avatar].None?)
    ensures Inv(v)
  {
    forall o | 0 <= o < |v.records| ensures RecordOk(v, o) {
      Untouched(w, v, i, t, o);
    }
    assert forall o: nat :: Holds(t, o) == Holds(w.threads[i], o);
    forall j | 0 <= j < |v.threads| ensures ThreadOk(v, j) {
      assert ThreadOk(w, j);
    }
    forall a: Letter ensures SlotOk(v, a) {
      assert SlotOk(w, a);
    }
  }

  /** Gaining or giving up one counted reference. */
  lemma CountStep(w: World, v: World, i: nat, t: Thread, o: nat, change: int)
    requires Inv(w) && i < |w.threads| && o < |w.records|
    requires v.threads == w.threads[i := t] && v.records == Counted(w, o, change).records && v.table == w.table
    requires RecordOk(v, o) && ThreadOk(v, i)
    requires forall x: nat :: x != o ==> Holds(t, x) == Holds(w.threads[i], x) && Ends(t, x) == Ends(w.threads[i], x)
    requires t.own == w.threads[i].own || (w.threads[i].pc.Releasing? && t.own.None?)
    requires !t.pc.Releasing?
    requires v.locked == w.locked || (w.locked == Some(i) && v.locked.None?)
    ensures Inv(v)
  {
    forall x | 0 <= x < |v.records| ensures RecordOk(v, x) {
      if x != o {
        Untouched(w, v, i, t, x);
      }
    }
    forall j | 0 <= j < |v.threads| ensures ThreadOk(v, j) {
      assert ThreadOk(w, j);
    }
    forall a: Letter ensures SlotOk(v, a) {
      assert SlotOk(w, a);
      assert w.table[a].Some? ==> ThreadOk(w, w.records[w.table[a].value].session);
    }
  }

  lemma DropStep(w: World, i: nat, t: Thread, o: nat)
    requires Inv(w) && i < |w.threads| && o < |w.records| && !w.threads[i].pc.Looking?
    requires !Ends(w.threads[i], o) && Holds(w.threads[i], o) > 0
    requires forall x: nat :: Holds(t, x) == Holds(w.threads[i], x) - if x == o then 1 else 0
    requires t.own == w.threads[i].own || (w.threads[i].pc.Releasing? && t.own.None?)
    requires w.threads[i].pc.Idle? || w.threads[i].pc.Releasing?
    requires forall j :: 0 <= j < |t.got| ==> t.got[j] < |w.records|
    ensures Inv(Dropped(w, i, t, o))
  {
    var v := Dropped(w, i, t, o);
    var u := v.threads[i];
    assert RecordOk(w, o) && ThreadOk(w, i);
    HeldIsCounted(w, i, o);
    assert forall x: nat :: Holds(u, x) == Holds(t, x);
    LoseStep(w, v, i, u, o);
    CountStep(w, v, i, u, o, -1);
  }

  lemma UnrefStep(w: World, i: nat, j: nat)
    requires Inv(w) && i < |w.threads| && w.threads[i].pc.Idle? && j < |w.threads[i].got|
    ensures Inv(Step(w, i, Unref(j)))
  {
    var t := w.threads[i];
    assert ThreadOk(w, i);
    OccursMember(t.got, j);
    forall x: nat { OccursRemoved(t.got, j, x); }
    DropStep(w, i, t.(got := t.got[..j] + t.got[j + 1..]), t.got[j]);
  }

  lemma AgainStep(w: World, i: nat, j: nat)
    requires Inv(w) && i < |w.threads| && w.threads[i].pc.Idle? && j < |w.threads[i].got|
    ensures Inv(Step(w, i, RefAgain(j)))
  {
    var t := w.threads[i];
    var o := t.got[j];
    var u := t.(got := t.got + [o]);
    assert ThreadOk(w, i) && RecordOk(w, o);
    OccursMember(t.got, j);
    HeldIsCounted(w, i, o);
    forall x: nat { OccursAdded(t.got, o, x); }
    GainStep(w, Step(w, i, RefAgain(j)), i, u, o);
    assert forall x: nat :: x >= |w.records| ==> Holds(u, x) == Holds(t, x);
    CountStep(w, Step(w, i, RefAgain(j)), i, u, o, 1);
  }

  lemma IdleStep(w: World, i: nat, c: Choice)
    requires Inv(w) && i < |w.threads| && w.threads[i].pc.Idle?
    ensures Inv(Step(w, i, c))
  {
    var t := w.threads[i];
    var v := Step(w, i, c);
    assert ThreadOk(w, i);
    match c
    case Login(a) =>
      if t.own.None? && w.locked.None? && w.table[a].None? { LoginStep(w, i, a); }
    case Logout =>
      if t.own.Some? && w.locked.None? { QuietStep(w, v, i, t.(pc := Releasing(t.own.value))); }
    case Get(a) =>
      if w.locked.None? {
        assert SlotOk(w, a);
        QuietStep(w, v, i, t.(pc := Looking(w.table[a])));
      }
    case RefAgain(j) =>
      if j < |t.got| { AgainStep(w, i, j); }
    case Unref(j) =>
      if j < |t.got| { UnrefStep(w, i, j); }
    case Continue =>
  }

  /** The second half of player_get: what was found in the table is still there, so its session still
      holds its own reference, and the count is not zero. */
  lemma LookStep(w: World, i: nat, c: Choice)
    requires Inv(w) && i < |w.threads| && w.threads[i].pc.Looking?
    ensures Inv(Step(w, i, c))
    ensures w.threads[i].pc.found.Some? ==>
              var o := w.threads[i].pc.found.value;
              o < |w.records| && w.records[o].refs > 0 && w.records[o].frees == 0
  {
    var t := w.threads[i];
    var v := Step(w, i, c);
    assert ThreadOk(w, i);
    if t.pc.found.Some? {
      var o := t.pc.found.value;
      var u := t.(pc := Idle, got := t.got + [o]);
      assert SlotOk(w, w.records[o].avatar) && RecordOk(w, o);
      HeldIsCounted(w, w.records[o].session, o);
      forall x: nat { OccursAdded(t.got, o, x); }
      GainStep(w, v, i, u, o);
      assert forall x: nat :: x >= |w.records| ==> Holds(u, x) == Holds(t, x);
      CountStep(w, v, i, u, o, 1);
    } else {
      QuietStep(w, v, i, t.(pc := Idle));
    }
  }

  lemma EndStep(w: World, i: nat, c: Choice)
    requires Inv(w) && i < |w.threads| && w.threads[i].pc.Freeing?
    ensures Inv(Step(w, i, c))
  {
    var t := w.threads[i];
    var o := t.pc.what;
    var v := Step(w, i, Continue);
    FreeStep(w, i);
    assert ThreadOk(w, i);
    forall x | 0 <= x < |v.records| ensures RecordOk(v, x) {
      if x != o {
        Untouched(w, v, i, t.(pc := Idle), x);
      }
    }
    assert forall x: nat :: Holds(v.threads[i], x) == Holds(t, x);
    forall j | 0 <= j < |v.threads| ensures ThreadOk(v, j) {
      assert ThreadOk(w, j);
    }
    forall a: Letter ensures SlotOk(v, a) {
      assert SlotOk(w, a);
    }
  }

  lemma StepKeeps(w: World, i: nat, c: Choice)
    requires Inv(w) && i < |w.threads|
    ensures Inv(Step(w, i, c))
  {
    var t := w.threads[i];
    assert ThreadOk(w, i);
    match t.pc
    case Idle => IdleStep(w, i, c);
    case Looking(found) => LookStep(w, i, c);
    case Releasing(o) => DropStep(w, i, t.(own := None), o);
    case Clearing(o) =>
      if w.locked.None? { QuietStep(w, Step(w, i, c), i, t.(pc := Freeing(o))); }
    case Freeing(o) => EndStep(w, i, c);
  }

  lemma {:induction false} ScheduleKeeps(w: World, turns: seq<Turn>)
    requires Inv(w)
    ensures Inv(Schedule(w, turns))
    decreases turns
  {
    if turns != [] {
      if turns[0].thread < |w.threads| {
        StepKeeps(w, turns[0].thread, turns[0].choice);
        ScheduleKeeps(Step(w, turns[0].thread, turns[0].choice), turns[1..]);
      } else {
        ScheduleKeeps(w, turns[1..]);
      }
    }
  }

  // ---- what holds in every interleaving ----

  ghost predicate Reachable(w: World) {
    exists n: nat, turns :: w == Schedule(Begin(n), turns)
  }

  lemma ReachableOk(w: World)
    requires Reachable(w)
    ensures Inv(w)
  {
    var n: nat, turns :| w == Schedule(Begin(n), turns);
    ScheduleKeeps(Begin(n), turns);
  }

  /** The count of a record is always its owner's reference plus the outstanding counted ones. */
  lemma CountsAreReferences(w: World, o: nat)
    requires Reachable(w) && o < |w.records|
    ensures w.records[o].refs == Held(w.threads, o)
  {
    ReachableOk(w);
    assert RecordOk(w, o);
  }

  /** What player_get can find has at least its own session's reference and has not been freed. */
  lemma TableEntriesAreAlive(w: World, a: Letter)
    requires Reachable(w) && w.table[a].Some?
    ensures var o := w.table[a].value;
            o < |w.records| && w.records[o].avatar == a && w.records[o].refs >= 1 && w.records[o].frees == 0
  {
    ReachableOk(w);
    assert SlotOk(w, a) && RecordOk(w, w.table[a].value);
    HeldIsCounted(w, w.records[w.table[a].value].session, w.table[a].value);
  }

  /** No record is freed while somebody holds a counted reference to it. */
  lemma HeldRecordsAreNotFreed(w: World, i: nat, o: nat)
    requires Reachable(w) && i < |w.threads| && o < |w.records| && Holds(w.threads[i], o) > 0
    ensures w.records[o].frees == 0
  {
    ReachableOk(w);
    HeldIsCounted(w, i, o);
  }

  /** No record is freed twice, and one that nobody references any more is freed exactly once as soon
      as nobody is in the middle of freeing it. */
  lemma FreedExactlyOnce(w: World, o: nat)
    requires Reachable(w) && o < |w.records|
    ensures w.records[o].frees <= 1
    ensures NobodyEnds(w, o) ==> (w.records[o].frees == 1 <==> Held(w.threads, o) == 0)
  {
    ReachableOk(w);
    assert RecordOk(w, o);
  }

  // ---- the second clearing of the slot ----

  ghost predicate InSlot(w: World, i: nat)
    requires i < |w.threads| && w.threads[i].own.Some?
  {
    var o := w.threads[i].own.value;
    o < |w.records| && w.table[w.records[o].avatar] == Some(o)
  }

  /** Every session that has not begun to log out is in its slot. */
  ghost predicate Registered(w: World) {
    forall i :: 0 <= i < |w.threads| && w.threads[i].own.Some? && !w.threads[i].pc.Releasing? ==> InSlot(w, i)
  }

  /** Thread i is about to clear a slot for the second time, and somebody else has it by now. */
  predicate StaleClear(w: World, i: nat) {
    && i < |w.threads| && w.threads[i].pc.Clearing? && w.locked.None?
    && w.threads[i].pc.what < |w.records|
    && w.table[w.records[w.threads[i].pc.what].avatar].Some?
  }

  /** Who owns a record after a step owned it before, unless it is the login of thread i. */
  lemma SameOwner(w: World, i: nat, c: Choice, j: nat) returns (same: bool)
    requires Inv(w) && i < |w.threads| && j < |w.threads|
    requires var t := Step(w, i, c).threads[j]; t.own.Some? && !t.pc.Releasing?
    ensures same ==> w.threads[j].own == Step(w, i, c).threads[j].own && !w.threads[j].pc.Releasing?
                     && !(i == j && w.threads[i].pc.Idle? && c.Logout? && w.locked.None?)
    ensures !same ==> InSlot(Step(w, i, c), j)
  {
    assert ThreadOk(w, i);
    same := !(i == j && w.threads[i].pc.Idle? && c.Login? && w.threads[i].own.None?);
  }

  lemma AvatarsKept(w: World, i: nat, c: Choice, o: nat)
    requires i < |w.threads| && o < |w.records|
    ensures o < |Step(w, i, c).records| && Step(w, i, c).records[o].avatar == w.records[o].avatar
  {
  }

  /** A step of thread i changes the slot of another session only if it is a stale clearing. */
  lemma SlotKept(w: World, i: nat, c: Choice, j: nat)
    requires Inv(w) && Registered(w) && i < |w.threads| && !StaleClear(w, i) && j < |w.threads|
    requires w.threads[j].own.Some? && !w.threads[j].pc.Releasing?
    requires !(i == j && w.threads[i].pc.Idle? && c.Logout? && w.locked.None?)
    ensures w.threads[j].own.value < |w.records|
    ensures var a := w.records[w.threads[j].own.value].avatar; Step(w, i, c).table[a] == w.table[a]
  {
    assert ThreadOk(w, i) && ThreadOk(w, j) && InSlot(w, j);
    if w.threads[i].pc.Idle? && c.Logout? && w.threads[i].own.Some? {
      assert InSlot(w, i);
    }
  }

  lemma StaysInSlot(w: World, i: nat, c: Choice, j: nat)
    requires Inv(w) && Registered(w) && i < |w.threads| && !StaleClear(w, i) && j < |w.threads|
    requires var t := Step(w, i, c).threads[j]; t.own.Some? && !t.pc.Releasing?
    ensures InSlot(Step(w, i, c), j)
  {
    var same := SameOwner(w, i, c, j);
    if same {
      assert InSlot(w, j);
      SlotKept(w, i, c, j);
      AvatarsKept(w, i, c, w.threads[j].own.value);
    }
  }

  /** Sessions stay in their slots exactly as long as no last reference is dropped late: one step
      keeps them there if and only if it is not a second clearing of a slot taken again. */
  lemma SlotsSurviveExactly(w: World, i: nat, c: Choice)
    requires Reachable(w) && Registered(w) && i < |w.threads|
    ensures Registered(Step(w, i, c)) <==> !StaleClear(w, i)
  {
    ReachableOk(w);
    var v := Step(w, i, c);
    assert ThreadOk(w, i);
    if StaleClear(w, i) {
      var a := w.records[w.threads[i].pc.what].avatar;
      assert SlotOk(w, a);
      var j := w.records[w.table[a].value].session;
      assert v.table[a].None? && !InSlot(v, j);
    } else {
      forall j | 0 <= j < |v.threads| && v.threads[j].own.Some? && !v.threads[j].pc.Releasing? ensures InSlot(v, j) {
        StaysInSlot(w, i, c, j);
      }
    }
  }

  /** While all sessions are in their slots, live sessions have different avatars. */
  lemma RegisteredAvatarsDiffer(w: World, i: nat, j: nat)
    requires Reachable(w) && Registered(w) && i < |w.threads| && j < |w.threads| && i != j
    requires w.threads[i].own.Some? && !w.threads[i].pc.Releasing?
    requires w.threads[j].own.Some? && !w.threads[j].pc.Releasing?
    ensures w.threads[i].own.value < |w.records| && w.threads[j].own.value < |w.records|
    ensures w.records[w.threads[i].own.value].avatar != w.records[w.threads[j].own.value].avatar
  {
    ReachableOk(w);
    assert ThreadOk(w, i) && ThreadOk(w, j) && InSlot(w, i) && InSlot(w, j);
  }

  /** Sessions are in their slots now and after every step of the schedule. */
  ghost predicate StayRegistered(w: World, turns: seq<Turn>) {
    forall n :: 0 <= n <= |turns| ==> Registered(Schedule(w, turns[..n]))
  }

  /** No step of the schedule is a second clearing of a slot taken again. */
  ghost predicate NeverStale(w: World, turns: seq<Turn>) {
    forall n :: 0 <= n < |turns| ==> !StaleClear(Schedule(w, turns[..n]), turns[n].thread)
  }

  /** The world after the first turn of a schedule. */
  function After(w: World, turn: Turn): World {
    if turn.thread < |w.threads| then Step(w, turn.thread, turn.choice) else w
  }

  lemma ScheduleFirst(w: World, turns: seq<Turn>, n: nat)
    requires 0 < n <= |turns|
    ensures Schedule(w, turns[..n]) == Schedule(After(w, turns[0]), turns[1..][..n - 1])
  {
    assert turns[..n][1..] == turns[1..][..n - 1];
  }

  lemma ScheduleNone(w: World, turns: seq<Turn>)
    ensures Schedule(w, turns[..0]) == w
  {
  }

  lemma StayRegisteredFirst(w: World, turns: seq<Turn>)
    requires turns != []
    ensures StayRegistered(w, turns) <==> Registered(w) && StayRegistered(After(w, turns[0]), turns[1..])
  {
    ScheduleNone(w, turns);
    forall n | 0 < n <= |turns|
      ensures Schedule(w, turns[..n]) == Schedule(After(w, turns[0]), turns[1..][..n - 1])
    {
      ScheduleFirst(w, turns, n);
    }
    if Registered(w) && StayRegistered(After(w, turns[0]), turns[1..]) {
      forall n | 0 <= n <= |turns| ensures Registered(Schedule(w, turns[..n])) {
        if n > 0 { assert Registered(Schedule(After(w, turns[0]), turns[1..][..n - 1])); }
      }
    }
    if StayRegistered(w, turns) {
      assert Registered(Schedule(w, turns[..0]));
      forall n | 0 <= n <= |turns[1..]| ensures Registered(Schedule(After(w, turns[0]), turns[1..][..n])) {
        assert Registered(Schedule(w, turns[..n + 1]));
      }
    }
  }

  lemma NeverStaleFirst(w: World, turns: seq<Turn>)
    requires turns != []
    ensures NeverStale(w, turns) <==>
            !StaleClear(w, turns[0].thread) && NeverStale(After(w, turns[0]), turns[1..])
  {
    ScheduleNone(w, turns);
    forall n | 0 < n <= |turns|
      ensures Schedule(w, turns[..n]) == Schedule(After(w, turns[0]), turns[1..][..n - 1])
    {
      ScheduleFirst(w, turns, n);
    }
    var v, rest := After(w, turns[0]), turns[1..];
    if !StaleClear(w, turns[0].thread) && NeverStale(v, rest) {
      forall n | 0 <= n < |turns| ensures !StaleClear(Schedule(w, turns[..n]), turns[n].thread) {
        if n > 0 { assert !StaleClear(Schedule(v, rest[..n - 1]), rest[n - 1].thread); }
      }
    }
    if NeverStale(w, turns) {
      assert !StaleClear(Schedule(w, turns[..0]), turns[0].thread);
      forall n | 0 <= n < |rest| ensures !StaleClear(Schedule(v, rest[..n]), rest[n].thread) {
        assert !StaleClear(Schedule(w, turns[..n + 1]), turns[n + 1].thread);
      }
    }
  }

  lemma {:induction false} ScheduleAppends(w: World, turns: seq<Turn>, more: seq<Turn>)
    ensures Schedule(w, turns + more) == Schedule(Schedule(w, turns), more)
    decreases turns
  {
    if turns == [] {
      assert turns + more == more;
    } else {
      assert (turns + more)[1..] == turns[1..] + more;
      ScheduleAppends(After(w, turns[0]), turns[1..], more);
    }
  }

  lemma AfterReachable(w: World, turn: Turn)
    requires Reachable(w)
    ensures Reachable(After(w, turn))
  {
    var n: nat, turns :| w == Schedule(Begin(n), turns);
    ScheduleAppends(Begin(n), turns, [turn]);
    assert [turn][1..] == [];
    assert Schedule(w, [turn]) == After(w, turn);
  }

  /** Over whole runs: from a state in which all sessions are in their slots, they stay there after
      every step if and only if no step is a second clearing of a slot taken again. */
  lemma {:induction false} SlotsSurviveRunsExactly(w: World, turns: seq<Turn>)
    requires Reachable(w) && Registered(w)
    ensures StayRegistered(w, turns) <==> NeverStale(w, turns)
    decreases turns
  {
    if turns == [] {
      ScheduleNone(w, turns);
      assert turns[..0] == turns;
    } else {
      StayRegisteredFirst(w, turns);
      NeverStaleFirst(w, turns);
      AfterReachable(w, turns[0]);
      if turns[0].thread < |w.threads| {
        SlotsSurviveExactly(w, turns[0].thread, turns[0].choice);
      }
      if Registered(After(w, turns[0])) {
        SlotsSurviveRunsExactly(After(w, turns[0]), turns[1..]);
      } else {
        ScheduleNone(After(w, turns[0]), turns[1..]);
      }
    }
  }

  /** From the start of the server: as long as no last reference has been dropped late, live sessions
      have different avatars. */
  lemma LiveAvatarsDiffer(n: nat, turns: seq<Turn>, i: nat, j: nat)
    requires NeverStale(Begin(n), turns)
    requires var w := Schedule(Begin(n), turns);
             && i < |w.threads| && j < |w.threads| && i != j
             && w.threads[i].own.Some? && !w.threads[i].pc.Releasing?
             && w.threads[j].own.Some? && !w.threads[j].pc.Releasing?
    ensures var w := Schedule(Begin(n), turns);
            && w.threads[i].own.value < |w.records| && w.threads[j].own.value < |w.records|
            && w.records[w.threads[i].own.value].avatar != w.records[w.threads[j].own.value].avatar
  {
    assert Schedule(Begin(n), []) == Begin(n);
    SlotsSurviveRunsExactly(Begin(n), turns);
    assert turns[..|turns|] == turns;
    RegisteredAvatarsDiffer(Schedule(Begin(n), turns), i, j);
  }

  lemma Then(w: World, turn: Turn, rest: seq<Turn>)
    requires turn.thread < |w.threads|
    ensures Schedule(w, [turn] + rest) == Schedule(Step(w, turn.thread, turn.choice), rest)
  {
    assert ([turn] + rest)[1..] == rest;
  }

  /** What a late clearing leads to: the session that has the slot by then and whoever logs in next
      share the avatar. */
  lemma StaleClearSharesAvatar(w: World, i: nat, k: nat)
    requires Reachable(w) && StaleClear(w, i)
    requires k < |w.threads| && k != i && w.threads[k].pc.Idle? && w.threads[k].own.None?
    ensures var a := w.records[w.threads[i].pc.what].avatar;
            var v := Step(Step(w, i, Continue), k, Login(a));
            && w.table[a].value < |v.records| && v.records[w.table[a].value].avatar == a
            && var j := v.records[w.table[a].value].session;
            && j < |v.threads| && j != k && v.threads[j].own == w.table[a] && !v.threads[j].pc.Releasing?
            && v.threads[k].own == Some(|w.records|) && v.table[a] == Some(|w.records|)
            && |v.records| == |w.records| + 1 && v.records[|w.records|].avatar == a
  {
    ReachableOk(w);
    assert ThreadOk(w, i) && SlotOk(w, w.records[w.threads[i].pc.what].avatar);
  }

  const NOBODY := Thread(None, [], Idle)

  function Nowhere(): Slots {
    seq(NUM_AVATARS, _ => None)
  }

  lemma FirstLogin(a: Letter)
    ensures Step(Begin(3), 0, Login(a)) ==
            World([Record(a, 0, 1, 0)], Nowhere()[a := Some(0)], [Thread(Some(0), [], Idle), NOBODY, NOBODY], None)
  {
    assert Begin(3) == World([], Nowhere(), [NOBODY, NOBODY, NOBODY], None);
  }

  lemma FirstLogout(a: Letter)
    ensures Step(World([Record(a, 0, 1, 0)], Nowhere()[a := Some(0)], [Thread(Some(0), [], Idle), NOBODY, NOBODY], None),
                 0, Logout) ==
            World([Record(a, 0, 1, 0)], Nowhere(), [Thread(Some(0), [], Releasing(0)), NOBODY, NOBODY], None)
  {
    assert Nowhere()[a := Some(0)][a := None] == Nowhere();
  }

  lemma LastReference(a: Letter)
    ensures Step(World([Record(a, 0, 1, 0)], Nowhere(), [Thread(Some(0), [], Releasing(0)), NOBODY, NOBODY], None),
                 0, Continue) ==
            World([Record(a, 0, 0, 0)], Nowhere(), [Thread(None, [], Clearing(0)), NOBODY, NOBODY], None)
  {
  }

  lemma SecondLogin(a: Letter)
    ensures Step(World([Record(a, 0, 0, 0)], Nowhere(), [Thread(None, [], Clearing(0)), NOBODY, NOBODY], None),
                 1, Login(a)) ==
            World([Record(a, 0, 0, 0), Record(a, 1, 1, 0)], Nowhere()[a := Some(1)],
                  [Thread(None, [], Clearing(0)), Thread(Some(1), [], Idle), NOBODY], None)
  {
  }

  function LateClear(a: Letter): seq<Turn> {
    [Turn(0, Login(a)), Turn(0, Logout), Turn(0, Continue), Turn(1, Login(a))]
  }

  lemma ThreeMore(a: Letter)
    ensures var w1 := Step(Begin(3), 0, Login(a)); var w2 := Step(w1, 0, Logout); var w3 := Step(w2, 0, Continue);
            Schedule(Begin(3), LateClear(a)) == Step(w3, 1, Login(a))
  {
    var w1 := Step(Begin(3), 0, Login(a));
    var w2 := Step(w1, 0, Logout);
    var w3 := Step(w2, 0, Continue);
    Then(Begin(3), Turn(0, Login(a)), LateClear(a)[1..]);
    Then(w1, Turn(0, Logout), LateClear(a)[2..]);
    Then(w2, Turn(0, Continue), LateClear(a)[3..]);
    Then(w3, Turn(1, Login(a)), []);
  }

  /** It does happen: the first session logs out and drops its last reference, a second one takes the
      avatar, and now the first is about to clear that slot again, with a third one waiting. */
  lemma StaleClearHappens(a: Letter)
    ensures var w := Schedule(Begin(3), LateClear(a));
            && Reachable(w) && |w.threads| == 3 && StaleClear(w, 0) && w.records[w.threads[0].pc.what].avatar == a
            && w.threads[2].pc.Idle? && w.threads[2].own.None?
  {
    FirstLogin(a);
    FirstLogout(a);
    LastReference(a);
    SecondLogin(a);
    ThreeMore(a);
  }

  // ---- one thread alone ----

  /** A player found by player_get has one reference more, held by the caller, and giving it back restores
      everything. */
  lemma GetAndUnref(w: World, i: nat, a: Letter)
    requires Reachable(w) && i < |w.threads| && w.threads[i].pc.Idle? && w.locked.None? && w.table[a].Some?
    ensures var o := w.table[a].value; var t := w.threads[i];
            var v := Step(Step(w, i, Get(a)), i, Continue);
            && o < |w.records|
            && v.threads == w.threads[i := t.(got := t.got + [o])]
            && v.records == w.records[o := w.records[o].(refs := w.records[o].refs + 1)]
            && v.table == w.table && v.locked == w.locked
            && Step(v, i, Unref(|t.got|)) == w
  {
    TableEntriesAreAlive(w, a);
    var o, t := w.table[a].value, w.threads[i];
    var w1 := Step(w, i, Get(a));
    assert w1 == With(w, i, t.(pc := Looking(Some(o)))).(locked := Some(i));
    var v := Step(w1, i, Continue);
    assert v.threads == w.threads[i := t.(got := t.got + [o])];
    assert (t.got + [o])[..|t.got|] + (t.got + [o])[|t.got| + 1..] == t.got;
    var back := Step(v, i, Unref(|t.got|));
    assert back.records == w.records && back.threads == w.threads[i := t] == w.threads;
  }

  /** A player that nobody else refers to is off the table after the logout and freed, once, when the
      thread has gone on three more steps undisturbed. */
  lemma LogoutFrees(w: World, i: nat)
    requires Reachable(w) && i < |w.threads| && w.threads[i].pc.Idle? && w.locked.None?
    requires w.threads[i].own.Some? && Held(w.threads, w.threads[i].own.value) == 1
    ensures var o := w.threads[i].own.value; var t := w.threads[i];
            var v := Step(Step(Step(Step(w, i, Logout), i, Continue), i, Continue), i, Continue);
            && o < |w.records|
            && v.records == w.records[o := w.records[o].(refs := 0, frees := 1)]
            && v.table == w.table[w.records[o].avatar := None]
            && v.threads == w.threads[i := t.(own := None)] && v.locked.None?
  {
    ReachableOk(w);
    assert ThreadOk(w, i);
    var o, t := w.threads[i].own.value, w.threads[i];
    CountsAreReferences(w, o);
    HeldRecordsAreNotFreed(w, i, o);
    var r := w.records[o];
    var w1 := Step(w, i, Logout);
    assert w1 == With(w, i, t.(pc := Releasing(o))).(table := w.table[r.avatar := None]);
    var w2 := Step(w1, i, Continue);
    assert w2.records == w.records[o := r.(refs := 0)] && w2.threads == w.threads[i := t.(own := None, pc := Clearing(o))];
    var w3 := Step(w2, i, Continue);
    assert w3.records == w2.records && w3.threads == w.threads[i := t.(own := None, pc := Freeing(o))];
    assert w3.table == w.table[r.avatar := None];
    var w4 := Step(w3, i, Continue);
    assert w4.records == w.records[o := r.(refs := 0, frees := 1)] && w4.threads == w.threads[i := t.(own := None)];
  }
}
