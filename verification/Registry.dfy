/** The client registry (src/client_registry.c): an array of slots, a count, and a semaphore that is
    posted when an unregistration leaves the count at zero. */
module Registry {

  const MAX_CLIENTS := 1024

  /** The registry as a value; -1 marks an empty slot. */
  datatype Book = Book(slots: seq<int>, count: int, tokens: nat)

  /** The index of the first slot that holds x, or |s|. */
  function FirstOf(s: seq<int>, x: int): (i: nat)
    ensures i <= |s| && (i < |s| ==> s[i] == x) && (forall j :: 0 <= j < i ==> s[j] != x)
    decreases s
  {
    if s == [] then 0 else if s[0] == x then 0 else 1 + FirstOf(s[1..], x)
  }

  function Registered(b: Book, fd: int): Book {
    var i := FirstOf(b.slots, -1);
    if i < |b.slots| then Book(b.slots[i := fd], b.count + 1, b.tokens) else b
  }

  function Unregistered(b: Book, fd: int): Book {
    var i := FirstOf(b.slots, fd);
    var c := if i < |b.slots| then Book(b.slots[i := -1], b.count - 1, b.tokens) else b;
    if c.count == 0 then c.(tokens := c.tokens + 1) else c
  }

  function EmptyBook(): Book {
    Book(seq(MAX_CLIENTS, _ => -1), 0, 0)
  }

  // ---- the slot array as a multiset ----

  /** The registered descriptors. */
  ghost function Descriptors(b: Book): multiset<int> {
    multiset(b.slots)[-1 := 0]
  }

  ghost predicate Wellformed(b: Book) {
    |b.slots| == MAX_CLIENTS && b.count == |Descriptors(b)|
  }

  lemma SlotUpdate(s: seq<int>, i: nat, x: int)
    requires i < |s|
    ensures multiset(s[i := x]) == multiset(s) - multiset{s[i]} + multiset{x}
  {
    assert s == s[..i] + [s[i]] + s[i + 1..];
    assert s[i := x] == s[..i] + [x] + s[i + 1..];
  }

  lemma FullMeansNoneEmpty(b: Book)
    requires |b.slots| == MAX_CLIENTS
    ensures -1 in b.slots <==> |Descriptors(b)| < MAX_CLIENTS
  {
    var m := multiset(b.slots);
    assert |m| == MAX_CLIENTS;
    assert m == Descriptors(b) + multiset{}[-1 := m[-1]];
    assert -1 in b.slots <==> -1 in m;
  }

  /** Registration adds the descriptor, unless all slots are taken; then it is dropped. */
  lemma RegisterAddsOne(b: Book, fd: nat)
    requires Wellformed(b)
    ensures Wellformed(Registered(b, fd))
    ensures Descriptors(Registered(b, fd)) ==
            if |Descriptors(b)| < MAX_CLIENTS then Descriptors(b) + multiset{fd as int} else Descriptors(b)
  {
    var i := FirstOf(b.slots, -1);
    FullMeansNoneEmpty(b);
    if i < |b.slots| {
      SlotUpdate(b.slots, i, fd);
      assert -1 in b.slots;
      assert Descriptors(Registered(b, fd)) == Descriptors(b) + multiset{fd as int};
    }
  }

  /** Unregistration removes one occurrence, if there is one. */
  lemma UnregisterRemovesOne(b: Book, fd: nat)
    requires Wellformed(b)
    ensures Wellformed(Unregistered(b, fd))
    ensures Descriptors(Unregistered(b, fd)) == Descriptors(b) - multiset{fd as int}
  {
    var i := FirstOf(b.slots, fd);
    if i < |b.slots| {
      SlotUpdate(b.slots, i, -1);
      assert fd as int in multiset(b.slots);
    } else {
      assert fd as int !in multiset(b.slots);
    }
    assert Descriptors(Unregistered(b, fd)) == Descriptors(b) - multiset{fd as int};
  }

  lemma EmptyBookWellformed()
    ensures Wellformed(EmptyBook())
  {
    var b := EmptyBook();
    forall x | x != -1 ensures multiset(b.slots)[x] == 0 {
      assert x !in b.slots;
    }
    assert Descriptors(b) == multiset{};
  }

  // ---- runs, with waiting threads ----

  /** The critical sections of any number of threads, in the order in which they happen.  Waited is
      the moment a thread gets past the semaphore. */
  datatype Event = Register(fd: nat) | Unregister(fd: nat) | Waited

  predicate CanHappen(b: Book, e: Event) {
    e.Waited? ==> b.tokens > 0
  }

  function Apply(b: Book, e: Event): Book
    requires CanHappen(b, e)
  {
    match e
    case Register(fd) => Registered(b, fd)
    case Unregister(fd) => Unregistered(b, fd)
    case Waited => b.(tokens := b.tokens - 1)
  }

  ghost predicate IsRun(b: Book, es: seq<Event>)
    decreases es
  {
    es == [] || (CanHappen(b, es[0]) && IsRun(Apply(b, es[0]), es[1..]))
  }

  function Run(b: Book, es: seq<Event>): Book
    requires IsRun(b, es)
    decreases es
  {
    if es == [] then b else Run(Apply(b, es[0]), es[1..])
  }

  /** The same registry as an abstract bounded multiset. */
  function Abstract(m: multiset<int>, es: seq<Event>): multiset<int>
    decreases es
  {
    if es == [] then m
    else Abstract(match es[0]
                  case Register(fd) => if |m| < MAX_CLIENTS then m + multiset{fd as int} else m
                  case Unregister(fd) => m - multiset{fd as int}
                  case Waited => m, es[1..])
  }

  /** The array and its count refine a bounded multiset of descriptors over every run. */
  lemma {:induction false} RunRefinesMultiset(b: Book, es: seq<Event>)
    requires Wellformed(b) && IsRun(b, es)
    ensures Wellformed(Run(b, es)) && Descriptors(Run(b, es)) == Abstract(Descriptors(b), es)
    decreases es
  {
    if es != [] {
      match es[0]
      case Register(fd) => RegisterAddsOne(b, fd);
      case Unregister(fd) => UnregisterRemovesOne(b, fd);
      case Waited =>
        assert Descriptors(Apply(b, es[0])) == Descriptors(b);
    }
    if es != [] {
      RunRefinesMultiset(Apply(b, es[0]), es[1..]);
    }
  }

  /** Every run of the registry: the count is the number of registered descriptors, and these are the
      bounded multiset that registrations and unregistrations make of the empty one. */
  lemma RegistryIsMultiset(es: seq<Event>)
    requires IsRun(EmptyBook(), es)
    ensures var b := Run(EmptyBook(), es);
            b.count == |Descriptors(b)| && Descriptors(b) == Abstract(multiset{}, es)
  {
    EmptyBookWellformed();
    RunRefinesMultiset(EmptyBook(), es);
    assert Descriptors(EmptyBook()) == multiset{};
  }

  // ---- the semaphore ----

  /** How many unregistrations of the run leave the count at zero. */
  function Posts(b: Book, es: seq<Event>): nat
    requires IsRun(b, es)
    decreases es
  {
    if es == [] then 0
    else (if es[0].Unregister? && Apply(b, es[0]).count == 0 then 1 else 0) + Posts(Apply(b, es[0]), es[1..])
  }

  function Waits(es: seq<Event>): nat
    decreases es
  {
    if es == [] then 0 else (if es[0].Waited? then 1 else 0) + Waits(es[1..])
  }

  /** Tokens are conserved: what is left is what was there and was posted, less what was taken. */
  lemma {:induction false} TokensConserved(b: Book, es: seq<Event>)
    requires IsRun(b, es)
    ensures Run(b, es).tokens == b.tokens + Posts(b, es) - Waits(es)
    decreases es
  {
    if es != [] {
      TokensConserved(Apply(b, es[0]), es[1..]);
    }
  }

  lemma {:induction false} RunAppends(b: Book, es: seq<Event>, e: Event)
    requires IsRun(b, es + [e])
    ensures IsRun(b, es) && CanHappen(Run(b, es), e) && Run(b, es + [e]) == Apply(Run(b, es), e)
    decreases es
  {
    if es == [] {
      assert es + [e] == [e];
      assert [e][1..] == [];
      assert IsRun(Apply(b, e), []);
    } else {
      assert (es + [e])[1..] == es[1..] + [e];
      RunAppends(Apply(b, es[0]), es[1..], e);
    }
  }

  lemma {:induction false} PostsAppend(b: Book, es: seq<Event>, e: Event)
    requires IsRun(b, es + [e]) && IsRun(b, es) && !e.Unregister?
    ensures Posts(b, es + [e]) == Posts(b, es)
    decreases es
  {
    if es == [] {
      assert es + [e] == [e] && [e][1..] == [];
    } else {
      assert (es + [e])[1..] == es[1..] + [e];
      PostsAppend(Apply(b, es[0]), es[1..], e);
    }
  }

  /** No wait returns before some unregistration has left the count at zero. */
  lemma WaitsNeedAPost(es: seq<Event>)
    requires IsRun(EmptyBook(), es + [Waited])
    ensures IsRun(EmptyBook(), es) && Posts(EmptyBook(), es) > Waits(es)
  {
    RunAppends(EmptyBook(), es, Waited);
    TokensConserved(EmptyBook(), es);
  }

  predicate NoRegister(es: seq<Event>) {
    forall i :: 0 <= i < |es| ==> !es[i].Register?
  }

  lemma {:induction false} StaysEmpty(b: Book, es: seq<Event>)
    requires Wellformed(b) && b.count == 0 && IsRun(b, es) && NoRegister(es)
    ensures Run(b, es).count == 0
    decreases es
  {
    if es != [] {
      if es[0].Unregister? {
        UnregisterRemovesOne(b, es[0].fd);
        assert Descriptors(b) == multiset{};
      } else {
        assert Descriptors(Apply(b, es[0])) == Descriptors(b);
      }
      StaysEmpty(Apply(b, es[0]), es[1..]);
    }
  }

  lemma {:induction false} RunSplits(b: Book, es: seq<Event>, fs: seq<Event>)
    requires IsRun(b, es + fs)
    ensures IsRun(b, es) && IsRun(Run(b, es), fs) && Run(b, es + fs) == Run(Run(b, es), fs)
    decreases es
  {
    if es == [] {
      assert es + fs == fs;
    } else {
      assert (es + fs)[1..] == es[1..] + fs;
      RunSplits(Apply(b, es[0]), es[1..], fs);
    }
  }

  /** Event k of the run is an unregistration that leaves the registry empty. */
  ghost predicate EmptiesAt(b: Book, es: seq<Event>, k: nat)
    requires k < |es|
  {
    es[k].Unregister? && IsRun(b, es[..k + 1]) && Run(b, es[..k + 1]).count == 0
  }

  /** After some unregistration that left the registry empty nobody has registered. */
  ghost predicate EmptiedForGood(b: Book, es: seq<Event>) {
    exists k :: 0 <= k < |es| && EmptiesAt(b, es, k) && NoRegister(es[k + 1..])
  }

  lemma WaitingChangesNothing(b: Book, es: seq<Event>)
    requires EmptiedForGood(b, es)
    ensures EmptiedForGood(b, es + [Waited])
  {
    var k :| 0 <= k < |es| && EmptiesAt(b, es, k) && NoRegister(es[k + 1..]);
    var longer := es + [Waited];
    assert longer[..k + 1] == es[..k + 1] && longer[k + 1..] == es[k + 1..] + [Waited];
    assert EmptiesAt(b, longer, k);
  }

  /** Where an empty registry comes from: it was emptied for good, or nobody ever came. */
  lemma {:induction false} WhyEmpty(b: Book, es: seq<Event>)
    requires Wellformed(b) && IsRun(b, es) && Run(b, es).count == 0
    ensures EmptiedForGood(b, es) || (NoRegister(es) && Posts(b, es) == 0)
    decreases |es|
  {
    if es != [] {
      var n := |es| - 1;
      var before, e := es[..n], es[n];
      assert es == before + [e] && es[..n + 1] == es;
      RunAppends(b, before, e);
      RunRefinesMultiset(b, before);
      if e.Unregister? {
        assert EmptiesAt(b, es, n) && NoRegister(es[n + 1..]);
      } else if e.Register? {
        RegisterAddsOne(Run(b, before), e.fd);
        assert false;
      } else {
        PostsAppend(b, before, e);
        WhyEmpty(b, before);
        if EmptiedForGood(b, before) {
          WaitingChangesNothing(b, before);
        }
      }
    }
  }

  lemma EmptiedStaysEmpty(b: Book, es: seq<Event>, k: nat)
    requires Wellformed(b) && IsRun(b, es) && k < |es| && EmptiesAt(b, es, k) && NoRegister(es[k + 1..])
    ensures Run(b, es).count == 0
  {
    assert es[..k + 1] + es[k + 1..] == es;
    RunSplits(b, es[..k + 1], es[k + 1..]);
    RunRefinesMultiset(b, es[..k + 1]);
    StaysEmpty(Run(b, es[..k + 1]), es[k + 1..]);
  }

  /** A token was posted once a registry has been emptied. */
  lemma {:induction false} EmptyingPosts(b: Book, es: seq<Event>, k: nat)
    requires IsRun(b, es) && k < |es| && EmptiesAt(b, es, k)
    ensures Posts(b, es) > 0
    decreases k
  {
    if k == 0 {
      assert es[..1] == [es[0]] && es[..1][1..] == [];
      assert Run(b, es[..1]) == Run(Apply(b, es[0]), []);
    } else {
      assert es[..k + 1][1..] == es[1..][..k];
      EmptyingPosts(Apply(b, es[0]), es[1..], k - 1);
    }
  }

  /** When the registry is empty, in every run: exactly when nobody has registered since an
      unregistration that left it empty, or nobody has ever registered. */
  lemma EmptyExactly(es: seq<Event>)
    requires IsRun(EmptyBook(), es)
    ensures Run(EmptyBook(), es).count == 0 <==> EmptiedForGood(EmptyBook(), es) || NoRegister(es)
  {
    var b := EmptyBook();
    EmptyBookWellformed();
    if Run(b, es).count == 0 {
      WhyEmpty(b, es);
    }
    if EmptiedForGood(b, es) {
      var k :| 0 <= k < |es| && EmptiesAt(b, es, k) && NoRegister(es[k + 1..]);
      EmptiedStaysEmpty(b, es, k);
    }
    if NoRegister(es) {
      StaysEmpty(b, es);
    }
  }

  /** When a waiter gets past the semaphore, in every run: exactly when there have been more
      unregistrations that left the registry empty than waits. */
  lemma WaitReturnsExactly(es: seq<Event>)
    requires IsRun(EmptyBook(), es)
    ensures CanHappen(Run(EmptyBook(), es), Waited) <==> Posts(EmptyBook(), es) > Waits(es)
  {
    TokensConserved(EmptyBook(), es);
  }

  /** Whoever gets past the semaphore finds the registry empty exactly when nobody has registered since
      an unregistration that left it empty. */
  lemma WaiterSeesEmptyExactly(es: seq<Event>)
    requires IsRun(EmptyBook(), es + [Waited])
    ensures IsRun(EmptyBook(), es)
    ensures Run(EmptyBook(), es + [Waited]).count == 0 <==> EmptiedForGood(EmptyBook(), es)
  {
    EmptyBookWellformed();
    RunAppends(EmptyBook(), es, Waited);
    EmptyExactly(es);
    TokensConserved(EmptyBook(), es);
    if Run(EmptyBook(), es).count == 0 {
      WhyEmpty(EmptyBook(), es);
    }
  }

  /** With an empty registry the first waiter gets through exactly when some unregistration has ever
      left the registry empty. */
  lemma FirstWaitReturnsExactly(es: seq<Event>)
    requires IsRun(EmptyBook(), es) && Waits(es) == 0 && Run(EmptyBook(), es).count == 0
    ensures CanHappen(Run(EmptyBook(), es), Waited) <==> exists k :: 0 <= k < |es| && EmptiesAt(EmptyBook(), es, k)
  {
    var b := EmptyBook();
    EmptyBookWellformed();
    TokensConserved(b, es);
    WhyEmpty(b, es);
    if k :| 0 <= k < |es| && EmptiesAt(b, es, k) {
      EmptyingPosts(b, es, k);
    }
  }

  /** What creg_wait_for_empty promises: a waiter returns when the number of clients is zero, and not
      before. */
  ghost predicate PromiseKept(b: Book) {
    CanHappen(b, Waited) <==> b.count == 0
  }

  /** Exactly when it keeps the promise, in every run.  With a token left, when nobody has registered
      since an unregistration that left the registry empty; with none left, when somebody has
      registered and the registry has not been emptied for good since. */
  lemma PromiseKeptExactly(es: seq<Event>)
    requires IsRun(EmptyBook(), es)
    ensures PromiseKept(Run(EmptyBook(), es)) <==>
            if Posts(EmptyBook(), es) > Waits(es) then EmptiedForGood(EmptyBook(), es)
            else !EmptiedForGood(EmptyBook(), es) && !NoRegister(es)
  {
    var b := EmptyBook();
    EmptyBookWellformed();
    EmptyExactly(es);
    WaitReturnsExactly(es);
    TokensConserved(b, es);
    if Run(b, es).count == 0 {
      WhyEmpty(b, es);
    }
  }

  /** A registry that nobody has used yet makes a waiter wait, with no client to wait for. */
  lemma UnusedRegistryBlocks()
    ensures IsRun(EmptyBook(), []) && Run(EmptyBook(), []).count == 0
    ensures !CanHappen(Run(EmptyBook(), []), Waited)
  {
  }

  lemma ThreeEvents(b: Book, e: Event, f: Event, g: Event, b1: Book, b2: Book)
    requires CanHappen(b, e) && Apply(b, e) == b1 && CanHappen(b1, f) && Apply(b1, f) == b2 && CanHappen(b2, g)
    ensures IsRun(b, [e, f, g]) && Run(b, [e, f, g]) == Apply(b2, g)
  {
    assert [e, f, g][1..] == [f, g] && [f, g][1..] == [g] && [g][1..] == [];
    assert IsRun(Apply(b2, g), []) && Run(Apply(b2, g), []) == Apply(b2, g);
    assert IsRun(b2, [g]) && Run(b2, [g]) == Apply(b2, g);
    assert IsRun(b1, [f, g]) && Run(b1, [f, g]) == Apply(b2, g);
  }

  /** A client comes and goes and a waiter returns: a second waiter waits, with no client to wait for. */
  lemma SecondWaiterBlocks(fd: nat)
    ensures var es := [Register(fd), Unregister(fd), Waited];
            IsRun(EmptyBook(), es) && Run(EmptyBook(), es).count == 0 && !CanHappen(Run(EmptyBook(), es), Waited)
  {
    var b1 := Registered(EmptyBook(), fd);
    assert FirstOf(EmptyBook().slots, -1) == 0 && b1.slots[0] == fd && b1.count == 1;
    var b2 := Unregistered(b1, fd);
    assert FirstOf(b1.slots, fd) == 0 && b2.count == 0 && b2.tokens == 1;
    ThreeEvents(EmptyBook(), Register(fd), Unregister(fd), Waited, b1, b2);
  }

  lemma EmptiedBeforeWaiting(b: Book, first: seq<Event>, fd: nat, later: seq<Event>)
    requires Wellformed(b) && IsRun(b, first + [Unregister(fd)] + later) && NoRegister(later)
    requires IsRun(b, first) && Unregistered(Run(b, first), fd).count == 0
    ensures Run(b, first + [Unregister(fd)] + later).count == 0
  {
    var es := first + [Unregister(fd)] + later;
    var k := |first|;
    assert es[..k + 1] == first + [Unregister(fd)] && es[k + 1..] == later;
    RunSplits(b, first + [Unregister(fd)], later);
    RunAppends(b, first, Unregister(fd));
    EmptiedStaysEmpty(b, es, k);
  }

  /** If nobody registers after an unregistration that empties the registry, then every thread that
      gets past the semaphore later finds the registry empty. */
  lemma WaitersSeeEmpty(first: seq<Event>, fd: nat, later: seq<Event>)
    requires IsRun(EmptyBook(), first + [Unregister(fd)] + later + [Waited])
    requires IsRun(EmptyBook(), first) && Unregistered(Run(EmptyBook(), first), fd).count == 0 && NoRegister(later)
    ensures Run(EmptyBook(), first + [Unregister(fd)] + later + [Waited]).count == 0
  {
    EmptyBookWellformed();
    assert first + [Unregister(fd)] + (later + [Waited]) == first + [Unregister(fd)] + later + [Waited];
    EmptiedBeforeWaiting(EmptyBook(), first, fd, later + [Waited]);
  }

  /** The promise fails in general: a token left from an earlier moment lets a thread through while
      a client is registered. */
  lemma StaleTokenWakesEarly(fd: nat)
    ensures var es := [Register(fd), Unregister(fd), Register(fd), Waited];
            IsRun(EmptyBook(), es) && Run(EmptyBook(), es).count == 1
  {
    var b0 := EmptyBook();
    assert FirstOf(b0.slots, -1) == 0;
    var b1 := Registered(b0, fd);
    assert b1.slots[0] == fd && b1.count == 1;
    assert FirstOf(b1.slots, fd) == 0;
    var b2 := Unregistered(b1, fd);
    assert b2.slots[0] == -1 && b2.count == 0 && b2.tokens == 1;
    assert FirstOf(b2.slots, -1) == 0;
    var b3 := Registered(b2, fd);
    var b4 := Apply(b3, Waited);
    assert IsRun(b4, []) && Run(b4, []) == b4;
    var e3 := [Waited];
    assert e3[1..] == [] && IsRun(b3, e3) && Run(b3, e3) == b4;
    var e2 := [Register(fd)] + e3;
    assert e2[1..] == e3 && IsRun(b2, e2) && Run(b2, e2) == b4;
    var e1 := [Unregister(fd)] + e2;
    assert e1[1..] == e2 && IsRun(b1, e1) && Run(b1, e1) == b4;
    var e0 := [Register(fd)] + e1;
    assert e0[1..] == e1 && IsRun(b0, e0) && Run(b0, e0) == b4;
    assert e0 == [Register(fd), Unregister(fd), Register(fd), Waited];
  }

  // ---- the registry as it runs ----

  lemma FirstIs(s: seq<int>, i: nat, x: int)
    requires i < |s| && s[i] == x && forall j :: 0 <= j < i ==> s[j] != x
    ensures FirstOf(s, x) == i
  {
  }

  class ClientRegistry {
    const clientFds: array<int>
    var clientCount: int
    var empty: nat

    constructor ()
      ensures fresh(clientFds) && Abs() == EmptyBook() && Valid()
    {
      clientFds := new int[MAX_CLIENTS](_ => -1);
      clientCount, empty := 0, 0;
    }

    ghost predicate Valid() {
      clientFds.Length == MAX_CLIENTS
    }

    ghost function Abs(): Book
      reads this, clientFds
    {
      Book(clientFds[..], clientCount, empty)
    }

    /** creg_register */
    method RegisterFd(fd: int)
      requires Valid()
      modifies this, clientFds
      ensures Abs() == Registered(old(Abs()), fd)
    {
      var i := 0;
      while i < MAX_CLIENTS
        invariant i <= MAX_CLIENTS && Abs() == old(Abs())
        invariant forall j :: 0 <= j < i ==> clientFds[j] != -1
      {
        if clientFds[i] == -1 {
          FirstIs(clientFds[..], i, -1);
          clientFds[i] := fd;
          clientCount := clientCount + 1;
          return;
        }
        i := i + 1;
      }
    }

    /** creg_unregister */
    method UnregisterFd(fd: int)
      requires Valid()
      modifies this, clientFds
      ensures Abs() == Unregistered(old(Abs()), fd)
    {
      var i := 0;
      while i < MAX_CLIENTS && clientFds[i] != fd
        invariant i <= MAX_CLIENTS && Abs() == old(Abs())
        invariant forall j :: 0 <= j < i ==> clientFds[j] != fd
      {
        i := i + 1;
      }
      if i < MAX_CLIENTS {
        FirstIs(clientFds[..], i, fd);
        clientFds[i] := -1;
        clientCount := clientCount - 1;
      }
      if clientCount == 0 {
        empty := empty + 1;
      }
    }

    /** creg_wait_for_empty, once a token is there to be taken. */
    method WaitForEmpty()
      requires empty > 0
      modifies `empty
      ensures Abs() == Apply(old(Abs()), Waited)
    {
      empty := empty - 1;
    }
  }
}
