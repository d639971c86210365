/** Who owns the host contexts behind guest threads, and when they are destroyed. */
module FiberOwnership {
  import opened AddressSpace

  type Handle = nat

  const NULL: Handle := 0

  datatype Fiber = Fiber(handle: Handle, terminated: bool, isScheduler: bool)

  /** The host side: which contexts exist, which one is running, and whether one was ever destroyed wrongly. */
  datatype Host = Host(live: set<Handle>, current: Handle, scheduler: Handle, faulted: bool)

  datatype Manager = Manager(fibers: map<Address, Fiber>, pending: seq<Handle>, currentThread: Address, host: Host)

  // ---------------------------------------------------------------- host contexts

  /** Destroying a context that is gone, running, or the scheduler's is a fault. */
  function Destroy(h: Host, f: Handle): Host {
    h.(live := h.live - {f}, faulted := h.faulted || f !in h.live || f == h.current || f == h.scheduler)
  }

  /** A new context gets a handle no live one has, maybe a used one; NULL stands for a failed creation. */
  predicate CanCreate(h: Host, f: Handle) {
    f == NULL || (f !in h.live && f != h.scheduler)
  }

  // ---------------------------------------------------------------- operations

  /** Gives up a handle: later if it is running, at once otherwise. */
  function Retire(m: Manager, f: Handle): Manager {
    if f == m.host.current then m.(pending := m.pending + [f]) else m.(host := Destroy(m.host, f))
  }

  function Create(m: Manager, a: Address, f: Handle): Manager {
    var m1 :=
      if a !in m.fibers then m
      else
        var entry := m.fibers[a];
        var retired :=
          if entry.handle == NULL || entry.isScheduler then m
          else if entry.handle == m.host.current then Retire(m, entry.handle).(currentThread := 0)
          else Retire(m, entry.handle);
        retired.(fibers := retired.fibers - {a});
    if f == NULL then m1
    else m1.(fibers := m1.fibers[a := Fiber(f, false, false)], host := m1.host.(live := m1.host.live + {f}))
  }

  function Exit(m: Manager, a: Address): Manager {
    if a !in m.fibers then m
    else
      var entry := m.fibers[a];
      var m1 := m.(currentThread := if m.currentThread == a then 0 else m.currentThread);
      if entry.handle == NULL || entry.isScheduler then m1.(fibers := m1.fibers[a := entry.(terminated := true)])
      else Retire(m1, entry.handle).(fibers := m1.fibers[a := entry.(terminated := true, handle := NULL)])
  }

  /** Destroys the first n handles of a list, keeping the running one pending. */
  function PurgeFirst(m: Manager, handles: seq<Handle>, n: nat): Manager
    requires n <= |handles|
    decreases n
  {
    if n == 0 then m
    else
      var before := PurgeFirst(m, handles, n - 1);
      if handles[n - 1] == NULL then before else Retire(before, handles[n - 1])
  }

  function Purge(m: Manager): Manager {
    PurgeFirst(m.(pending := []), m.pending, |m.pending|)
  }

  function RegisterMain(m: Manager, a: Address): Manager {
    if a in m.fibers then m
    else m.(fibers := m.fibers[a := Fiber(m.host.scheduler, false, true)], currentThread := a)
  }

  // ---------------------------------------------------------------- ownership

  /** An entry that owns a guest handle. */
  predicate Owns(fiber: Fiber, f: Handle) {
    fiber.handle == f && f != NULL && !fiber.isScheduler
  }

  predicate InMap(m: Manager, f: Handle) {
    exists a :: a in m.fibers && Owns(m.fibers[a], f)
  }

  /**
   Every live guest handle has exactly one owner, the map or the pending list, and is listed there
   once; nothing else is owned, and no context was destroyed wrongly.
   */
  ghost predicate Sound(m: Manager) {
    && !m.host.faulted && m.host.scheduler !in m.host.live && NULL !in m.host.live
    && (forall f :: f in m.host.live <==> InMap(m, f) || f in m.pending)
    && (forall f :: !(InMap(m, f) && f in m.pending))
    && (forall i, j :: 0 <= i < j < |m.pending| ==> m.pending[i] != m.pending[j])
    && (forall a, b, f :: a in m.fibers && b in m.fibers && Owns(m.fibers[a], f) && Owns(m.fibers[b], f) ==> a == b)
    && (forall a :: a in m.fibers && m.fibers[a].isScheduler ==> m.fibers[a].handle == m.host.scheduler)
  }

  /** Retiring the handle of an entry that leaves the map, or is nulled, keeps every handle owned once. */
  lemma {:induction false} RetireKeepsSound(m: Manager, a: Address, f: Handle, gone: Fiber, thread: Address)
    requires Sound(m) && a in m.fibers && Owns(m.fibers[a], f) && gone.handle == NULL && !gone.isScheduler
    ensures Sound(Retire(m, f).(fibers := m.fibers[a := gone], currentThread := thread))
    ensures Sound(Retire(m, f).(fibers := m.fibers - {a}, currentThread := thread))
  {
    assert InMap(m, f);
    var r := Retire(m, f);
    OthersStayInMap(m, a, f, gone, r.(fibers := m.fibers[a := gone], currentThread := thread),
                    r.(fibers := m.fibers - {a}, currentThread := thread));
  }

  lemma {:induction false} OthersStayInMap(m: Manager, a: Address, f: Handle, gone: Fiber, nulled: Manager,
                                           removed: Manager)
    requires Sound(m) && a in m.fibers && Owns(m.fibers[a], f) && gone.handle == NULL && !gone.isScheduler
    requires nulled.fibers == m.fibers[a := gone] && removed.fibers == m.fibers - {a}
    ensures forall g :: InMap(nulled, g) <==> InMap(m, g) && g != f
    ensures forall g :: InMap(removed, g) <==> InMap(m, g) && g != f
  {
    forall g ensures InMap(nulled, g) <==> InMap(m, g) && g != f
             ensures InMap(removed, g) <==> InMap(m, g) && g != f
    {
      if b :| b in m.fibers && Owns(m.fibers[b], g) && g != f {
        assert Owns(nulled.fibers[b], g) && Owns(removed.fibers[b], g);
      }
      if b :| b in nulled.fibers && Owns(nulled.fibers[b], g) {
        assert Owns(m.fibers[b], g);
      }
      if b :| b in removed.fibers && Owns(removed.fibers[b], g) {
        assert Owns(m.fibers[b], g);
      }
    }
  }

  /** Entries that own nothing can come and go. */
  lemma {:induction false} UnownedEntriesDoNotMatter(m: Manager, a: Address, fiber: Fiber, thread: Address)
    requires Sound(m) && (a in m.fibers ==> m.fibers[a].handle == NULL || m.fibers[a].isScheduler)
    requires fiber.handle == (if fiber.isScheduler then m.host.scheduler else NULL)
    ensures Sound(m.(fibers := m.fibers[a := fiber], currentThread := thread))
    ensures Sound(m.(fibers := m.fibers - {a}, currentThread := thread))
  {
    var set', cut := m.(fibers := m.fibers[a := fiber], currentThread := thread),
                     m.(fibers := m.fibers - {a}, currentThread := thread);
    forall g ensures InMap(set', g) <==> InMap(m, g)
             ensures InMap(cut, g) <==> InMap(m, g)
    {
      if b :| b in m.fibers && Owns(m.fibers[b], g) {
        assert Owns(set'.fibers[b], g) && Owns(cut.fibers[b], g);
      }
      if b :| b in set'.fibers && Owns(set'.fibers[b], g) {
        assert Owns(m.fibers[b], g);
      }
      if b :| b in cut.fibers && Owns(cut.fibers[b], g) {
        assert Owns(m.fibers[b], g);
      }
    }
  }

  lemma {:induction false} NewHandleKeepsSound(m: Manager, a: Address, f: Handle)
    requires Sound(m) && a !in m.fibers && CanCreate(m.host, f) && f != NULL
    ensures Sound(m.(fibers := m.fibers[a := Fiber(f, false, false)], host := m.host.(live := m.host.live + {f})))
  {
    var n := m.(fibers := m.fibers[a := Fiber(f, false, false)], host := m.host.(live := m.host.live + {f}));
    assert Owns(n.fibers[a], f);
    forall g ensures InMap(n, g) <==> InMap(m, g) || g == f {
      if b :| b in m.fibers && Owns(m.fibers[b], g) {
        assert Owns(n.fibers[b], g);
      }
      if b :| b in n.fibers && Owns(n.fibers[b], g) {
        assert b != a ==> Owns(m.fibers[b], g);
      }
    }
    forall b, c, g | b in n.fibers && c in n.fibers && Owns(n.fibers[b], g) && Owns(n.fibers[c], g) ensures b == c {
      assert b != a ==> InMap(m, g);
      assert c != a ==> InMap(m, g);
    }
  }

  lemma {:induction false} CreateKeepsSound(m: Manager, a: Address, f: Handle)
    requires Sound(m) && CanCreate(Create(m, a, NULL).host, f)
    ensures Sound(Create(m, a, f))
  {
    hide Sound;
    var none := Fiber(NULL, false, false);
    var cleared := Create(m, a, NULL);
    if a in m.fibers {
      var entry := m.fibers[a];
      if entry.handle == NULL || entry.isScheduler {
        UnownedEntriesDoNotMatter(m, a, none, m.currentThread);
      } else {
        RetireKeepsSound(m, a, entry.handle, none, if entry.handle == m.host.current then 0 else m.currentThread);
      }
    }
    if f != NULL {
      NewHandleKeepsSound(cleared, a, f);
    }
  }

  lemma {:induction false} ExitKeepsSound(m: Manager, a: Address)
    requires Sound(m)
    ensures Sound(Exit(m, a))
  {
    if a in m.fibers {
      var entry := m.fibers[a];
      var thread := if m.currentThread == a then 0 else m.currentThread;
      if entry.handle == NULL || entry.isScheduler {
        UnownedEntriesDoNotMatter(m, a, entry.(terminated := true), thread);
      } else {
        RetireKeepsSound(m, a, entry.handle, entry.(terminated := true, handle := NULL), thread);
      }
    }
  }

  /** Destroying one pending handle that is not running. */
  lemma {:induction false} ReapKeepsSound(m: Manager, kept: seq<Handle>, f: Handle, rest: seq<Handle>)
    requires Sound(m) && m.pending == kept + [f] + rest && f != m.host.current
    ensures Sound(m.(pending := kept + rest, host := Destroy(m.host, f)))
  {
    var n := m.(pending := kept + rest, host := Destroy(m.host, f));
    assert m.pending[|kept|] == f;
    forall g ensures g in n.pending <==> g in m.pending && g != f {
      if g in kept {
        var i :| 0 <= i < |kept| && kept[i] == g;
        assert m.pending[i] == g;
      }
      if g in rest {
        var i :| 0 <= i < |rest| && rest[i] == g;
        assert m.pending[|kept| + 1 + i] == g;
      }
    }
    forall i, j | 0 <= i < j < |n.pending| ensures n.pending[i] != n.pending[j] {
      var i', j' := if i < |kept| then i else i + 1, if j < |kept| then j else j + 1;
      assert n.pending[i] == m.pending[i'] && n.pending[j] == m.pending[j'];
    }
    assert forall g :: InMap(n, g) <==> InMap(m, g);
  }

  /** A purge has gone through the first n handles of m's pending list and reached p. */
  ghost predicate PurgedTo(m: Manager, n: nat, p: Manager)
    requires n <= |m.pending|
  {
    && Sound(p.(pending := p.pending + m.pending[n..]))
    && p == m.(pending := p.pending, host := m.host.(live := p.host.live))
    && p.pending == if m.host.current in m.pending[..n] then [m.host.current] else []
  }

  lemma {:induction false} PurgeOneMore(m: Manager, n: nat, p: Manager)
    requires Sound(m) && n < |m.pending| && PurgedTo(m, n, p)
    ensures m.pending[n] != NULL && PurgedTo(m, n + 1, Retire(p, m.pending[n]))
  {
    hide Sound;
    var f, rest := m.pending[n], m.pending[n + 1..];
    var whole := p.(pending := p.pending + m.pending[n..]);
    assert m.pending[..n + 1] == m.pending[..n] + [f] && m.pending[n..] == [f] + rest;
    PendingIsLive(m, n);
    PendingIsLive(whole, |p.pending|);
    assert p.pending + ([f] + rest) == p.pending + [f] + rest;
    if f == m.host.current {
      PendingIsDistinct(m, n);
      assert Retire(p, f).(pending := p.pending + [f] + rest) == whole;
    } else {
      ReapKeepsSound(whole, p.pending, f, rest);
    }
  }

  lemma {:induction false} PurgeNothing(m: Manager)
    requires Sound(m)
    ensures PurgedTo(m, 0, m.(pending := []))
  {
    hide Sound;
    assert [] + m.pending == m.pending && m.pending[0..] == m.pending;
    assert m.(pending := []).(pending := [] + m.pending[0..]) == m;
  }

  lemma {:induction false} PurgeStepsKeepSound(m: Manager, n: nat)
    requires Sound(m) && n <= |m.pending|
    ensures PurgedTo(m, n, PurgeFirst(m.(pending := []), m.pending, n))
    decreases n
  {
    hide Sound, PurgedTo;
    if n == 0 {
      PurgeNothing(m);
    } else {
      PurgeStepsKeepSound(m, n - 1);
      PurgeOneMore(m, n - 1, PurgeFirst(m.(pending := []), m.pending, n - 1));
    }
  }

  lemma {:induction false} PendingIsLive(m: Manager, i: nat)
    requires Sound(m) && i < |m.pending|
    ensures m.pending[i] in m.host.live && m.pending[i] != NULL && m.pending[i] != m.host.scheduler && !m.host.faulted
  {
  }

  lemma {:induction false} PendingIsDistinct(m: Manager, i: nat)
    requires Sound(m) && i < |m.pending|
    ensures m.pending[i] !in m.pending[..i]
  {
  }

  /** Purging reaps every pending context but the running one, which stays pending. */
  lemma {:induction false} PurgeReapsAllButCurrent(m: Manager)
    requires Sound(m)
    ensures var p := Purge(m);
            && Sound(p) && p.fibers == m.fibers && p.host == m.host.(live := p.host.live)
            && p.pending == (if m.host.current in m.pending then [m.host.current] else [])
            && forall f :: f in p.host.live <==> f in m.host.live && (f in m.pending ==> f == m.host.current)
  {
    PurgeStepsKeepSound(m, |m.pending|);
    var p := Purge(m);
    assert m.pending[..|m.pending|] == m.pending && m.pending[|m.pending|..] == [];
    assert p.pending + [] == p.pending;
    assert forall f :: InMap(p, f) <==> InMap(m, f);
  }

  // ---------------------------------------------------------------- runs

  datatype Event =
    | CreateEvent(a: Address, f: Handle)
    | ExitEvent(a: Address)
    | PurgeEvent
    | MainEvent(a: Address)
    | RunEvent(f: Handle)  // the host switches to any context at all

  function Step(m: Manager, e: Event): Manager {
    match e
    case CreateEvent(a, f) => if CanCreate(Create(m, a, NULL).host, f) then Create(m, a, f) else m
    case ExitEvent(a) => Exit(m, a)
    case PurgeEvent => Purge(m)
    case MainEvent(a) => RegisterMain(m, a)
    case RunEvent(f) => m.(host := m.host.(current := f))
  }

  lemma {:induction false} StepKeepsSound(m: Manager, e: Event)
    requires Sound(m)
    ensures Sound(Step(m, e))
  {
    match e
    case CreateEvent(a, f) =>
      if CanCreate(Create(m, a, NULL).host, f) { CreateKeepsSound(m, a, f); }
    case ExitEvent(a) => ExitKeepsSound(m, a);
    case PurgeEvent => PurgeReapsAllButCurrent(m);
    case MainEvent(a) =>
      if a !in m.fibers {
        UnownedEntriesDoNotMatter(m, a, Fiber(m.host.scheduler, false, true), a);
      }
    case RunEvent(f) =>
      assert forall g :: InMap(Step(m, e), g) <==> InMap(m, g);
  }

  function Run(m: Manager, events: seq<Event>): Manager
    decreases |events|
  {
    if events == [] then m else Step(Run(m, events[..|events| - 1]), events[|events| - 1])
  }

  function Initialized(scheduler: Handle, current: Handle): Manager {
    Manager(map[], [], 0, Host({}, current, scheduler, false))
  }

  /**
   Over every run, with any context running at each step: each live guest context is owned exactly
   once, by the fiber map or by the pending list; none was destroyed twice, while it ran, or as the
   scheduler's.
   */
  lemma {:induction false} EveryHandleIsOwnedOnce(scheduler: Handle, current: Handle, events: seq<Event>)
    ensures Sound(Run(Initialized(scheduler, current), events))
    decreases |events|
  {
    if events != [] {
      hide Sound, Step;
      EveryHandleIsOwnedOnce(scheduler, current, events[..|events| - 1]);
      StepKeepsSound(Run(Initialized(scheduler, current), events[..|events| - 1]), events[|events| - 1]);
    }
  }

  /** Over every run no step destroys the context that is running. */
  lemma {:induction false} RunningContextSurvives(scheduler: Handle, current: Handle, events: seq<Event>, e: Event)
    ensures var m := Run(Initialized(scheduler, current), events);
            m.host.current in m.host.live ==> m.host.current in Step(m, e).host.live
  {
    hide Sound, Purge, CanCreate;
    var m := Run(Initialized(scheduler, current), events);
    EveryHandleIsOwnedOnce(scheduler, current, events);
    PurgeReapsAllButCurrent(m);
  }

  /** Destroying a context that is not live, the running one or the scheduler's is recorded as a fault for ever. */
  lemma {:induction false} WrongDestructionsAreFaults(h: Host, f: Handle, g: Handle)
    ensures f !in h.live || f in {h.current, h.scheduler} ==> Destroy(h, f).faulted && Destroy(Destroy(h, f), g).faulted
    ensures f in h.live ==> Destroy(h, f).live == h.live - {f}
  {
  }

  /** In any run an address for which a new live context is created owns it, whatever it owned before. */
  lemma {:induction false} CreatedContextIsOwned(scheduler: Handle, current: Handle, events: seq<Event>, a: Address,
                                                 f: Handle)
    requires f !in Run(Initialized(scheduler, current), events).host.live && f != 0
    requires f != Run(Initialized(scheduler, current), events).host.scheduler
    ensures var m := Step(Run(Initialized(scheduler, current), events), CreateEvent(a, f));
            a in m.fibers && m.fibers[a] == Fiber(f, false, false) && f in m.host.live && f !in m.pending
  {
    hide Run, Sound;
    var m := Run(Initialized(scheduler, current), events);
    EveryHandleIsOwnedOnce(scheduler, current, events);
    NotLiveIsNotPending(m, f);
  }

  lemma {:induction false} NotLiveIsNotPending(m: Manager, f: Handle)
    requires Sound(m) && f !in m.host.live
    ensures f !in m.pending
    ensures forall a :: a in m.fibers ==> m.fibers[a].handle == f && f != 0 ==> m.fibers[a].isScheduler
  {
    assert !InMap(m, f);
  }

  /** A context retired while it ran is reaped by the first purge from another context. */
  lemma {:induction false} RetiredContextsAreReaped(scheduler: Handle, current: Handle, events: seq<Event>,
                                                    f: Handle, next: Handle)
    requires var m := Run(Initialized(scheduler, current), events); f in m.pending && next != f
    ensures var m := Run(Initialized(scheduler, current), events);
            f !in Run(m, [RunEvent(next), PurgeEvent]).host.live
  {
    hide Sound, Purge;
    var m := Run(Initialized(scheduler, current), events);
    EveryHandleIsOwnedOnce(scheduler, current, events);
    var m1 := Step(m, RunEvent(next));
    StepKeepsSound(m, RunEvent(next));
    var two := [RunEvent(next), PurgeEvent];
    assert two[..1] == [RunEvent(next)] && [RunEvent(next)][..0] == [];
    PurgeReapsAllButCurrent(m1);
    assert Run(m, [RunEvent(next)]) == m1;
    assert Run(m, two) == Step(Run(m, two[..1]), PurgeEvent);
  }

  // ---------------------------------------------------------------- the manager

  /** The context a guest address owns, if it owns one. */
  function OwnedAt(m: Manager, a: Address): set<Handle> {
    if a in m.fibers && m.fibers[a].handle != NULL && !m.fibers[a].isScheduler then {m.fibers[a].handle} else {}
  }

  lemma {:induction false} OwnedIsLive(m: Manager, a: Address)
    requires Sound(m)
    ensures OwnedAt(m, a) <= m.host.live && forall f :: f in OwnedAt(m, a) ==> f !in m.pending
  {
    forall f | f in OwnedAt(m, a) ensures f in m.host.live && f !in m.pending {
      assert Owns(m.fibers[a], f) && InMap(m, f);
    }
  }

  lemma {:induction false} CreateMeans(m: Manager, a: Address, created: Handle)
    requires Sound(m)
    ensures var after, was := Create(m, a, created), OwnedAt(m, a);
            && after.fibers == (if created != NULL then m.fibers[a := Fiber(created, false, false)] else m.fibers - {a})
            && after.host.live == m.host.live - (was - {m.host.current}) + (if created != NULL then {created} else {})
            && after.pending == m.pending + (if m.host.current in was then [m.host.current] else [])
            && after.host.current == m.host.current
  {
    OwnedIsLive(m, a);
    hide Sound;
  }

  lemma {:induction false} ExitMeans(m: Manager, a: Address)
    requires Sound(m)
    ensures var after, was := Exit(m, a), OwnedAt(m, a);
            && after.fibers.Keys == m.fibers.Keys && (forall b :: b in m.fibers && b != a ==>
                after.fibers[b] == m.fibers[b])
            && (a in m.fibers ==> after.fibers[a].terminated && OwnedAt(after, a) == {})
            && (a in m.fibers && a == m.currentThread ==> after.currentThread == 0)
            && after.host.live == m.host.live - (was - {m.host.current})
            && after.pending == m.pending + (if m.host.current in was then [m.host.current] else [])
            && after.host.current == m.host.current
  {
    OwnedIsLive(m, a);
    hide Sound;
  }

  class GuestFiberManager {
    var fibers: map<Address, Fiber>
    var pendingDelete: seq<Handle>
    var currentThread: Address
    var host: Host

    function View(): Manager
      reads this
    {
      Manager(fibers, pendingDelete, currentThread, host)
    }

    /** Every live guest context has exactly one owner, and none was ever destroyed wrongly. */
    ghost predicate Valid()
      reads this
    {
      Sound(View())
    }

    /** After initialization, on the context that becomes the scheduler's. */
    constructor (scheduler: Handle)
      ensures Valid() && View() == Initialized(scheduler, scheduler)
    {
      fibers, pendingDelete, currentThread := map[], [], 0;
      host := Host({}, scheduler, scheduler, false);
      new;
      EveryHandleIsOwnedOnce(scheduler, scheduler, []);
    }

    /** The host runs any context at all. */
    method RunContext(f: Handle)
      requires Valid()
      modifies this`host
      ensures Valid() && View() == Step(old(View()), RunEvent(f))
    {
      StepKeepsSound(View(), RunEvent(f));
      host := host.(current := f);
    }

    method DestroyOrDefer(f: Handle)
      modifies this`pendingDelete, this`host
      ensures View() == Retire(old(View()), f)
    {
      if f == host.current {
        pendingDelete := pendingDelete + [f];
      } else {
        host := Destroy(host, f);
      }
    }

    /** Destroys every pending context but the running one, which stays pending. */
    method PurgePendingFibers()
      requires Valid()
      modifies this`pendingDelete, this`host
      ensures Valid() && View() == Purge(old(View()))
      ensures host == old(host).(live := host.live)
      ensures pendingDelete == if host.current in old(pendingDelete) then [host.current] else []
      ensures forall f :: f in host.live <==> f in old(host).live && (f in old(pendingDelete) ==> f == host.current)
    {
      PurgeReapsAllButCurrent(View());
      hide Retire, Sound;
      var toDelete := pendingDelete;
      pendingDelete := [];
      for i := 0 to |toDelete|
        invariant View() == PurgeFirst(old(View()).(pending := []), toDelete, i)
      {
        if toDelete[i] != NULL { DestroyOrDefer(toDelete[i]); }
      }
    }

    /**
     Starts a guest thread on a new context. Whatever its address owned is no longer owned there: it is
     gone, or pending if it is the running one. A failed creation leaves the address without a fiber.
     */
    method CreateGuestFiber(a: Address, created: Handle) returns (ok: bool)
      requires Valid() && CanCreate(Create(View(), a, NULL).host, created)
      modifies this
      ensures Valid() && View() == Create(old(View()), a, created) && ok == (created != NULL)
      ensures fibers == if ok then old(fibers)[a := Fiber(created, false, false)] else old(fibers) - {a}
      ensures var was := OwnedAt(old(View()), a);
              && host.live == old(host).live - (was - {host.current}) + (if ok then {created} else {})
              && pendingDelete == old(pendingDelete) + (if host.current in was then [host.current] else [])
    {
      CreateKeepsSound(View(), a, created);
      CreateMeans(View(), a, created);
      hide CanCreate, Sound, OwnedAt;
      if a in fibers {
        var existing := fibers[a];
        if existing.handle != NULL && !existing.isScheduler {
          if existing.handle == host.current { currentThread := 0; }
          DestroyOrDefer(existing.handle);
        }
        fibers := fibers - {a};
      }
      if created == NULL { return false; }
      fibers := fibers[a := Fiber(created, false, false)];
      host := host.(live := host.live + {created});
      return true;
    }

    /**
     Terminates a thread: its fiber stays on record without a context, which is gone, or pending if it is the
     running one.
     */
    method ExitGuestThread(a: Address)
      requires Valid()
      modifies this
      ensures Valid() && View() == Exit(old(View()), a)
      ensures fibers.Keys == old(fibers).Keys && forall b :: b in fibers && b != a ==> fibers[b] == old(fibers)[b]
      ensures a in fibers ==> fibers[a].terminated && OwnedAt(View(), a) == {}
      ensures a in fibers && a == old(currentThread) ==> currentThread == 0
      ensures var was := OwnedAt(old(View()), a);
              && host.live == old(host).live - (was - {host.current})
              && pendingDelete == old(pendingDelete) + (if host.current in was then [host.current] else [])
    {
      ExitKeepsSound(View(), a);
      ExitMeans(View(), a);
      hide Sound, OwnedAt;
      if a !in fibers { return; }
      var entry := fibers[a].(terminated := true);
      if currentThread == a { currentThread := 0; }
      if entry.handle != NULL && !entry.isScheduler {
        DestroyOrDefer(entry.handle);
        entry := entry.(handle := NULL);
      }
      fibers := fibers[a := entry];
    }

    /** The scheduler's own context becomes a guest thread's, without being owned by it: no context changes hands. */
    method RegisterMainThreadAsFiber(a: Address)
      requires Valid()
      modifies this
      ensures Valid() && View() == RegisterMain(old(View()), a)
      ensures a in fibers && host == old(host) && pendingDelete == old(pendingDelete)
      ensures forall b :: OwnedAt(View(), b) == OwnedAt(old(View()), b)
    {
      StepKeepsSound(View(), MainEvent(a));
      hide Sound;
      if a in fibers { return; }
      fibers := fibers[a := Fiber(host.scheduler, false, true)];
      currentThread := a;
    }
  }
}
