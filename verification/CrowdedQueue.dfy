/**
 A guest memory in which one thread more than a wake can take sleeps on one queue.

 The memory is built from one in which nobody is on any queue by the stores that put a thread at the
 tail of a queue, one thread at a time. The scheduler invariant holds of it throughout. Waking the
 queue then takes 256 sleepers and leaves the last one behind.
 */
module CrowdedQueue {
  import opened Bits
  import opened GuestMemory
  import opened GuestQueues

  const SLEEPERS := MAX_WAKE + 1
  const MASK := 0x1000
  const RUN_QUEUES := 0x2000
  const JOIN := 0x3000
  const FIRST_THREAD := 0x1_0000
  const THREAD_SIZE := 0x400
  const END := 0x10_0000

  // A thread that sleeps: neither unused nor moribund.
  const WAITING: Word := 0x4_0000

  function ThreadAt(i: int): int { FIRST_THREAD + i * THREAD_SIZE }

  /** 257 threads, the run queues and one more queue. */
  ghost function Crowd(): Layout {
    Layout(set i | 0 <= i < SLEEPERS :: ThreadAt(i), {JOIN} + set p | 0 <= p < PRIORITIES :: RUN_QUEUES + 8 * p,
           RUN_QUEUES, MASK, MASK + 4)
  }

  lemma {:induction false} ThreadPlaces(t: int)
    requires t in Crowd().threads
    ensures FIRST_THREAD <= t < END - THREAD_SIZE && (t - FIRST_THREAD) % THREAD_SIZE == 0
  {
    var i :| 0 <= i < SLEEPERS && t == ThreadAt(i);
  }

  lemma {:induction false} QueuePlaces(a: int)
    requires a in Crowd().queues
    ensures RUN_QUEUES <= a <= JOIN && a % 8 == 0
  {
  }

  lemma {:induction false} ThreadsAreSpaced(t: int, u: int)
    requires t in Crowd().threads && u in Crowd().threads && t != u
    ensures t + 0x20 <= u || u + 0x20 <= t
  {
    var i :| 0 <= i < SLEEPERS && t == ThreadAt(i);
    var j :| 0 <= j < SLEEPERS && u == ThreadAt(j);
    assert i < j || j < i;
  }

  lemma {:induction false} RunQueuePlaces()
    ensures JOIN in Crowd().queues && !Crowd().IsRunQueue(JOIN)
    ensures forall p :: 0 <= p < PRIORITIES ==> Crowd().RunQueue(p) in Crowd().queues
    ensures forall i :: 0 <= i < SLEEPERS ==> ThreadAt(i) in Crowd().threads
    ensures Crowd().pendingMask == MASK && Crowd().reschedule == MASK + 4
  {
    forall p | 0 <= p < PRIORITIES ensures Crowd().RunQueue(p) in Crowd().queues {
    }
    forall i | 0 <= i < SLEEPERS ensures ThreadAt(i) in Crowd().threads {
    }
  }

  lemma {:induction false} CrowdIsApart()
    ensures Crowd().Apart()
  {
    var l := Crowd();
    RunQueuePlaces();
    hide Crowd;
    forall t, u | t in l.threads && u in l.threads && t != u ensures t + 0x20 <= u || u + 0x20 <= t {
      ThreadsAreSpaced(t, u);
    }
    forall t | t in l.threads ensures FIRST_THREAD <= t < END - THREAD_SIZE {
      ThreadPlaces(t);
    }
    forall a | a in l.queues ensures RUN_QUEUES <= a <= JOIN && a % 8 == 0 {
      QueuePlaces(a);
    }
    forall a, b | a in l.queues && b in l.queues && a != b ensures a + 8 <= b || b + 8 <= a {
      AlignedAreSpaced(a, b);
    }
  }

  lemma {:induction false} AlignedAreSpaced(a: int, b: int)
    requires a % 8 == 0 && b % 8 == 0 && a != b
    ensures a + 8 <= b || b + 8 <= a
  {
  }

  // ---------------------------------------------------------------- nobody on any queue

  /** Every thread sleeps, off any queue. */
  function Cell(x: int): Word {
    if x >= FIRST_THREAD && (x - FIRST_THREAD) % THREAD_SIZE == STATE then WAITING else 0
  }

  ghost function Asleep(): Memory {
    map x | 0 <= x < END :: Cell(x)
  }

  ghost function Empty(): Queues {
    map a | a in Crowd().queues :: []
  }

  /** No thread is on a queue, and all would run if woken. */
  ghost predicate AllWait(f: Fields, n: nat) {
    && (forall t :: t in Crowd().threads ==>
        t in f.state && f.state[t] == WAITING && t in f.suspend && f.suspend[t] == 0)
    && (forall i :: n <= i < SLEEPERS ==> ThreadAt(i) in f.queue && f.queue[ThreadAt(i)] == 0)
  }

  lemma {:induction false} ThreadCells(t: int)
    requires FIRST_THREAD <= t < END - THREAD_SIZE && (t - FIRST_THREAD) % THREAD_SIZE == 0
    ensures t + STATE in Asleep() && t + SUSPEND in Asleep() && t + PRIORITY in Asleep()
    ensures t + QUEUE in Asleep() && t + NEXT in Asleep() && t + PREV in Asleep()
    ensures Asleep()[t + STATE] == WAITING && Asleep()[t + SUSPEND] == 0 && Asleep()[t + QUEUE] == 0
  {
    OffsetInThread(t, STATE);
    OffsetInThread(t, SUSPEND);
    OffsetInThread(t, QUEUE);
  }

  lemma {:induction false} HeaderCells(a: int)
    requires 0 <= a < FIRST_THREAD
    ensures a in Asleep() && Asleep()[a] == 0
  {
  }

  lemma {:induction false} AsleepIsMapped()
    ensures Mapped(Asleep(), Crowd())
  {
    RunQueuePlaces();
    hide Crowd, Asleep, Cell, Layout.Apart, Layout.IsRunQueue;
    forall t | t in Crowd().threads
      ensures t + STATE in Asleep() && t + SUSPEND in Asleep() && t + PRIORITY in Asleep()
      ensures t + QUEUE in Asleep() && t + NEXT in Asleep() && t + PREV in Asleep()
    {
      ThreadPlaces(t);
      ThreadCells(t);
    }
    forall a | a in Crowd().queues ensures a in Asleep() && a + 4 in Asleep() {
      QueuePlaces(a);
      HeaderCells(a);
      HeaderCells(a + 4);
    }
    HeaderCells(MASK);
    HeaderCells(MASK + 4);
  }

  lemma {:induction false} ThreadAsleep(t: int)
    requires Mapped(Asleep(), Crowd()) && t in Crowd().threads
    ensures var f := Read(Asleep(), Crowd());
            && t in f.state && t in f.suspend && t in f.priority && t in f.queue && t in f.next && t in f.prev
            && f.state[t] == WAITING && f.suspend[t] == 0 && f.queue[t] == 0
  {
    ThreadPlaces(t);
    ThreadCells(t);
    hide Crowd, Read, Asleep, Mapped;
    ReadThread(Asleep(), Crowd(), t);
  }

  lemma {:induction false} QueueEmpty(a: int)
    requires Mapped(Asleep(), Crowd()) && a in Crowd().queues
    ensures var f := Read(Asleep(), Crowd()); a in f.head && a in f.tail && f.head[a] == 0 && f.tail[a] == 0
  {
    QueuePlaces(a);
    HeaderCells(a);
    HeaderCells(a + 4);
    hide Crowd, Read, Asleep, Mapped;
    ReadQueue(Asleep(), Crowd(), a);
  }

  lemma {:induction false} MaskAsleep()
    ensures Mapped(Asleep(), Crowd()) && Read(Asleep(), Crowd()).mask == 0
  {
    RunQueuePlaces();
    HeaderCells(MASK);
    AsleepIsMapped();
    hide Crowd, Read, Asleep, Mapped;
    ReadMask(Asleep(), Crowd());
  }

  lemma {:induction false} ThreadsWait()
    ensures Mapped(Asleep(), Crowd()) && AllWait(Read(Asleep(), Crowd()), 0)
  {
    RunQueuePlaces();
    AsleepIsMapped();
    hide Crowd, Read, Asleep, Mapped, Layout.Apart;
    forall t | t in Crowd().threads
      ensures var f := Read(Asleep(), Crowd());
              && t in f.state && t in f.suspend && t in f.queue
              && f.state[t] == WAITING && f.suspend[t] == 0 && f.queue[t] == 0
    {
      ThreadAsleep(t);
    }
  }

  lemma {:induction false} FieldsAreTotal(f: Fields)
    requires Mapped(Asleep(), Crowd()) && f == Read(Asleep(), Crowd())
    ensures Total(f, Crowd())
  {
    hide Crowd, Read, Asleep, Mapped, Layout.Apart;
    forall t | t in Crowd().threads
      ensures t in f.state && t in f.suspend && t in f.priority && t in f.queue && t in f.next && t in f.prev
    {
      ThreadAsleep(t);
    }
    forall a | a in Crowd().queues ensures a in f.head && a in f.tail {
      QueueEmpty(a);
    }
  }

  lemma {:induction false} OffsetInThread(t: int, offset: nat)
    requires (t - FIRST_THREAD) % THREAD_SIZE == 0 && offset < THREAD_SIZE
    ensures (t + offset - FIRST_THREAD) % THREAD_SIZE == offset
  {
    var q := (t - FIRST_THREAD) / THREAD_SIZE;
    assert t - FIRST_THREAD == THREAD_SIZE * q;
  }

  lemma {:induction false} NobodyIsQueued(f: Fields)
    requires Mapped(Asleep(), Crowd()) && f == Read(Asleep(), Crowd())
    ensures Represents(f, Crowd(), Empty())
  {
    FieldsAreTotal(f);
    hide Crowd, Asleep, Read, Total, Mapped;
    forall a | a in Crowd().queues ensures Linked(f, a, Empty()[a]) {
      QueueEmpty(a);
    }
    forall t | t in Crowd().threads ensures t in f.queue && Placed(f, Empty(), t) {
      ThreadAsleep(t);
    }
  }

  lemma {:induction false} EmptyIsSound()
    ensures Sound(Asleep(), Crowd(), Empty())
  {
    CrowdIsApart();
    RunQueuePlaces();
    MaskAsleep();
    hide Crowd, Asleep, Read, Mapped, Layout.Apart, Represents, PendingExact;
    NobodyIsQueued(Read(Asleep(), Crowd()));
    RunQueuesAreEmpty(Read(Asleep(), Crowd()));
  }

  lemma {:induction false} RunQueuesAreEmpty(f: Fields)
    requires f.mask == 0 && Crowd().Apart() && Empty().Keys == Crowd().queues
    ensures PendingExact(f, Crowd(), Empty())
  {
    hide Crowd;
    NoBitOfZero();
  }

  lemma {:induction false} NoBitOfZero()
    ensures forall p :: 0 <= p < PRIORITIES ==> !PendingBit(0, p)
  {
    forall p | 0 <= p < PRIORITIES ensures !PendingBit(0, p) {
      ZeroHasNoBit(31 - p);
    }
  }

  lemma {:induction false} ZeroHasNoBit(k: nat)
    ensures !Bit(0, k)
  {
    if k > 0 {
      ZeroHasNoBit(k - 1);
    }
  }

  // ---------------------------------------------------------------- one more sleeper

  /** The first of the stores that put a detached thread at the tail of a queue. */
  ghost function Tied(m: Memory, l: Layout, a: int, t: int): Memory
    requires a + 4 in m && 0 < t < WORD
  {
    if m[a + 4] == 0 then m[a := t as Word] else m[m[a + 4] + NEXT := t as Word]
  }

  ghost function Joined(m: Memory, l: Layout, a: int, t: int): Memory
    requires a + 4 in m && 0 < t < WORD && 0 < a < WORD
  {
    Tied(m, l, a, t)[t + PREV := m[a + 4]][t + NEXT := 0][a + 4 := t as Word][t + QUEUE := a as Word]
  }

  lemma {:induction false} TiedReads(m: Memory, l: Layout, a: int, t: int)
    requires l.Apart() && Mapped(m, l) && a in l.queues && t in l.threads && 0 < t < WORD && a + 4 in m
    requires m[a + 4] == 0 || m[a + 4] in l.threads
    ensures Mapped(Tied(m, l, a, t), l)
    ensures var f, tail := Read(m, l), m[a + 4];
            Read(Tied(m, l, a, t), l) == if tail == 0 then f.(head := f.head[a := t]) else f.(next := f.next[tail := t])
  {
    hide Read, Layout.Apart, Mapped;
    if m[a + 4] == 0 {
      WriteHead(m, l, a, t);
    } else {
      WriteNext(m, l, m[a + 4], t);
    }
  }

  lemma {:induction false} JoinedReads(m: Memory, l: Layout, a: int, t: int)
    requires l.Apart() && Mapped(m, l) && a in l.queues && t in l.threads && 0 < t < WORD && 0 < a < WORD && a + 4 in m
    requires m[a + 4] == 0 || m[a + 4] in l.threads
    ensures Mapped(Joined(m, l, a, t), l) && Read(Joined(m, l, a, t), l) == Append(Read(m, l), a, t)
  {
    hide Read, Layout.Apart, Mapped, Tied;
    ReadQueue(m, l, a);
    TiedReads(m, l, a, t);
    var m1 := Tied(m, l, a, t);
    WritePrev(m1, l, t, m[a + 4]);
    var m2 := m1[t + PREV := m[a + 4]];
    WriteNext(m2, l, t, 0);
    var m3 := m2[t + NEXT := 0];
    WriteTail(m3, l, a, t);
    var m4 := m3[a + 4 := t as Word];
    WriteQueue(m4, l, t, a);
  }

  lemma {:induction false} SoundSaysAll(m: Memory, l: Layout, q: Queues)
    requires Sound(m, l, q)
    ensures l.Apart() && Mapped(m, l) && Represents(Read(m, l), l, q) && PendingExact(Read(m, l), l, q)
    ensures q.Keys == l.queues && 0 !in l.threads && 0 !in l.queues && Total(Read(m, l), l)
    ensures forall t :: t in l.threads ==> 0 < t < WORD
    ensures forall a :: a in l.queues ==> 0 < a < WORD
  {
  }

  lemma {:induction false} PendingAfterJoin(f: Fields, f': Fields, l: Layout, q: Queues, a: int, t: int)
    requires l.Apart() && q.Keys == l.queues && a in q && !l.IsRunQueue(a) && PendingExact(f, l, q) && f'.mask == f.mask
    ensures PendingExact(f', l, q[a := q[a] + [t]])
  {
    forall p | 0 <= p < PRIORITIES ensures l.RunQueue(p) != a {
      assert l.IsRunQueue(l.RunQueue(p));
    }
  }

  lemma {:induction false} JoinKeepsSound(m: Memory, l: Layout, q: Queues, a: int, t: int)
    requires Sound(m, l, q) && Mapped(m, l) && t in l.threads && t in Read(m, l).queue && Read(m, l).queue[t] == 0
    requires a in l.queues && !l.IsRunQueue(a)
    ensures a in q && 0 < t < WORD && 0 < a < WORD && a + 4 in m
    ensures Sound(Joined(m, l, a, t), l, q[a := q[a] + [t]]) && Mapped(Joined(m, l, a, t), l)
    ensures Read(Joined(m, l, a, t), l) == Append(Read(m, l), a, t)
  {
    hide Read, Tied, Joined, Represents, PendingExact, Layout.Apart, Layout.IsRunQueue, Append, Total, Mapped, Linked;
    SoundSaysAll(m, l, q);
    SoundIsWakeable(m, l, q, a);
    ReadQueue(m, l, a);
    var f := Read(m, l);
    assert f.tail[a] == 0 || f.tail[a] in l.threads;
    TailInMemory(m, l, a);
    JoinedReads(m, l, a, t);
    AppendRepresents(f, l, q, a, t);
    AppendKeepsData(f, a, t);
    PendingAfterJoin(f, Append(f, a, t), l, q, a, t);
  }

  lemma {:induction false} TailInMemory(m: Memory, l: Layout, a: int)
    requires Mapped(m, l) && a in l.queues
    ensures a + 4 in m && a in Read(m, l).tail && m[a + 4] == Read(m, l).tail[a]
  {
  }

  function Line(n: nat): seq<int> { seq(n, i => ThreadAt(i)) }

  lemma {:induction false} JoinKeepsWaiting(f: Fields, n: nat)
    requires n < SLEEPERS && AllWait(f, n)
    ensures AllWait(Append(f, JOIN, ThreadAt(n)), n + 1)
  {
    AppendKeepsData(f, JOIN, ThreadAt(n));
    hide Crowd;
  }

  /** The first n threads sleep on one queue, in order. */
  lemma {:induction false} QueueUp(n: nat) returns (m: Memory, q: Queues)
    requires n <= SLEEPERS
    ensures Sound(m, Crowd(), q) && Mapped(m, Crowd()) && JOIN in q && q[JOIN] == Line(n)
    ensures AllWait(Read(m, Crowd()), n)
  {
    hide Read, Joined, Sound, Append, Mapped, Asleep, Total, Crowd;
    CrowdIsApart();
    RunQueuePlaces();
    if n == 0 {
      m, q := Asleep(), Empty();
      MaskAsleep();
      ThreadsWait();
      EmptyIsSound();
    } else {
      var m0, q0 := QueueUp(n - 1);
      var t := ThreadAt(n - 1);
      JoinKeepsSound(m0, Crowd(), q0, JOIN, t);
      JoinKeepsWaiting(Read(m0, Crowd()), n - 1);
      m, q := Joined(m0, Crowd(), JOIN, t), q0[JOIN := q0[JOIN] + [t]];
      assert Line(n) == Line(n - 1) + [t];
    }
  }

  lemma {:induction false} WakeLeavesTheRest(f: Fields, f': Fields, l: Layout, q: Queues, q': Queues, a: int,
                                             fibers: map<int, Fiber>, fibers': map<int, Fiber>, n: nat)
    requires Woke(f, f', l, q, q', a, fibers, fibers', n)
    ensures a in q && n <= |q[a]| && a in q' && q'[a] == q[a][n..]
  {
  }

  /**
   257 runnable threads sleep on one queue of a sound guest memory, and every wake of it leaves the last one
   there.
   */
  lemma {:induction false} OneIsLeftBehind() returns (m: Memory, q: Queues)
    ensures Sound(m, Crowd(), q) && Mapped(m, Crowd()) && !Crowd().IsRunQueue(JOIN) && JOIN in q
    ensures |q[JOIN]| == SLEEPERS
    ensures forall i :: 0 <= i < SLEEPERS ==>
              var f, t := Read(m, Crowd()), q[JOIN][i]; t in f.state && t in f.suspend && Runnable(f, t)
    ensures forall f', q', fibers, fibers' ::
              Woke(Read(m, Crowd()), f', Crowd(), q, q', JOIN, fibers, fibers', MAX_WAKE) ==>
                JOIN in q' && q'[JOIN] == [ThreadAt(MAX_WAKE)]
  {
    hide Read, Sound, Woke, Mapped, Crowd;
    CrowdIsApart();
    RunQueuePlaces();
    m, q := QueueUp(SLEEPERS);
    var f := Read(m, Crowd());
    forall f', q', fibers, fibers' | Woke(f, f', Crowd(), q, q', JOIN, fibers, fibers', MAX_WAKE)
      ensures JOIN in q' && q'[JOIN] == [ThreadAt(MAX_WAKE)]
    {
      WakeLeavesTheRest(f, f', Crowd(), q, q', JOIN, fibers, fibers', MAX_WAKE);
    }
  }
}
