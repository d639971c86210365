/**
 Where the guest scheduler keeps its structures in guest memory, and what each one-word store does
 to them. Guest memory is a map from word addresses to 32-bit words; `Fields` is the same memory
 read field by field, so that list reasoning needs no address arithmetic.
 */
module GuestMemory {
  import opened Bits

  // OSThread field offsets; the thread state is the upper half-word of the word at STATE.
  const STATE := 0x2C8
  const SUSPEND := 0x2CC
  const PRIORITY := 0x2D0
  const QUEUE := 0x2DC
  const NEXT := 0x2E0
  const PREV := 0x2E4
  const LINKS_END := 0x2E8

  const PRIORITIES := 32

  type Memory = map<int, Word>

  /** Where the scheduler's structures live. Join queues may sit inside thread structures. */
  datatype Layout = Layout(threads: set<int>, queues: set<int>, runQueues: int, pendingMask: int, reschedule: int) {

    function RunQueue(priority: int): int { runQueues + 8 * priority }

    predicate IsRunQueue(a: int) {
      a >= runQueues && (a - runQueues) % 8 == 0 && (a - runQueues) / 8 < PRIORITIES
    }

    /** The fields the scheduler touches never overlap, and no structure is at address 0. */
    ghost predicate Apart() {
      && (forall t, u :: t in threads && u in threads && t != u ==> t + 0x20 <= u || u + 0x20 <= t)
      && (forall a, b :: a in queues && b in queues && a != b ==> a + 8 <= b || b + 8 <= a)
      && (forall t, a :: t in threads && a in queues ==> a + 8 <= t + STATE || t + LINKS_END <= a)
      && (forall t :: t in threads ==>
          0 < t < WORD - LINKS_END && OffThread(pendingMask, t) && OffThread(reschedule, t))
      && (forall a :: a in queues ==> 0 < a < WORD - 8 && OffQueue(pendingMask, a) && OffQueue(reschedule, a))
      && (pendingMask + 4 <= reschedule || reschedule + 4 <= pendingMask)
      && (forall p :: 0 <= p < PRIORITIES ==> RunQueue(p) in queues)
    }

    static predicate OffThread(w: int, t: int) { w + 4 <= t + STATE || t + LINKS_END <= w }

    static predicate OffQueue(w: int, a: int) { w + 4 <= a || a + 8 <= w }
  }

  ghost predicate Mapped(m: Memory, l: Layout) {
    && (forall t :: t in l.threads ==> t + STATE in m && t + SUSPEND in m && t + PRIORITY in m)
    && (forall t :: t in l.threads ==> t + QUEUE in m && t + NEXT in m && t + PREV in m)
    && (forall a :: a in l.queues ==> a in m && a + 4 in m)
    && l.pendingMask in m && l.reschedule in m
  }

  /** One field of every structure in `bases`. */
  ghost function Column(m: Memory, bases: set<int>, offset: int): map<int, int>
    requires forall b :: b in bases ==> b + offset in m
  {
    map b | b in bases :: m[b + offset]
  }

  /** Every scheduler field: the first six maps are indexed by thread, head and tail by queue. */
  datatype Fields = Fields(state: map<int, int>, suspend: map<int, int>, priority: map<int, int>,
                           queue: map<int, int>, next: map<int, int>, prev: map<int, int>,
                           head: map<int, int>, tail: map<int, int>,
                           mask: Word, reschedule: int)

  ghost function Read(m: Memory, l: Layout): Fields
    requires Mapped(m, l)
  {
    Fields(Column(m, l.threads, STATE), Column(m, l.threads, SUSPEND), Column(m, l.threads, PRIORITY),
           Column(m, l.threads, QUEUE), Column(m, l.threads, NEXT), Column(m, l.threads, PREV),
           Column(m, l.queues, 0), Column(m, l.queues, 4),
           m[l.pendingMask], m[l.reschedule])
  }

  lemma {:induction false} ReadMask(m: Memory, l: Layout)
    requires Mapped(m, l)
    ensures l.pendingMask in m && Read(m, l).mask == m[l.pendingMask]
  {
  }

  lemma {:induction false} ReadFlag(m: Memory, l: Layout)
    requires Mapped(m, l)
    ensures l.reschedule in m && Read(m, l).reschedule == m[l.reschedule]
  {
  }

  lemma {:induction false} ReadThread(m: Memory, l: Layout, t: int)
    requires Mapped(m, l) && t in l.threads
    ensures var f := Read(m, l);
            && t in f.state && f.state[t] == m[t + STATE]
            && t in f.suspend && f.suspend[t] == m[t + SUSPEND]
            && t in f.priority && f.priority[t] == m[t + PRIORITY]
            && t in f.queue && f.queue[t] == m[t + QUEUE]
            && t in f.next && f.next[t] == m[t + NEXT]
            && t in f.prev && f.prev[t] == m[t + PREV]
  {
  }

  lemma {:induction false} ReadQueue(m: Memory, l: Layout, a: int)
    requires Mapped(m, l) && a in l.queues
    ensures var f := Read(m, l);
            a in f.head && f.head[a] == m[a] && a in f.tail && f.tail[a] == m[a + 4]
  {
    assert a + 0 == a;
  }

  lemma {:induction false} Hit(m: Memory, bases: set<int>, offset: int, b: int, w: Word)
    requires forall b :: b in bases ==> b + offset in m
    requires b in bases
    ensures Column(m[b + offset := w], bases, offset) == Column(m, bases, offset)[b := w]
  {
  }

  lemma {:induction false} Miss(m: Memory, bases: set<int>, offset: int, cell: int, w: Word)
    requires forall b :: b in bases ==> b + offset in m && b + offset != cell
    ensures Column(m[cell := w], bases, offset) == Column(m, bases, offset)
  {
  }

  /** A store outside every thread structure leaves all thread fields alone. */
  lemma {:induction false} MissThreads(m: Memory, l: Layout, cell: int, w: Word)
    requires Mapped(m, l)
    requires forall t :: t in l.threads ==> cell < t + STATE || t + LINKS_END <= cell
    ensures var m' := m[cell := w];
            && Mapped(m', l)
            && Read(m', l) == Read(m, l).(head := Column(m', l.queues, 0), tail := Column(m', l.queues, 4),
                                          mask := m'[l.pendingMask], reschedule := m'[l.reschedule])
  {
    Miss(m, l.threads, STATE, cell, w);
    Miss(m, l.threads, SUSPEND, cell, w);
    Miss(m, l.threads, PRIORITY, cell, w);
    Miss(m, l.threads, QUEUE, cell, w);
    Miss(m, l.threads, NEXT, cell, w);
    Miss(m, l.threads, PREV, cell, w);
  }

  /** A store to one field of a thread leaves its other fields, the other threads and the queue headers alone. */
  lemma {:induction false} MissOffset(m: Memory, l: Layout, t: int, offset: int, other: int, w: Word)
    requires Mapped(m, l) && l.Apart() && t in l.threads
    requires offset in {STATE, QUEUE, NEXT, PREV}
    requires other in {STATE, SUSPEND, PRIORITY, QUEUE, NEXT, PREV} && other != offset
    requires forall u :: u in l.threads ==> u + other in m
    ensures Column(m[t + offset := w], l.threads, other) == Column(m, l.threads, other)
  {
    Miss(m, l.threads, other, t + offset, w);
  }

  lemma {:induction false} MissHeaders(m: Memory, l: Layout, t: int, offset: int, w: Word)
    requires Mapped(m, l) && l.Apart() && t in l.threads
    requires offset in {STATE, QUEUE, NEXT, PREV}
    ensures var m' := m[t + offset := w];
            && Mapped(m', l)
            && Column(m', l.queues, 0) == Column(m, l.queues, 0)
            && Column(m', l.queues, 4) == Column(m, l.queues, 4)
            && m'[l.pendingMask] == m[l.pendingMask] && m'[l.reschedule] == m[l.reschedule]
  {
    assert Layout.OffThread(l.pendingMask, t) && Layout.OffThread(l.reschedule, t);
    Miss(m, l.queues, 0, t + offset, w);
    Miss(m, l.queues, 4, t + offset, w);
  }

  lemma {:induction false} WriteState(m: Memory, l: Layout, t: int, w: Word)
    requires Mapped(m, l) && l.Apart() && t in l.threads
    ensures var m' := m[t + STATE := w]; var f := Read(m, l);
            Mapped(m', l) && Read(m', l) == f.(state := f.state[t := w])
  {
    hide Layout.Apart, Column;
    MissHeaders(m, l, t, STATE, w);
    Hit(m, l.threads, STATE, t, w);
    MissOffset(m, l, t, STATE, SUSPEND, w);
    MissOffset(m, l, t, STATE, PRIORITY, w);
    MissOffset(m, l, t, STATE, QUEUE, w);
    MissOffset(m, l, t, STATE, NEXT, w);
    MissOffset(m, l, t, STATE, PREV, w);
  }

  lemma {:induction false} WriteQueue(m: Memory, l: Layout, t: int, w: Word)
    requires Mapped(m, l) && l.Apart() && t in l.threads
    ensures var m' := m[t + QUEUE := w]; var f := Read(m, l);
            Mapped(m', l) && Read(m', l) == f.(queue := f.queue[t := w])
  {
    hide Layout.Apart, Column;
    MissHeaders(m, l, t, QUEUE, w);
    Hit(m, l.threads, QUEUE, t, w);
    MissOffset(m, l, t, QUEUE, STATE, w);
    MissOffset(m, l, t, QUEUE, SUSPEND, w);
    MissOffset(m, l, t, QUEUE, PRIORITY, w);
    MissOffset(m, l, t, QUEUE, NEXT, w);
    MissOffset(m, l, t, QUEUE, PREV, w);
  }

  lemma {:induction false} WriteNext(m: Memory, l: Layout, t: int, w: Word)
    requires Mapped(m, l) && l.Apart() && t in l.threads
    ensures var m' := m[t + NEXT := w]; var f := Read(m, l);
            Mapped(m', l) && Read(m', l) == f.(next := f.next[t := w])
  {
    hide Layout.Apart, Column;
    MissHeaders(m, l, t, NEXT, w);
    Hit(m, l.threads, NEXT, t, w);
    MissOffset(m, l, t, NEXT, STATE, w);
    MissOffset(m, l, t, NEXT, SUSPEND, w);
    MissOffset(m, l, t, NEXT, PRIORITY, w);
    MissOffset(m, l, t, NEXT, QUEUE, w);
    MissOffset(m, l, t, NEXT, PREV, w);
  }

  lemma {:induction false} WritePrev(m: Memory, l: Layout, t: int, w: Word)
    requires Mapped(m, l) && l.Apart() && t in l.threads
    ensures var m' := m[t + PREV := w]; var f := Read(m, l);
            Mapped(m', l) && Read(m', l) == f.(prev := f.prev[t := w])
  {
    hide Layout.Apart, Column;
    MissHeaders(m, l, t, PREV, w);
    Hit(m, l.threads, PREV, t, w);
    MissOffset(m, l, t, PREV, STATE, w);
    MissOffset(m, l, t, PREV, SUSPEND, w);
    MissOffset(m, l, t, PREV, PRIORITY, w);
    MissOffset(m, l, t, PREV, QUEUE, w);
    MissOffset(m, l, t, PREV, NEXT, w);
  }

  lemma {:induction false} QueueCellsApart(l: Layout, a: int)
    requires l.Apart() && a in l.queues
    ensures forall b :: b in l.queues ==> b + 4 != a && b + 0 != a + 4
    ensures forall t :: t in l.threads ==> a + 4 < t + STATE || t + LINKS_END <= a
    ensures l.pendingMask != a && l.pendingMask != a + 4 && l.reschedule != a && l.reschedule != a + 4
  {
    assert Layout.OffQueue(l.pendingMask, a) && Layout.OffQueue(l.reschedule, a);
  }

  lemma {:induction false} WriteHead(m: Memory, l: Layout, a: int, w: Word)
    requires Mapped(m, l) && l.Apart() && a in l.queues
    ensures var m' := m[a := w]; var f := Read(m, l);
            Mapped(m', l) && Read(m', l) == f.(head := f.head[a := w])
  {
    hide Layout.Apart, Column;
    QueueCellsApart(l, a);
    MissThreads(m, l, a, w);
    assert a + 0 == a;
    Hit(m, l.queues, 0, a, w);
    Miss(m, l.queues, 4, a, w);
  }

  lemma {:induction false} WriteTail(m: Memory, l: Layout, a: int, w: Word)
    requires Mapped(m, l) && l.Apart() && a in l.queues
    ensures var m' := m[a + 4 := w]; var f := Read(m, l);
            Mapped(m', l) && Read(m', l) == f.(tail := f.tail[a := w])
  {
    hide Layout.Apart, Column;
    QueueCellsApart(l, a);
    MissThreads(m, l, a + 4, w);
    Hit(m, l.queues, 4, a, w);
    Miss(m, l.queues, 0, a + 4, w);
  }

  lemma {:induction false} WriteMask(m: Memory, l: Layout, w: Word)
    requires Mapped(m, l) && l.Apart()
    ensures var m' := m[l.pendingMask := w];
            Mapped(m', l) && Read(m', l) == Read(m, l).(mask := w)
  {
    forall t | t in l.threads ensures l.pendingMask < t + STATE || t + LINKS_END <= l.pendingMask {
      assert Layout.OffThread(l.pendingMask, t);
    }
    forall a | a in l.queues ensures a != l.pendingMask && a + 4 != l.pendingMask {
      assert Layout.OffQueue(l.pendingMask, a);
    }
    hide Column;
    MissThreads(m, l, l.pendingMask, w);
    Miss(m, l.queues, 0, l.pendingMask, w);
    Miss(m, l.queues, 4, l.pendingMask, w);
  }

  lemma {:induction false} WriteReschedule(m: Memory, l: Layout, w: Word)
    requires Mapped(m, l) && l.Apart()
    ensures var m' := m[l.reschedule := w];
            Mapped(m', l) && Read(m', l) == Read(m, l).(reschedule := w)
  {
    forall t | t in l.threads ensures l.reschedule < t + STATE || t + LINKS_END <= l.reschedule {
      assert Layout.OffThread(l.reschedule, t);
    }
    forall a | a in l.queues ensures a != l.reschedule && a + 4 != l.reschedule {
      assert Layout.OffQueue(l.reschedule, a);
    }
    hide Column;
    MissThreads(m, l, l.reschedule, w);
    Miss(m, l.queues, 0, l.reschedule, w);
    Miss(m, l.queues, 4, l.reschedule, w);
  }
}
