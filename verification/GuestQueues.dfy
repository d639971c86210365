/** The guest scheduler's thread queues: doubly linked lists threaded through OSThread structures. */
module GuestQueues {
  import opened Bits
  import opened GuestMemory

  // There are 32 run queues and a mask with one bit for each. `queues` is the abstract view, the sequence
  // of threads each queue holds; `Represents` ties it to guest memory.

  const MAX_WAKE := 256

  // OSThread states that never run again, and the state a woken thread gets.
  const UNUSED := 0
  const MORIBUND := 8
  const READY := 1

  type Queues = map<int, seq<int>>

  /** Element i, or the null pointer outside the sequence. */
  function At(s: seq<int>, i: int): int { if 0 <= i < |s| then s[i] else 0 }

  /** The queue header and the links of its threads spell out exactly the sequence s. */
  ghost predicate Linked(f: Fields, a: int, s: seq<int>) {
    && a in f.head && a in f.tail && f.head[a] == At(s, 0) && f.tail[a] == At(s, |s| - 1)
    && (forall i :: 0 <= i < |s| ==> LinkedAt(f, a, s, i))
    && (forall i, j :: 0 <= i < j < |s| ==> s[i] != s[j])
  }

  ghost predicate LinkedAt(f: Fields, a: int, s: seq<int>, i: nat)
    requires i < |s|
  {
    && s[i] in f.next && f.next[s[i]] == At(s, i + 1)
    && s[i] in f.prev && f.prev[s[i]] == At(s, i - 1)
    && s[i] in f.queue && f.queue[s[i]] == a
  }

  ghost predicate Total(f: Fields, l: Layout) {
    && (forall t :: t in l.threads ==> t in f.state && t in f.suspend && t in f.priority)
    && (forall t :: t in l.threads ==> t in f.queue && t in f.next && t in f.prev)
    && (forall a :: a in l.queues ==> a in f.head && a in f.tail)
  }

  /** A thread's queue field is 0, or names the queue that holds it. */
  ghost predicate Placed(f: Fields, q: Queues, t: int)
    requires t in f.queue
  {
    f.queue[t] == 0 || (f.queue[t] in q && t in q[f.queue[t]])
  }

  ghost predicate Represents(f: Fields, l: Layout, q: Queues) {
    && Total(f, l) && q.Keys == l.queues
    && (forall a :: a in l.queues ==> Linked(f, a, q[a]))
    && (forall a, t :: a in l.queues && t in q[a] ==> t in l.threads)
    && (forall t :: t in l.threads ==> Placed(f, q, t))
  }

  /** The mask bit of run queue p, counted from the most significant end. */
  predicate PendingBit(mask: Word, p: nat)
    requires p < PRIORITIES
  {
    Bit(mask, 31 - p)
  }

  /** mask | (1 << (31 - p)). */
  function SetPending(mask: Word, p: nat): (r: Word)
    requires p < PRIORITIES
    ensures forall i :: 0 <= i < PRIORITIES ==> (PendingBit(r, i) <==> i == p || PendingBit(mask, i))
  {
    WordWidth();
    BitUpdatesStayInWidth(mask, 31 - p, 32);
    var r: Word := SetBit(mask, 31 - p);
    assert forall i :: 0 <= i < PRIORITIES ==> (PendingBit(r, i) <==> i == p || PendingBit(mask, i)) by {
      forall i | 0 <= i < PRIORITIES ensures PendingBit(r, i) <==> i == p || PendingBit(mask, i) {
        SetBitSetsOne(mask, 31 - p, 31 - i);
      }
    }
    r
  }

  /** mask & ~(1 << (31 - p)). */
  function ClearPending(mask: Word, p: nat): (r: Word)
    requires p < PRIORITIES
    ensures forall i :: 0 <= i < PRIORITIES ==> (PendingBit(r, i) <==> i != p && PendingBit(mask, i))
  {
    WordWidth();
    BitUpdatesStayInWidth(mask, 31 - p, 32);
    var r: Word := ClearBit(mask, 31 - p);
    assert forall i :: 0 <= i < PRIORITIES ==> (PendingBit(r, i) <==> i != p && PendingBit(mask, i)) by {
      forall i | 0 <= i < PRIORITIES ensures PendingBit(r, i) <==> i != p && PendingBit(mask, i) {
        ClearBitClearsOne(mask, 31 - p, 31 - i);
      }
    }
    r
  }

  /** Bit 31 - p of the pending mask is set exactly when run queue p holds a thread. */
  ghost predicate PendingExact(f: Fields, l: Layout, q: Queues)
    requires l.Apart() && q.Keys == l.queues
  {
    forall p :: 0 <= p < PRIORITIES ==> (PendingBit(f.mask, p) <==> q[l.RunQueue(p)] != [])
  }

  // ---------------------------------------------------------------- unlinking one thread

  function Without(s: seq<int>, t: int): (r: seq<int>)
  {
    if s == [] then [] else if s[0] == t then s[1..] else [s[0]] + Without(s[1..], t)
  }

  lemma {:induction false} WithoutIndex(s: seq<int>, k: nat)
    requires k < |s| && forall i, j :: 0 <= i < j < |s| ==> s[i] != s[j]
    ensures Without(s, s[k]) == s[..k] + s[k+1..]
  {
    if k > 0 {
      assert s[1..][k-1] == s[k];
      WithoutIndex(s[1..], k - 1);
      assert [s[0]] + s[1..][..k-1] == s[..k];
    }
  }

  /** The list stores of RemoveGuestThreadFromQueue. */
  ghost function Unlink(f: Fields, t: int): Fields
    requires t in f.queue && t in f.next && t in f.prev
  {
    var a, next, prev := f.queue[t], f.next[t], f.prev[t];
    f.(prev := (if next != 0 then f.prev[next := prev] else f.prev)[t := 0],
       tail := if next != 0 then f.tail else f.tail[a := prev],
       next := (if prev != 0 then f.next[prev := next] else f.next)[t := 0],
       head := if prev != 0 then f.head else f.head[a := next],
       queue := f.queue[t := 0])
  }

  lemma {:induction false} SameQueue(f: Fields, a: int, b: int, s: seq<int>, r: seq<int>, i: nat, j: nat)
    requires Linked(f, a, s) && Linked(f, b, r) && i < |s| && j < |r| && s[i] == r[j]
    ensures a == b
  {
    assert LinkedAt(f, a, s, i) && LinkedAt(f, b, r, j);
  }

  lemma {:induction false} UnlinkRelinks(f: Fields, a: int, s: seq<int>, k: nat, j: nat)
    requires Linked(f, a, s) && k < |s| && LinkedAt(f, a, s, k) && 0 !in s
    requires j < |s| && j != k
    ensures var f' := Unlink(f, s[k]);
            && s[j] in f'.next && s[j] in f'.prev && s[j] in f'.queue && f'.queue[s[j]] == a
            && f'.next[s[j]] == (if j + 1 == k then At(s, k + 1) else At(s, j + 1))
            && f'.prev[s[j]] == (if j == k + 1 then At(s, k - 1) else At(s, j - 1))
  {
    assert LinkedAt(f, a, s, j);
    assert k + 1 < |s| ==> s[k+1] != 0;
    assert k > 0 ==> s[k-1] != 0;
  }

  lemma {:induction false} UnlinkHeader(f: Fields, a: int, s: seq<int>, k: nat)
    requires Linked(f, a, s) && k < |s| && LinkedAt(f, a, s, k) && 0 !in s
    ensures var f', r := Unlink(f, s[k]), s[..k] + s[k+1..];
            && a in f'.head && f'.head[a] == At(r, 0)
            && a in f'.tail && f'.tail[a] == At(r, |r| - 1)
  {
    assert k + 1 < |s| ==> s[k+1] != 0;
    assert k > 0 ==> s[k-1] != 0;
  }

  lemma {:induction false} UnlinkShortens(f: Fields, a: int, s: seq<int>, k: nat)
    requires Linked(f, a, s) && k < |s| && LinkedAt(f, a, s, k) && 0 !in s
    ensures Linked(Unlink(f, s[k]), a, s[..k] + s[k+1..])
  {
    var f', r := Unlink(f, s[k]), s[..k] + s[k+1..];
    UnlinkHeader(f, a, s, k);
    forall i | 0 <= i < |r| ensures LinkedAt(f', a, r, i) {
      UnlinkRelinks(f, a, s, k, if i < k then i else i + 1);
    }
  }

  lemma {:induction false} UnlinkKeepsOther(f: Fields, a: int, s: seq<int>, k: nat, b: int, r: seq<int>)
    requires Linked(f, a, s) && k < |s| && LinkedAt(f, a, s, k) && 0 !in s && Linked(f, b, r) && a != b
    ensures Linked(Unlink(f, s[k]), b, r)
  {
    var f' := Unlink(f, s[k]);
    assert LinkedAt(f, a, s, k);
    forall i | 0 <= i < |r| ensures LinkedAt(f', b, r, i) {
      assert LinkedAt(f, b, r, i);
      forall j | 0 <= j < |s| ensures s[j] != r[i] {
        if s[j] == r[i] {
          SameQueue(f, a, b, s, r, j, i);
        }
      }
    }
  }

  lemma {:induction false} MembersAreThreads(f: Fields, l: Layout, q: Queues, a: int)
    requires Represents(f, l, q) && a in l.queues
    ensures forall t :: t in q[a] ==> t in l.threads && f.queue[t] == a
  {
    forall i | 0 <= i < |q[a]| ensures q[a][i] in l.threads && f.queue[q[a][i]] == a {
      assert LinkedAt(f, a, q[a], i);
    }
  }

  lemma {:induction false} UnlinkQueueField(f: Fields, t: int)
    requires t in f.queue && t in f.next && t in f.prev
    ensures Unlink(f, t).queue == f.queue[t := 0]
  {
  }

  lemma {:induction false} WithoutKeeps(s: seq<int>, t: int, u: int)
    requires u in s && u != t
    ensures u in Without(s, t)
  {
    if s[0] != t && s[0] != u {
      WithoutKeeps(s[1..], t, u);
    }
  }

  lemma {:induction false} UnlinkPlaced(f: Fields, q: Queues, t: int, a: int, u: int)
    requires t in f.queue && t in f.next && t in f.prev && u in f.queue && Placed(f, q, u)
    requires a == f.queue[t] && a != 0 && a in q
    ensures u in Unlink(f, t).queue && Placed(Unlink(f, t), q[a := Without(q[a], t)], u)
  {
    hide Unlink, Without;
    UnlinkQueueField(f, t);
    if u != t && f.queue[u] == a {
      WithoutKeeps(q[a], t, u);
    }
  }

  lemma {:induction false} UnlinkTotal(f: Fields, l: Layout, q: Queues, a: int, k: nat)
    requires Represents(f, l, q) && a in l.queues && k < |q[a]| && LinkedAt(f, a, q[a], k)
    ensures Total(Unlink(f, q[a][k]), l)
  {
    MembersAreThreads(f, l, q, a);
    assert k + 1 < |q[a]| ==> q[a][k+1] in q[a];
    assert k > 0 ==> q[a][k-1] in q[a];
  }

  lemma {:induction false} UnlinkKeepsLinks(f: Fields, l: Layout, q: Queues, a: int, k: nat, b: int)
    requires Represents(f, l, q) && a in l.queues && b in l.queues && 0 !in q[a] && k < |q[a]|
    requires LinkedAt(f, a, q[a], k)
    ensures Linked(Unlink(f, q[a][k]), b, q[a := Without(q[a], q[a][k])][b])
  {
    hide Unlink, Without, LinkedAt;
    WithoutIndex(q[a], k);
    if b == a {
      UnlinkShortens(f, a, q[a], k);
    } else {
      UnlinkKeepsOther(f, a, q[a], k, b, q[b]);
    }
  }

  /** Unlinking a queued thread removes it, and only it, from its queue; all other queues stay as they were. */
  lemma {:induction false} UnlinkRepresents(f: Fields, l: Layout, q: Queues, t: int)
    requires Represents(f, l, q) && 0 !in l.threads && t in l.threads && f.queue[t] != 0
    ensures var a := f.queue[t];
            a in q && t in q[a] && Represents(Unlink(f, t), l, q[a := Without(q[a], t)])
  {
    assert Placed(f, q, t);
    var a := f.queue[t];
    var f', q' := Unlink(f, t), q[a := Without(q[a], t)];
    var k :| 0 <= k < |q[a]| && q[a][k] == t;
    MembersAreThreads(f, l, q, a);
    assert LinkedAt(f, a, q[a], k);
    UnlinkTotal(f, l, q, a, k);
    WithoutOnly(q[a], t);
    hide Unlink, Without, LinkedAt, Linked, Placed, Total;
    forall b | b in l.queues ensures Linked(f', b, q'[b]) {
      UnlinkKeepsLinks(f, l, q, a, k, b);
    }
    forall u | u in l.threads ensures u in f'.queue && Placed(f', q', u) {
      UnlinkPlaced(f, q, t, a, u);
    }
  }

  lemma {:induction false} WithoutOnly(s: seq<int>, t: int)
    ensures forall u :: u in Without(s, t) ==> u in s
  {
    if s != [] && s[0] != t {
      WithoutOnly(s[1..], t);
    }
  }

  lemma {:induction false} NeighboursAreThreads(f: Fields, l: Layout, q: Queues, t: int)
    requires Represents(f, l, q) && t in l.threads && f.queue[t] != 0
    ensures f.queue[t] in l.queues
    ensures f.next[t] == 0 || f.next[t] in l.threads
    ensures f.prev[t] == 0 || f.prev[t] in l.threads
  {
    assert Placed(f, q, t);
    var s := q[f.queue[t]];
    var k :| 0 <= k < |s| && s[k] == t;
    assert LinkedAt(f, f.queue[t], s, k);
    assert k + 1 < |s| ==> s[k+1] in s;
    assert k > 0 ==> s[k-1] in s;
  }

  /** The queues do not depend on the pending mask, the reschedule flag or thread states. */
  lemma {:induction false} RepresentsIgnoresFlags(f: Fields, f': Fields, l: Layout, q: Queues)
    requires Represents(f, l, q)
    requires f' == f.(mask := f'.mask, reschedule := f'.reschedule, state := f'.state)
    requires forall t :: t in f.state ==> t in f'.state
    ensures Represents(f', l, q)
  {
    forall a | a in l.queues ensures Linked(f', a, q[a]) {
      forall i | 0 <= i < |q[a]| ensures LinkedAt(f', a, q[a], i) {
        assert LinkedAt(f, a, q[a], i);
      }
    }
    forall t | t in l.threads ensures Placed(f', q, t) {
      assert Placed(f, q, t);
    }
  }

  lemma {:induction false} PendingAfterRemove(f: Fields, f': Fields, l: Layout, q: Queues, q': Queues, a: int, t: int)
    requires l.Apart() && q.Keys == q'.Keys == l.queues && a in q && t in q[a]
    requires q' == q[a := Without(q[a], t)]
    requires PendingExact(f, l, q) && Linked(f', a, q'[a]) && 0 !in q'[a]
    requires forall p :: 0 <= p < PRIORITIES ==>
               (PendingBit(f'.mask, p) <==> PendingBit(f.mask, p) && !(a == l.RunQueue(p) && f'.head[a] == 0))
    ensures PendingExact(f', l, q')
  {
  }

  /** The scheduler invariant: memory holds exactly the queues q, and the pending mask matches them. */
  ghost predicate Sound(m: Memory, l: Layout, q: Queues) {
    && l.Apart() && Mapped(m, l)
    && Represents(Read(m, l), l, q)
    && PendingExact(Read(m, l), l, q)
  }

  /** f' is f with thread t taken off its queue and the queue's pending bit cleared if it ran empty. */
  ghost predicate Removed(f: Fields, f': Fields, l: Layout, t: int)
    requires t in f.queue && t in f.next && t in f.prev && f.queue[t] in f.head
  {
    var a := f.queue[t];
    && f' == Unlink(f, t).(mask := f'.mask) && a in f'.head
    && forall p :: 0 <= p < PRIORITIES ==>
         (PendingBit(f'.mask, p) <==> PendingBit(f.mask, p) && !(a == l.RunQueue(p) && f'.head[a] == 0))
  }

  lemma {:induction false} RemoveIsInBounds(m: Memory, l: Layout, q: Queues, t: int)
    requires Sound(m, l, q) && t in l.threads
    ensures l.Apart() && Mapped(m, l) && Total(Read(m, l), l)
    ensures var f := Read(m, l);
            f.queue[t] == m[t + QUEUE]
    ensures var f := Read(m, l);
            f.queue[t] != 0 ==>
              && f.queue[t] in l.queues
              && (f.next[t] == 0 || f.next[t] in l.threads)
              && (f.prev[t] == 0 || f.prev[t] in l.threads)
  {
    if Read(m, l).queue[t] != 0 {
      NeighboursAreThreads(Read(m, l), l, q, t);
    }
  }

  lemma {:induction false} RemoveKeepsSound(m: Memory, m': Memory, l: Layout, q: Queues, t: int)
    requires Sound(m, l, q) && Mapped(m', l) && t in l.threads
    requires Read(m, l).queue[t] != 0 && Read(m, l).queue[t] in l.queues && Removed(Read(m, l), Read(m', l), l, t)
    ensures var a := Read(m, l).queue[t];
            && a in q && t in q[a] && Sound(m', l, q[a := Without(q[a], t)])
  {
    hide Unlink, Without, Read;
    var f, f' := Read(m, l), Read(m', l);
    var a := f.queue[t];
    UnlinkRepresents(f, l, q, t);
    var q' := q[a := Without(q[a], t)];
    RepresentsIgnoresFlags(Unlink(f, t), f', l, q');
    assert Linked(f', a, q'[a]);
    assert 0 !in q'[a];
    PendingAfterRemove(f, f', l, q, q', a, t);
  }

  /** Exactly one queue changed, by losing thread t, and apart from the mask only t's links did. */
  ghost predicate TookOff(f: Fields, f': Fields, q: Queues, q': Queues, t: int)
    requires t in f.queue && t in f.next && t in f.prev
  {
    var a := f.queue[t];
    && a in q && t in q[a] && q' == q[a := Without(q[a], t)]
    && f' == Unlink(f, t).(mask := f'.mask)
  }

  // ---------------------------------------------------------------- appending one thread

  /** The last thread of queue a, or the null pointer. */
  function TailOf(f: Fields, a: int): int { if a in f.tail then f.tail[a] else 0 }

  /** The list stores that put a detached thread at the tail of run queue a. */
  ghost function Append(f: Fields, a: int, t: int): Fields {
    var tail := TailOf(f, a);
    f.(head := if tail == 0 then f.head[a := t] else f.head,
       next := (if tail == 0 then f.next else f.next[tail := t])[t := 0],
       prev := f.prev[t := tail], tail := f.tail[a := t], queue := f.queue[t := a])
  }

  lemma {:induction false} AppendExtends(f: Fields, a: int, s: seq<int>, t: int)
    requires Linked(f, a, s) && 0 !in s && t !in s && t != 0
    ensures Linked(Append(f, a, t), a, s + [t])
  {
    var f', r := Append(f, a, t), s + [t];
    forall i | 0 <= i < |r| ensures LinkedAt(f', a, r, i) {
      if i < |s| {
        assert LinkedAt(f, a, s, i);
      }
    }
  }

  lemma {:induction false} AppendKeepsOther(f: Fields, a: int, s: seq<int>, t: int, b: int, r: seq<int>)
    requires Linked(f, a, s) && 0 !in s && Linked(f, b, r) && a != b && t !in r
    ensures Linked(Append(f, a, t), b, r)
  {
    var f' := Append(f, a, t);
    forall i | 0 <= i < |r| ensures LinkedAt(f', b, r, i) {
      assert LinkedAt(f, b, r, i);
      forall j | 0 <= j < |s| ensures s[j] != r[i] {
        if s[j] == r[i] {
          SameQueue(f, a, b, s, r, j, i);
        }
      }
    }
  }

  lemma {:induction false} AppendRepresents(f: Fields, l: Layout, q: Queues, a: int, t: int)
    requires Represents(f, l, q) && 0 !in l.threads && 0 !in l.queues
    requires a in l.queues && t in l.threads && f.queue[t] == 0
    ensures Represents(Append(f, a, t), l, q[a := q[a] + [t]])
  {
    var f', q' := Append(f, a, t), q[a := q[a] + [t]];
    MembersAreThreads(f, l, q, a);
    assert Total(f', l);
    forall b | b in l.queues ensures Linked(f', b, q'[b]) {
      MembersAreThreads(f, l, q, b);
      if b == a {
        AppendExtends(f, a, q[a], t);
      } else {
        AppendKeepsOther(f, a, q[a], t, b, q[b]);
      }
    }
    forall u | u in l.threads ensures Placed(f', q', u) {
      assert Placed(f, q, u);
    }
  }

  // ---------------------------------------------------------------- what waking a queue means

  function Signed(w: int): int { if w < WORD / 2 then w else w - WORD }

  function ClampPriority(w: int): (p: int)
    ensures 0 <= p < PRIORITIES
  {
    if Signed(w) < 0 then 0 else if Signed(w) > 31 then 31 else Signed(w)
  }

  /** The half-word stored in the upper half of the state word. */
  function StateOf(w: int): int { w / 0x10000 }

  function WithState(w: int, state: int): (r: int)
    requires 0 <= state < 0x10000
    ensures 0 <= r < WORD
  {
    state * 0x10000 + w % 0x10000
  }

  predicate Live(f: Fields, t: int)
    requires t in f.state
  {
    StateOf(f.state[t]) != UNUSED && StateOf(f.state[t]) != MORIBUND
  }

  /** The thread goes to a run queue when woken: it is live and not suspended. */
  predicate Runnable(f: Fields, t: int)
    requires t in f.state && t in f.suspend
  {
    Live(f, t) && Signed(f.suspend[t]) < 1
  }

  /** The runnable threads of s with (clamped) priority p, in order. */
  function Woken(f: Fields, s: seq<int>, p: int): seq<int>
    requires forall t :: t in s ==> t in f.state && t in f.suspend && t in f.priority
  {
    if s == [] then []
    else
      var n := |s| - 1;
      Woken(f, s[..n], p) +
      (if Runnable(f, s[n]) && ClampPriority(f.priority[s[n]]) == p then [s[n]] else [])
  }

  /**
   What queue b holds after waking the first n sleepers of queue a: a keeps the rest, run queue p
   gains the runnable sleepers of priority p at its tail, every other queue is as before.
   */
  ghost function QueueAfterWake(f: Fields, l: Layout, q: Queues, a: int, n: nat, b: int): seq<int>
    requires a in q && b in q && n <= |q[a]|
    requires forall t :: t in q[a] ==> t in f.state && t in f.suspend && t in f.priority
  {
    if b == a then q[a][n..]
    else if l.IsRunQueue(b) then q[b] + Woken(f, q[a][..n], (b - l.runQueues) / 8)
    else q[b]
  }

  ghost function AfterWake(f: Fields, l: Layout, q: Queues, a: int, n: nat): Queues
    requires a in q && n <= |q[a]|
    requires forall t :: t in q[a] ==> t in f.state && t in f.suspend && t in f.priority
  {
    map b | b in q :: QueueAfterWake(f, l, q, a, n, b)
  }

  /** State words after waking the first n sleepers: live ones are READY, all others unchanged. */
  ghost predicate StatesAfterWake(f: Fields, f': Fields, s: seq<int>, n: nat)
    requires n <= |s|
  {
    && f'.suspend == f.suspend && f'.priority == f.priority
    && (forall t :: t in f.state ==> t in f'.state)
    && (forall t :: t in f.state ==>
          f'.state[t] == if t in s[..n] && Live(f, t) then WithState(f.state[t], READY) else f.state[t])
  }

  /** Some runnable thread is in s. */
  ghost predicate AnyRunnable(f: Fields, s: seq<int>)
    requires forall t :: t in s ==> t in f.state && t in f.suspend
  {
    exists t :: t in s && Runnable(f, t)
  }

  /** The host-side record of a guest thread. */
  datatype Fiber = Fiber(state: int, terminated: bool)

  function Resumed(fibers: map<int, Fiber>, t: int): map<int, Fiber> {
    if t in fibers && !fibers[t].terminated then fibers[t := fibers[t].(state := READY)] else fibers
  }

  /** The host fibers after waking s: each runnable sleeper whose fiber has not terminated is READY. */
  function ResumedAll(f: Fields, fibers: map<int, Fiber>, s: seq<int>): map<int, Fiber>
    requires forall t :: t in s ==> t in f.state && t in f.suspend
  {
    if s == [] then fibers
    else
      var n := |s| - 1;
      var before := ResumedAll(f, fibers, s[..n]);
      if Runnable(f, s[n]) then Resumed(before, s[n]) else before
  }

  /**
   A woken thread's fiber becomes READY exactly if the thread was a runnable sleeper and its fiber has
   not terminated; no fiber appears, disappears, terminates or changes otherwise.
   */
  lemma {:induction false} FibersAfterWake(f: Fields, fibers: map<int, Fiber>, s: seq<int>, t: int)
    requires forall u :: u in s ==> u in f.state && u in f.suspend
    ensures var after := ResumedAll(f, fibers, s);
            && (t in after <==> t in fibers)
            && (t in fibers ==> after[t] == if t in s && Runnable(f, t) && !fibers[t].terminated
                                            then fibers[t].(state := READY) else fibers[t])
  {
    if s != [] {
      var n := |s| - 1;
      FibersAfterWake(f, fibers, s[..n], t);
      assert s == s[..n] + [s[n]];
    }
  }

  // ---------------------------------------------------------------- one step of a wake

  /** The stores that take the head thread off queue a, its queue field excepted. */
  ghost function Popped(f: Fields, a: int): Fields
    requires a in f.head && f.head[a] in f.next
  {
    var t := f.head[a];
    var next := f.next[t];
    f.(tail := if next == 0 then f.tail[a := 0] else f.tail,
       prev := (if next == 0 then f.prev else f.prev[next := 0])[t := 0],
       head := f.head[a := next], next := f.next[t := 0])
  }

  lemma {:induction false} PoppedIsUnlinked(f: Fields, l: Layout, q: Queues, a: int)
    requires Represents(f, l, q) && 0 !in l.threads && a in l.queues && q[a] != []
    ensures var t := q[a][0];
            && a in f.head && f.head[a] == t && t in l.threads && t in f.next && t in f.queue && t in f.prev
            && f.queue[t] == a && (f.next[t] == 0 || f.next[t] in l.threads)
            && Popped(f, a).(queue := Popped(f, a).queue[t := 0]) == Unlink(f, t)
            && Without(q[a], t) == q[a][1..]
  {
    assert LinkedAt(f, a, q[a], 0);
    assert q[a][0] in q[a];
    assert |q[a]| > 1 ==> q[a][1] in q[a];
  }

  /** What one iteration of the wake loop does to the fields, by the kind of thread at the head. */
  ghost function WakeStep(f: Fields, l: Layout, a: int, t: int): Fields
    requires Total(f, l) && a in l.queues && t in l.threads && f.head[a] == t
  {
    var popped := Popped(f, a);
    if !Live(f, t) then popped.(queue := popped.queue[t := 0])
    else
      var ready := popped.(state := popped.state[t := WithState(f.state[t], READY)]);
      if !Runnable(f, t) then ready.(queue := ready.queue[t := 0])
      else
        var p := ClampPriority(f.priority[t]);
        Append(ready, l.RunQueue(p), t).(mask := SetPending(f.mask, p), reschedule := 1)
  }

  /** The queues after one iteration of the wake loop. */
  ghost function WakeStepQueues(f: Fields, l: Layout, q: Queues, a: int): Queues
    requires Total(f, l) && l.Apart() && q.Keys == l.queues && a in q && q[a] != [] && q[a][0] in l.threads
  {
    var t := q[a][0];
    var q1 := q[a := q[a][1..]];
    if Runnable(f, t) then
      var run := l.RunQueue(ClampPriority(f.priority[t]));
      assert run in l.queues;
      q1[run := q1[run] + [t]]
    else q1
  }

  lemma {:induction false} WakeStepRepresents(f: Fields, l: Layout, q: Queues, a: int)
    requires l.Apart() && Represents(f, l, q) && a in l.queues && q[a] != []
    ensures q[a][0] in l.threads && f.head[a] == q[a][0]
    ensures Represents(WakeStep(f, l, a, q[a][0]), l, WakeStepQueues(f, l, q, a))
  {
    var t := q[a][0];
    PoppedIsUnlinked(f, l, q, a);
    UnlinkRepresents(f, l, q, t);
    UnlinkQueueField(f, t);
    PoppedKeepsData(f, a);
    var popped, q1 := Popped(f, a), q[a := q[a][1..]];
    var f1 := Unlink(f, t);
    var run := l.RunQueue(ClampPriority(f.priority[t]));
    assert run in l.queues;
    assert 0 !in l.queues && 0 !in l.threads;
    hide Unlink, Without, Linked, Placed, Append, Popped, Represents, Layout.Apart;
    if Live(f, t) {
      var ready := popped.(state := popped.state[t := WithState(f.state[t], READY)]);
      var f2 := ready.(queue := ready.queue[t := 0]);
      RepresentsIgnoresFlags(f1, f2, l, q1);
      if Runnable(f, t) {
        AppendRepresents(f2, l, q1, run, t);
        AppendOverwritesQueueField(ready, run, t);
        var f3 := Append(f2, run, t);
        RepresentsIgnoresFlags(f3, WakeStep(f, l, a, t), l, q1[run := q1[run] + [t]]);
      }
    }
  }

  lemma {:induction false} AppendOverwritesQueueField(f: Fields, run: int, t: int)
    ensures Append(f.(queue := f.queue[t := 0]), run, t) == Append(f, run, t)
  {
    SetTwice(f.queue, t, run);
  }

  lemma {:induction false} SetTwice(m: map<int, int>, t: int, v: int)
    ensures m[t := 0][t := v] == m[t := v]
  {
  }

  lemma {:induction false} RunQueuesAreRunQueues(l: Layout)
    ensures forall p :: 0 <= p < PRIORITIES ==> l.IsRunQueue(l.RunQueue(p)) && (l.RunQueue(p) - l.runQueues) / 8 == p
  {
  }

  lemma {:induction false} PoppedKeepsData(f: Fields, a: int)
    requires a in f.head && f.head[a] in f.next
    ensures var f' := Popped(f, a);
            && f'.state == f.state && f'.suspend == f.suspend && f'.priority == f.priority
            && f'.mask == f.mask && f'.reschedule == f.reschedule && f'.queue == f.queue
  {
  }

  lemma {:induction false} PoppedKeepsTail(f: Fields, a: int, b: int)
    requires a in f.head && f.head[a] in f.next && b in f.tail && b != a
    ensures b in Popped(f, a).tail && Popped(f, a).tail[b] == f.tail[b]
  {
  }

  lemma {:induction false} AppendKeepsData(f: Fields, a: int, t: int)
    ensures var f' := Append(f, a, t);
            && f'.state == f.state && f'.suspend == f.suspend && f'.priority == f.priority
            && f'.mask == f.mask && f'.reschedule == f.reschedule
  {
  }

  lemma {:induction false} WakeStepData(f: Fields, l: Layout, a: int, t: int)
    requires Total(f, l) && a in l.queues && t in l.threads && f.head[a] == t
    ensures var f' := WakeStep(f, l, a, t);
            && f'.state == (if Live(f, t) then f.state[t := WithState(f.state[t], READY)] else f.state)
            && f'.suspend == f.suspend && f'.priority == f.priority
            && f'.reschedule == (if Runnable(f, t) then 1 else f.reschedule)
            && f'.mask == (if Runnable(f, t) then SetPending(f.mask, ClampPriority(f.priority[t])) else f.mask)
  {
    PoppedKeepsData(f, a);
    var popped := Popped(f, a);
    var ready := popped.(state := popped.state[t := WithState(f.state[t], READY)]);
    AppendKeepsData(ready, l.RunQueue(ClampPriority(f.priority[t])), t);
    hide Popped, Append;
  }

  lemma {:induction false} WakeStepPending(f: Fields, l: Layout, q: Queues, a: int)
    requires l.Apart() && Total(f, l) && q.Keys == l.queues && PendingExact(f, l, q)
    requires a in l.queues && !l.IsRunQueue(a) && q[a] != [] && q[a][0] in l.threads && f.head[a] == q[a][0]
    ensures PendingExact(WakeStep(f, l, a, q[a][0]), l, WakeStepQueues(f, l, q, a))
  {
    WakeStepData(f, l, a, q[a][0]);
    forall p | 0 <= p < PRIORITIES ensures l.RunQueue(p) != a && l.RunQueue(p) in l.queues {
      assert l.IsRunQueue(l.RunQueue(p));
    }
    hide WakeStep, Total, Runnable, PendingBit, ClampPriority;
  }

  lemma {:induction false} WokenNext(f: Fields, s: seq<int>, n: nat, p: int)
    requires n < |s| && forall t :: t in s ==> t in f.state && t in f.suspend && t in f.priority
    ensures Woken(f, s[..n+1], p) ==
              Woken(f, s[..n], p) + (if Runnable(f, s[n]) && ClampPriority(f.priority[s[n]]) == p then [s[n]] else [])
  {
    assert s[..n+1][..n] == s[..n];
  }

  /** The next sleeper has not been touched by the iterations before it. */
  lemma {:induction false} NextSleeperUntouched(f0: Fields, l: Layout, q0: Queues, a: int, n: nat, f: Fields)
    requires Represents(f0, l, q0) && a in l.queues && n < |q0[a]|
    requires Total(f, l) && StatesAfterWake(f0, f, q0[a], n)
    ensures var t := q0[a][n];
            && t in l.threads && t !in q0[a][..n] && t in f.state && f.state[t] == f0.state[t]
            && Runnable(f, t) == Runnable(f0, t) && f.priority[t] == f0.priority[t]
  {
    assert q0[a][n] in q0[a];
    assert Linked(f0, a, q0[a]);
  }

  lemma {:induction false} QueueAfterWakeNext(f: Fields, l: Layout, q: Queues, a: int, n: nat, b: int)
    requires a in q && b in q && n < |q[a]|
    requires forall t :: t in q[a] ==> t in f.state && t in f.suspend && t in f.priority
    ensures var t := q[a][n];
            QueueAfterWake(f, l, q, a, n + 1, b) ==
              (if b == a then QueueAfterWake(f, l, q, a, n, b)[1..]
               else if l.IsRunQueue(b) && Runnable(f, t) && ClampPriority(f.priority[t]) == (b - l.runQueues) / 8
                 then QueueAfterWake(f, l, q, a, n, b) + [t]
               else QueueAfterWake(f, l, q, a, n, b))
  {
    if l.IsRunQueue(b) {
      WokenNext(f, q[a], n, (b - l.runQueues) / 8);
    }
  }

  lemma {:induction false} AfterWakeIsDefined(f: Fields, l: Layout, q: Queues, a: int, n: nat)
    requires Represents(f, l, q) && a in l.queues && n < |q[a]|
    ensures q.Keys == l.queues
    ensures forall t :: t in q[a] ==> t in f.state && t in f.suspend && t in f.priority
    ensures QueueAfterWake(f, l, q, a, n, a) == q[a][n..] && QueueAfterWake(f, l, q, a, n + 1, a) == q[a][n+1..]
  {
  }

  lemma {:induction false} RunQueueIsUnique(l: Layout, p: nat)
    requires l.Apart() && p < PRIORITIES
    ensures l.RunQueue(p) in l.queues && l.IsRunQueue(l.RunQueue(p))
    ensures forall b :: l.IsRunQueue(b) && (b - l.runQueues) / 8 == p <==> b == l.RunQueue(p)
  {
  }

  lemma {:induction false} AfterWakeStep(f0: Fields, l: Layout, q0: Queues, a: int, n: nat, f: Fields)
    requires l.Apart() && Represents(f0, l, q0) && a in l.queues && !l.IsRunQueue(a) && n < |q0[a]|
    requires Total(f, l) && StatesAfterWake(f0, f, q0[a], n)
    ensures forall t :: t in q0[a] ==> t in f0.state && t in f0.suspend && t in f0.priority
    ensures var before := AfterWake(f0, l, q0, a, n);
            && before.Keys == l.queues
            && before[a] != [] && before[a][0] == q0[a][n] && q0[a][n] in l.threads
            && AfterWake(f0, l, q0, a, n + 1) == WakeStepQueues(f, l, before, a)
  {
    hide Represents, Total, StatesAfterWake, Layout.Apart;
    hide Runnable, ClampPriority, QueueAfterWake, Layout.IsRunQueue, Woken;
    AfterWakeIsDefined(f0, l, q0, a, n);
    var t := q0[a][n];
    NextSleeperUntouched(f0, l, q0, a, n, f);
    RunQueueIsUnique(l, ClampPriority(f0.priority[t]));
    var before, after := AfterWake(f0, l, q0, a, n), AfterWake(f0, l, q0, a, n + 1);
    forall b | b in q0 ensures after[b] == WakeStepQueues(f, l, before, a)[b] {
      QueueAfterWakeNext(f0, l, q0, a, n, b);
    }
  }

  lemma {:induction false} WakeStepSound(m: Memory, m': Memory, l: Layout, q: Queues, a: int)
    requires Sound(m, l, q) && a in l.queues && !l.IsRunQueue(a) && q[a] != [] && q[a][0] in l.threads
    requires Read(m, l).head[a] == q[a][0]
    requires Mapped(m', l) && Read(m', l) == WakeStep(Read(m, l), l, a, q[a][0])
    ensures Sound(m', l, WakeStepQueues(Read(m, l), l, q, a))
  {
    var f := Read(m, l);
    assert Total(f, l) && Represents(f, l, q) && PendingExact(f, l, q) && l.Apart();
    hide Read, WakeStep, WakeStepQueues, Represents, Total, Layout.Apart, PendingExact;
    WakeStepRepresents(f, l, q, a);
    WakeStepPending(f, l, q, a);
  }

  /** Everything that waking the first n sleepers of queue a changes. */
  ghost predicate Woke(f: Fields, f': Fields, l: Layout, q: Queues, q': Queues, a: int,
                       fibers: map<int, Fiber>, fibers': map<int, Fiber>, n: nat)
  {
    && a in q && n <= |q[a]|
    && (forall t :: t in q[a] ==> t in f.state && t in f.suspend && t in f.priority)
    && q' == AfterWake(f, l, q, a, n)
    && StatesAfterWake(f, f', q[a], n)
    && f'.reschedule == (if AnyRunnable(f, q[a][..n]) then 1 else f.reschedule)
    && fibers' == ResumedAll(f, fibers, q[a][..n])
  }

  lemma {:induction false} StatesNext(f0: Fields, f: Fields, f': Fields, s: seq<int>, n: nat)
    requires n < |s| && s[n] in f0.state && s[n] in f0.suspend && s[n] !in s[..n]
    requires StatesAfterWake(f0, f, s, n) && s[n] in f.state && f.state[s[n]] == f0.state[s[n]]
    requires f'.suspend == f.suspend && f'.priority == f.priority
    requires f'.state == if Live(f, s[n]) then f.state[s[n] := WithState(f.state[s[n]], READY)] else f.state
    ensures StatesAfterWake(f0, f', s, n + 1)
  {
    assert s[..n+1] == s[..n] + [s[n]];
  }

  lemma {:induction false} AnyRunnableNext(f: Fields, s: seq<int>, n: nat)
    requires n < |s| && forall t :: t in s ==> t in f.state && t in f.suspend
    ensures AnyRunnable(f, s[..n+1]) <==> AnyRunnable(f, s[..n]) || Runnable(f, s[n])
  {
    assert s[..n+1] == s[..n] + [s[n]];
    assert s[n] in s[..n+1];
  }

  lemma {:induction false} WokeNext(f0: Fields, f: Fields, l: Layout, q0: Queues, q: Queues, a: int,
                                    fibers0: map<int, Fiber>, fibers: map<int, Fiber>, n: nat)
    requires l.Apart() && Represents(f0, l, q0) && a in l.queues && !l.IsRunQueue(a) && n < |q0[a]|
    requires Total(f, l) && Woke(f0, f, l, q0, q, a, fibers0, fibers, n) && f.head[a] == q0[a][n]
    ensures q.Keys == l.queues && a in q && q[a] != [] && q[a][0] in l.threads && q[a][0] == q0[a][n]
    ensures var t := q[a][0];
            Woke(f0, WakeStep(f, l, a, t), l, q0, WakeStepQueues(f, l, q, a), a, fibers0,
                 if Runnable(f, t) then Resumed(fibers, t) else fibers, n + 1)
  {
    hide Represents, Total, WakeStep, WakeStepQueues, AfterWake;
    hide Layout.Apart, StatesAfterWake, Runnable, AnyRunnable, Live;
    AfterWakeStep(f0, l, q0, a, n, f);
    NextSleeperUntouched(f0, l, q0, a, n, f);
    var s, t := q0[a], q0[a][n];
    WakeStepData(f, l, a, t);
    StatesNext(f0, f, WakeStep(f, l, a, t), s, n);
    AnyRunnableNext(f0, s, n);
    assert s[..n+1][..n] == s[..n];
  }

  /** What the wake loop may rely on before it looks at the head of queue a. */
  ghost predicate Wakeable(f: Fields, l: Layout, q: Queues, a: int) {
    && l.Apart() && Total(f, l)
    && q.Keys == l.queues && a in l.queues && f.head[a] == At(q[a], 0)
    && (forall b :: b in l.queues ==> f.tail[b] == 0 || f.tail[b] in l.threads)
    && (q[a] != [] ==>
          var t := q[a][0];
          t != 0 && t in l.threads && (f.next[t] == 0 || f.next[t] in l.threads))
  }

  lemma {:induction false} SoundIsWakeable(m: Memory, l: Layout, q: Queues, a: int)
    requires Sound(m, l, q) && a in l.queues
    ensures Wakeable(Read(m, l), l, q, a)
  {
    var f := Read(m, l);
    forall b | b in l.queues ensures f.tail[b] == 0 || f.tail[b] in l.threads {
      assert Linked(f, b, q[b]);
      if q[b] != [] {
        assert q[b][|q[b]|-1] in q[b];
      }
    }
    assert Linked(f, a, q[a]);
    if q[a] != [] {
      hide Represents, Linked;
      PoppedIsUnlinked(f, l, q, a);
    }
  }

  lemma {:induction false} BeforeWakeStep(m: Memory, l: Layout, q: Queues, a: int, t: int)
    requires Mapped(m, l) && Wakeable(Read(m, l), l, q, a) && !l.IsRunQueue(a)
    requires t == Read(m, l).head[a] && t in l.threads && t != 0
    ensures l.Apart() && a in l.queues && a in m && t + NEXT in m
    ensures t == m[a] && (m[t + NEXT] == 0 || m[t + NEXT] in l.threads)
    ensures var f, popped := Read(m, l), Popped(Read(m, l), a);
            && Total(f, l) && t in f.state && t in f.suspend && t in f.priority
            && popped.state == f.state && popped.suspend == f.suspend && popped.priority == f.priority
            && popped.mask == f.mask
    ensures var f, popped := Read(m, l), Popped(Read(m, l), a);
            var run := l.RunQueue(ClampPriority(f.priority[t]));
            && run in l.queues && run in popped.tail
            && (popped.tail[run] == 0 || popped.tail[run] in l.threads)
  {
    ReadThread(m, l, t);
    ReadQueue(m, l, a);
    PoppedKeepsData(Read(m, l), a);
    RunQueuesAreRunQueues(l);
    var run := l.RunQueue(ClampPriority(Read(m, l).priority[t]));
    assert run in l.queues;
    PoppedKeepsTail(Read(m, l), a, run);
    hide Popped, Read, Layout.Apart;
  }

  lemma {:induction false} WakeStarts(m: Memory, l: Layout, q: Queues, a: int, fibers: map<int, Fiber>)
    requires Sound(m, l, q) && a in l.queues
    ensures Mapped(m, l) && a in q && Woke(Read(m, l), Read(m, l), l, q, q, a, fibers, fibers, 0)
  {
    assert q[a][0..] == q[a] && q[a][..0] == [];
    forall b | b in q ensures QueueAfterWake(Read(m, l), l, q, a, 0, b) == q[b] {
    }
  }

  lemma {:induction false} WakeContinues(m0: Memory, m: Memory, l: Layout, q0: Queues, q: Queues, a: int,
                                         fibers0: map<int, Fiber>, fibers: map<int, Fiber>, n: nat)
    requires Sound(m0, l, q0) && Sound(m, l, q) && Mapped(m0, l) && Mapped(m, l) && a in l.queues
    requires Woke(Read(m0, l), Read(m, l), l, q0, q, a, fibers0, fibers, n)
    ensures Wakeable(Read(m, l), l, q, a) && a in q0 && n <= |q0[a]| && l.Apart() && Total(Read(m, l), l)
    ensures a in m && m[a] == Read(m, l).head[a] && (m[a] == 0 <==> n == |q0[a]|)
    ensures m[a] != 0 ==> m[a] in l.threads
  {
    SoundIsWakeable(m, l, q, a);
    ReadQueue(m, l, a);
    assert q[a] == q0[a][n..];
  }

  lemma {:induction false} NextSleeper(m0: Memory, m: Memory, l: Layout, q0: Queues, q: Queues, a: int,
                                       fibers0: map<int, Fiber>, fibers: map<int, Fiber>, n: nat)
    requires Sound(m0, l, q0) && Sound(m, l, q) && Mapped(m0, l) && Mapped(m, l) && a in l.queues
    requires a in q0 && n < |q0[a]| && Woke(Read(m0, l), Read(m, l), l, q0, q, a, fibers0, fibers, n)
    ensures Represents(Read(m0, l), l, q0) && a in Read(m, l).head && a in m && m[a] == Read(m, l).head[a]
    ensures q.Keys == l.queues && q[a] != [] && q[a][0] == q0[a][n] == m[a]
  {
    ReadQueue(m, l, a);
    assert q[a] == q0[a][n..];
    assert Linked(Read(m, l), a, q[a]);
  }

  lemma {:induction false} WokeOneMore(m0: Memory, m: Memory, m': Memory, l: Layout, q0: Queues, q: Queues, a: int,
                                       fibers0: map<int, Fiber>, fibers: map<int, Fiber>, n: nat)
    requires Sound(m0, l, q0) && Sound(m, l, q) && Mapped(m0, l) && Mapped(m, l) && Mapped(m', l)
    requires a in l.queues && !l.IsRunQueue(a) && a in q0 && n < |q0[a]|
    requires Woke(Read(m0, l), Read(m, l), l, q0, q, a, fibers0, fibers, n)
    requires Total(Read(m, l), l) && l.Apart() && m[a] == Read(m, l).head[a] && m[a] in l.threads
    requires Read(m', l) == WakeStep(Read(m, l), l, a, m[a])
    ensures q.Keys == l.queues && a in q && q[a] != [] && q[a][0] == m[a]
    ensures var f, t := Read(m, l), m[a];
            var q' := WakeStepQueues(f, l, q, a);
            && Sound(m', l, q')
            && Woke(Read(m0, l), Read(m', l), l, q0, q', a, fibers0,
                    if Runnable(f, t) then Resumed(fibers, t) else fibers, n + 1)
  {
    hide Sound, Read, WakeStep, WakeStepQueues, Represents;
    hide Total, Woke, Layout.Apart, Mapped, Layout.IsRunQueue, Runnable;
    NextSleeper(m0, m, l, q0, q, a, fibers0, fibers, n);
    WokeNext(Read(m0, l), Read(m, l), l, q0, q, a, fibers0, fibers, n);
    WakeStepSound(m, m', l, q, a);
  }

  /**
   Reading off a wake: the queue is left empty exactly when it held at most MAX_WAKE threads, and
   every run queue is its old contents followed by the runnable sleepers of its priority in order.
   */
  lemma {:induction false} WakeOutcome(f: Fields, f': Fields, l: Layout, q: Queues, q': Queues, a: int,
                                       fibers: map<int, Fiber>, fibers': map<int, Fiber>, n: nat)
    requires l.Apart() && q.Keys == l.queues && a in q && !l.IsRunQueue(a)
    requires n == (if |q[a]| < MAX_WAKE then |q[a]| else MAX_WAKE)
    requires Woke(f, f', l, q, q', a, fibers, fibers', n)
    ensures q'.Keys == l.queues && (q'[a] == [] <==> |q[a]| <= MAX_WAKE)
    ensures forall p :: 0 <= p < PRIORITIES ==>
              q'[l.RunQueue(p)] == q[l.RunQueue(p)] + Woken(f, q[a][..n], p)
    ensures forall b :: b in q && b != a && !l.IsRunQueue(b) ==> q'[b] == q[b]
  {
    forall p | 0 <= p < PRIORITIES
      ensures q'[l.RunQueue(p)] == q[l.RunQueue(p)] + Woken(f, q[a][..n], p)
    {
      RunQueueIsUnique(l, p);
      assert QueueAfterWake(f, l, q, a, n, l.RunQueue(p)) == q[l.RunQueue(p)] + Woken(f, q[a][..n], p);
    }
  }

  // ---------------------------------------------------------------- the queues in guest words

  /** Element i, or the null pointer before the first and after the last. */
  function ThreadOrNull(s: seq<int>, i: int): int { if i < 0 || i >= |s| then 0 else s[i] }

  /** Header and links of a queue as the guest reads them: first and last thread, then next, previous and owner. */
  ghost predicate SpelledOut(m: Memory, a: int, s: seq<int>) {
    && a in m && a + 4 in m && m[a] == ThreadOrNull(s, 0) && m[a + 4] == ThreadOrNull(s, |s| - 1)
    && forall i :: 0 <= i < |s| ==> LinksSpelledOut(m, a, s, i)
  }

  ghost predicate LinksSpelledOut(m: Memory, a: int, s: seq<int>, i: nat)
    requires i < |s|
  {
    && s[i] + 0x2E0 in m && m[s[i] + 0x2E0] == ThreadOrNull(s, i + 1)
    && s[i] + 0x2E4 in m && m[s[i] + 0x2E4] == ThreadOrNull(s, i - 1)
    && s[i] + 0x2DC in m && m[s[i] + 0x2DC] == a
  }

  lemma {:induction false} LinkedIsSpelledOut(m: Memory, l: Layout, q: Queues, a: int)
    requires Mapped(m, l) && a in l.queues && a in q && Linked(Read(m, l), a, q[a])
    requires forall t :: t in q[a] ==> t in l.threads
    ensures SpelledOut(m, a, q[a])
  {
    hide Read, Mapped, LinkedAt, LinksSpelledOut;
    var f, s := Read(m, l), q[a];
    InQueue(m, l, a);
    forall i | 0 <= i < |s| ensures LinksSpelledOut(m, a, s, i) {
      assert s[i] in s && LinkedAt(f, a, s, i);
      OneThreadSpelledOut(m, l, a, s, i);
    }
  }

  lemma {:induction false} OneThreadSpelledOut(m: Memory, l: Layout, a: int, s: seq<int>, i: nat)
    requires Mapped(m, l) && i < |s| && s[i] in l.threads && LinkedAt(Read(m, l), a, s, i)
    ensures LinksSpelledOut(m, a, s, i)
  {
    hide Read, Mapped;
    InThread(m, l, s[i]);
  }

  lemma {:induction false} InQueue(m: Memory, l: Layout, a: int)
    requires Mapped(m, l) && a in l.queues
    ensures a in m && Read(m, l).head[a] == m[a]
    ensures a + 4 in m && Read(m, l).tail[a] == m[a + 4]
  {
    ReadQueue(m, l, a);
  }

  lemma {:induction false} InThread(m: Memory, l: Layout, t: int)
    requires Mapped(m, l) && t in l.threads
    ensures t + 0x2E0 in m && Read(m, l).next[t] == m[t + 0x2E0]
    ensures t + 0x2E4 in m && Read(m, l).prev[t] == m[t + 0x2E4]
    ensures t + 0x2DC in m && Read(m, l).queue[t] == m[t + 0x2DC]
  {
  }

  /**
   The scheduler invariant in guest words: every queue is spelled out, a thread names the queue that holds it
   or none, and bit 31 - p of the pending mask is set exactly when the run queue at 8 * p has a first thread.
   */
  lemma {:induction false} SoundInWords(m: Memory, l: Layout, q: Queues)
    requires Sound(m, l, q)
    ensures forall a :: a in l.queues ==> a in q && SpelledOut(m, a, q[a])
    ensures forall t :: t in l.threads ==>
              t + 0x2DC in m && (m[t + 0x2DC] == 0 || (m[t + 0x2DC] in q && t in q[m[t + 0x2DC]]))
    ensures forall p :: 0 <= p < 32 ==>
              && l.pendingMask in m && l.runQueues + 8 * p in m
              && (m[l.pendingMask] / Pow2(31 - p) % 2 == 1 <==> m[l.runQueues + 8 * p] != 0)
  {
    var f := Read(m, l);
    assert l.Apart() && Mapped(m, l) && Represents(f, l, q) && PendingExact(f, l, q);
    hide Read, Mapped, SpelledOut, Linked, PendingBit, Pow2;
    forall a | a in l.queues ensures a in q && SpelledOut(m, a, q[a]) {
      LinkedIsSpelledOut(m, l, q, a);
    }
    forall t | t in l.threads
      ensures t + 0x2DC in m && (m[t + 0x2DC] == 0 || (m[t + 0x2DC] in q && t in q[m[t + 0x2DC]]))
    {
      assert Placed(f, q, t);
      InThread(m, l, t);
    }
    ReadMask(m, l);
    forall p | 0 <= p < 32
      ensures l.runQueues + 8 * p in m
      ensures m[l.pendingMask] / Pow2(31 - p) % 2 == 1 <==> m[l.runQueues + 8 * p] != 0
    {
      var run := l.RunQueue(p);
      RunQueueIsUnique(l, p);
      LinkedIsSpelledOut(m, l, q, run);
      FirstIsNotNull(m, l, q, run);
      PendingInBinary(f.mask, p);
    }
  }

  lemma {:induction false} FirstIsNotNull(m: Memory, l: Layout, q: Queues, a: int)
    requires Sound(m, l, q) && a in l.queues && SpelledOut(m, a, q[a])
    ensures m[a] != 0 <==> q[a] != []
  {
    hide Read, Mapped, PendingExact;
    if q[a] != [] {
      assert q[a][0] in q[a] && q[a][0] in l.threads;
    }
  }

  lemma {:induction false} RunQueuesAre(l: Layout, a: int)
    ensures l.IsRunQueue(a) <==> exists p :: 0 <= p < 32 && a == l.runQueues + 8 * p
  {
    if l.IsRunQueue(a) {
      assert a == l.runQueues + 8 * ((a - l.runQueues) / 8);
    }
  }

  // ---------------------------------------------------------------- a woken thread in guest memory

  /** The thread runs once woken: its state is neither 0 nor 8, and its suspend count, signed, is below 1. */
  predicate Awakens(state: Word, suspend: Word) {
    state / 0x1_0000 != 0 && state / 0x1_0000 != 8 && (suspend == 0 || suspend >= 0x8000_0000)
  }

  /** The run queue of a priority word: 31 above 31, and 0 for what is negative as a signed word. */
  function RunQueueNumber(priority: Word): (p: nat)
    ensures p < PRIORITIES
  {
    if priority <= 31 then priority else if priority < 0x8000_0000 then 31 else 0
  }

  /**
   What a wake has made of sleeper t, in guest words alone. A live thread has state 1. One that runs names
   the run queue of its priority as its queue, that queue's pending bit is set, counted from the most
   significant end, and a reschedule is asked for; any other belongs to no queue.
   */
  ghost predicate Settled(m: Memory, m': Memory, l: Layout, t: int)
    requires l.Apart() && Mapped(m, l) && Mapped(m', l) && t in l.threads
  {
    var state, p := m[t + 0x2C8], RunQueueNumber(m[t + 0x2D0]);
    && m'[t + 0x2C8] == (if state / 0x1_0000 in {0, 8} then state else 0x1_0000 + state % 0x1_0000)
    && if Awakens(state, m[t + 0x2CC]) then
         m'[t + 0x2DC] == l.runQueues + 8 * p && m'[l.pendingMask] / Pow2(31 - p) % 2 == 1 && m'[l.reschedule] == 1
       else m'[t + 0x2DC] == 0
  }

  lemma {:induction false} WordsDecide(m: Memory, l: Layout, t: int)
    requires Mapped(m, l) && t in l.threads
    ensures var f := Read(m, l);
            && t in f.state && t in f.suspend && t in f.priority
            && (Live(f, t) <==> m[t + 0x2C8] / 0x1_0000 !in {0, 8})
            && (Runnable(f, t) <==> Awakens(m[t + 0x2C8], m[t + 0x2CC]))
            && ClampPriority(f.priority[t]) == RunQueueNumber(m[t + 0x2D0])
  {
    ReadThread(m, l, t);
    hide Read;
  }

  lemma {:induction false} WokenHolds(f: Fields, s: seq<int>, p: int, t: int)
    requires forall u :: u in s ==> u in f.state && u in f.suspend && u in f.priority
    ensures t in Woken(f, s, p) <==> t in s && Runnable(f, t) && ClampPriority(f.priority[t]) == p
  {
    if s != [] {
      assert s == s[..|s| - 1] + [s[|s| - 1]];
      WokenHolds(f, s[..|s| - 1], p, t);
    }
  }

  /** Threads woken to one run queue keep their order. */
  lemma {:induction false} WokenKeepsOrder(f: Fields, s: seq<int>, p: int, i: nat, j: nat) returns (x: nat, y: nat)
    requires forall u :: u in s ==> u in f.state && u in f.suspend && u in f.priority
    requires i < j < |s| && Runnable(f, s[i]) && ClampPriority(f.priority[s[i]]) == p
    requires Runnable(f, s[j]) && ClampPriority(f.priority[s[j]]) == p
    ensures x < y < |Woken(f, s, p)| && Woken(f, s, p)[x] == s[i] && Woken(f, s, p)[y] == s[j]
  {
    hide Runnable, ClampPriority;
    var n := |s| - 1;
    if j < n {
      x, y := WokenKeepsOrder(f, s[..n], p, i, j);
    } else {
      WokenHolds(f, s[..n], p, s[i]);
      assert s[..n][i] == s[i];
      x :| 0 <= x < |Woken(f, s[..n], p)| && Woken(f, s[..n], p)[x] == s[i];
      y := |Woken(f, s[..n], p)|;
    }
  }

  lemma {:induction false} InOneQueue(f: Fields, l: Layout, q: Queues, a: int, i: nat, j: nat, b: int)
    requires Represents(f, l, q) && a in l.queues && b in l.queues && i < |q[a]| && j < |q[b]| && q[a][i] == q[b][j]
    ensures a == b && i == j
  {
    SameQueue(f, a, b, q[a], q[b], i, j);
  }

  /** A woken sleeper is in no queue but, if it runs, its run queue. */
  lemma {:induction false} WokenBelongs(f: Fields, l: Layout, q: Queues, a: int, n: nat, i: nat, b: int)
    requires l.Apart() && Represents(f, l, q) && a in l.queues && !l.IsRunQueue(a) && b in l.queues
    requires i < n <= |q[a]|
    ensures forall t :: t in q[a] ==> t in f.state && t in f.suspend && t in f.priority
    ensures var t := q[a][i];
            t in QueueAfterWake(f, l, q, a, n, b) <==>
              Runnable(f, t) && b == l.RunQueue(ClampPriority(f.priority[t]))
  {
    MembersAreThreads(f, l, q, a);
    var t := q[a][i];
    assert t in q[a][..n];
    forall j | 0 <= j < |q[b]| && q[b][j] == t ensures b == a && j == i {
      InOneQueue(f, l, q, a, i, j, b);
    }
    RunQueueIsUnique(l, ClampPriority(f.priority[t]));
    hide Runnable, ClampPriority, Represents, Layout.Apart;
    if b == a {
      assert forall k :: 0 <= k < |q[a][n..]| ==> q[a][n..][k] == q[a][n + k];
    } else if l.IsRunQueue(b) {
      WokenHolds(f, q[a][..n], (b - l.runQueues) / 8, t);
    }
  }

  lemma {:induction false} PendingInBinary(mask: Word, p: nat)
    requires p < PRIORITIES
    ensures PendingBit(mask, p) <==> mask / Pow2(31 - p) % 2 == 1
  {
    BitInBinary(mask, 31 - p);
  }

  /** Where the queue field of a woken sleeper points, and the pending bit of its run queue. */
  lemma {:induction false} WokenField(f: Fields, f': Fields, l: Layout, q: Queues, q': Queues, a: int, n: nat, i: nat)
    requires l.Apart() && Represents(f, l, q) && Represents(f', l, q') && PendingExact(f', l, q')
    requires a in l.queues && !l.IsRunQueue(a) && i < n <= |q[a]|
    requires forall t :: t in q[a] ==> t in f.state && t in f.suspend && t in f.priority
    requires q' == AfterWake(f, l, q, a, n)
    ensures var t := q[a][i];
            && t in l.threads && t in f'.queue && t in f.state && t in f.suspend && t in f.priority
            && if Runnable(f, t) then
                 var p := ClampPriority(f.priority[t]);
                 f'.queue[t] == l.RunQueue(p) && PendingBit(f'.mask, p)
               else f'.queue[t] == 0
  {
    var t := q[a][i];
    assert t in q[a];
    MembersAreThreads(f, l, q, a);
    assert Placed(f', q', t);
    var p := ClampPriority(f.priority[t]);
    RunQueueIsUnique(l, p);
    hide Runnable, ClampPriority, PendingBit, QueueAfterWake, Layout.Apart, Represents, Placed, Woken;
    if Runnable(f, t) {
      WokenBelongs(f, l, q, a, n, i, l.RunQueue(p));
      assert t in q'[l.RunQueue(p)];
      MembersAreThreads(f', l, q', l.RunQueue(p));
    } else {
      forall b | b in l.queues ensures t !in q'[b] {
        WokenBelongs(f, l, q, a, n, i, b);
      }
      PlacedNowhere(f', l, q', t);
    }
  }

  lemma {:induction false} PlacedNowhere(f: Fields, l: Layout, q: Queues, t: int)
    requires Represents(f, l, q) && t in l.threads && forall b :: b in l.queues ==> t !in q[b]
    ensures t in f.queue && f.queue[t] == 0
  {
    assert Placed(f, q, t);
  }

  /** A wake settles every sleeper it comes to. */
  lemma {:induction false} WakeSettles(m: Memory, m': Memory, l: Layout, q: Queues, q': Queues, a: int,
                                       fibers: map<int, Fiber>, fibers': map<int, Fiber>, n: nat, i: nat)
    requires Sound(m, l, q) && Sound(m', l, q') && Mapped(m, l) && Mapped(m', l) && a in l.queues && !l.IsRunQueue(a)
    requires Woke(Read(m, l), Read(m', l), l, q, q', a, fibers, fibers', n) && i < n
    ensures q[a][i] in l.threads && l.Apart() && Settled(m, m', l, q[a][i])
  {
    hide Read, Runnable, ClampPriority, Live, Awakens, RunQueueNumber, PendingBit, AfterWake, Pow2, Represents;
    hide PendingExact, ResumedAll, Layout.Apart, Mapped, Layout.IsRunQueue;
    var f, f', t := Read(m, l), Read(m', l), q[a][i];
    WokenField(f, f', l, q, q', a, n, i);
    assert t in q[a][..n];
    ReadThread(m, l, t);
    ReadThread(m', l, t);
    ReadMask(m', l);
    WordsDecide(m, l, t);
    PendingInBinary(f'.mask, ClampPriority(f.priority[t]));
    assert f'.reschedule == m'[l.reschedule] by {
      ReadFlag(m', l);
    }
  }

  /** The first n threads of s are threads of the layout, settled by a wake. */
  ghost predicate AllSettled(m: Memory, m': Memory, l: Layout, s: seq<int>, n: nat)
    requires l.Apart() && Mapped(m, l) && Mapped(m', l)
  {
    n <= |s| && forall i :: 0 <= i < n ==> s[i] in l.threads && Settled(m, m', l, s[i])
  }

  lemma {:induction false} SleepersInBounds(m: Memory, m': Memory, l: Layout, q: Queues, q': Queues, a: int,
                                            fibers: map<int, Fiber>, fibers': map<int, Fiber>, n: nat)
    requires Sound(m, l, q) && Mapped(m, l) && Mapped(m', l)
    requires Woke(Read(m, l), Read(m', l), l, q, q', a, fibers, fibers', n)
    ensures l.Apart() && a in q && n <= |q[a]|
  {
    hide Read, Represents, PendingExact, Layout.Apart, Mapped;
  }

  lemma {:induction false} WakeSettlesAll(m: Memory, m': Memory, l: Layout, q: Queues, q': Queues, a: int,
                                          fibers: map<int, Fiber>, fibers': map<int, Fiber>, n: nat)
    requires Sound(m, l, q) && Sound(m', l, q') && Mapped(m, l) && Mapped(m', l) && a in l.queues && !l.IsRunQueue(a)
    requires Woke(Read(m, l), Read(m', l), l, q, q', a, fibers, fibers', n)
    ensures a in q && l.Apart() && AllSettled(m, m', l, q[a], n)
  {
    hide Sound, Read, Woke, Settled, Mapped, Layout.Apart, Layout.IsRunQueue;
    SleepersInBounds(m, m', l, q, q', a, fibers, fibers', n);
    forall i | 0 <= i < n ensures q[a][i] in l.threads && Settled(m, m', l, q[a][i]) {
      WakeSettles(m, m', l, q, q', a, fibers, fibers', n, i);
    }
  }

  // ---------------------------------------------------------------- the scheduler

  class Scheduler {
    const layout: Layout
    var words: Memory
    var fibers: map<int, Fiber>
    ghost var queues: Queues

    ghost predicate Valid()
      reads this
    {
      Sound(words, layout, queues)
    }

    /** Takes over a guest memory that holds these queues. */
    constructor (layout: Layout, words: Memory, fibers: map<int, Fiber>, ghost queues: Queues)
      requires Sound(words, layout, queues)
      ensures Valid() && this.layout == layout && this.words == words && this.fibers == fibers && this.queues == queues
    {
      hide Sound;
      this.layout, this.words, this.fibers, this.queues := layout, words, fibers, queues;
    }

    ghost function View(): Fields
      reads this
      requires Mapped(words, layout)
    {
      Read(words, layout)
    }

    ghost function Queue(thread: int): Word
      reads this
      requires Mapped(words, layout) && thread in layout.threads
    {
      words[thread + QUEUE]
    }

    /** Clears the pending bit of a run queue that has just become empty. */
    method ClearPendingMaskForEmptyGuestQueue(queueEntry: int)
      requires layout.Apart() && Mapped(words, layout) && queueEntry in layout.queues
      modifies this`words
      ensures Mapped(words, layout)
      ensures View() == old(View()).(mask := View().mask)
      ensures forall p :: 0 <= p < PRIORITIES ==>
                (PendingBit(View().mask, p) <==>
                 PendingBit(old(View()).mask, p) && !(queueEntry == layout.RunQueue(p)
                     && old(View()).head[queueEntry] == 0))
    {
      if queueEntry < layout.runQueues || (queueEntry - layout.runQueues) % 8 != 0 {
        return;
      }
      var priority := (queueEntry - layout.runQueues) / 8;
      if priority >= PRIORITIES || words[queueEntry] != 0 {
        return;
      }
      var pending := words[layout.pendingMask];
      WriteMask(words, layout, ClearPending(pending, priority));
      words := words[layout.pendingMask := ClearPending(pending, priority)];
    }

    /** The thread behind, or the tail of the queue, comes to point at the thread in front. */
    method TieNext(next: Word, prev: Word, queuePtr: int)
      requires layout.Apart() && Mapped(words, layout) && queuePtr in layout.queues
      requires next == 0 || next in layout.threads
      modifies this`words
      ensures Mapped(words, layout)
      ensures var f := old(View());
              View() == f.(prev := if next != 0 then f.prev[next := prev] else f.prev,
                           tail := if next != 0 then f.tail else f.tail[queuePtr := prev])
    {
      hide Read, Layout.Apart, Mapped;
      if next != 0 {
        WritePrev(words, layout, next, prev);
        words := words[next + PREV := prev];
      } else {
        WriteTail(words, layout, queuePtr, prev);
        words := words[queuePtr + 4 := prev];
      }
    }

    /** The thread in front, or the head of the queue, comes to point at the thread behind. */
    method TiePrev(next: Word, prev: Word, queuePtr: int)
      requires layout.Apart() && Mapped(words, layout) && queuePtr in layout.queues
      requires prev == 0 || prev in layout.threads
      modifies this`words
      ensures Mapped(words, layout)
      ensures var f := old(View());
              View() == f.(next := if prev != 0 then f.next[prev := next] else f.next,
                           head := if prev != 0 then f.head else f.head[queuePtr := next])
    {
      hide Read, Layout.Apart, Mapped;
      if prev != 0 {
        WriteNext(words, layout, prev, next);
        words := words[prev + NEXT := next];
      } else {
        WriteHead(words, layout, queuePtr, next);
        words := words[queuePtr := next];
      }
    }

    method ClearLinks(thread: int)
      requires layout.Apart() && Mapped(words, layout) && thread in layout.threads
      modifies this`words
      ensures Mapped(words, layout)
      ensures var f := old(View());
              View() == f.(queue := f.queue[thread := 0], next := f.next[thread := 0], prev := f.prev[thread := 0])
    {
      hide Read, Layout.Apart, Mapped;
      WriteQueue(words, layout, thread, 0);
      words := words[thread + QUEUE := 0];
      WriteNext(words, layout, thread, 0);
      words := words[thread + NEXT := 0];
      WritePrev(words, layout, thread, 0);
      words := words[thread + PREV := 0];
    }

    /** The link stores that take a queued thread out of its list. */
    method UnlinkThread(thread: int, queuePtr: int)
      requires layout.Apart() && Mapped(words, layout) && thread in layout.threads
      requires queuePtr == View().queue[thread] && queuePtr in layout.queues
      requires View().next[thread] == 0 || View().next[thread] in layout.threads
      requires View().prev[thread] == 0 || View().prev[thread] in layout.threads
      modifies this`words
      ensures Mapped(words, layout) && View() == Unlink(old(View()), thread)
    {
      ReadThread(words, layout, thread);
      var next := words[thread + NEXT];
      var prev := words[thread + PREV];
      hide Read, Layout.Apart, Mapped;
      TieNext(next, prev, queuePtr);
      TiePrev(next, prev, queuePtr);
      ClearLinks(thread);
    }

    /** Takes one thread off whatever queue holds it. */
    method RemoveGuestThreadFromQueue(thread: int)
      requires Valid() && thread in layout.threads
      modifies this`words, this`queues
      ensures Valid() && Mapped(words, layout)
      ensures old(Queue(thread)) == 0 ==> words == old(words) && queues == old(queues)
      ensures old(Queue(thread)) != 0 ==> TookOff(old(View()), View(), old(queues), queues, thread)
    {
      hide Sound, Represents, PendingExact, Read;
      ghost var m, q := words, queues;
      RemoveIsInBounds(m, layout, q, thread);
      var queuePtr := words[thread + QUEUE];
      if queuePtr != 0 {
        UnlinkThread(thread, queuePtr);
        ClearPendingMaskForEmptyGuestQueue(queuePtr);
        RemoveKeepsSound(m, words, layout, q, thread);
        queues := q[queuePtr := Without(q[queuePtr], thread)];
      }
    }

    /** Marks the host fiber of a woken thread as ready, unless it has terminated. */
    method ResumeGuestThread(thread: int)
      modifies this`fibers
      ensures fibers == Resumed(old(fibers), thread)
    {
      if thread !in fibers {
        return;
      }
      if fibers[thread].terminated {
        return;
      }
      fibers := fibers[thread := fibers[thread].(state := READY)];
    }

    /** Takes the head thread off a queue, leaving only its queue field behind. */
    method PopHead(queueAddr: int, thread: int)
      requires layout.Apart() && Mapped(words, layout) && queueAddr in layout.queues
      requires thread == words[queueAddr] && thread in layout.threads
      requires words[thread + NEXT] == 0 || words[thread + NEXT] in layout.threads
      modifies this`words
      ensures Mapped(words, layout)
      ensures View() == Popped(old(View()), queueAddr)
    {
      var next := words[thread + NEXT];
      if next == 0 {
        WriteTail(words, layout, queueAddr, 0);
        words := words[queueAddr + 4 := 0];
      } else {
        WritePrev(words, layout, next, 0);
        words := words[next + PREV := 0];
      }
      WriteHead(words, layout, queueAddr, next);
      words := words[queueAddr := next];
      WriteNext(words, layout, thread, 0);
      words := words[thread + NEXT := 0];
      WritePrev(words, layout, thread, 0);
      words := words[thread + PREV := 0];
    }

    /** The link stores that put a detached thread at the tail of a run queue. */
    method LinkAtTail(thread: int, runQueue: int)
      requires layout.Apart() && Mapped(words, layout) && thread in layout.threads && runQueue in layout.queues
      requires words[runQueue + 4] == 0 || words[runQueue + 4] in layout.threads
      modifies this`words
      ensures Mapped(words, layout)
      ensures View() == Append(old(View()), runQueue, thread)
    {
      var tail := words[runQueue + 4];
      assert tail == View().tail[runQueue];
      assert 0 < runQueue < WORD && 0 < thread < WORD;
      hide Read, Layout.Apart;
      if tail == 0 {
        WriteHead(words, layout, runQueue, thread);
        words := words[runQueue := thread];
      } else {
        WriteNext(words, layout, tail, thread);
        words := words[tail + NEXT := thread];
      }
      WritePrev(words, layout, thread, tail);
      words := words[thread + PREV := tail];
      WriteNext(words, layout, thread, 0);
      words := words[thread + NEXT := 0];
      WriteTail(words, layout, runQueue, thread);
      words := words[runQueue + 4 := thread];
      WriteQueue(words, layout, thread, runQueue);
      words := words[thread + QUEUE := runQueue];
    }

    /** Records that run queue `priority` holds a thread and asks for a reschedule. */
    method MarkPending(priority: nat)
      requires layout.Apart() && Mapped(words, layout) && priority < PRIORITIES
      modifies this`words
      ensures Mapped(words, layout)
      ensures View() == old(View()).(mask := SetPending(old(View()).mask, priority), reschedule := 1)
    {
      var pending := words[layout.pendingMask];
      WriteMask(words, layout, SetPending(pending, priority));
      words := words[layout.pendingMask := SetPending(pending, priority)];
      WriteReschedule(words, layout, 1);
      words := words[layout.reschedule := 1];
    }

    /** One iteration of the wake loop: moves the head thread where it belongs. */
    method WakeHead(queueAddr: int, thread: int)
      requires Mapped(words, layout) && Wakeable(View(), layout, queues, queueAddr)
      requires !layout.IsRunQueue(queueAddr) && thread == words[queueAddr] && thread != 0
      requires thread == View().head[queueAddr] && thread in layout.threads
      modifies this`words, this`fibers
      ensures Mapped(words, layout)
      ensures View() == WakeStep(old(View()), layout, queueAddr, thread)
      ensures fibers == if Runnable(old(View()), thread) then Resumed(old(fibers), thread) else old(fibers)
    {
      hide Wakeable, Read, Layout.Apart, Append, Popped, Layout.IsRunQueue, Mapped, Total;
      ghost var f := View();
      BeforeWakeStep(words, layout, queues, queueAddr, thread);
      PopHead(queueAddr, thread);
      ReadThread(words, layout, thread);
      var state := StateOf(words[thread + STATE]);
      if state == UNUSED || state == MORIBUND {
        LeaveUnqueued(thread);
      } else {
        WriteState(words, layout, thread, WithState(words[thread + STATE], READY));
        words := words[thread + STATE := WithState(words[thread + STATE], READY)];
        ReadThread(words, layout, thread);
        var suspend := Signed(words[thread + SUSPEND]);
        if suspend >= 1 {
          LeaveUnqueued(thread);
        } else {
          var priority := ClampPriority(words[thread + PRIORITY]);
          ReadQueue(words, layout, layout.RunQueue(priority));
          MakeReady(thread, priority);
        }
      }
    }

    /** A popped thread that does not become ready belongs to no queue. */
    method LeaveUnqueued(thread: int)
      requires layout.Apart() && Mapped(words, layout) && thread in layout.threads
      modifies this`words
      ensures Mapped(words, layout)
      ensures View() == old(View()).(queue := old(View()).queue[thread := 0])
    {
      WriteQueue(words, layout, thread, 0);
      words := words[thread + QUEUE := 0];
    }

    /** The last part of a wake: the thread joins its run queue and its fiber becomes ready. */
    method MakeReady(thread: int, priority: nat)
      requires layout.Apart() && Mapped(words, layout) && thread in layout.threads && priority < PRIORITIES
      requires var run := layout.RunQueue(priority);
               run in layout.queues && (words[run + 4] == 0 || words[run + 4] in layout.threads)
      modifies this`words, this`fibers
      ensures Mapped(words, layout)
      ensures var f := old(View());
              View() == Append(f, layout.RunQueue(priority), thread)
                  .(mask := SetPending(f.mask, priority), reschedule := 1)
      ensures fibers == Resumed(old(fibers), thread)
    {
      AppendKeepsData(View(), layout.RunQueue(priority), thread);
      hide Read, Append, Layout.Apart, Mapped, SetPending;
      LinkAtTail(thread, layout.RunQueue(priority));
      MarkPending(priority);
      ResumeGuestThread(thread);
    }

    /**
     Wakes the threads of a queue, at most MAX_WAKE of them: the queue keeps only the rest, and every
     runnable sleeper goes, in order, to the tail of the run queue of its clamped priority.
     */
    method WakeGuestThreadsOnQueueNoSwitch(queueAddr: int)
      requires Valid() && queueAddr in layout.queues && !layout.IsRunQueue(queueAddr)
      modifies this`words, this`queues, this`fibers
      ensures Valid() && Mapped(words, layout)
      ensures var n := |old(queues)[queueAddr]|;
              Woke(old(View()), View(), layout, old(queues), queues, queueAddr, old(fibers), fibers,
                   if n < MAX_WAKE then n else MAX_WAKE)
      ensures var s := old(queues)[queueAddr];
              old(Mapped(words, layout)) && layout.Apart()
              && AllSettled(old(words), words, layout, s, if |s| < 256 then |s| else 256)
    {
      hide AllSettled, Sound, Woke, Wakeable, Read, Layout.Apart, Mapped, Total, WakeStep, WakeStepQueues;
      hide Layout.IsRunQueue;
      ghost var m0, q0, fibers0 := words, queues, fibers;
      WakeStarts(m0, layout, q0, queueAddr, fibers0);
      var woke := 0;
      while woke < MAX_WAKE
        invariant 0 <= woke <= MAX_WAKE && woke <= |q0[queueAddr]|
        invariant Sound(words, layout, queues) && Mapped(words, layout)
        invariant Woke(Read(m0, layout), View(), layout, q0, queues, queueAddr, fibers0, fibers, woke)
      {
        WakeContinues(m0, words, layout, q0, queues, queueAddr, fibers0, fibers, woke);
        var thread := words[queueAddr];
        if thread == 0 {
          WakeSettlesAll(m0, words, layout, q0, queues, queueAddr, fibers0, fibers, woke);
          return;
        }
        ghost var m, q, before := words, queues, fibers;
        WakeHead(queueAddr, thread);
        WokeOneMore(m0, m, words, layout, q0, q, queueAddr, fibers0, before, woke);
        queues := WakeStepQueues(Read(m, layout), layout, q, queueAddr);
        woke := woke + 1;
      }
      WakeSettlesAll(m0, words, layout, q0, queues, queueAddr, fibers0, fibers, woke);
    }
  }
}
