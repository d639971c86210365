/** The handshake between the thread that records frames (the producer) and the frame worker. */
module FrameWorker {

  // The worker seals, prepares, encodes and presents what the producer recorded. The two threads are a
  // state machine whose atomic steps are the critical sections under the worker mutex, each a function
  // on the five control flags, and the observations of the SEALED and DONE flags; a run is any
  // interleaving. `Controller` is the control block, with one method per critical section.

  /** The control flags guarded by the worker mutex. */
  datatype Flags = Flags(jobPending: bool, sealed: bool, ready: bool, framePrepared: bool, prepareAllowed: bool)

  /** What the first critical section of a begin decides. */
  datatype BeginVerdict =
    | FrameActive          // return true at once
    | JoinPreparation      // a surface change is under way: wait for DONE and read the real result
    | RecheckAndPrepare    // no worker cycle is open: prepare on this thread

  const STARTED := Flags(false, true, true, false, false)

  function TakeJob(f: Flags): Flags { f.(jobPending := false) }

  function TakePermission(f: Flags): Flags { f.(prepareAllowed := false) }

  function PublishSealed(f: Flags, prepared: bool): Flags { f.(framePrepared := prepared, sealed := true) }

  function PublishDone(f: Flags): Flags { f.(ready := true) }

  function BeginSection(f: Flags): Flags { if f.ready then f else f.(prepareAllowed := true) }

  function BeginOutcome(f: Flags, surfaceChanging: bool): BeginVerdict {
    if !f.ready then (if surfaceChanging then JoinPreparation else FrameActive)
    else if f.framePrepared then FrameActive
    else RecheckAndPrepare
  }

  function StorePrepared(f: Flags, prepared: bool): Flags { f.(framePrepared := prepared) }

  function PostJob(f: Flags): Flags { Flags(true, false, false, false, false) }

  // ---------------------------------------------------------------- the two threads

  datatype WorkerPc = Waiting | Sealing | Gated | Preparing | Encoding | Replenishing

  datatype ProducerPc =
    | Free              // between calls, or recording a frame
    | DrainingInFrame   // a drain while recording waits for SEALED
    | JoiningBegin      // begin waits for DONE
    | ReadingResult     // begin reads framePrepared
    | Rechecking        // begin looks at framePrepared a second time
    | PreparingHere     // begin prepares the frame itself
    | Draining          // end waits for SEALED
    | JoiningEnd        // end waits for DONE
    | Posting           // end is about to post the job

  /**
   The whole system. `posted`, `taken` and `finished` count jobs; `asked` says that no end has
   posted a job since the last begin entered its critical section (true before the first end).
   */
  datatype System = System(flags: Flags, worker: WorkerPc, producer: ProducerPc,
                           posted: nat, taken: nat, finished: nat, asked: bool)

  const INITIAL := System(STARTED, Waiting, Free, 0, 0, 0, true)

  datatype Event =
    | WorkerTakes
    | WorkerSeals
    | WorkerPassesGate
    | WorkerSealed(prepared: bool)
    | WorkerDone
    | WorkerReplenishes
    | Begins(surfaceChanging: bool)
    | SeesDoneInBegin
    | ReadsResult
    | Rechecks
    | Prepares(prepared: bool)
    | DrainsInFrame
    | SeesSealedInFrame
    | Ends
    | SeesSealedInEnd
    | SeesDoneInEnd
    | Posts
  {
    predicate ByWorker() {
      WorkerTakes? || WorkerSeals? || WorkerPassesGate? || WorkerSealed? || WorkerDone? || WorkerReplenishes?
    }
  }

  predicate Enabled(s: System, e: Event) {
    match e
    case WorkerTakes => s.worker == Waiting && s.flags.jobPending
    case WorkerSeals => s.worker == Sealing
    case WorkerPassesGate => s.worker == Gated && s.flags.prepareAllowed
    case WorkerSealed(_) => s.worker == Preparing
    case WorkerDone => s.worker == Encoding
    case WorkerReplenishes => s.worker == Replenishing
    case Begins(_) => s.producer == Free
    case SeesDoneInBegin => s.producer == JoiningBegin && s.flags.ready
    case ReadsResult => s.producer == ReadingResult
    case Rechecks => s.producer == Rechecking
    case Prepares(_) => s.producer == PreparingHere
    case DrainsInFrame => s.producer == Free
    case SeesSealedInFrame => s.producer == DrainingInFrame && s.flags.sealed
    case Ends => s.producer == Free
    case SeesSealedInEnd => s.producer == Draining && s.flags.sealed
    case SeesDoneInEnd => s.producer == JoiningEnd && s.flags.ready
    case Posts => s.producer == Posting
  }

  function Next(s: System, e: Event): System
    requires Enabled(s, e)
  {
    match e
    case WorkerTakes => s.(flags := TakeJob(s.flags), worker := Sealing, taken := s.taken + 1)
    case WorkerSeals => s.(worker := Gated)
    case WorkerPassesGate => s.(flags := TakePermission(s.flags), worker := Preparing)
    case WorkerSealed(prepared) => s.(flags := PublishSealed(s.flags, prepared), worker := Encoding)
    case WorkerDone => s.(flags := PublishDone(s.flags), worker := Replenishing, finished := s.finished + 1)
    case WorkerReplenishes => s.(worker := Waiting)
    case Begins(surfaceChanging) =>
      s.(flags := BeginSection(s.flags), asked := true,
         producer := match BeginOutcome(s.flags, surfaceChanging)
                     case FrameActive => Free
                     case JoinPreparation => JoiningBegin
                     case RecheckAndPrepare => Rechecking)
    case SeesDoneInBegin => s.(producer := ReadingResult)
    case ReadsResult => s.(producer := Free)
    case Rechecks => s.(producer := if s.flags.framePrepared then Free else PreparingHere)
    case Prepares(prepared) => s.(flags := StorePrepared(s.flags, prepared), producer := Free)
    case DrainsInFrame => s.(producer := DrainingInFrame)
    case SeesSealedInFrame => s.(producer := Free)
    case Ends => s.(producer := Draining)
    case SeesSealedInEnd => s.(producer := JoiningEnd)
    case SeesDoneInEnd => s.(producer := Posting)
    case Posts => s.(flags := PostJob(s.flags), producer := Free, posted := s.posted + 1, asked := false)
  }

  /** The trace can be taken from `s`, every event being enabled when its turn comes. */
  predicate Runs(s: System, trace: seq<Event>)
    decreases |trace|, 0
  {
    trace == [] ||
    (Runs(s, Init(trace)) && Enabled(After(s, Init(trace)), Last(trace)))
  }

  /** The state the trace leads to. */
  function After(s: System, trace: seq<Event>): System
    requires Runs(s, trace)
    decreases |trace|, 1
  {
    if trace == [] then s else Next(After(s, Init(trace)), Last(trace))
  }

  function Init(trace: seq<Event>): seq<Event>
    requires trace != []
  {
    trace[..|trace|-1]
  }

  function Last(trace: seq<Event>): Event
    requires trace != []
  {
    trace[|trace|-1]
  }

  ghost predicate Reachable(s: System) {
    exists trace :: Runs(INITIAL, trace) && After(INITIAL, trace) == s
  }

  lemma Reach(s: System, e: Event)
    requires Reachable(s) && Enabled(s, e)
    ensures Reachable(Next(s, e))
  {
    var trace :| Runs(INITIAL, trace) && After(INITIAL, trace) == s;
    var longer := trace + [e];
    assert Init(longer) == trace;
    assert Runs(INITIAL, longer) && After(INITIAL, longer) == Next(s, e);
  }

  // ---------------------------------------------------------------- safety over every run

  /** The worker is using renderer state that the producer records into. */
  predicate UsesProducerState(w: WorkerPc) { w == Sealing || w == Gated || w == Preparing }

  predicate InCycle(w: WorkerPc) { UsesProducerState(w) || w == Encoding }

  ghost predicate Inv(s: System) {
    var f := s.flags;
    && (f.sealed <==> !f.jobPending && !UsesProducerState(s.worker))
    && (f.ready <==> !f.jobPending && !InCycle(s.worker))
    && (f.jobPending ==> s.worker == Waiting || s.worker == Replenishing)
    && s.posted == s.taken + (if f.jobPending then 1 else 0)
    && s.taken == s.finished + (if InCycle(s.worker) then 1 else 0)
    && (!s.asked ==> !f.prepareAllowed && !f.ready && s.worker != Preparing && s.worker != Encoding)
    && (s.asked && !f.ready ==> f.prepareAllowed || s.worker == Preparing || s.worker == Encoding)
    && (s.producer in {ReadingResult, Rechecking, PreparingHere, Posting} ==> f.ready)
    && (s.producer == JoiningEnd ==> f.sealed)
    && (s.producer == JoiningBegin ==> s.asked)
    && (s.producer in {Rechecking, PreparingHere} ==> !f.framePrepared)
  }

  lemma StepKeepsInv(s: System, e: Event)
    requires Inv(s) && Enabled(s, e)
    ensures Inv(Next(s, e))
  {
  }

  lemma {:induction false} RunKeepsInv(s: System, trace: seq<Event>)
    requires Inv(s) && Runs(s, trace)
    ensures Inv(After(s, trace))
    decreases |trace|
  {
    if trace != [] {
      RunKeepsInv(s, Init(trace));
      StepKeepsInv(After(s, Init(trace)), Last(trace));
    }
  }

  lemma ReachableKeepsInv(s: System)
    requires Reachable(s)
    ensures Inv(s)
  {
    var trace :| Runs(INITIAL, trace) && After(INITIAL, trace) == s;
    RunKeepsInv(INITIAL, trace);
  }

  /**
   Safety. In every interleaving: DONE implies SEALED; at most one job is between its posting and
   its DONE, and none is lost or taken twice; a job is never posted over another; the two threads
   never prepare a frame together; and whenever SEALED is visible the worker has stopped using the
   state the producer records into, while DONE also means it has stopped encoding.
   */
  lemma {:induction false} SafeInEveryRun(trace: seq<Event>)
    requires Runs(INITIAL, trace)
    ensures var s := After(INITIAL, trace);
            && (s.flags.ready ==> s.flags.sealed)
            && s.finished <= s.taken <= s.posted <= s.finished + 1
            && (s.producer == Posting ==> s.posted == s.finished && !s.flags.jobPending)
            && !(s.worker == Preparing && s.producer == PreparingHere)
            && (s.flags.sealed ==> !UsesProducerState(s.worker))
            && (s.flags.ready ==> !InCycle(s.worker) && s.posted == s.finished)
  {
    RunKeepsInv(INITIAL, trace);
  }

  // ---------------------------------------------------------------- where permission comes from

  /** Position k holds a begin and no job is posted from there on. */
  predicate BeginSinceLastPost(trace: seq<Event>, k: nat) {
    k < |trace| && trace[k].Begins? && forall j :: k < j < |trace| ==> !trace[j].Posts?
  }

  lemma {:induction false} PrefixRuns(s: System, trace: seq<Event>, k: nat)
    requires Runs(s, trace) && k <= |trace|
    ensures Runs(s, trace[..k])
    decreases |trace|
  {
    if k == |trace| {
      assert trace[..k] == trace;
    } else {
      PrefixRuns(s, Init(trace), k);
      assert Init(trace)[..k] == trace[..k];
    }
  }

  /** The begin at position k asked for exactly the jobs posted by the end of the trace. */
  ghost predicate AsksForAllPosted(trace: seq<Event>, k: nat)
    requires Runs(INITIAL, trace)
  {
    && BeginSinceLastPost(trace, k)
    && Runs(INITIAL, trace[..k])
    && After(INITIAL, trace[..k]).posted == After(INITIAL, trace).posted
  }

  lemma OnlyBeginOpensGate(s: System, e: Event)
    requires Enabled(s, e) && Next(s, e).flags.prepareAllowed
    ensures Next(s, e).posted == s.posted && !e.Posts?
    ensures e.Begins? || s.flags.prepareAllowed
  {
  }

  lemma {:induction false} OpenGateHasBegin(trace: seq<Event>)
    requires Runs(INITIAL, trace) && After(INITIAL, trace).flags.prepareAllowed
    ensures exists k: nat :: AsksForAllPosted(trace, k)
    decreases |trace|
  {
    var prefix := Init(trace);
    var n := |prefix|;
    OnlyBeginOpensGate(After(INITIAL, prefix), trace[n]);
    var k: nat := n;
    if !trace[n].Begins? {
      OpenGateHasBegin(prefix);
      k :| AsksForAllPosted(prefix, k);
      assert prefix[..k] == trace[..k];
    }
    assert AsksForAllPosted(trace, k);
  }

  /**
   A job's prepare permission comes only from a begin issued after that job's end: when the worker
   passes the gate there is an earlier begin, no job was posted since, and at that begin every job
   up to and including the one now being prepared had already been posted.
   */
  lemma PermissionComesFromLaterBegin(trace: seq<Event>)
    requires Runs(INITIAL, trace) && Enabled(After(INITIAL, trace), WorkerPassesGate)
    ensures exists k: nat ::
              && BeginSinceLastPost(trace, k)
              && Runs(INITIAL, trace[..k])
              && After(INITIAL, trace[..k]).posted == After(INITIAL, trace).taken
    ensures After(INITIAL, trace).taken == After(INITIAL, trace).finished + 1
  {
    RunKeepsInv(INITIAL, trace);
    OpenGateHasBegin(trace);
    var k: nat :| AsksForAllPosted(trace, k);
    assert BeginSinceLastPost(trace, k);
  }

  // ---------------------------------------------------------------- what a begin reports

  /** Which thread last reported a preparation result for the frame being set up. */
  datatype Report = Nobody | ByWorker(prepared: bool) | ByProducer(prepared: bool)

  function LastReport(trace: seq<Event>): Report
    decreases |trace|
  {
    if trace == [] then Nobody
    else match Last(trace)
      case WorkerSealed(prepared) => ByWorker(prepared)
      case Prepares(prepared) => ByProducer(prepared)
      case Posts => Nobody
      case _ => LastReport(Init(trace))
  }

  lemma {:induction false} FlagHoldsLastReport(trace: seq<Event>)
    requires Runs(INITIAL, trace)
    ensures var s, r := After(INITIAL, trace), LastReport(trace);
            && s.flags.framePrepared == (!r.Nobody? && r.prepared)
            && (s.worker == Encoding ==> r.ByWorker?)
            && (s.producer in {JoiningBegin, ReadingResult} && s.flags.ready ==> r.ByWorker?)
    decreases |trace|
  {
    if trace != [] {
      FlagHoldsLastReport(Init(trace));
      RunKeepsInv(INITIAL, Init(trace));
    }
  }

  /**
   A begin that waits out a surface change returns the result of the worker's own preparation of
   the frame, never a stale result and never one of the producer's.
   */
  lemma BeginReturnsWorkerResult(trace: seq<Event>)
    requires Runs(INITIAL, trace) && Enabled(After(INITIAL, trace), ReadsResult)
    ensures LastReport(trace) == ByWorker(After(INITIAL, trace).flags.framePrepared)
  {
    FlagHoldsLastReport(trace);
    RunKeepsInv(INITIAL, trace);
  }

  /** A frame that either thread has prepared is not prepared again: the producer prepares only after no success. */
  lemma FrameIsPreparedOnce(trace: seq<Event>, prepared: bool)
    requires Runs(INITIAL, trace) && Enabled(After(INITIAL, trace), Prepares(prepared))
    ensures LastReport(trace) in {Nobody, ByWorker(false), ByProducer(false)}
  {
    FlagHoldsLastReport(trace);
    RunKeepsInv(INITIAL, trace);
  }

  /**
   A begin that finds no worker cycle open reports an active frame at once exactly if the last report for this
   frame was a success, and otherwise goes on to prepare it; with a cycle open it waits exactly during a
   surface change.
   */
  lemma BeginDecides(trace: seq<Event>, surfaceChanging: bool)
    requires Runs(INITIAL, trace) && Enabled(After(INITIAL, trace), Begins(surfaceChanging))
    ensures var s := After(INITIAL, trace);
            Next(s, Begins(surfaceChanging)).producer ==
              if s.posted != s.finished then (if surfaceChanging then JoiningBegin else Free)
              else if LastReport(trace) in {ByWorker(true), ByProducer(true)} then Free else Rechecking
  {
    FlagHoldsLastReport(trace);
    RunKeepsInv(INITIAL, trace);
  }

  // ---------------------------------------------------------------- progress

  /** The producer is waiting for a flag that is not up. */
  predicate Blocked(s: System) {
    || (s.producer in {DrainingInFrame, Draining} && !s.flags.sealed)
    || (s.producer in {JoiningBegin, JoiningEnd} && !s.flags.ready)
  }

  /** Worker steps left before DONE. */
  function Rank(s: System): nat {
    match s.worker
    case Replenishing => if s.flags.jobPending then 6 else 0
    case Waiting => if s.flags.jobPending then 5 else 0
    case Sealing => 4
    case Gated => 3
    case Preparing => 2
    case Encoding => 1
  }

  /**
   While the producer is blocked on a frame it asked for, only the worker can move, it can move, and
   every step it takes brings it closer to DONE.
   */
  lemma BlockedWorkerAdvances(s: System)
    requires Inv(s) && Blocked(s) && s.asked
    ensures Rank(s) > 0
    ensures exists e: Event :: Enabled(s, e)
    ensures forall e: Event | Enabled(s, e) ::
              e.ByWorker() && Next(s, e).asked && Rank(Next(s, e)) < Rank(s)
  {
    var e := match s.worker
      case Waiting => WorkerTakes
      case Sealing => WorkerSeals
      case Gated => WorkerPassesGate
      case Preparing => WorkerSealed(true)
      case Encoding => WorkerDone
      case Replenishing => WorkerReplenishes;
    assert Enabled(s, e);
  }

  ghost predicate ReleasedAt(s: System, trace: seq<Event>, k: nat) {
    k <= |trace| && Runs(s, trace[..k]) && !Blocked(After(s, trace[..k]))
  }

  lemma {:induction false} ReleasedOrCloser(s: System, trace: seq<Event>)
    requires Inv(s) && s.asked && Runs(s, trace)
    ensures (exists k: nat :: ReleasedAt(s, trace, k)) ||
            (After(s, trace).asked && Rank(After(s, trace)) + |trace| <= Rank(s))
    decreases |trace|
  {
    if trace != [] {
      var prefix := Init(trace);
      ReleasedOrCloser(s, prefix);
      if k: nat :| ReleasedAt(s, prefix, k) {
        assert prefix[..k] == trace[..k];
        assert ReleasedAt(s, trace, k);
      } else {
        RunKeepsInv(s, prefix);
        assert trace[..|prefix|] == prefix && prefix[..|prefix|] == prefix;
        assert !ReleasedAt(s, prefix, |prefix|);
        BlockedWorkerAdvances(After(s, prefix));
      }
    }
  }

  /**
   Progress. From any reachable state in which the producer waits for SEALED or DONE on a frame it
   asked for, every schedule of Rank(s) further steps, at most six, releases it on the way.
   */
  lemma EveryScheduleReleasesProducer(s: System, trace: seq<Event>)
    requires Reachable(s) && s.asked && Runs(s, trace) && |trace| == Rank(s)
    ensures exists k: nat :: k <= Rank(s) <= 6 && ReleasedAt(s, trace, k)
  {
    var past :| Runs(INITIAL, past) && After(INITIAL, past) == s;
    RunKeepsInv(INITIAL, past);
    ReleasedOrCloser(s, trace);
    if !exists k: nat :: ReleasedAt(s, trace, k) {
      RunKeepsInv(s, trace);
      assert trace[..|trace|] == trace;
      assert !ReleasedAt(s, trace, |trace|);
      BlockedWorkerAdvances(After(s, trace));
      assert false;
    }
  }

  /** An end that follows an end with no begin between is never released, whatever the worker does. */
  lemma {:induction false} EndAfterEndNeverReturns(s: System, trace: seq<Event>)
    requires Inv(s) && Blocked(s) && !s.asked && Runs(s, trace)
    ensures Blocked(After(s, trace)) && !After(s, trace).asked
    decreases |trace|
  {
    if trace != [] {
      EndAfterEndNeverReturns(s, Init(trace));
      RunKeepsInv(s, Init(trace));
    }
  }

  lemma NeverReleased(s: System)
    requires Inv(s) && Blocked(s) && !s.asked
    ensures !CanBeReleased(s)
  {
    forall more: seq<Event> | Runs(s, more) ensures Blocked(After(s, more)) {
      EndAfterEndNeverReturns(s, more);
    }
  }

  /** What the calls alone say: no end has posted a job since the last begin. */
  ghost predicate BeganSinceLastEnd(trace: seq<Event>) {
    (forall j :: 0 <= j < |trace| ==> !trace[j].Posts?) || exists k: nat :: BeginSinceLastPost(trace, k)
  }

  lemma {:induction false} AskedMeansBegan(trace: seq<Event>)
    requires Runs(INITIAL, trace)
    ensures After(INITIAL, trace).asked <==> BeganSinceLastEnd(trace)
    decreases |trace|
  {
    if trace != [] {
      var prefix := Init(trace);
      var n := |prefix|;
      AskedMeansBegan(prefix);
      if trace[n].Begins? {
        assert BeginSinceLastPost(trace, n);
      } else if trace[n].Posts? {
        assert forall k: nat :: !BeginSinceLastPost(trace, k);
      } else {
        assert forall k: nat :: BeginSinceLastPost(trace, k) <==> BeginSinceLastPost(prefix, k);
      }
    }
  }

  /** The producer can still be released by some continuation. */
  ghost predicate CanBeReleased(s: System) {
    exists more: seq<Event> :: Runs(s, more) && !Blocked(After(s, more))
  }

  /** Letting only the worker run releases the producer. */
  lemma {:induction false} WorkerAlone(s: System, sofar: seq<Event>)
    requires Inv(s) && Runs(s, sofar) && After(s, sofar).asked
    ensures CanBeReleased(s)
    decreases Rank(After(s, sofar))
  {
    var now := After(s, sofar);
    if Blocked(now) {
      RunKeepsInv(s, sofar);
      BlockedWorkerAdvances(now);
      var e: Event :| Enabled(now, e);
      var longer := sofar + [e];
      assert Init(longer) == sofar;
      WorkerAlone(s, longer);
    }
  }

  /**
   Exactly when a waiting producer is released: some continuation of the run releases it if and
   only if a begin was called since the last end (or no end has posted a job yet).
   */
  lemma ReleasedExactlyAfterBegin(trace: seq<Event>)
    requires Runs(INITIAL, trace) && Blocked(After(INITIAL, trace))
    ensures BeganSinceLastEnd(trace) <==> CanBeReleased(After(INITIAL, trace))
  {
    var s := After(INITIAL, trace);
    RunKeepsInv(INITIAL, trace);
    AskedMeansBegan(trace);
    if s.asked {
      WorkerAlone(s, []);
    } else {
      NeverReleased(s);
    }
  }

  lemma FirstFrameIsPosted()
    ensures Reachable(INITIAL.(flags := PostJob(STARTED), posted := 1, asked := false))
  {
    assert Runs(INITIAL, []) && After(INITIAL, []) == INITIAL;
    Reach(INITIAL, Begins(false));
    Reach(INITIAL.(producer := Rechecking), Rechecks);
    Reach(INITIAL.(producer := PreparingHere), Prepares(true));
    var s := INITIAL.(flags := StorePrepared(STARTED, true));
    Reach(s, Ends);
    Reach(s.(producer := Draining), SeesSealedInEnd);
    Reach(s.(producer := JoiningEnd), SeesDoneInEnd);
    Reach(s.(producer := Posting), Posts);
  }

  /** The deadlock is reachable: begin, end, end. */
  lemma EndAfterEndIsReachable()
    ensures exists s :: Reachable(s) && Blocked(s) && !CanBeReleased(s)
  {
    FirstFrameIsPosted();
    var s := INITIAL.(flags := PostJob(STARTED), posted := 1, asked := false);
    Reach(s, Ends);
    s := Next(s, Ends);
    NeverReleased(s);
    assert Reachable(s);
  }

  // ---------------------------------------------------------------- the control block

  /**
   The shared control block: one method per critical section of either thread. The ghost system says
   where both threads stand. Every section is one step of a run from the start, so every result above
   holds whenever a section begins or ends.
   */
  class Controller {
    var jobPending: bool
    var sealed: bool
    var ready: bool
    var framePrepared: bool
    var prepareAllowed: bool
    ghost var system: System

    function Snapshot(): Flags
      reads this
    {
      Flags(jobPending, sealed, ready, framePrepared, prepareAllowed)
    }

    ghost predicate Valid()
      reads this
    {
      Reachable(system) && system.flags == Snapshot()
    }

    constructor ()
      ensures Valid() && system == INITIAL
    {
      jobPending, sealed, ready, framePrepared, prepareAllowed := false, true, true, false, false;
      system := INITIAL;
      assert Runs(INITIAL, []) && After(INITIAL, []) == INITIAL;
    }

    /** A step of either thread that touches no flag: a wait that ends, a call that starts, work between sections. */
    ghost method StepOutside(e: Event)
      requires Valid() && Enabled(system, e) && Next(system, e).flags == system.flags
      modifies this`system
      ensures Valid() && system == Next(old(system), e)
    {
      Reach(system, e);
      system := Next(system, e);
    }

    /** The worker picks up the posted job, the only one outstanding; neither phase is visible meanwhile. */
    method WorkerTakeJob() returns (taken: bool)
      requires Valid() && system.worker == Waiting
      modifies this
      ensures taken == old(system.flags.jobPending)
      ensures Valid() && system == if taken then Next(old(system), WorkerTakes) else old(system)
      ensures taken <==> old(system.posted == system.finished + 1)
      ensures taken ==> !sealed && !ready && system.taken == system.posted
    {
      ReachableKeepsInv(system);
      taken := jobPending;
      jobPending := false;
      if taken {
        Reach(system, WorkerTakes);
        system := Next(system, WorkerTakes);
      }
    }

    /** The worker passes the preparation gate exactly if a begin asked for the frame, and uses the permission up. */
    method WorkerTakePermission() returns (passed: bool)
      requires Valid() && system.worker == Gated
      modifies this
      ensures passed == old(system.flags.prepareAllowed)
      ensures Valid() && system == if passed then Next(old(system), WorkerPassesGate) else old(system)
      ensures passed <==> system.asked
      ensures !prepareAllowed && system.producer != PreparingHere
    {
      ReachableKeepsInv(system);
      passed := prepareAllowed;
      prepareAllowed := false;
      if passed {
        Reach(system, WorkerPassesGate);
        system := Next(system, WorkerPassesGate);
      }
    }

    /** Result and SEALED become visible together, before DONE and with the worker off the producer's state. */
    method WorkerPublishSealed(prepared: bool)
      requires Valid() && system.worker == Preparing
      modifies this
      ensures Valid() && system == Next(old(system), WorkerSealed(prepared))
      ensures !old(sealed) && sealed && !ready && framePrepared == prepared && !UsesProducerState(system.worker)
    {
      ReachableKeepsInv(system);
      framePrepared := prepared;
      sealed := true;
      Reach(system, WorkerSealed(prepared));
      system := Next(system, WorkerSealed(prepared));
    }

    /** With DONE every posted job is finished and both phases are visible. */
    method WorkerPublishDone()
      requires Valid() && system.worker == Encoding
      modifies this
      ensures Valid() && system == Next(old(system), WorkerDone)
      ensures sealed && ready && system.posted == system.finished == old(system.finished) + 1
    {
      ReachableKeepsInv(system);
      ready := true;
      Reach(system, WorkerDone);
      system := Next(system, WorkerDone);
    }

    /**
     First critical section of a begin. While a job is outstanding it makes sure the worker may prepare or
     already has; otherwise it only says whether this thread still has to.
     */
    method ProducerBegin(surfaceChanging: bool) returns (verdict: BeginVerdict)
      requires Valid() && system.producer == Free
      modifies this
      ensures Valid() && system == Next(old(system), Begins(surfaceChanging)) && system.asked
      ensures verdict == JoinPreparation <==> surfaceChanging && system.posted == system.finished + 1
      ensures verdict == RecheckAndPrepare <==> system.posted == system.finished && !framePrepared
      ensures system.posted == system.finished + 1 ==> prepareAllowed || system.worker in {Preparing, Encoding}
      ensures system.posted == system.finished ==> Snapshot() == old(Snapshot())
      ensures system.producer == match verdict case FrameActive => Free
                                               case JoinPreparation => JoiningBegin
                                               case RecheckAndPrepare => Rechecking
    {
      ReachableKeepsInv(system);
      Reach(system, Begins(surfaceChanging));
      system := Next(system, Begins(surfaceChanging));
      if !ready {
        prepareAllowed := true;
        if !surfaceChanging {
          return FrameActive;
        }
        return JoinPreparation;
      } else if framePrepared {
        return FrameActive;
      }
      return RecheckAndPrepare;
    }

    /** Stores the producer's own result; the worker was out of its cycle, so nobody else has prepared the frame. */
    method ProducerStorePrepared(prepared: bool)
      requires Valid() && system.producer == PreparingHere
      modifies this
      ensures Valid() && system == Next(old(system), Prepares(prepared))
      ensures framePrepared == prepared && ready && sealed && !InCycle(system.worker)
      ensures system.posted == system.finished
    {
      ReachableKeepsInv(system);
      framePrepared := prepared;
      Reach(system, Prepares(prepared));
      system := Next(system, Prepares(prepared));
    }

    /**
     Last critical section of an end: no job was outstanding, now exactly this one is, and a begin must ask
     for it.
     */
    method ProducerPostJob()
      requires Valid() && system.producer == Posting
      modifies this
      ensures Valid() && system == Next(old(system), Posts)
      ensures old(system.posted == system.finished && !jobPending)
      ensures system.posted == system.finished + 1 && !system.asked && !sealed && !ready && !prepareAllowed
    {
      ReachableKeepsInv(system);
      framePrepared := false;
      sealed := false;
      ready := false;
      jobPending := true;
      prepareAllowed := false;
      Reach(system, Posts);
      system := Next(system, Posts);
    }
  }
}
