/**
 The job registry under concurrency: registrants, workers, cancellers and the
 drain observer share one lock, one drain flag and one event bus. Every step
 below is one access that the others can interleave with.
 */
module JobProtocol {
  import opened Wrappers
  import opened Jobs

  /** Where one registrant, later the worker of its job, is. */
  datatype Pc =
    | Registering(jobId: JobId, setName: string, owner: nat)  // before the lock
    | Locked(jobId: JobId, setName: string, owner: nat)       // lock held, drain flag not read
    | Checked(jobId: JobId, setName: string, owner: nat)      // lock held, drain flag read as unset
    | Inserted(jobId: JobId)                                  // in the registry, lock released, `Started` not published
    | Working(jobId: JobId)                                   // the job runs
    | Ending(jobId: JobId, w: WorkOutcome)                    // lock held, outcome not retained
    | Retained(jobId: JobId, w: WorkOutcome)                  // lock held, retained, end not published
    | Gone
  {
    predicate HoldsLock() {
      Locked? || Checked? || Ending? || Retained?
    }

    /** The job this thread has admitted and not ended yet. */
    function Job(): Option<JobId> {
      if Inserted? || Working? || Ending? || Retained? then Some(jobId) else None
    }
  }

  type Thread = nat

  datatype State = State(
    lock: Option<Thread>,
    entries: Entries,
    draining: bool,
    bus: seq<Event>,
    threads: map<Thread, Pc>)

  const INITIAL := State(None, map[], false, [], map[])

  datatype Action =
    | Spawn(t: Thread, jobId: JobId, setName: string, owner: nat)
    | TakeLock(t: Thread)
    | ReadFlag(t: Thread)
    | Insert(t: Thread)
    | PublishStarted(t: Thread)
    | PublishProgress(t: Thread, event: Event)
    | BeginEnd(t: Thread, w: WorkOutcome)
    | Retain(t: Thread)
    | PublishEnd(t: Thread)
    | CancelOne(jobId: JobId)
    | CancelEvery
    | BeginDrain

  ghost predicate Enabled(s: State, a: Action) {
    match a
    case Spawn(t, _, _, _) => t !in s.threads
    case TakeLock(t) => t in s.threads && s.threads[t].Registering? && s.lock.None?
    case ReadFlag(t) => t in s.threads && s.threads[t].Locked?
    case Insert(t) => t in s.threads && s.threads[t].Checked?
    case PublishStarted(t) => t in s.threads && s.threads[t].Inserted?
    case PublishProgress(t, event) =>
      t in s.threads && s.threads[t].Working? && event.IsProgress() && event.jobId == s.threads[t].jobId
    case BeginEnd(t, _) => t in s.threads && s.threads[t].Working? && s.lock.None?
    case Retain(t) => t in s.threads && s.threads[t].Ending? && s.threads[t].jobId in s.entries
    case PublishEnd(t) => t in s.threads && s.threads[t].Retained?
    case CancelOne(id) => s.lock.None? && id in s.entries
    case CancelEvery => s.lock.None?
    case BeginDrain => true
  }

  ghost function Fire(s: State, a: Action): State
    requires Enabled(s, a)
  {
    match a
    case Spawn(t, id, setName, owner) => s.(threads := s.threads[t := Registering(id, setName, owner)])
    case TakeLock(t) =>
      var pc := s.threads[t];
      s.(lock := Some(t), threads := s.threads[t := Locked(pc.jobId, pc.setName, pc.owner)])
    case ReadFlag(t) =>
      var pc := s.threads[t];
      if s.draining then s.(lock := None, threads := s.threads[t := Gone])
      else s.(threads := s.threads[t := Checked(pc.jobId, pc.setName, pc.owner)])
    case Insert(t) =>
      var pc := s.threads[t];
      if Free(s.entries, pc.jobId, pc.setName) then
        s.(lock := None,
           entries := s.entries[pc.jobId := NewEntry(pc.setName, pc.owner)],
           threads := s.threads[t := Inserted(pc.jobId)])
      else s.(lock := None, threads := s.threads[t := Gone])
    case PublishStarted(t) =>
      var id := s.threads[t].jobId;
      s.(bus := s.bus + [Started(id)], threads := s.threads[t := Working(id)])
    case PublishProgress(_, event) => s.(bus := s.bus + [event])
    case BeginEnd(t, w) => s.(lock := Some(t), threads := s.threads[t := Ending(s.threads[t].jobId, w)])
    case Retain(t) =>
      var pc := s.threads[t];
      s.(entries := s.entries[pc.jobId := Ended(s.entries[pc.jobId], pc.w)],
         threads := s.threads[t := Retained(pc.jobId, pc.w)])
    case PublishEnd(t) =>
      var pc := s.threads[t];
      s.(lock := None, bus := s.bus + [EndEvent(pc.jobId, pc.w)], threads := s.threads[t := Gone])
    case CancelOne(id) => s.(entries := s.entries[id := Cancelling(s.entries[id])])
    case CancelEvery => s.(entries := CancellingActive(s.entries))
    case BeginDrain => s.(draining := true)
  }

  // --------------------------------------------------------------- the bus

  datatype BusPhase = Idle | Open | Broken

  /** Where the events of one job leave off: between blocks, inside one, or out of order. */
  ghost function PhaseOf(bus: seq<Event>, id: JobId): BusPhase {
    if bus == [] then Idle
    else
      var e, before := bus[|bus| - 1], PhaseOf(bus[..|bus| - 1], id);
      if e.jobId != id then before
      else if before.Idle? && e.Started? then Open
      else if before.Open? && e.IsProgress() then Open
      else if before.Open? && e.IsTerminal() then Idle
      else Broken
  }

  /** The last terminal event of a job on the bus. */
  ghost function LastTerminal(bus: seq<Event>, id: JobId): Option<Event> {
    if bus == [] then None
    else
      var e := bus[|bus| - 1];
      if e.jobId == id && e.IsTerminal() then Some(e) else LastTerminal(bus[..|bus| - 1], id)
  }

  lemma Append(bus: seq<Event>, e: Event, id: JobId)
    ensures PhaseOf(bus + [e], id) ==
            if e.jobId != id then PhaseOf(bus, id)
            else if PhaseOf(bus, id).Idle? && e.Started? then Open
            else if PhaseOf(bus, id).Open? && e.IsProgress() then Open
            else if PhaseOf(bus, id).Open? && e.IsTerminal() then Idle
            else Broken
    ensures LastTerminal(bus + [e], id) == if e.jobId == id && e.IsTerminal() then Some(e) else LastTerminal(bus, id)
  {
    assert (bus + [e])[..|bus|] == bus;
  }

  // ------------------------------------------------------------- invariant

  /** At most one thread holds the lock, and it is the one the lock names. */
  ghost predicate LockInv(s: State) {
    && (s.lock.Some? ==> s.lock.value in s.threads)
    && forall t :: t in s.threads ==> (s.threads[t].HoldsLock() <==> s.lock == Some(t))
  }

  /** A job has at most one thread. */
  ghost predicate OneThread(s: State) {
    forall t, u :: t in s.threads && u in s.threads && t != u && s.threads[t].Job().Some? ==>
      s.threads[t].Job() != s.threads[u].Job()
  }

  /** A thread's job is registered, and active until its outcome is retained. */
  ghost predicate Registered(s: State) {
    forall t :: t in s.threads && s.threads[t].Job().Some? ==>
      var id := s.threads[t].jobId;
      && id in s.entries
      && (s.entries[id].Active() <==> !s.threads[t].Retained?)
      && (s.threads[t].Retained? ==> TerminalEvent(id, s.entries[id]) == Some(EndEvent(id, s.threads[t].w)))
  }

  ghost predicate Quiet(s: State, id: JobId) {
    forall t :: t in s.threads ==> s.threads[t].Job() != Some(id)
  }

  /** The bus of a job is inside a block exactly while its thread is between the two publications. */
  ghost predicate BusInv(s: State) {
    && (forall t :: t in s.threads && s.threads[t].Job().Some? ==>
          PhaseOf(s.bus, s.threads[t].jobId) == if s.threads[t].Inserted? then Idle else Open)
    && forall id :: Quiet(s, id) ==> PhaseOf(s.bus, id) == Idle
  }

  /** Entries are never pending; an active one gives no event, an ended one gives one. */
  ghost predicate EntriesInv(s: State) {
    forall id :: id in s.entries ==>
      && !s.entries[id].state.Pending?
      && (s.entries[id].Active() <==> TerminalEvent(id, s.entries[id]).None?)
  }

  /** An ended job gives back its last terminal event, unless its thread is just about to publish it. */
  ghost predicate EventInv(s: State) {
    forall id :: id in s.entries && !s.entries[id].Active() && Quiet(s, id) ==>
      LastTerminal(s.bus, id) == TerminalEvent(id, s.entries[id])
  }

  /** No two active jobs share a set. */
  ghost predicate SetInv(s: State) {
    forall a, b :: a in s.entries && b in s.entries && a != b && s.entries[a].Active() && s.entries[b].Active() ==>
      s.entries[a].setName != s.entries[b].setName
  }

  ghost predicate NoneActive(s: State) {
    forall id :: id in s.entries ==> !s.entries[id].Active()
  }

  /** No job is active and none is about to be: nobody has read the drain flag as unset. */
  ghost predicate Drained(s: State) {
    s.draining && NoneActive(s) && forall t :: t in s.threads ==> !s.threads[t].Checked?
  }

  ghost predicate Inv(s: State) {
    LockInv(s) && OneThread(s) && Registered(s) && BusInv(s) && EntriesInv(s) && EventInv(s) && SetInv(s)
  }

  lemma LockKept(s: State, a: Action)
    requires LockInv(s) && Enabled(s, a)
    ensures LockInv(Fire(s, a))
  {
  }

  /** The registrant about to insert a free job finds no thread of that job. */
  lemma InsertIsQuiet(s: State, t: Thread)
    requires LockInv(s) && Registered(s) && Enabled(s, Insert(t))
    requires !IsActive(s.entries, s.threads[t].jobId)
    ensures Quiet(s, s.threads[t].jobId)
  {
  }

  lemma OneThreadKept(s: State, a: Action)
    requires LockInv(s) && OneThread(s) && Registered(s) && Enabled(s, a)
    ensures OneThread(Fire(s, a))
  {
    if a.Insert? && Free(s.entries, s.threads[a.t].jobId, s.threads[a.t].setName) { InsertIsQuiet(s, a.t); }
  }

  lemma RegisteredKept(s: State, a: Action)
    requires LockInv(s) && OneThread(s) && Registered(s) && EntriesInv(s) && Enabled(s, a)
    ensures Registered(Fire(s, a))
  {
    match a
    case Insert(t) =>
      if Free(s.entries, s.threads[t].jobId, s.threads[t].setName) { InsertIsQuiet(s, t); }
    case Retain(t) => EndedGivesEvent(s.threads[t].jobId, s.entries[s.threads[t].jobId], s.threads[t].w);
    case _ =>
  }

  lemma SetKept(s: State, a: Action)
    requires EntriesInv(s) && SetInv(s) && Enabled(s, a)
    ensures SetInv(Fire(s, a))
  {
    if a.Retain? { EndedGivesEvent(s.threads[a.t].jobId, s.entries[s.threads[a.t].jobId], s.threads[a.t].w); }
  }

  lemma EntriesKept(s: State, a: Action)
    requires EntriesInv(s) && Enabled(s, a)
    ensures EntriesInv(Fire(s, a))
  {
    if a.Retain? { EndedGivesEvent(s.threads[a.t].jobId, s.entries[s.threads[a.t].jobId], s.threads[a.t].w); }
  }

  lemma DrainedKept(s: State, a: Action)
    requires Drained(s) && Enabled(s, a)
    ensures Drained(Fire(s, a))
  {
    if a.Retain? { EndedGivesEvent(s.threads[a.t].jobId, s.entries[s.threads[a.t].jobId], s.threads[a.t].w); }
  }

  /** A job that is quiet after a step was quiet before, unless the step was the last of its own thread. */
  lemma QuietBefore(s: State, a: Action, id: JobId)
    requires Enabled(s, a) && Quiet(Fire(s, a), id)
    ensures Quiet(s, id) || (a.PublishEnd? && s.threads[a.t].jobId == id)
  {
    var s' := Fire(s, a);
    forall t | t in s.threads && s'.threads[t] == s.threads[t] ensures s.threads[t].Job() != Some(id) {
      assert t in s'.threads;
    }
    match a
    case Spawn(t, _, _, _) => assert t in s'.threads;
    case PublishStarted(t) => assert s'.threads[t].Job() == s.threads[t].Job();
    case BeginEnd(t, _) => assert s'.threads[t].Job() == s.threads[t].Job();
    case Retain(t) => assert s'.threads[t].Job() == s.threads[t].Job();
    case _ =>
  }

  predicate Publishes(a: Action) {
    a.PublishStarted? || a.PublishProgress? || a.PublishEnd?
  }

  ghost function Published(s: State, a: Action): Event
    requires Enabled(s, a) && Publishes(a)
  {
    match a
    case PublishStarted(t) => Started(s.threads[t].jobId)
    case PublishProgress(_, event) => event
    case PublishEnd(t) => EndEvent(s.threads[t].jobId, s.threads[t].w)
  }

  lemma BusKeptSilently(s: State, a: Action)
    requires LockInv(s) && Registered(s) && BusInv(s) && Enabled(s, a) && !Publishes(a)
    ensures BusInv(Fire(s, a))
  {
    var s' := Fire(s, a);
    if a.Insert? && Free(s.entries, s.threads[a.t].jobId, s.threads[a.t].setName) { InsertIsQuiet(s, a.t); }
    forall id | Quiet(s', id) ensures PhaseOf(s'.bus, id) == Idle {
      QuietBefore(s, a, id);
    }
  }

  lemma BusKeptPublishing(s: State, a: Action)
    requires OneThread(s) && BusInv(s) && Enabled(s, a) && Publishes(a)
    ensures BusInv(Fire(s, a))
  {
    var s', e := Fire(s, a), Published(s, a);
    assert s'.bus == s.bus + [e] && s.threads[a.t].Job() == Some(e.jobId);
    forall id ensures id != e.jobId ==> PhaseOf(s'.bus, id) == PhaseOf(s.bus, id) {
      Append(s.bus, e, id);
    }
    Append(s.bus, e, e.jobId);
    forall id | Quiet(s', id) ensures PhaseOf(s'.bus, id) == Idle {
      QuietBefore(s, a, id);
    }
  }

  /** A step that publishes nothing keeps what an ended job gives back. */
  lemma EventKeptSilently(s: State, a: Action, id: JobId)
    requires EntriesInv(s) && EventInv(s) && Enabled(s, a) && !Publishes(a)
    requires var s' := Fire(s, a); id in s'.entries && !s'.entries[id].Active() && Quiet(s', id)
    ensures LastTerminal(s.bus, id) == TerminalEvent(id, Fire(s, a).entries[id])
  {
    var s' := Fire(s, a);
    QuietBefore(s, a, id);
    match a
    case Insert(t) => if Free(s.entries, s.threads[t].jobId, s.threads[t].setName) { assert id != s.threads[t].jobId; }
    case Retain(t) => assert s'.threads[t].Job() == Some(s.threads[t].jobId);
    case _ =>
  }

  lemma EventKept(s: State, a: Action)
    requires Registered(s) && OneThread(s) && EntriesInv(s) && EventInv(s) && Enabled(s, a)
    ensures EventInv(Fire(s, a))
  {
    var s' := Fire(s, a);
    forall id | id in s'.entries && !s'.entries[id].Active() && Quiet(s', id)
      ensures LastTerminal(s'.bus, id) == TerminalEvent(id, s'.entries[id])
    {
      if Publishes(a) {
        Append(s.bus, Published(s, a), id);
        QuietBefore(s, a, id);
      } else {
        EventKeptSilently(s, a, id);
      }
    }
  }

  lemma InvKept(s: State, a: Action)
    requires Inv(s) && Enabled(s, a)
    ensures Inv(Fire(s, a))
  {
    LockKept(s, a);
    OneThreadKept(s, a);
    RegisteredKept(s, a);
    if Publishes(a) { BusKeptPublishing(s, a); } else { BusKeptSilently(s, a); }
    EntriesKept(s, a);
    EventKept(s, a);
    SetKept(s, a);
  }

  // ------------------------------------------------------------------ runs

  ghost predicate Stepped(s: State, s': State) {
    exists a :: Enabled(s, a) && s' == Fire(s, a)
  }

  /** Any interleaving, from the start of the daemon. */
  ghost predicate IsRun(run: seq<State>) {
    |run| > 0 && run[0] == INITIAL && forall i :: 0 <= i < |run| - 1 ==> Stepped(run[i], run[i + 1])
  }

  lemma {:induction false} RunKeepsInv(run: seq<State>, i: nat)
    requires IsRun(run) && i < |run|
    ensures Inv(run[i])
  {
    if i > 0 {
      RunKeepsInv(run, i - 1);
      assert Stepped(run[i - 1], run[i]);
      var a :| Enabled(run[i - 1], a) && run[i] == Fire(run[i - 1], a);
      InvKept(run[i - 1], a);
    }
  }

  /** In every interleaving a set has at most one active job. */
  lemma OneActiveJobPerSet(run: seq<State>, i: nat, a: JobId, b: JobId)
    requires IsRun(run) && i < |run|
    requires IsActive(run[i].entries, a) && IsActive(run[i].entries, b)
             && run[i].entries[a].setName == run[i].entries[b].setName
    ensures a == b
  {
    RunKeepsInv(run, i);
  }

  /** In every interleaving a job whose thread is about to end is still registered, so its outcome is never lost. */
  lemma OutcomeIsNeverLost(run: seq<State>, i: nat, t: Thread)
    requires IsRun(run) && i < |run| && t in run[i].threads && run[i].threads[t].Ending?
    ensures Enabled(run[i], Retain(t)) && run[i].lock == Some(t)
  {
    RunKeepsInv(run, i);
  }

  /**
   In every interleaving a job gives back a terminal event exactly when it has
   ended; and unless its thread holds the lock to publish that event, it is the
   last terminal event of the job on the bus.
   */
  lemma RetainedEventIsPublished(run: seq<State>, i: nat, id: JobId)
    requires IsRun(run) && i < |run| && id in run[i].entries
    ensures var s, e := run[i], run[i].entries[id];
            && (TerminalEvent(id, e).Some? <==> e.state in {Finished, Failed, Cancelled})
            && (TerminalEvent(id, e).Some? && s.lock.None? ==> LastTerminal(s.bus, id) == TerminalEvent(id, e))
  {
    RunKeepsInv(run, i);
    var s := run[i];
    if !s.entries[id].Active() && s.lock.None? {
      assert Quiet(s, id);
    }
  }

  /**
   Drain safety: if, with the drain flag set, an observer that gets the lock
   sees no active job, no job is active at any later step, whatever
   registrations had started before the flag was set.
   */
  lemma {:induction false} DrainIsFinal(run: seq<State>, i: nat, j: nat)
    requires IsRun(run) && i <= j < |run|
    requires run[i].draining && run[i].lock.None? && NoneActive(run[i])
    ensures Drained(run[j])
  {
    if i == j {
      RunKeepsInv(run, i);
    } else {
      DrainIsFinal(run, i, j - 1);
      assert Stepped(run[j - 1], run[j]);
      var a :| Enabled(run[j - 1], a) && run[j] == Fire(run[j - 1], a);
      DrainedKept(run[j - 1], a);
    }
  }

  // ------------------------------------------------------- blocks on the bus

  /** The events of one job, in publication order. */
  ghost function Project(bus: seq<Event>, id: JobId): seq<Event> {
    if bus == [] then []
    else Project(bus[..|bus| - 1], id) + if bus[|bus| - 1].jobId == id then [bus[|bus| - 1]] else []
  }

  /** A started job and its progress so far. */
  ghost predicate OpenBlock(es: seq<Event>) {
    |es| > 0 && es[0].Started? && forall k :: 0 < k < |es| ==> es[k].IsProgress()
  }

  /** A whole block: started, progress, one terminal event. */
  ghost predicate Block(es: seq<Event>) {
    |es| > 0 && es[|es| - 1].IsTerminal() && OpenBlock(es[..|es| - 1])
  }

  ghost function Flatten(blocks: seq<seq<Event>>): seq<Event> {
    if blocks == [] then [] else Flatten(blocks[..|blocks| - 1]) + blocks[|blocks| - 1]
  }

  ghost predicate AllBlocks(blocks: seq<seq<Event>>) {
    forall k :: 0 <= k < |blocks| ==> Block(blocks[k])
  }

  /** The events of a job that are not out of order split into whole blocks and at most one open one. */
  lemma {:induction false} PhaseMeansBlocks(bus: seq<Event>, id: JobId)
    returns (blocks: seq<seq<Event>>, tail: seq<Event>)
    requires PhaseOf(bus, id) != Broken
    ensures AllBlocks(blocks) && Project(bus, id) == Flatten(blocks) + tail
    ensures if PhaseOf(bus, id).Idle? then tail == [] else OpenBlock(tail)
  {
    if bus == [] {
      return [], [];
    }
    var front, e := bus[..|bus| - 1], bus[|bus| - 1];
    blocks, tail := PhaseMeansBlocks(front, id);
    if e.jobId == id {
      if e.IsTerminal() {
        var block := tail + [e];
        assert block[..|block| - 1] == tail;
        assert (blocks + [block])[..|blocks|] == blocks;
        blocks, tail := blocks + [block], [];
      } else {
        tail := tail + [e];
      }
    }
  }

  /**
   In every interleaving, even when job ids are reused, the bus carries for
   each job a sequence of (started, progress, terminal) blocks and at most one
   open block at its end; none is open unless a thread is in the middle of it.
   */
  lemma BusIsBlocks(run: seq<State>, i: nat, id: JobId) returns (blocks: seq<seq<Event>>, tail: seq<Event>)
    requires IsRun(run) && i < |run|
    ensures AllBlocks(blocks) && Project(run[i].bus, id) == Flatten(blocks) + tail
    ensures tail == [] || OpenBlock(tail)
    ensures Quiet(run[i], id) ==> tail == []
  {
    RunKeepsInv(run, i);
    if !Quiet(run[i], id) {
      var t :| t in run[i].threads && run[i].threads[t].Job() == Some(id);
    }
    blocks, tail := PhaseMeansBlocks(run[i].bus, id);
  }

  // -------------------------------------------- the registry's own methods

  /** A registrant that takes the lock and is not interrupted before it works or is gone. */
  ghost function RegisterRun(s: State, t: Thread): State
    requires Enabled(s, TakeLock(t))
  {
    var s2 := Fire(Fire(s, TakeLock(t)), ReadFlag(t));
    if s2.threads[t].Gone? then s2
    else
      var s3 := Fire(s2, Insert(t));
      if s3.threads[t].Gone? then s3 else Fire(s3, PublishStarted(t))
  }

  /** A registration that nothing interleaves with has the effect of the registry's method. */
  lemma RegisterAlone(s: State, t: Thread)
    requires Enabled(s, TakeLock(t))
    ensures var pc, s' := s.threads[t], RegisterRun(s, t);
            && RegisterEffect(s.draining, s.entries, s.bus, pc.jobId, pc.setName, pc.owner, s'.threads[t].Working?,
                              s'.entries, s'.bus)
            && s'.lock.None? && s'.draining == s.draining
  {
  }

  /** An end of work that nothing interleaves with has the effect of the registry's method. */
  lemma FinishAlone(s: State, t: Thread, w: WorkOutcome)
    requires Enabled(s, BeginEnd(t, w)) && s.threads[t].jobId in s.entries
    ensures var id, s' := s.threads[t].jobId, Fire(Fire(Fire(s, BeginEnd(t, w)), Retain(t)), PublishEnd(t));
            && FinishEffect(s.entries, s.bus, id, w, s'.entries, s'.bus)
            && s'.lock.None? && s'.threads[t] == Gone
  {
    EndingHasEffect(s.entries, s.bus, s.threads[t].jobId, w);
  }

  /** In every interleaving a worker's end, once begun, has that effect if nothing comes between. */
  lemma FinishAloneInRun(run: seq<State>, i: nat, t: Thread, w: WorkOutcome)
    requires IsRun(run) && i < |run| && Enabled(run[i], BeginEnd(t, w))
    ensures run[i].threads[t].jobId in run[i].entries
    ensures var s := run[i]; var s' := Fire(Fire(Fire(s, BeginEnd(t, w)), Retain(t)), PublishEnd(t));
            FinishEffect(s.entries, s.bus, s.threads[t].jobId, w, s'.entries, s'.bus)
  {
    RunKeepsInv(run, i);
    FinishAlone(run[i], t, w);
  }

  // ---------------------------------------------------- where a cancellation comes from

  /** An interleaving with the step that led to each state. */
  ghost predicate IsRunOf(run: seq<State>, steps: seq<Action>) {
    && |run| == |steps| + 1 && run[0] == INITIAL
    && forall i :: 0 <= i < |steps| ==> Enabled(run[i], steps[i]) && run[i + 1] == Fire(run[i], steps[i])
  }

  /** This step asks the job to stop. */
  ghost predicate AsksToStop(s: State, a: Action, id: JobId) {
    && id in s.entries
    && (a == CancelOne(id) || (a == CancelEvery && PendingOrRunning(s.entries, id)))
  }

  /** This step puts a new entry under the job's id. */
  ghost predicate Admits(s: State, a: Action, id: JobId) {
    a.Insert? && Enabled(s, a) && s.threads[a.t].jobId == id && Free(s.entries, id, s.threads[a.t].setName)
  }

  /** The job was asked to stop at step `k` and has not been admitted anew since. */
  ghost predicate AskedAt(run: seq<State>, steps: seq<Action>, k: int, j: nat, id: JobId)
    requires |run| == |steps| + 1
  {
    && 0 <= k < j <= |steps| && AsksToStop(run[k], steps[k], id)
    && forall i :: k < i < j ==> !Admits(run[i], steps[i], id)
  }

  lemma FlagStep(s: State, a: Action, id: JobId)
    requires Enabled(s, a) && id in Fire(s, a).entries
    ensures AsksToStop(s, a, id) ==> Fire(s, a).entries[id].cancel
    ensures Admits(s, a, id) ==> !Fire(s, a).entries[id].cancel
    ensures !AsksToStop(s, a, id) && !Admits(s, a, id) ==>
              id in s.entries && Fire(s, a).entries[id].cancel == s.entries[id].cancel
  {
  }

  lemma AskedEarlier(run: seq<State>, steps: seq<Action>, before: nat, id: JobId)
    requires |run| == |steps| + 1 && before < |steps|
    requires !AsksToStop(run[before], steps[before], id)
    ensures var now := before + 1;
            (exists k :: AskedAt(run, steps, k, now, id)) <==>
            !Admits(run[before], steps[before], id) && exists k :: AskedAt(run, steps, k, before, id)
  {
    var now := before + 1;
    if k :| AskedAt(run, steps, k, now, id) {
      assert k < before;
      assert AskedAt(run, steps, k, before, id);
    }
    if !Admits(run[before], steps[before], id) {
      if k :| AskedAt(run, steps, k, before, id) {
        assert AskedAt(run, steps, k, now, id);
      }
    }
  }

  /**
   In every interleaving the cancel flag of a job is up exactly when the job
   itself, or every active job while it was one, was asked to stop since it
   was last admitted; an admitted job starts with the flag down.
   */
  lemma {:induction false} CancelHasACause(run: seq<State>, steps: seq<Action>, j: nat, id: JobId)
    requires IsRunOf(run, steps) && j < |run| && id in run[j].entries
    ensures run[j].entries[id].cancel <==> exists k :: AskedAt(run, steps, k, j, id)
  {
    if j > 0 {
      var s, a := run[j - 1], steps[j - 1];
      assert Enabled(s, a) && run[j] == Fire(s, a);
      FlagStep(s, a, id);
      if AsksToStop(s, a, id) {
        assert AskedAt(run, steps, j - 1, j, id);
      } else {
        AskedEarlier(run, steps, j - 1, id);
        if !Admits(s, a, id) {
          CancelHasACause(run, steps, j - 1, id);
        }
      }
    }
  }
}
