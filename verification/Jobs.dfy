/**
 The daemon's in-memory job registry: admission, outcome, cancellation, and
 the event a retained result gives back.
 */
module Jobs {
  import opened Wrappers

  datatype JobState = Pending | Running | Finished | Failed | Cancelled

  type JobId = string

  datatype AttemptOutcome = IntegrityVerified | IntegrityVerifiedWithRecordedLoss | Incomplete(cancelled: bool)

  datatype Recording = Recorded | NotRecorded | PublicationUnconfirmed

  /** A captured verification: what was observed and whether its receipt was recorded. */
  datatype Captured = Captured(outcome: AttemptOutcome, recording: Recording, report: Option<string>)

  /** The state and the error a captured verification ends its job with. */
  function JobOutcome(c: Captured): (JobState, Option<(string, string)>) {
    match c.outcome
    case Incomplete(true) => (Cancelled, Some(("E_CANCELLED", "verification was cancelled")))
    case Incomplete(false) => (Failed, Some(("E_VERIFY_INCOMPLETE", "verification did not complete")))
    case _ =>
      match c.recording
      case Recorded => (Finished, None)
      case NotRecorded => (Failed, Some(("E_HISTORY_NOT_RECORDED", "receipt was not recorded")))
      case PublicationUnconfirmed =>
        (Failed, Some(("E_HISTORY_PUBLICATION_UNCONFIRMED", "receipt publication was not confirmed")))
  }

  /** How a worker ends: a report, an error, or a captured verification. */
  datatype WorkOutcome =
    | Report(summary: string)
    | Failure(code: string, message: string, cancelled: bool)
    | Verification(captured: Captured)

  datatype Event =
    | Started(jobId: JobId)
    | Phase(jobId: JobId, name: string)
    | Progress(jobId: JobId, done: nat, total: nat)
    | FinishedEvent(jobId: JobId, summary: string)
    | FailedEvent(jobId: JobId, code: string, message: string)
    | VerificationCompleted(jobId: JobId, captured: Captured)
  {
    predicate IsTerminal() {
      FinishedEvent? || FailedEvent? || VerificationCompleted?
    }

    predicate IsProgress() {
      Phase? || Progress?
    }
  }

  datatype Entry = Entry(
    setName: string,
    owner: nat,
    state: JobState,
    cancel: bool,
    summary: Option<string>,
    error: Option<(string, string)>,
    verification: Option<Captured>)
  {
    predicate Active() {
      state.Pending? || state.Running?
    }

    /** A job that never started needs no worker to end it. */
    function AfterCancel(): JobState {
      if state.Pending? then Cancelled else state
    }
  }

  /** The event that the retained result of a job gives back, if it has ended. */
  function TerminalEvent(id: JobId, e: Entry): Option<Event> {
    if e.verification.Some? then Some(VerificationCompleted(id, e.verification.value))
    else
      match e.state
      case Finished => if e.summary.Some? then Some(FinishedEvent(id, e.summary.value)) else None
      case Failed => if e.error.Some? then Some(FailedEvent(id, e.error.value.0, e.error.value.1)) else None
      case Cancelled => if e.error.Some? then Some(FailedEvent(id, e.error.value.0, e.error.value.1)) else None
      case Pending => None
      case Running => None
  }

  type Entries = map<JobId, Entry>

  predicate IsActive(entries: Entries, id: JobId) {
    id in entries && entries[id].Active()
  }

  /** Neither this job nor another job of its set is pending or running. */
  predicate Free(entries: Entries, id: JobId, setName: string) {
    && !IsActive(entries, id)
    && forall other :: other in entries && other != id && entries[other].setName == setName ==>
                         !entries[other].Active()
  }

  function NewEntry(setName: string, owner: nat): Entry {
    Entry(setName, owner, Running, false, None, None, None)
  }

  /** The entry after its worker ended. */
  function Ended(e: Entry, w: WorkOutcome): Entry {
    match w
    case Report(summary) => e.(verification := None, state := Finished, summary := Some(summary), error := None)
    case Failure(code, message, cancelled) =>
      e.(verification := None, state := if cancelled then Cancelled else Failed, summary := None,
         error := Some((code, message)))
    case Verification(c) =>
      e.(state := JobOutcome(c).0, error := JobOutcome(c).1, summary := None, verification := Some(c))
  }

  /** The terminal event a worker's end publishes. */
  function EndEvent(id: JobId, w: WorkOutcome): Event {
    match w
    case Report(summary) => FinishedEvent(id, summary)
    case Failure(code, message, _) => FailedEvent(id, code, message)
    case Verification(c) => VerificationCompleted(id, c)
  }

  /** However a job ends, its retained entry is inactive and gives back the very event it published. */
  lemma EndedGivesEvent(id: JobId, e: Entry, w: WorkOutcome)
    ensures !Ended(e, w).Active() && Ended(e, w).setName == e.setName
    ensures TerminalEvent(id, Ended(e, w)) == Some(EndEvent(id, w))
    ensures EndEvent(id, w).IsTerminal() && EndEvent(id, w).jobId == id
  {
  }

  /** The entry after a cancel request; a job that has not started ends at once. */
  function Cancelling(e: Entry): Entry {
    e.(cancel := true, state := e.AfterCancel())
  }

  function CancellingActive(entries: Entries): Entries {
    map id | id in entries :: if entries[id].Active() then entries[id].(cancel := true) else entries[id]
  }

  // ---------------------------------------- what the operations mean, field by field

  ghost predicate PendingOrRunning(entries: Entries, id: JobId) {
    id in entries && (entries[id].state == Pending || entries[id].state == Running)
  }

  /** An entry that has just been made: running, not cancelled, with nothing to report yet. */
  ghost predicate IsFresh(e: Entry, setName: string, owner: nat) {
    && e.setName == setName && e.owner == owner
    && e.state == Running && !e.cancel
    && e.summary.None? && e.error.None? && e.verification.None?
  }

  /** Only the entry of `id` may differ, and it is there. */
  ghost predicate OnlyEntry(entries: Entries, id: JobId, entriesAfter: Entries) {
    && entriesAfter.Keys == entries.Keys + {id}
    && forall other :: other in entries && other != id ==>
                         other in entriesAfter && entriesAfter[other] == entries[other]
  }

  /** What a registration does: it admits the job, or it refuses and changes nothing. */
  ghost predicate RegisterEffect(draining: bool, entries: Entries, bus: seq<Event>, id: JobId, setName: string,
                                 owner: nat, admitted: bool, entriesAfter: Entries, busAfter: seq<Event>)
  {
    && (admitted <==>
        && !draining
        && !PendingOrRunning(entries, id)
        && forall other :: PendingOrRunning(entries, other) ==> entries[other].setName != setName)
    && (admitted ==>
          && OnlyEntry(entries, id, entriesAfter) && IsFresh(entriesAfter[id], setName, owner)
          && busAfter == bus + [Started(id)])
    && (!admitted ==> entriesAfter == entries && busAfter == bus)
  }

  /** A verification that ran to its end and whose receipt is on record. */
  ghost predicate IsRecorded(c: Captured) {
    c.outcome != Incomplete(true) && c.outcome != Incomplete(false) && c.recording == Recorded
  }

  /** The state, report and error of a job that has ended this way. */
  ghost predicate EndsAs(e: Entry, w: WorkOutcome) {
    && (e.state == Finished <==> w.Report? || (w.Verification? && IsRecorded(w.captured)))
    && (e.state == Cancelled <==>
        (w.Failure? && w.cancelled) || (w.Verification? && w.captured.outcome == Incomplete(true)))
    && (e.state == Failed <==> e.state != Finished && e.state != Cancelled)
    && (e.summary.Some? <==> w.Report?) && (w.Report? ==> e.summary.value == w.summary)
    && (e.error.Some? <==> e.state != Finished) && (w.Failure? ==> e.error.value == (w.code, w.message))
    && (e.verification.Some? <==> w.Verification?) && (w.Verification? ==> e.verification.value == w.captured)
    && (w.Verification? && e.error.Some? ==> e.error.value.0 == ErrorCode(w.captured))
  }

  /** The code of a verification that ended without a recorded result. */
  ghost function ErrorCode(c: Captured): string {
    if c.outcome == Incomplete(true) then "E_CANCELLED"
    else if c.outcome == Incomplete(false) then "E_VERIFY_INCOMPLETE"
    else if c.recording == NotRecorded then "E_HISTORY_NOT_RECORDED"
    else "E_HISTORY_PUBLICATION_UNCONFIRMED"
  }

  /** The event that tells the bus how a job ended. */
  ghost predicate Announces(event: Event, id: JobId, w: WorkOutcome) {
    && event.jobId == id
    && (w.Report? ==> event.FinishedEvent? && event.summary == w.summary)
    && (w.Failure? ==> event.FailedEvent? && event.code == w.code && event.message == w.message)
    && (w.Verification? ==> event.VerificationCompleted? && event.captured == w.captured)
  }

  /** What the end of a known job does: its outcome is retained and published. */
  ghost predicate FinishEffect(entries: Entries, bus: seq<Event>, id: JobId, w: WorkOutcome, entriesAfter: Entries,
                               busAfter: seq<Event>)
  {
    && id in entries && OnlyEntry(entries, id, entriesAfter)
    && EndsAs(entriesAfter[id], w)
    && entriesAfter[id].setName == entries[id].setName && entriesAfter[id].owner == entries[id].owner
    && entriesAfter[id].cancel == entries[id].cancel
    && |busAfter| == |bus| + 1 && busAfter[..|bus|] == bus && Announces(busAfter[|bus|], id, w)
    && TerminalEvent(id, entriesAfter[id]) == Some(busAfter[|bus|])
  }

  lemma EndedEndsAs(id: JobId, e: Entry, w: WorkOutcome)
    ensures EndsAs(Ended(e, w), w) && Announces(EndEvent(id, w), id, w)
    ensures var after := Ended(e, w); after.setName == e.setName && after.owner == e.owner && after.cancel == e.cancel
  {
  }

  /** Ending a known job, retaining and publishing, has the effect of an end. */
  lemma EndingHasEffect(entries: Entries, bus: seq<Event>, id: JobId, w: WorkOutcome)
    requires id in entries
    ensures FinishEffect(entries, bus, id, w, entries[id := Ended(entries[id], w)], bus + [EndEvent(id, w)])
  {
    EndedGivesEvent(id, entries[id], w);
    EndedEndsAs(id, entries[id], w);
  }

  /** The jobs of a set, what became of them, and all that was published about them. */
  class Registry {
    var entries: Entries
    var draining: bool
    var bus: seq<Event>

    constructor ()
      ensures entries == map[] && !draining && bus == []
    {
      entries, draining, bus := map[], false, [];
    }

    /** Stop admitting jobs; running ones continue. */
    method BeginDrain()
      modifies this`draining
      ensures draining
    {
      draining := true;
    }

    /** Admit a job unless the daemon stops, the job runs already, or its set is busy. */
    method RegisterFor(id: JobId, setName: string, owner: nat) returns (r: Result<()>)
      modifies this`entries, this`bus
      ensures RegisterEffect(draining, old(entries), old(bus), id, setName, owner, r.Success?, entries, bus)
    {
      if draining {
        return Result.Failure(Busy);
      }
      if id in entries && entries[id].Active() {
        return Result.Failure(Busy);
      }
      if exists other ::
           other in entries && other != id && entries[other].setName == setName && entries[other].Active()
      {
        return Result.Failure(Busy);
      }
      entries := entries[id := NewEntry(setName, owner)];
      bus := bus + [Started(id)];
      return Success(());
    }

    /** A worker is done: retain how it ended, then announce it. */
    method Finish(id: JobId, w: WorkOutcome) returns (r: Result<Entry>)
      modifies this`entries, this`bus
      ensures r.Success? <==> id in old(entries)
      ensures r.Success? ==> FinishEffect(old(entries), old(bus), id, w, entries, bus) && r.value == entries[id]
      ensures r.Failure? ==> entries == old(entries) && bus == old(bus)
    {
      if id !in entries {
        return Result.Failure(Unsupported);
      }
      var entry := Ended(entries[id], w);
      EndedGivesEvent(id, entries[id], w);
      EndingHasEffect(entries, bus, id, w);
      entries := entries[id := entry];
      var event := TerminalEvent(id, entry);
      if event.Some? {
        bus := bus + [event.value];
      }
      return Success(entry);
    }

    /** Set the cancel flag of one job; a job still pending ends here and now. */
    method Cancel(id: JobId) returns (r: Result<Entry>)
      modifies this`entries
      ensures r.Success? <==> id in old(entries)
      ensures r.Success? ==> entries.Keys == old(entries).Keys && id in entries && r.value == entries[id]
      ensures r.Success? ==>
                forall other :: other in old(entries) && other != id ==> entries[other] == old(entries)[other]
      ensures r.Success? && id in old(entries) ==>
                var was := old(entries)[id];
                entries[id] == was.(cancel := true, state := if was.state == Pending then Cancelled else was.state)
      ensures r.Failure? ==> entries == old(entries)
    {
      if id !in entries {
        return Result.Failure(Unsupported);
      }
      entries := entries[id := Cancelling(entries[id])];
      return Success(entries[id]);
    }

    /** Set the cancel flag of every active job, entry by entry. */
    method CancelAll()
      modifies this`entries
      ensures entries.Keys == old(entries).Keys
      ensures forall id :: id in old(entries) ==>
                             var was := old(entries)[id];
                             entries[id] == was.(cancel := was.cancel || was.state == Pending || was.state == Running)
      ensures entries == CancellingActive(old(entries))
    {
      var left := entries.Keys;
      while left != {}
        invariant left <= entries.Keys == old(entries).Keys
        invariant forall id :: id in old(entries) ==>
                                 entries[id] == if id in left then old(entries)[id]
                                                else CancellingActive(old(entries))[id]
        decreases |left|
      {
        var id :| id in left;
        if entries[id].Active() {
          entries := entries[id := entries[id].(cancel := true)];
        }
        left := left - {id};
      }
    }

    /** Who is active, and on which set. */
    method ActiveJobs() returns (active: map<JobId, string>)
      ensures forall id :: id in active <==> PendingOrRunning(entries, id)
      ensures forall id :: id in active && id in entries ==> active[id] == entries[id].setName
    {
      active := map id | id in entries && entries[id].Active() :: entries[id].setName;
    }
  }
}
