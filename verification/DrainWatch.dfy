/** Which jobs still make progress while a stopping daemon waits for them. */
module DrainWatch {
  import opened Wrappers
  import opened Jobs

  /** Seconds on a monotonic clock. */
  type Instant = nat

  /** How long a job may stand still and still hold up the stop. */
  const STALL_LIMIT: nat := 300

  datatype Seen = Seen(phase: string, done: nat, total: nat, advanced: Instant)

  /** An event and when the watch saw it. */
  datatype Observed = Observed(event: Event, at: Instant)

  /** Time passed since `earlier`, zero when the clock is behind it. */
  function DurationSince(now: Instant, earlier: Instant): nat {
    if now >= earlier then now - earlier else 0
  }

  /** What is known of a job, or nothing seen since the watch started. */
  function SeenOf(jobs: map<JobId, Seen>, started: Instant, id: JobId): Seen {
    if id in jobs then jobs[id] else Seen("", 0, 0, started)
  }

  /** The records after one more event. */
  function After(jobs: map<JobId, Seen>, started: Instant, event: Event, now: Instant): map<JobId, Seen> {
    var seen := SeenOf(jobs, started, event.jobId);
    match event
    case Phase(id, name) =>
      jobs[id := if seen.phase != name then seen.(phase := name, advanced := now) else seen]
    case Progress(id, done, total) =>
      jobs[id := seen.(done := done, total := total, advanced := if seen.done != done then now else seen.advanced)]
    case Started(_) => jobs
    case _ => jobs - {event.jobId}
  }

  ghost function Replay(started: Instant, history: seq<Observed>): map<JobId, Seen> {
    if history == [] then map[]
    else
      var last := history[|history| - 1];
      After(Replay(started, history[..|history| - 1]), started, last.event, last.at)
  }

  lemma ReplayStep(started: Instant, history: seq<Observed>, o: Observed)
    ensures Replay(started, history + [o]) == After(Replay(started, history), started, o.event, o.at)
  {
    assert (history + [o])[..|history|] == history;
  }

  class DrainWatch {
    const started: Instant
    var jobs: map<JobId, Seen>
    ghost var history: seq<Observed>

    constructor (now: Instant)
      ensures Valid() && started == now && history == []
    {
      started, jobs, history := now, map[], [];
    }

    ghost predicate Valid()
      reads this
    {
      jobs == Replay(started, history)
    }

    /** Take an event into account; terminal events forget their job. */
    method Observe(event: Event, now: Instant)
      requires Valid()
      modifies this
      ensures Valid() && history == old(history) + [Observed(event, now)]
    {
      var seen := SeenOf(jobs, started, event.jobId);
      match event {
        case Phase(id, name) =>
          if seen.phase != name {
            seen := seen.(phase := name, advanced := now);
          }
          jobs := jobs[id := seen];
        case Progress(id, done, total) =>
          if seen.done != done {
            seen := seen.(advanced := now);
          }
          seen := seen.(done := done, total := total);
          jobs := jobs[id := seen];
        case Started(_) =>
        case FinishedEvent(id, _) => jobs := jobs - {id};
        case FailedEvent(id, _, _) => jobs := jobs - {id};
        case VerificationCompleted(id, _) => jobs := jobs - {id};
      }
      ReplayStep(started, history, Observed(event, now));
      history := history + [Observed(event, now)];
    }

    function Advanced(id: JobId): Instant
      reads this
    {
      if id in jobs then jobs[id].advanced else started
    }

    /** The stop may wait when one of the active jobs moved within the limit. */
    method ShouldExtend(active: seq<(JobId, string)>, now: Instant) returns (extend: bool)
      requires Valid()
      ensures extend <==> exists k :: 0 <= k < |active| && Recent(started, history, active[k].0, now)
    {
      extend := false;
      for k := 0 to |active|
        invariant extend <==> exists j :: 0 <= j < k && Recent(started, history, active[j].0, now)
      {
        AdvancedIsLastAdvance(started, history, active[k].0);
        if DurationSince(now, Advanced(active[k].0)) < STALL_LIMIT {
          assert Recent(started, history, active[k].0, now);
          extend := true;
        }
      }
    }
  }

  // ------------------------------------------------ the meaning in the history

  ghost predicate Ends(o: Observed, id: JobId) {
    o.event.jobId == id && o.event.IsTerminal()
  }

  /** The phase the current run of a job is in: the last one named since its last terminal event. */
  ghost function CurrentPhase(history: seq<Observed>, id: JobId): string {
    if history == [] then ""
    else
      var last := history[|history| - 1];
      if Ends(last, id) then ""
      else if last.event.Phase? && last.event.jobId == id then last.event.name
      else CurrentPhase(history[..|history| - 1], id)
  }

  /** The byte count of the current run of a job. */
  ghost function CurrentDone(history: seq<Observed>, id: JobId): nat {
    if history == [] then 0
    else
      var last := history[|history| - 1];
      if Ends(last, id) then 0
      else if last.event.Progress? && last.event.jobId == id then last.event.done
      else CurrentDone(history[..|history| - 1], id)
  }

  /** Event `i` changed the phase or the byte count of the job, in a run that has not ended since. */
  ghost predicate Advances(history: seq<Observed>, id: JobId, i: nat)
    requires i < |history|
  {
    var event, before := history[i].event, history[..i];
    && event.jobId == id
    && (|| (event.Phase? && event.name != CurrentPhase(before, id))
        || (event.Progress? && event.done != CurrentDone(before, id)))
    && forall j :: i < j < |history| ==> !Ends(history[j], id)
  }

  /** `t` is when the job last really advanced: the watch start if it never did in its current run. */
  ghost predicate LastAdvance(started: Instant, history: seq<Observed>, id: JobId, t: Instant) {
    || (t == started && forall i :: 0 <= i < |history| ==> !Advances(history, id, i))
    || exists i :: 0 <= i < |history| && Advances(history, id, i) && t == history[i].at
                   && forall j :: i < j < |history| ==> !Advances(history, id, j)
  }

  lemma LastAdvanceUnique(started: Instant, history: seq<Observed>, id: JobId, t: Instant, u: Instant)
    requires LastAdvance(started, history, id, t) && LastAdvance(started, history, id, u)
    ensures t == u
  {
  }

  /** The job advanced less than 300 seconds before `now`. */
  ghost predicate Recent(started: Instant, history: seq<Observed>, id: JobId, now: Instant) {
    exists t: Instant :: LastAdvance(started, history, id, t) && now < t + 300
  }

  lemma {:induction false} ReplayKnows(started: Instant, history: seq<Observed>, id: JobId)
    ensures SeenOf(Replay(started, history), started, id).phase == CurrentPhase(history, id)
    ensures SeenOf(Replay(started, history), started, id).done == CurrentDone(history, id)
  {
    if history != [] {
      ReplayKnows(started, history[..|history| - 1], id);
    }
  }

  lemma AdvancesBefore(history: seq<Observed>, id: JobId, i: nat)
    requires i < |history| - 1
    ensures Advances(history, id, i) <==> Advances(history[..|history| - 1], id, i) && !Ends(history[|history| - 1], id)
  {
    assert history[..|history| - 1][..i] == history[..i];
  }

  /** The recorded time is the time of the last real advance in the whole event history. */
  lemma {:induction false} AdvancedIsLastAdvance(started: Instant, history: seq<Observed>, id: JobId)
    ensures LastAdvance(started, history, id, SeenOf(Replay(started, history), started, id).advanced)
  {
    if history != [] {
      var n := |history| - 1;
      var front, last := history[..n], history[n];
      AdvancedIsLastAdvance(started, front, id);
      AdvanceStep(started, history, id);
    }
  }

  /** An event that is no advance itself, or ends the run, leaves nothing after `i` that advanced. */
  lemma NoneLater(history: seq<Observed>, front: seq<Observed>, id: JobId, i: int)
    requires history != [] && front == history[..|history| - 1]
    requires -1 <= i < |front| && !Advances(history, id, |front|)
    requires Ends(history[|front|], id) || forall j :: i < j < |front| ==> !Advances(front, id, j)
    ensures forall j :: i < j < |history| ==> !Advances(history, id, j)
  {
    forall j | i < j < |history| ensures !Advances(history, id, j) {
      if j < |history| - 1 { AdvancesBefore(history, id, j); }
    }
  }

  /** One more event moves the last advance exactly when it is one. */
  lemma AdvanceStep(started: Instant, history: seq<Observed>, id: JobId)
    requires history != []
    requires var front := history[..|history| - 1];
             LastAdvance(started, front, id, SeenOf(Replay(started, front), started, id).advanced)
    ensures LastAdvance(started, history, id, SeenOf(Replay(started, history), started, id).advanced)
  {
    var n := |history| - 1;
    var front, last := history[..n], history[n];
    var t := SeenOf(Replay(started, front), started, id).advanced;
    var u := SeenOf(Replay(started, history), started, id).advanced;
    ReplayKnows(started, front, id);
    assert u == if Ends(last, id) then started else if Advances(history, id, n) then last.at else t;
    if Advances(history, id, n) {
      assert LastAdvance(started, history, id, last.at);
    } else if Ends(last, id) || forall i :: 0 <= i < n ==> !Advances(front, id, i) {
      NoneLater(history, front, id, -1);
    } else {
      var i :| 0 <= i < n && Advances(front, id, i) && t == front[i].at
                && forall j :: i < j < n ==> !Advances(front, id, j);
      AdvancesBefore(history, id, i);
      NoneLater(history, front, id, i);
    }
  }
}
