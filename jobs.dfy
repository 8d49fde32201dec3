/**
 The job registry of the daemon: the five lifecycle states, the job record with its
 append-only state history, the lookup by id and the state change that appends to the history.
 */
module Jobs {
  import opened Wrappers

  /** The lifecycle states. Any state may be set from any state. */
  datatype State = Pending | InProgress | Halted | Done | Canceled

  /** One audit entry: the state that was set and the clock reading when it was set. */
  datatype StateEntry = StateEntry(state: State, ts: int)

  /** A training or validation snapshot reported for an epoch. */
  datatype Metric = Metric(accuracy: real, loss: real)

  datatype Job = Job(
    id: string,
    state: State,
    command: string,
    description: Option<string>,
    thresholdPrice: real,
    startTimestamp: int,
    training: seq<Metric>,
    validation: seq<Metric>,
    instanceType: string,
    region: string,
    availabilityZone: string,
    stateHistory: seq<StateEntry>,
    epoch: Option<int>,
    numEpochs: Option<int>)

  /** The registry's invariant for one job: the history is non-empty and its last entry is the current state. */
  predicate WellFormed(j: Job) {
    |j.stateHistory| > 0 && j.stateHistory[|j.stateHistory| - 1].state == j.state
  }

  predicate AllWellFormed(jobs: seq<Job>) {
    forall i :: 0 <= i < |jobs| ==> WellFormed(jobs[i])
  }

  /** The history timestamps never go backwards. */
  predicate Chronological(j: Job) {
    forall a, b :: 0 <= a < b < |j.stateHistory| ==> j.stateHistory[a].ts <= j.stateHistory[b].ts
  }

  /** Every history entry of every job was recorded no later than `now`. */
  predicate RecordedBy(jobs: seq<Job>, now: int) {
    forall i, a :: 0 <= i < |jobs| && 0 <= a < |jobs[i].stateHistory| ==> jobs[i].stateHistory[a].ts <= now
  }

  predicate UniqueIds(jobs: seq<Job>) {
    forall i, k :: 0 <= i < k < |jobs| ==> jobs[i].id != jobs[k].id
  }

  /** The index of the first job, in registry order, whose id is `id`; None when there is none. */
  function FindJob(jobs: seq<Job>, id: string): (r: Option<nat>)
    ensures r.Some? ==> r.value < |jobs| && jobs[r.value].id == id
    ensures r.Some? ==> forall k :: 0 <= k < r.value ==> jobs[k].id != id
    ensures r.None? <==> forall k :: 0 <= k < |jobs| ==> jobs[k].id != id
  {
    if |jobs| == 0 then None
    else if jobs[0].id == id then Some(0)
    else match FindJob(jobs[1..], id)
      case None => None
      case Some(k) => Some(k + 1)
  }

  /** With distinct ids, looking up a job's own id finds that job. */
  lemma FindUnique(jobs: seq<Job>, i: nat)
    requires UniqueIds(jobs) && i < |jobs|
    ensures FindJob(jobs, jobs[i].id) == Some(i)
  {
  }

  /** A job after one state change: the new state, and the same history with one entry appended. */
  function Transitioned(j: Job, s: State, now: int): Job {
    j.(state := s, stateHistory := j.stateHistory + [StateEntry(s, now)])
  }

  /** The job sequence after a state change of the job with id `id`, as the registry performs it. */
  function SetStateById(jobs: seq<Job>, id: string, s: State, now: int): (r: seq<Job>)
    ensures |r| == |jobs|
    ensures forall k :: 0 <= k < |jobs| ==> r[k].id == jobs[k].id
    // an unknown id changes nothing
    ensures FindJob(jobs, id).None? ==> r == jobs
    // the first job with that id takes the new state, whatever its old state was ...
    ensures FindJob(jobs, id).Some? ==>
      var i := FindJob(jobs, id).value;
      r[i].state == s &&
      // ... its history grows by exactly one entry (s, now), the old history kept as a prefix ...
      |r[i].stateHistory| == |jobs[i].stateHistory| + 1 &&
      r[i].stateHistory[..|jobs[i].stateHistory|] == jobs[i].stateHistory &&
      r[i].stateHistory[|jobs[i].stateHistory|] == StateEntry(s, now) &&
      // ... and none of its other fields change
      r[i].(state := jobs[i].state, stateHistory := jobs[i].stateHistory) == jobs[i]
    // every other job is untouched
    ensures forall k :: 0 <= k < |jobs| && FindJob(jobs, id) != Some(k) ==> r[k] == jobs[k]
    // the invariant holds afterwards
    ensures AllWellFormed(jobs) ==> AllWellFormed(r)
  {
    match FindJob(jobs, id)
    case None => jobs
    case Some(i) =>
      var t := Transitioned(jobs[i], s, now);
      assert t.stateHistory[..|jobs[i].stateHistory|] == jobs[i].stateHistory;
      jobs[i := t]
  }

  /** The state change of a job that its own id finds. */
  lemma SetStateAtIndex(jobs: seq<Job>, i: nat, s: State, now: int)
    requires i < |jobs| && FindJob(jobs, jobs[i].id) == Some(i)
    ensures SetStateById(jobs, jobs[i].id, s, now) == jobs[i := Transitioned(jobs[i], s, now)]
  {
  }

  /** Under a clock that does not run backwards, a state change keeps every history chronological. */
  lemma SetStateKeepsChronological(jobs: seq<Job>, id: string, s: State, now: int)
    requires forall i :: 0 <= i < |jobs| ==> Chronological(jobs[i])
    requires RecordedBy(jobs, now)
    ensures var r := SetStateById(jobs, id, s, now);
      (forall i :: 0 <= i < |r| ==> Chronological(r[i])) && RecordedBy(r, now)
  {
    var found := FindJob(jobs, id);
    if found.Some? {
      var i := found.value;
      SetStateAtIndex(jobs, i, s, now);
      var h := jobs[i].stateHistory;
      var h' := Transitioned(jobs[i], s, now).stateHistory;
      assert forall a :: 0 <= a < |h| ==> h'[a] == h[a] && h[a].ts <= now;
      assert Chronological(Transitioned(jobs[i], s, now));
    }
  }

  /** The in-memory registry (`data.jobs`), updated in place by the state change. */
  class Registry {
    var jobs: seq<Job>

    ghost predicate Valid()
      reads this
    {
      AllWellFormed(jobs)
    }

    /** The registry starts from bootstrap jobs that already satisfy the invariant. */
    constructor (initial: seq<Job>)
      requires AllWellFormed(initial)
      ensures Valid() && jobs == initial
    {
      jobs := initial;
    }

    /** The first job with id `id`, or None. */
    function GetJob(id: string): (r: Option<Job>)
      reads this
      ensures r.Some? ==> r.value.id == id && r.value in jobs
      ensures r.Some? ==> exists i :: 0 <= i < |jobs| && jobs[i] == r.value && forall k :: 0 <= k < i ==> jobs[k].id != id
      ensures r.None? <==> forall k :: 0 <= k < |jobs| ==> jobs[k].id != id
    {
      match FindJob(jobs, id)
      case None => None
      case Some(i) => Some(jobs[i])
    }

    /**
     Sets the state of the first job with id `id` and appends `(newState, now)` to its history.
     `ok` is false exactly when no job has that id; then nothing changes.
     */
    method SetJobState(id: string, newState: State, now: int) returns (ok: bool)
      requires Valid()
      modifies this
      ensures Valid()
      ensures ok <==> FindJob(old(jobs), id).Some?
      ensures jobs == SetStateById(old(jobs), id, newState, now)
    {
      var found := FindJob(jobs, id);
      match found {
        case None =>
          ok := false;
        case Some(i) =>
          var job := jobs[i];
          job := job.(state := newState);
          job := job.(stateHistory := job.stateHistory + [StateEntry(newState, now)]);
          jobs := jobs[i := job];
          ok := true;
      }
    }
  }
}
