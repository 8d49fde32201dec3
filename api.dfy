/**
 The job lifecycle operations that the HTTP handlers perform on the registry and the price
 oracle: creation, metric recording, start, halt, finish, the price admission check and the
 sweep that moves every pending or halted job to IN_PROGRESS.
 */
module Api {
  import opened Wrappers
  import opened Jobs
  import opened Prices

  /** The id a new job gets: the caller's id unless it is absent or empty, else the generated one. */
  function ChooseId(id: Option<string>, freshId: string): string {
    if id.Some? && id.value != "" then id.value else freshId
  }

  /** A newly created job: PENDING, one history entry stamped with its start time, no metrics. */
  function NewJob(id: Option<string>, freshId: string, command: string, description: Option<string>,
                  thresholdPrice: real, now: int): (j: Job)
    ensures WellFormed(j) && Chronological(j)
    ensures j.state == Pending && j.stateHistory == [StateEntry(Pending, now)]
    ensures j.id == ChooseId(id, freshId) && j.startTimestamp == now
    ensures j.command == command && j.description == description && j.thresholdPrice == thresholdPrice
    ensures j.training == [] && j.validation == [] && j.epoch.None? && j.numEpochs.None?
    ensures j.instanceType == SupportedInstanceType && j.region == SupportedRegion
    ensures j.availabilityZone == SupportedAvailabilityZone
  {
    Job(ChooseId(id, freshId), Pending, command, description, thresholdPrice, now, [], [],
        SupportedInstanceType, SupportedRegion, SupportedAvailabilityZone,
        [StateEntry(Pending, now)], None, None)
  }

  /** Creates a job and appends it to the registry. No check rejects an id already in use. */
  method CreateJob(reg: Registry, id: Option<string>, freshId: string, command: string,
                   description: Option<string>, thresholdPrice: real, now: int) returns (job: Job)
    requires reg.Valid()
    modifies reg
    ensures reg.Valid()
    ensures job == NewJob(id, freshId, command, description, thresholdPrice, now)
    ensures reg.jobs == old(reg.jobs) + [job]
    // an id already in use is accepted, and lookups of it still find the earlier job
    ensures FindJob(old(reg.jobs), job.id).Some? ==> FindJob(reg.jobs, job.id) == FindJob(old(reg.jobs), job.id)
    // an id not yet in use is found at the end, and keeps the ids distinct
    ensures FindJob(old(reg.jobs), job.id).None? ==> FindJob(reg.jobs, job.id) == Some(|old(reg.jobs)|)
    ensures UniqueIds(old(reg.jobs)) && FindJob(old(reg.jobs), job.id).None? ==> UniqueIds(reg.jobs)
  {
    job := NewJob(id, freshId, command, description, thresholdPrice, now);
    FindAfterAppend(reg.jobs, job, job.id);
    reg.jobs := reg.jobs + [job];
  }

  /**
   After appending `j`, a lookup of a new id finds `j` at the end, a lookup of an id already
   present still finds the earlier job (so a duplicate is unreachable by id), and every other
   lookup is as before.
   */
  lemma {:induction false} FindAfterAppend(jobs: seq<Job>, j: Job, id: string)
    ensures FindJob(jobs + [j], id) ==
      if FindJob(jobs, id).Some? then FindJob(jobs, id)
      else if j.id == id then Some(|jobs|)
      else None
  {
    if jobs != [] && jobs[0].id != id {
      FindAfterAppend(jobs[1..], j, id);
      assert (jobs + [j])[1..] == jobs[1..] + [j];
    }
  }

  /** Records the metrics of an epoch; the validation snapshot is appended only when one is given. */
  method RecordMetric(reg: Registry, id: string, epoch: int, training: Metric,
                      validation: Option<Metric>) returns (ok: bool)
    requires reg.Valid()
    modifies reg
    ensures reg.Valid()
    ensures ok <==> FindJob(old(reg.jobs), id).Some?
    ensures !ok ==> reg.jobs == old(reg.jobs)
    ensures ok ==>
      var i := FindJob(old(reg.jobs), id).value;
      var j := old(reg.jobs)[i];
      reg.jobs == old(reg.jobs)[i := j.(
        epoch := Some(epoch),
        training := j.training + [training],
        validation := if validation.Some? then j.validation + [validation.value] else j.validation)]
  {
    var found := FindJob(reg.jobs, id);
    if found.None? {
      return false;
    }
    var i := found.value;
    var job := reg.jobs[i];
    job := job.(epoch := Some(epoch));
    job := job.(training := job.training + [training]);
    if validation.Some? {
      job := job.(validation := job.validation + [validation.value]);
    }
    reg.jobs := reg.jobs[i := job];
    ok := true;
  }

  /** Starts a job: IN_PROGRESS through one history append, then records the planned epochs. */
  method StartJob(reg: Registry, id: string, numEpochs: int, now: int) returns (ok: bool)
    requires reg.Valid()
    modifies reg
    ensures reg.Valid()
    ensures ok <==> FindJob(old(reg.jobs), id).Some?
    ensures !ok ==> reg.jobs == old(reg.jobs)
    ensures ok ==>
      var i := FindJob(old(reg.jobs), id).value;
      reg.jobs == old(reg.jobs)[i := Transitioned(old(reg.jobs)[i], InProgress, now).(numEpochs := Some(numEpochs))]
  {
    var found := FindJob(reg.jobs, id);
    if found.None? {
      return false;
    }
    var i := found.value;
    ok := reg.SetJobState(reg.jobs[i].id, InProgress, now);
    reg.jobs := reg.jobs[i := reg.jobs[i].(numEpochs := Some(numEpochs))];
  }

  /** Halts a job: HALTED through one history append. */
  method HaltJob(reg: Registry, id: string, now: int) returns (ok: bool)
    requires reg.Valid()
    modifies reg
    ensures reg.Valid()
    ensures ok <==> FindJob(old(reg.jobs), id).Some?
    ensures reg.jobs == SetStateById(old(reg.jobs), id, Halted, now)
  {
    var found := FindJob(reg.jobs, id);
    if found.None? {
      return false;
    }
    ok := reg.SetJobState(reg.jobs[found.value].id, Halted, now);
  }

  /** Finishes a job: DONE through one history append. */
  method FinishJob(reg: Registry, id: string, now: int) returns (ok: bool)
    requires reg.Valid()
    modifies reg
    ensures reg.Valid()
    ensures ok <==> FindJob(old(reg.jobs), id).Some?
    ensures reg.jobs == SetStateById(old(reg.jobs), id, Done, now)
  {
    var found := FindJob(reg.jobs, id);
    if found.None? {
      return false;
    }
    ok := reg.SetJobState(reg.jobs[found.value].id, Done, now);
  }

  /** The answers of the admission check: unknown job, no price yet, 400 or 200. */
  datatype Admission = NotFound | NoPrice | Rejected | Admitted

  /**
   A job is admitted exactly when its threshold is strictly above the current price; a
   threshold equal to the price is rejected. The job is looked up before the price is read.
   */
  method CheckAdmission(reg: Registry, oracle: PriceOracle, id: string) returns (r: Admission)
    ensures r == NotFound <==> FindJob(reg.jobs, id).None?
    ensures r == NoPrice <==> FindJob(reg.jobs, id).Some? && oracle.History() == []
    ensures r == Admitted <==>
      FindJob(reg.jobs, id).Some? && oracle.History() != [] &&
      reg.jobs[FindJob(reg.jobs, id).value].thresholdPrice > oracle.History()[|oracle.History()| - 1].price
    ensures r == Rejected <==>
      FindJob(reg.jobs, id).Some? && oracle.History() != [] &&
      reg.jobs[FindJob(reg.jobs, id).value].thresholdPrice <= oracle.History()[|oracle.History()| - 1].price
  {
    var job := reg.GetJob(id);
    if job.None? {
      return NotFound;
    }
    var price := oracle.CurrentPrice();
    if price.None? {
      return NoPrice;
    }
    r := if job.value.thresholdPrice <= price.value then Rejected else Admitted;
  }

  /** Ready to (re)start: PENDING or HALTED, whatever the price. */
  predicate Startable(j: Job) {
    j.state == Pending || j.state == Halted
  }

  /** The indices of the startable jobs, in registry order. */
  function StartableIndices(jobs: seq<Job>): (r: seq<nat>)
    ensures forall k :: 0 <= k < |r| ==> r[k] < |jobs| && Startable(jobs[r[k]])
    ensures forall k, l :: 0 <= k < l < |r| ==> r[k] < r[l]
    ensures forall i :: 0 <= i < |jobs| && Startable(jobs[i]) ==> i in r
  {
    if jobs == [] then []
    else
      var rest := StartableIndices(jobs[..|jobs| - 1]);
      if Startable(jobs[|jobs| - 1]) then rest + [|jobs| - 1] else rest
  }

  /** The ids of the jobs at the given indices. */
  function IdsAt(jobs: seq<Job>, idx: seq<nat>): (ids: seq<string>)
    requires forall k :: 0 <= k < |idx| ==> idx[k] < |jobs|
    ensures |ids| == |idx| && forall k :: 0 <= k < |idx| ==> ids[k] == jobs[idx[k]].id
  {
    seq(|idx|, k requires 0 <= k < |idx| => jobs[idx[k]].id)
  }

  /** The jobs at the given indices. */
  function JobsAt(jobs: seq<Job>, idx: seq<nat>): (js: seq<Job>)
    requires forall k :: 0 <= k < |idx| ==> idx[k] < |jobs|
    ensures |js| == |idx| && forall k :: 0 <= k < |idx| ==> js[k] == jobs[idx[k]]
  {
    seq(|idx|, k requires 0 <= k < |idx| => jobs[idx[k]])
  }

  /**
   The jobs after one state change per id, made in the order of `ids`; the i-th change is
   stamped with the clock reading `stamps[i]`.
   */
  function SetStateMany(jobs: seq<Job>, ids: seq<string>, s: State, stamps: seq<int>): (r: seq<Job>)
    requires |stamps| == |ids|
    ensures |r| == |jobs|
    ensures forall k :: 0 <= k < |jobs| ==> r[k].id == jobs[k].id
    ensures AllWellFormed(jobs) ==> AllWellFormed(r)
  {
    if ids == [] then jobs
    else
      var n := |ids| - 1;
      SetStateById(SetStateMany(jobs, ids[..n], s, stamps[..n]), ids[n], s, stamps[n])
  }

  /** One more state change extends the sequence of state changes by one. */
  lemma SetStateManyStep(jobs: seq<Job>, ids: seq<string>, k: nat, s: State, stamps: seq<int>)
    requires k < |ids| == |stamps|
    ensures SetStateMany(jobs, ids[..k + 1], s, stamps[..k + 1]) ==
      SetStateById(SetStateMany(jobs, ids[..k], s, stamps[..k]), ids[k], s, stamps[k])
  {
    assert ids[..k + 1][..k] == ids[..k];
    assert stamps[..k + 1][..k] == stamps[..k];
  }

  /**
   The sweep: selects the startable jobs in registry order, then calls the state change with
   IN_PROGRESS once per selected job, by its id; the clock is read once per state change,
   giving `stamps`. It returns the selected jobs as they are after all the state changes.
   */
  method SweepPending(reg: Registry, stamps: seq<int>) returns (started: seq<Job>)
    requires reg.Valid()
    requires |stamps| == |StartableIndices(reg.jobs)|
    modifies reg
    ensures reg.Valid()
    ensures reg.jobs == SetStateMany(old(reg.jobs), IdsAt(old(reg.jobs), StartableIndices(old(reg.jobs))), InProgress, stamps)
    ensures started == JobsAt(reg.jobs, StartableIndices(old(reg.jobs)))
  {
    var idx := StartableIndices(reg.jobs);
    var ids := IdsAt(reg.jobs, idx);
    ghost var jobs0 := reg.jobs;
    var k := 0;
    while k < |ids|
      invariant 0 <= k <= |ids|
      invariant reg.Valid()
      invariant reg.jobs == SetStateMany(jobs0, ids[..k], InProgress, stamps[..k])
    {
      var _ := reg.SetJobState(ids[k], InProgress, stamps[k]);
      SetStateManyStep(jobs0, ids, k, InProgress, stamps);
      k := k + 1;
    }
    assert ids[..|ids|] == ids && stamps[..|ids|] == stamps;
    started := JobsAt(reg.jobs, idx);
  }

  /**
   With distinct ids, changing the state of the jobs at distinct indices `idx`, one by one by
   their ids, changes exactly those jobs: the job at `idx[j]` by one state change stamped `stamps[j]`.
   */
  lemma {:induction false} SetStateManyAt(jobs: seq<Job>, idx: seq<nat>, s: State, stamps: seq<int>)
    requires UniqueIds(jobs)
    requires |stamps| == |idx|
    requires forall k :: 0 <= k < |idx| ==> idx[k] < |jobs|
    requires forall k, l :: 0 <= k < l < |idx| ==> idx[k] != idx[l]
    ensures var r := SetStateMany(jobs, IdsAt(jobs, idx), s, stamps);
      (forall j :: 0 <= j < |idx| ==> r[idx[j]] == Transitioned(jobs[idx[j]], s, stamps[j])) &&
      (forall k :: 0 <= k < |jobs| && k !in idx ==> r[k] == jobs[k])
  {
    if idx != [] {
      var n := |idx| - 1;
      var last, idx' := idx[n], idx[..n];
      var ids := IdsAt(jobs, idx);
      assert ids[..n] == IdsAt(jobs, idx');
      SetStateManyAt(jobs, idx', s, stamps[..n]);
      var prev := SetStateMany(jobs, ids[..n], s, stamps[..n]);
      assert UniqueIds(prev);
      FindUnique(prev, last);
      SetStateAtIndex(prev, last, s, stamps[n]);
      var r := SetStateMany(jobs, ids, s, stamps);
      assert r == prev[last := Transitioned(prev[last], s, stamps[n])];
      assert last !in idx';
      forall j | 0 <= j < |idx|
        ensures r[idx[j]] == Transitioned(jobs[idx[j]], s, stamps[j])
      {
        if j < n {
          assert idx[j] == idx'[j] && idx[j] != last;
        }
      }
      forall k | 0 <= k < |jobs| && k !in idx
        ensures r[k] == jobs[k]
      {
        assert k !in idx' && k != last;
      }
    }
  }

  /**
   With distinct ids, the sweep moves the j-th selected job to IN_PROGRESS with exactly one new
   history entry, stamped with the j-th clock reading; every job that is not PENDING or HALTED
   is untouched.
   */
  lemma SweepEffect(jobs: seq<Job>, stamps: seq<int>)
    requires UniqueIds(jobs)
    requires |stamps| == |StartableIndices(jobs)|
    ensures var idx := StartableIndices(jobs);
      var r := SetStateMany(jobs, IdsAt(jobs, idx), InProgress, stamps);
      (forall j :: 0 <= j < |idx| ==> r[idx[j]] == Transitioned(jobs[idx[j]], InProgress, stamps[j])) &&
      (forall k :: 0 <= k < |jobs| && !Startable(jobs[k]) ==> r[k] == jobs[k])
  {
    var idx := StartableIndices(jobs);
    SetStateManyAt(jobs, idx, InProgress, stamps);
  }

  /** With distinct ids, every job that was PENDING or HALTED is IN_PROGRESS after the sweep. */
  lemma SweepStartsAll(jobs: seq<Job>, stamps: seq<int>)
    requires UniqueIds(jobs)
    requires |stamps| == |StartableIndices(jobs)|
    ensures var r := SetStateMany(jobs, IdsAt(jobs, StartableIndices(jobs)), InProgress, stamps);
      forall k :: 0 <= k < |jobs| ==> if Startable(jobs[k]) then r[k].state == InProgress else r[k] == jobs[k]
  {
    var idx := StartableIndices(jobs);
    var r := SetStateMany(jobs, IdsAt(jobs, idx), InProgress, stamps);
    SweepEffect(jobs, stamps);
    forall k | 0 <= k < |jobs| && Startable(jobs[k])
      ensures r[k].state == InProgress
    {
      var j :| 0 <= j < |idx| && idx[j] == k;
    }
  }

  /**
   With distinct ids, the sweep returns exactly the startable jobs in registry order, the j-th
   now IN_PROGRESS with the entry (IN_PROGRESS, stamps[j]) appended to its history.
   */
  lemma SweepResult(jobs: seq<Job>, stamps: seq<int>)
    requires UniqueIds(jobs)
    requires |stamps| == |StartableIndices(jobs)|
    ensures var idx := StartableIndices(jobs);
      var r := SetStateMany(jobs, IdsAt(jobs, idx), InProgress, stamps);
      var started := JobsAt(r, idx);
      |started| == |idx| &&
      forall k :: 0 <= k < |idx| ==>
        Startable(jobs[idx[k]]) &&
        started[k] == Transitioned(jobs[idx[k]], InProgress, stamps[k]) &&
        started[k].state == InProgress
  {
    SweepEffect(jobs, stamps);
  }

  /** With distinct ids, a second sweep right after the first selects nothing. */
  lemma SweepTwiceSelectsNothing(jobs: seq<Job>, stamps: seq<int>)
    requires UniqueIds(jobs)
    requires |stamps| == |StartableIndices(jobs)|
    ensures StartableIndices(SetStateMany(jobs, IdsAt(jobs, StartableIndices(jobs)), InProgress, stamps)) == []
  {
    SweepStartsAll(jobs, stamps);
    NothingStartable(SetStateMany(jobs, IdsAt(jobs, StartableIndices(jobs)), InProgress, stamps));
  }

  lemma {:induction false} NothingStartable(jobs: seq<Job>)
    requires forall k :: 0 <= k < |jobs| ==> !Startable(jobs[k])
    ensures StartableIndices(jobs) == []
  {
    if jobs != [] {
      NothingStartable(jobs[..|jobs| - 1]);
    }
  }

  /**
   When two jobs share an id, the sweep selects both but changes the first one twice and the
   second one never: the second is returned still HALTED.
   */
  lemma SweepWithSharedId(a: Job, b: Job, t0: int, t1: int)
    requires a.id == b.id && a.state == Pending && b.state == Halted
    ensures StartableIndices([a, b]) == [0, 1]
    ensures var jobs := [a, b];
      var r := SetStateMany(jobs, IdsAt(jobs, StartableIndices(jobs)), InProgress, [t0, t1]);
      r == [Transitioned(Transitioned(a, InProgress, t0), InProgress, t1), b] &&
      JobsAt(r, StartableIndices(jobs))[1].state == Halted
  {
    var jobs := [a, b];
    StartableOfTwo(a, b);
    var idx := StartableIndices(jobs);
    assert IdsAt(jobs, idx) == [a.id, a.id];
    SharedIdTwice(a, b, t0, t1);
    var r := SetStateMany(jobs, [a.id, a.id], InProgress, [t0, t1]);
    assert JobsAt(r, idx)[1] == r[1] == b;
  }

  lemma StartableOfTwo(a: Job, b: Job)
    requires Startable(a) && Startable(b)
    ensures StartableIndices([a, b]) == [0, 1]
  {
    assert [a][..0] == [];
    assert StartableIndices([a]) == StartableIndices([]) + [0];
    assert [a, b][..1] == [a];
    assert StartableIndices([a, b]) == StartableIndices([a]) + [1];
  }

  /** Two state changes by a shared id both hit the first of the two jobs. */
  lemma SharedIdTwice(a: Job, b: Job, t0: int, t1: int)
    requires a.id == b.id
    ensures SetStateMany([a, b], [a.id, a.id], InProgress, [t0, t1]) ==
      [Transitioned(Transitioned(a, InProgress, t0), InProgress, t1), b]
  {
    var jobs := [a, b];
    assert [a.id, a.id][..1] == [a.id] && [a.id][..0] == [];
    assert [t0, t1][..1] == [t0] && [t0][..0] == [];
    assert SetStateMany(jobs, [], InProgress, []) == jobs;
    SetStateAtIndex(jobs, 0, InProgress, t0);
    var once := SetStateMany(jobs, [a.id], InProgress, [t0]);
    assert once == [Transitioned(a, InProgress, t0), b];
    SetStateAtIndex(once, 0, InProgress, t1);
  }

  /** The admission scenario: no price, a lower price, an equal price, an unknown job. */
  method AdmissionScenario() {
    var reg := new Registry([]);
    var oracle := new PriceOracle();
    var a := CreateJob(reg, Some("A"), "", "train", None, 5.0, 0);
    var r := CheckAdmission(reg, oracle, "A");
    assert r == NoPrice;
    oracle.AddMock(4.5, 1);
    r := CheckAdmission(reg, oracle, "A");
    assert r == Admitted;
    oracle.AddMock(5.0, 2);
    r := CheckAdmission(reg, oracle, "A");
    assert r == Rejected;
    r := CheckAdmission(reg, oracle, "B");
    assert r == NotFound;
    var refreshed := oracle.Refresh(Fetched([PricePoint(1.0, 3)]));
    assert refreshed == Suppressed && oracle.CurrentPrice() == Some(5.0);
  }

  lemma StartableOfThree(p: Job, h: Job, d: Job)
    requires p.state == Pending && h.state == Halted && d.state == Done
    ensures StartableIndices([p, h, d]) == [0, 1]
  {
    assert [p, h, d][..2] == [p, h];
    StartableOfTwo(p, h);
  }

  /** The sweep scenario: a PENDING and a HALTED job are selected, a DONE job is not. */
  method SweepScenario(p: Job, h: Job, d: Job)
    requires WellFormed(p) && WellFormed(h) && WellFormed(d)
    requires p.state == Pending && h.state == Halted && d.state == Done
    requires p.id != h.id && p.id != d.id && h.id != d.id
  {
    var jobs := [p, h, d];
    assert AllWellFormed(jobs) && UniqueIds(jobs);
    StartableOfThree(p, h, d);
    SweepEffect(jobs, [2, 3]);
    var reg := new Registry(jobs);
    var started := SweepPending(reg, [2, 3]);
    assert started == [Transitioned(p, InProgress, 2), Transitioned(h, InProgress, 3)];
    assert reg.jobs[2] == d;
  }
}
