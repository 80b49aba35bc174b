/** Hardening jobs: applying a list of operations while persisting progress, and reconciling what a
    crash left behind against the state of the systemd scopes. Timestamps are not modelled. */
module HardeningJobs {
  import opened Bytes
  import opened Text

  datatype Status = Queued | Running | Success | Fail

  datatype Operation = Operation(name: string, status: Status, noop: bool, unit: string, stderr: string)

  datatype Job = Job(jobID: string, profile: string, status: Status, error: string, ops: seq<Operation>)

  // ---- The shape of every saved job --------------------------------------------------------

  /** The first m operations succeeded, the next one is whatever it is but not done, the rest wait. */
  predicate ShapedAt(ops: seq<Operation>, m: nat) {
    && m <= |ops|
    && (forall k :: 0 <= k < m ==> ops[k].status == Success)
    && (m < |ops| ==> ops[m].status != Success && (ops[m].status == Running ==> TrimSpace(ops[m].unit) != ""))
    && (forall k :: m < k < |ops| ==> ops[k].status == Queued)
  }

  /** A job that reports success has finished all of its operations. */
  predicate Shaped(job: Job, m: nat) {
    ShapedAt(job.ops, m) && (job.status == Success ==> m == |job.ops|) && job.status != Queued
  }

  ghost predicate AllShaped(saved: seq<Job>) {
    forall k :: 0 <= k < |saved| ==> HasShape(saved[k])
  }

  ghost predicate HasShape(job: Job) {
    exists m :: Shaped(job, m)
  }

  // ---- Applying ----------------------------------------------------------------------------

  predicate Distinct(names: seq<string>) {
    forall i, j :: 0 <= i < j < |names| ==> names[i] != names[j]
  }

  /** What happens to one operation while a job is applied: whether its script and units could be
      prepared, and how its check and its run ended. */
  datatype Fate = Fate(prepared: bool, checkUnit: Option<string>, checkPassed: bool, applyUnit: Option<string>,
                       runOk: bool, stderr: string, reason: string)

  /** Unit names have the form pmx-sec-apply-<job>-<name>.scope. */
  predicate Named(fate: Fate) {
    && (fate.checkUnit.Some? ==> TrimSpace(fate.checkUnit.value) != "")
    && (fate.applyUnit.Some? ==> TrimSpace(fate.applyUnit.value) != "")
  }

  /** Everything the operation needs goes well: its check passes, or its run does. */
  predicate EndsWell(fate: Fate) {
    fate.prepared && fate.checkUnit.Some? && (fate.checkPassed || (fate.applyUnit.Some? && fate.runOk))
  }

  /** A running operation is under its check unit, or, after its check did not pass, under its apply unit. */
  predicate Under(op: Operation, fate: Fate) {
    && !op.noop && fate.prepared && fate.checkUnit.Some?
    && (op.unit == fate.checkUnit.value || (!fate.checkPassed && fate.applyUnit == Some(op.unit)))
  }

  /** The first k operations are done and ended well, noted as no-ops exactly if their checks passed; the next
      one, if it is running, is under one of its units. */
  predicate Underway(ops: seq<Operation>, names: seq<string>, fate: string -> Fate, k: nat) {
    && |ops| == |names| && ShapedAt(ops, k)
    && (forall i :: 0 <= i < |names| ==> ops[i].name == names[i])
    && (forall i :: 0 <= i < k ==> ops[i].noop == fate(names[i]).checkPassed && EndsWell(fate(names[i])))
    && (k < |names| && ops[k].status == Running ==> Under(ops[k], fate(names[k])))
  }

  /** A job as it is saved while operation number m is worked on. */
  predicate Noted(job: Job, names: seq<string>, fate: string -> Fate, m: nat) {
    Shaped(job, m) && Underway(job.ops, names, fate, m)
  }

  ghost predicate IsNoted(job: Job, names: seq<string>, fate: string -> Fate) {
    exists m :: Noted(job, names, fate, m)
  }

  ghost predicate AllNoted(saved: seq<Job>, names: seq<string>, fate: string -> Fate) {
    forall k :: 0 <= k < |saved| ==> IsNoted(saved[k], names, fate)
  }

  lemma NotedIsShaped(saved: seq<Job>, names: seq<string>, fate: string -> Fate)
    requires AllNoted(saved, names, fate)
    ensures AllShaped(saved)
  {
    forall k | 0 <= k < |saved| ensures HasShape(saved[k]) {
      assert IsNoted(saved[k], names, fate);
      var m :| Noted(saved[k], names, fate, m);
      assert Shaped(saved[k], m);
    }
  }

  lemma OneMoreNoted(saved: seq<Job>, job: Job, names: seq<string>, fate: string -> Fate, m: nat)
    requires AllNoted(saved, names, fate) && Noted(job, names, fate, m)
    ensures AllNoted(saved + [job], names, fate)
  {
    assert IsNoted(job, names, fate);
  }

  /** The index finds every operation by its name. */
  predicate Indexed(index: map<string, nat>, names: seq<string>) {
    forall k :: 0 <= k < |names| ==> names[k] in index && index[names[k]] == k
  }

  /** An operation's next entry fits what becomes of the operation. */
  predicate Fits(op: Operation, fate: Fate) {
    match op.status
    case Success => EndsWell(fate) && op.noop == fate.checkPassed
    case Running => TrimSpace(op.unit) != "" && Under(op, fate)
    case _ => true
  }

  lemma UnderwayNext(ops: seq<Operation>, names: seq<string>, fate: string -> Fate, m: nat, op: Operation)
    requires Underway(ops, names, fate, m) && m < |names| && op.name == names[m] && Fits(op, fate(names[m]))
    ensures Underway(ops[m := op], names, fate, if op.status == Success then m + 1 else m)
  {
  }

  /** Holds the job in memory; `saved` lists every state that reached the job's file, in order. */
  class ApplyTracker {
    var state: Job
    const index: map<string, nat>
    ghost const names: seq<string>
    ghost const fate: string -> Fate
    ghost var saved: seq<Job>
    /** Some save has failed. */
    ghost var lost: bool

    /** The job failed, and that is what was saved last. */
    ghost predicate Stopped()
      reads this
    {
      saved != [] && saved[|saved| - 1] == state && state.status == Fail
    }

    ghost predicate Valid()
      reads this
    {
      && AllNoted(saved, names, fate) && Indexed(index, names)
      && forall k :: 0 <= k < |saved| ==> saved[k].jobID == state.jobID && saved[k].profile == state.profile
    }

    /** The job is running, and its first m operations are done. */
    ghost predicate At(m: nat)
      reads this
    {
      state.status == Running && Underway(state.ops, names, fate, m)
    }

    constructor (jobID: string, profile: string, names: seq<string>, ghost fate: string -> Fate)
      requires Distinct(names)
      ensures Valid() && At(0) && saved == [] && !lost && fresh(this)
      ensures this.names == names && this.fate == fate && state.jobID == jobID && state.profile == profile
      ensures forall k :: 0 <= k < |names| ==> state.ops[k].status == Queued
    {
      var ops := [];
      var idx: map<string, nat> := map[];
      for k := 0 to |names|
        invariant |ops| == k
        invariant forall i :: 0 <= i < k ==> ops[i] == Operation(names[i], Queued, false, "", "")
        invariant forall i :: 0 <= i < k ==> names[i] in idx && idx[names[i]] == i
      {
        idx := idx[names[k] := k];
        ops := ops + [Operation(names[k], Queued, false, "", "")];
      }
      index := idx;
      this.names, this.fate := names, fate;
      state := Job(jobID, profile, Running, "", ops);
      saved, lost := [], false;
    }

    /** Writing the job's file either replaces it as a whole or fails. */
    method Persist(ghost m: nat) returns (ok: bool)
      requires Valid() && Noted(state, names, fate, m)
      modifies this`saved, this`lost
      ensures Valid() && lost == (old(lost) || !ok)
      ensures saved == if ok then old(saved) + [state] else old(saved)
    {
      ok := *;
      if ok {
        OneMoreNoted(saved, state, names, fate, m);
        saved := saved + [state];
      } else {
        lost := true;
      }
    }

    /** Replaces the operation at position m of a job whose first m operations are done. */
    method Update(name: string, op: Operation, ghost m: nat) returns (ok: bool)
      requires Valid() && At(m) && m < |names| && names[m] == name == op.name && Fits(op, fate(name))
      modifies this
      ensures Valid() && At(if op.status == Success then m + 1 else m) && lost == (old(lost) || !ok)
      ensures state == old(state).(ops := old(state).ops[m := op])
      ensures saved == if ok then old(saved) + [state] else old(saved)
    {
      UnderwayNext(state.ops, names, fate, m, op);
      var i := index[name];
      state := state.(ops := state.ops[i := op]);
      ok := Persist(if op.status == Success then m + 1 else m);
    }

    method Finish(status: Status, error: string, ghost m: nat) returns (ok: bool)
      requires Valid() && At(m) && (status == Fail || (status == Success && m == |names|))
      modifies this
      ensures Valid() && lost == (old(lost) || !ok)
      ensures state == old(state).(status := status, error := error)
      ensures saved == if ok then old(saved) + [state] else old(saved)
    {
      state := state.(status := status, error := error);
      ok := Persist(m);
    }
  }

  datatype Result = Result(applied: seq<string>, noop: seq<string>)

  /** The saved states from number n on are not successes. */
  predicate NoSuccessFrom(saved: seq<Job>, n: nat) {
    forall k :: n <= k < |saved| ==> saved[k].status != Success
  }

  /** More was saved, none of it a success. */
  predicate Grown(before: seq<Job>, after: seq<Job>) {
    before <= after && NoSuccessFrom(after, |before|)
  }

  predicate SameJob(a: Job, b: Job) {
    a.jobID == b.jobID && a.profile == b.profile
  }

  lemma GrownTwice(a: seq<Job>, b: seq<Job>, c: seq<Job>)
    requires Grown(a, b) && Grown(b, c)
    ensures Grown(a, c)
  {
    assert forall k :: |a| <= k < |b| ==> c[k] == b[k];
  }

  /** One operation: None stops the job, Some says whether the operation had nothing to do. */
  method ApplyOne(tracker: ApplyTracker, name: string, fate: Fate, ghost m: nat) returns (r: Option<bool>)
    requires tracker.Valid() && tracker.At(m) && m < |tracker.names| && tracker.names[m] == name
    requires tracker.fate(name) == fate && Named(fate)
    modifies tracker
    ensures tracker.Valid() && Grown(old(tracker.saved), tracker.saved)
    ensures SameJob(tracker.state, old(tracker.state))
    ensures r.Some? ==> tracker.At(m + 1) && r.value == fate.checkPassed && EndsWell(fate)
    ensures r.Some? ==> tracker.lost == old(tracker.lost)
    ensures r == None && !tracker.lost ==> !EndsWell(fate) && tracker.Stopped()
    ensures r == None && !tracker.lost ==> tracker.state.error == TrimSpace(fate.reason)
    ensures old(tracker.lost) ==> tracker.lost
  {
    if !fate.prepared || fate.checkUnit == None {
      var _ := tracker.Finish(Fail, TrimSpace(fate.reason), m);
      return None;
    }
    var running := Operation(name, Running, false, fate.checkUnit.value, "");
    var ok := tracker.Update(name, running, m);
    if !ok {
      return None;
    }
    r := CheckOne(tracker, name, running, fate, m);
  }

  /** Goes on after the check of an operation that is marked as running. */
  method CheckOne(tracker: ApplyTracker, name: string, running: Operation, fate: Fate, ghost m: nat)
    returns (r: Option<bool>)
    requires tracker.Valid() && tracker.At(m) && m < |tracker.names| && tracker.names[m] == name
    requires tracker.fate(name) == fate && Named(fate) && fate.prepared && fate.checkUnit.Some?
    requires running.name == name && running.status == Running && !running.noop
    modifies tracker
    ensures tracker.Valid() && Grown(old(tracker.saved), tracker.saved)
    ensures SameJob(tracker.state, old(tracker.state))
    ensures r.Some? ==> tracker.At(m + 1) && r.value == fate.checkPassed && EndsWell(fate)
    ensures r.Some? ==> tracker.lost == old(tracker.lost)
    ensures r == None && !tracker.lost ==> !EndsWell(fate) && tracker.Stopped()
    ensures r == None && !tracker.lost ==> tracker.state.error == TrimSpace(fate.reason)
    ensures old(tracker.lost) ==> tracker.lost
  {
    if fate.checkPassed {
      var ok := tracker.Update(name, running.(status := Success, noop := true), m);
      return if ok then Some(true) else None;
    }
    if fate.applyUnit == None {
      var _ := tracker.Finish(Fail, TrimSpace(fate.reason), m);
      return None;
    }
    var ok := tracker.Update(name, running.(unit := fate.applyUnit.value), m);
    if !ok {
      return None;
    }
    r := RunOne(tracker, name, fate, m);
  }

  /** Runs an operation that is marked as running. */
  method RunOne(tracker: ApplyTracker, name: string, fate: Fate, ghost m: nat) returns (r: Option<bool>)
    requires tracker.Valid() && tracker.At(m) && m < |tracker.names| && tracker.names[m] == name
    requires tracker.fate(name) == fate && !fate.checkPassed
    requires fate.prepared && fate.checkUnit.Some? && fate.applyUnit.Some?
    modifies tracker
    ensures tracker.Valid() && Grown(old(tracker.saved), tracker.saved)
    ensures SameJob(tracker.state, old(tracker.state))
    ensures r.Some? ==> tracker.At(m + 1) && r.value == fate.checkPassed && EndsWell(fate)
    ensures r.Some? ==> tracker.lost == old(tracker.lost)
    ensures r == None && !tracker.lost ==> !EndsWell(fate) && tracker.Stopped()
    ensures r == None && !tracker.lost ==> tracker.state.error == TrimSpace(fate.reason)
    ensures old(tracker.lost) ==> tracker.lost
    ensures !fate.runOk ==> |tracker.state.ops| == |tracker.names| && tracker.state.ops[m].status == Fail
                            && tracker.state.ops[m].stderr == fate.stderr
  {
    assert tracker.index[name] == m;
    var op := tracker.state.ops[tracker.index[name]];
    if !fate.runOk {
      var _ := tracker.Update(name, op.(status := Fail, stderr := fate.stderr), m);
      var _ := tracker.Finish(Fail, TrimSpace(fate.reason), m);
      return None;
    }
    var ok := tracker.Update(name, op.(status := Success, noop := false, stderr := ""), m);
    return if ok then Some(false) else None;
  }

  /** Every operation is reported exactly once, as applied or as having had nothing to do. */
  predicate Splits(names: seq<string>, r: Result) {
    multiset(r.applied) + multiset(r.noop) == multiset(names)
  }

  /** A no-op is an operation whose check passed; an applied one failed its check and ran well. */
  predicate Truthful(r: Result, fate: string -> Fate) {
    && (forall name :: name in r.noop ==> fate(name).checkPassed)
    && (forall name :: name in r.applied ==> !fate(name).checkPassed && fate(name).runOk)
  }

  function Report(r: Result, name: string, noop: bool): Result {
    if noop then r.(noop := r.noop + [name]) else r.(applied := r.applied + [name])
  }

  /** The report on operations that all ended well. */
  function Reported(names: seq<string>, fate: string -> Fate): Result {
    if names == [] then Result([], [])
    else
      var last := names[|names| - 1];
      Report(Reported(names[..|names| - 1], fate), last, fate(last).checkPassed)
  }

  lemma ReportedNext(names: seq<string>, fate: string -> Fate, k: nat)
    requires k < |names|
    ensures Reported(names[..k + 1], fate) == Report(Reported(names[..k], fate), names[k], fate(names[k]).checkPassed)
  {
    assert names[..k + 1][..k] == names[..k];
  }

  lemma ReportedAll(names: seq<string>, fate: string -> Fate)
    ensures Reported(names[..|names|], fate) == Reported(names, fate)
  {
    assert names[..|names|] == names;
  }

  /** Every operation is reported exactly once. */
  lemma {:induction false} ReportSplits(names: seq<string>, fate: string -> Fate)
    ensures Splits(names, Reported(names, fate))
  {
    if names != [] {
      ReportSplits(names[..|names| - 1], fate);
      assert names == names[..|names| - 1] + [names[|names| - 1]];
    }
  }

  lemma {:induction false} ReportIsTruthful(names: seq<string>, fate: string -> Fate)
    requires AllEndWell(names, fate)
    ensures Truthful(Reported(names, fate), fate)
  {
    if names != [] {
      ReportIsTruthful(names[..|names| - 1], fate);
      assert EndsWell(fate(names[|names| - 1]));
    }
  }

  predicate AllEndWell(names: seq<string>, fate: string -> Fate) {
    forall k :: 0 <= k < |names| ==> EndsWell(fate(names[k]))
  }

  method ApplyAll(tracker: ApplyTracker, names: seq<string>, fate: string -> Fate) returns (res: Option<Result>)
    requires tracker.Valid() && tracker.At(0) && tracker.names == names && tracker.fate == fate
    requires forall name :: Named(fate(name))
    modifies tracker
    ensures tracker.Valid() && Grown(old(tracker.saved), tracker.saved)
    ensures SameJob(tracker.state, old(tracker.state))
    ensures res.Some? ==> tracker.At(|names|)
    ensures res.Some? ==> res.value == Reported(names, fate) && tracker.lost == old(tracker.lost)
    ensures res == None && !tracker.lost ==> !AllEndWell(names, fate) && tracker.Stopped()
  {
    var r := Result([], []);
    for k := 0 to |names|
      invariant tracker.Valid() && tracker.At(k)
      invariant Grown(old(tracker.saved), tracker.saved) && tracker.lost == old(tracker.lost)
      invariant SameJob(tracker.state, old(tracker.state))
      invariant r == Reported(names[..k], fate)
    {
      ghost var saved := tracker.saved;
      var passed := ApplyOne(tracker, names[k], fate(names[k]), k);
      GrownTwice(old(tracker.saved), saved, tracker.saved);
      if passed == None {
        return None;
      }
      ReportedNext(names, fate, k);
      r := Report(r, names[k], passed.value);
    }
    ReportedAll(names, fate);
    return Some(r);
  }

  lemma GrownFromFirst(first: Job, saved: seq<Job>)
    requires first.status != Success && Grown([first], saved)
    ensures NoSuccessFrom(saved, 0)
  {
    assert saved[0] == [first][0];
  }

  lemma ButLast(before: seq<Job>, job: Job)
    ensures (before + [job])[..|before|] == before && (before + [job])[|before|] == job
  {
  }

  /** Applies the operations one after the other, stopping at the first failure; every save may fail.
      Whatever reached the file at any moment is well shaped and true to what became of the operations;
      success is saved exactly once, last, when the result is returned. Without a lost save the job succeeds
      exactly if every operation ends well, and otherwise the failure is what was saved last. */
  method ApplyOperations(jobID: string, profile: string, names: seq<string>, fate: string -> Fate)
    returns (res: Option<Result>, ghost saved: seq<Job>, ghost lost: bool)
    requires Distinct(names)
    requires forall name :: Named(fate(name))
    ensures AllNoted(saved, names, fate)
    ensures forall k :: 0 <= k < |saved| ==> saved[k].jobID == jobID && saved[k].profile == profile
    ensures res == None ==> NoSuccessFrom(saved, 0)
    ensures res.Some? ==>
              saved != [] && NoSuccessFrom(saved[..|saved| - 1], 0) && Completed(saved[|saved| - 1], names, fate)
    ensures res.Some? ==> res.value == Reported(names, fate)
    ensures res.Some? <==> !lost && AllEndWell(names, fate)
    ensures res == None && !lost ==> saved != [] && saved[|saved| - 1].status == Fail
  {
    var tracker := new ApplyTracker(jobID, profile, names, fate);
    var ok := tracker.Persist(0);
    if !ok {
      return None, tracker.saved, tracker.lost;
    }
    ghost var first := tracker.state;
    res := ApplyAll(tracker, names, fate);
    GrownFromFirst(first, tracker.saved);
    if res == None {
      return None, tracker.saved, tracker.lost;
    }
    CompletedWhenAllDone(tracker.state, names, fate);
    ghost var before := tracker.saved;
    ok := tracker.Finish(Success, "", |names|);
    ButLast(before, tracker.state);
    return if ok then res else None, tracker.saved, tracker.lost;
  }

  predicate Completed(job: Job, names: seq<string>, fate: string -> Fate) {
    && job.status == Success && |job.ops| == |names|
    && forall k :: 0 <= k < |names| ==>
         job.ops[k].name == names[k] && job.ops[k].status == Success && job.ops[k].noop == fate(names[k]).checkPassed
  }

  lemma CompletedWhenAllDone(job: Job, names: seq<string>, fate: string -> Fate)
    requires Underway(job.ops, names, fate, |names|)
    ensures Completed(job.(status := Success, error := ""), names, fate) && AllEndWell(names, fate)
  {
  }
}
