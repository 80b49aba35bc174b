/** Reconciling saved hardening jobs with the state of their systemd scopes. */
module HardeningReconcile {
  import opened Bytes
  import opened Text
  import opened HardeningJobs

  /** What inspecting a scope unit says. */
  datatype Scope =
    | NotFound | Unknown(message: string)
    | Scope(activeState: string, subState: string, result: string, exit: int)

  /** Case-insensitive equality of ASCII text. */
  predicate EqualFold(a: string, b: string) {
    Lower(a) == Lower(b)
  }

  predicate Live(s: Scope) {
    s.Scope? && (EqualFold(s.activeState, "active") || EqualFold(s.subState, "running"))
  }

  predicate Clean(s: Scope) {
    s.Scope? && (s.exit == 0 || EqualFold(s.result, "success"))
  }

  function Complaint(s: Scope): string {
    match s
    case NotFound => "scope not found during reconcile"
    case Unknown(message) => message
    case Scope(_, _, result, exit) => "result=" + result + " exit=" + Decimal(exit)
  }

  predicate Open(op: Operation, show: string -> Scope) {
    op.status == Running && TrimSpace(op.unit) != "" && Live(show(op.unit))
  }

  /** What reconciling makes of one operation. */
  function Settled(op: Operation, show: string -> Scope): Operation {
    if op.status != Running || Open(op, show) then op
    else if TrimSpace(op.unit) == "" then op.(status := Fail, stderr := "running operation missing scope unit")
    else if Clean(show(op.unit)) then op.(status := Success, stderr := "")
    else op.(status := Fail, stderr := Complaint(show(op.unit)))
  }

  function SettledAll(ops: seq<Operation>, show: string -> Scope): (r: seq<Operation>)
    ensures |r| == |ops| && forall k :: 0 <= k < |ops| ==> r[k] == Settled(ops[k], show)
  {
    seq(|ops|, k requires 0 <= k < |ops| => Settled(ops[k], show))
  }

  predicate Changes(ops: seq<Operation>, show: string -> Scope) {
    exists k :: 0 <= k < |ops| && ops[k].status == Running && !Open(ops[k], show)
  }

  predicate AnyOpen(ops: seq<Operation>, show: string -> Scope) {
    exists k :: 0 <= k < |ops| && Open(ops[k], show)
  }

  predicate AnyFailed(ops: seq<Operation>) {
    exists k :: 0 <= k < |ops| && ops[k].status == Fail
  }

  predicate AllSucceeded(ops: seq<Operation>) {
    ops != [] && forall k :: 0 <= k < |ops| ==> ops[k].status == Success
  }

  method ReconcileOne(ops: seq<Operation>, show: string -> Scope)
    returns (result: seq<Operation>, changed: bool, running: bool, failed: bool)
    ensures result == SettledAll(ops, show)
    ensures changed == Changes(ops, show) && running == AnyOpen(ops, show) && failed == AnyFailed(result)
  {
    result := ops;
    changed, running, failed := false, false, false;
    for k := 0 to |ops|
      invariant |result| == |ops|
      invariant forall i :: 0 <= i < k ==> result[i] == Settled(ops[i], show)
      invariant forall i :: k <= i < |ops| ==> result[i] == ops[i]
      invariant changed == exists i :: 0 <= i < k && ops[i].status == Running && !Open(ops[i], show)
      invariant running == exists i :: 0 <= i < k && Open(ops[i], show)
      invariant failed == exists i :: 0 <= i < k && Settled(ops[i], show).status == Fail
    {
      var op, live := SettleOperation(result[k], show);
      changed := changed || (ops[k].status == Running && !live);
      running := running || live;
      failed := failed || op.status == Fail;
      result := result[k := op];
    }
    assert forall i :: 0 <= i < |ops| ==> result[i] == Settled(ops[i], show);
  }

  /** Decides one operation; `live` says that its scope is still at work. */
  method SettleOperation(op: Operation, show: string -> Scope) returns (r: Operation, live: bool)
    ensures r == Settled(op, show) && live == Open(op, show)
  {
    if op.status != Running {
      return op, false;
    }
    if TrimSpace(op.unit) == "" {
      return op.(status := Fail, stderr := "running operation missing scope unit"), false;
    }
    var scope := show(op.unit);
    if Live(scope) {
      return op, true;
    }
    if Clean(scope) {
      return op.(status := Success, stderr := ""), false;
    }
    return op.(status := Fail, stderr := Complaint(scope)), false;
  }

  /** What reconciling makes of a saved job. */
  function Reconciled(job: Job, show: string -> Scope): Job {
    if job.status != Running || !Changes(job.ops, show) then job
    else
      var ops := SettledAll(job.ops, show);
      if AnyFailed(ops) then
        job.(ops := ops, status := Fail,
             error := if job.error == "" then "reconcile detected failed operation" else job.error)
      else if AnyOpen(job.ops, show) then job.(ops := ops, status := Running, error := "")
      else if AllSucceeded(ops) then job.(ops := ops, status := Success, error := "")
      else job.(ops := ops, status := Fail, error := "reconcile found incomplete operation set")
  }

  method ReconcileJob(job: Job, show: string -> Scope) returns (r: Job, changed: bool)
    ensures r == Reconciled(job, show) && changed == (job.status == Running && Changes(job.ops, show))
  {
    if job.status != Running {
      return job, false;
    }
    var ops, running, failed;
    ops, changed, running, failed := ReconcileOne(job.ops, show);
    if !changed {
      return job, false;
    }
    if failed {
      r := job.(ops := ops, status := Fail,
                error := if job.error == "" then "reconcile detected failed operation" else job.error);
    } else if running {
      r := job.(ops := ops, status := Running, error := "");
    } else if AllSucceeded(ops) {
      r := job.(ops := ops, status := Success, error := "");
    } else {
      r := job.(ops := ops, status := Fail, error := "reconcile found incomplete operation set");
    }
  }

  /** The pass gets beyond a file: it decodes, and it can be written if it has to be. */
  predicate Passes(file: Option<Job>, show: string -> Scope, writable: bool) {
    file.Some? && (file.value.status == Running && Changes(file.value.ops, show) ==> writable)
  }

  /** Goes through the job files in order; None is a file that does not decode, `writable` says which ones
      can be written. The first file that cannot be read or written ends the pass: files before it are
      reconciled, later ones untouched. Finished jobs never change. */
  method ReconcileApplyStates(files: seq<Option<Job>>, show: string -> Scope, writable: seq<bool>)
    returns (after: seq<Option<Job>>, ok: bool, done: nat)
    requires |writable| == |files|
    ensures |after| == |files| && done <= |files|
    ensures ok <==> forall k :: 0 <= k < |files| ==> Passes(files[k], show, writable[k])
    ensures if ok then done == |files| else done < |files| && !Passes(files[done], show, writable[done])
    ensures forall k :: 0 <= k < done ==> files[k].Some? && after[k] == Some(Reconciled(files[k].value, show))
    ensures forall k :: done <= k < |files| ==> after[k] == files[k]
    ensures forall k :: 0 <= k < |files| && files[k].Some? && files[k].value.status != Running ==> after[k] == files[k]
  {
    after, ok, done := files, true, 0;
    while done < |files|
      invariant 0 <= done <= |files| && |after| == |files|
      invariant forall k :: 0 <= k < done ==> files[k].Some? && after[k] == Some(Reconciled(files[k].value, show))
      invariant forall k :: 0 <= k < done ==> Passes(files[k], show, writable[k])
      invariant forall k :: done <= k < |files| ==> after[k] == files[k]
      invariant forall k :: 0 <= k < |files| && files[k].Some? && files[k].value.status != Running ==>
                  after[k] == files[k]
    {
      var file;
      file, ok := ReconcileFile(files[done], show, writable[done]);
      if !ok {
        return;
      }
      after := after[done := file];
      done := done + 1;
    }
  }

  /** One file: read, reconciled, and written if that changed it. */
  method ReconcileFile(file: Option<Job>, show: string -> Scope, writable: bool) returns (after: Option<Job>, ok: bool)
    ensures ok == Passes(file, show, writable)
    ensures after == if ok then Some(Reconciled(file.value, show)) else file
    ensures file.Some? && file.value.status != Running ==> after == file
  {
    if file == None {
      return file, false;
    }
    var job, changed := ReconcileJob(file.value, show);
    if !changed {
      return file, true;
    }
    return if writable then Some(job) else file, writable;
  }

  // ---- What reconciliation decides ---------------------------------------------------------

  /** What becomes of one operation, by what its scope unit says. */
  lemma SettledMeans(op: Operation, show: string -> Scope)
    ensures
      var r, live := Settled(op, show), Open(op, show);
      if op.status != Running then r == op && !live
      else if TrimSpace(op.unit) == "" then
        r == op.(status := Fail, stderr := "running operation missing scope unit") && !live
      else
        match show(op.unit)
        case NotFound => r == op.(status := Fail, stderr := "scope not found during reconcile") && !live
        case Unknown(message) => r == op.(status := Fail, stderr := message) && !live
        case Scope(active, sub, result, exit) =>
          if Lower(active) == "active" || Lower(sub) == "running" then r == op && live
          else if exit == 0 || Lower(result) == "success" then r == op.(status := Success, stderr := "") && !live
          else r == op.(status := Fail, stderr := "result=" + result + " exit=" + Decimal(exit)) && !live
  {
    assert Lower("active") == "active" && Lower("running") == "running" && Lower("success") == "success";
  }

  lemma SettledAgain(op: Operation, show: string -> Scope)
    ensures Settled(Settled(op, show), show) == Settled(op, show)
    ensures Settled(op, show).status == Running <==> Open(op, show)
    ensures Open(Settled(op, show), show) <==> Open(op, show)
  {
  }

  /** What becomes of any job whatsoever. A running job of which some running operation is no longer at work is
      settled: failed if an operation failed, still running if another one is at work, a success if it has
      operations and all succeeded, and otherwise failed as incomplete. Every other job stays as it is. */
  lemma ReconciledMeans(job: Job, show: string -> Scope)
    ensures
      var r, ops := Reconciled(job, show), SettledAll(job.ops, show);
      if job.status == Running && exists op :: op in job.ops && op.status == Running && !Open(op, show) then
        && r.jobID == job.jobID && r.profile == job.profile && r.ops == ops
        && if exists op :: op in ops && op.status == Fail then
             && r.status == Fail
             && r.error == if job.error == "" then "reconcile detected failed operation" else job.error
           else if exists op :: op in job.ops && Open(op, show) then r.status == Running && r.error == ""
           else if ops != [] && forall op :: op in ops ==> op.status == Success then
             r.status == Success && r.error == ""
           else r.status == Fail && r.error == "reconcile found incomplete operation set"
      else r == job
  {
    AmongOperations(job.ops, show);
    AmongSettled(SettledAll(job.ops, show));
  }

  lemma AmongOperations(ops: seq<Operation>, show: string -> Scope)
    ensures Changes(ops, show) <==> exists op :: op in ops && op.status == Running && !Open(op, show)
    ensures AnyOpen(ops, show) <==> exists op :: op in ops && Open(op, show)
  {
  }

  lemma AmongSettled(ops: seq<Operation>)
    ensures AnyFailed(ops) <==> exists op :: op in ops && op.status == Fail
    ensures AllSucceeded(ops) <==> ops != [] && forall op :: op in ops ==> op.status == Success
  {
  }

  /** Reconciling again with the same answers changes nothing, for any job whatsoever. */
  lemma ReconcileTwice(job: Job, show: string -> Scope)
    ensures Reconciled(Reconciled(job, show), show) == Reconciled(job, show)
  {
    var ops := SettledAll(job.ops, show);
    forall k | 0 <= k < |ops| ensures ops[k].status == Running ==> Open(ops[k], show) {
      SettledAgain(job.ops[k], show);
    }
    assert !Changes(ops, show);
  }

  /** The verdict on a saved job that was interrupted while operation m was running: it stays running
      exactly while the scope is live, and ends as success exactly when the scope ended cleanly and
      no operation was left to do. */
  lemma InterruptedVerdict(job: Job, m: nat, show: string -> Scope)
    requires Shaped(job, m) && job.status == Running && m < |job.ops| && job.ops[m].status == Running
    ensures
      var scope, after := show(job.ops[m].unit), Reconciled(job, show);
      && (after.status == Running <==> Live(scope))
      && (after.status == Success <==> !Live(scope) && Clean(scope) && m == |job.ops| - 1)
      && (after.status == Fail <==> !Live(scope) && !(Clean(scope) && m == |job.ops| - 1))
      && (after.status == Success ==> after.error == "")
      && (after.status == Fail && Clean(scope) ==> after.error == "reconcile found incomplete operation set")
      && (after.status == Fail && !Clean(scope) ==>
            after.error == if job.error == "" then "reconcile detected failed operation" else job.error)
  {
    var ops, after := job.ops, SettledAll(job.ops, show);
    if !Live(show(ops[m].unit)) {
      assert Changes(ops, show);
      assert !AnyOpen(ops, show);
      if Clean(show(ops[m].unit)) {
        assert after[m].status == Success;
        assert !AnyFailed(after);
        assert m + 1 < |ops| ==> after[m + 1].status == Queued;
      } else {
        assert after[m].status == Fail;
      }
    } else {
      assert !Changes(ops, show);
    }
  }

  /** A scope that ended cleanly ran a process that ended well. */
  predicate Honest(show: string -> Scope, fate: Fate) {
    && (fate.checkUnit.Some? && Clean(show(fate.checkUnit.value)) ==> fate.checkPassed)
    && (fate.applyUnit.Some? && Clean(show(fate.applyUnit.value)) && !fate.checkPassed ==> fate.runOk)
  }

  /** What a reconciled success says: every operation ended well, and the job is the one that would have been
      saved without the interruption if and only if the last operation was caught under its apply unit. One
      caught under its check unit ended well because its check passed, but is not noted as a no-op. */
  lemma ReconciledSuccess(job: Job, m: nat, names: seq<string>, fate: string -> Fate, show: string -> Scope)
    requires Noted(job, names, fate, m) && job.status == Running
    requires forall name :: Honest(show, fate(name))
    requires Reconciled(job, show).status == Success
    ensures m == |names| - 1 && AllEndWell(names, fate)
    ensures Completed(Reconciled(job, show), names, fate) <==> !fate(names[m]).checkPassed
    ensures forall k :: 0 <= k < m ==> Reconciled(job, show).ops[k] == job.ops[k]
  {
    StillRunningIff(job, m, show);
    InterruptedVerdict(job, m, show);
    var after := Reconciled(job, show);
    assert after.ops == SettledAll(job.ops, show);
    assert Honest(show, fate(names[m])) && Under(job.ops[m], fate(names[m]));
    assert EndsWell(fate(names[m]));
    assert after.ops[m].status == Success && !after.ops[m].noop;
  }

  /** An operation whose check passed, caught before that was saved: closed as a success, but as an application. */
  lemma LostNoopExample(show: string -> Scope)
    requires show("c") == Scope("inactive", "dead", "success", 0)
    ensures
      var fate := Fate(true, Some("c"), true, None, false, "", "");
      var job := Job("j", "custom", Running, "", [Operation("ssh_level1", Running, false, "c", "")]);
      && Noted(job, ["ssh_level1"], _ => fate, 0) && Reconciled(job, show).status == Success
      && !Reconciled(job, show).ops[0].noop && !Completed(Reconciled(job, show), ["ssh_level1"], _ => fate)
  {
    var fate := Fate(true, Some("c"), true, None, false, "", "");
    var job := Job("j", "custom", Running, "", [Operation("ssh_level1", Running, false, "c", "")]);
    TrimSpaceFixes("c");
    assert !Live(show("c")) by {
      assert |Lower("inactive")| == 8 && |Lower("active")| == 6 && |Lower("dead")| == 4 && |Lower("running")| == 7;
    }
    assert Shaped(job, 0);
    InterruptedVerdict(job, 0, show);
    assert Reconciled(job, show).ops == SettledAll(job.ops, show);
  }

  /** A saved running job in which no operation is running is left running for good. */
  lemma StuckJob(job: Job, m: nat, show: string -> Scope)
    requires Shaped(job, m) && job.status == Running && (m < |job.ops| ==> job.ops[m].status != Running)
    ensures Reconciled(job, show) == job
  {
    assert !Changes(job.ops, show);
  }

  /** Exactly which interrupted jobs reconciliation leaves running: those caught between operations,
      and those whose scope is live. */
  lemma StillRunningIff(job: Job, m: nat, show: string -> Scope)
    requires Shaped(job, m) && job.status == Running
    ensures Reconciled(job, show).status == Running
            <==> m == |job.ops| || job.ops[m].status != Running || Live(show(job.ops[m].unit))
  {
    if m < |job.ops| && job.ops[m].status == Running {
      InterruptedVerdict(job, m, show);
    } else {
      StuckJob(job, m, show);
    }
  }

  lemma SettledShape(ops: seq<Operation>, m: nat, show: string -> Scope)
    requires ShapedAt(ops, m) && m < |ops| && ops[m].status == Running
    ensures
      var after := SettledAll(ops, show);
      ShapedAt(after, if after[m].status == Success then m + 1 else m)
  {
  }

  /** Reconciliation keeps the shape, so a job that reports success has finished all operations. */
  lemma ReconcileKeepsShape(job: Job, m: nat, show: string -> Scope)
    requires Shaped(job, m)
    ensures HasShape(Reconciled(job, show))
  {
    var after := SettledAll(job.ops, show);
    if job.status == Running && Changes(job.ops, show) {
      assert m < |job.ops| && job.ops[m].status == Running;
      InterruptedVerdict(job, m, show);
      SettledShape(job.ops, m, show);
      assert Shaped(Reconciled(job, show), if after[m].status == Success then m + 1 else m);
    } else {
      assert Shaped(Reconciled(job, show), m);
    }
  }

  /** A crash between two operations: the job stays running although nothing runs. */
  lemma StuckExample(show: string -> Scope)
    ensures
      var ops := [Operation("ssh_level1", Success, false, "u", ""), Operation("auditd_enable", Queued, false, "", "")];
      var job := Job("j", "custom", Running, "", ops);
      Shaped(job, 1) && Reconciled(job, show) == job
  {
    var ops := [Operation("ssh_level1", Success, false, "u", ""), Operation("auditd_enable", Queued, false, "", "")];
    var job := Job("j", "custom", Running, "", ops);
    assert Shaped(job, 1);
    StuckJob(job, 1, show);
  }
}
