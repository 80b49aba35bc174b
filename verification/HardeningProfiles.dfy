/** Which operations a hardening request stands for. */
module HardeningProfiles {
  import opened Bytes
  import opened Text
  import opened HardeningJobs

  const DISABLE_RPCBIND := "disable_rpcbind"
  const SSH_LEVEL1 := "ssh_level1"
  const AUDITD_ENABLE := "auditd_enable"

  predicate Known(op: string) {
    op == DISABLE_RPCBIND || op == SSH_LEVEL1 || op == AUDITD_ENABLE
  }

  function Codes(s: string): (c: seq<int>)
    ensures |c| == |s| && forall k :: 0 <= k < |s| ==> c[k] == s[k] as int
  {
    seq(|s|, k requires 0 <= k < |s| => s[k] as int)
  }

  predicate Sorted(names: seq<string>) {
    SortedBy(names, Codes)
  }

  lemma CodesInjective(a: string, b: string)
    requires Codes(a) == Codes(b)
    ensures a == b
  {
    forall k | 0 <= k < |a| ensures a[k] == b[k] {
      assert Codes(a)[k] == Codes(b)[k];
    }
  }

  lemma NewRank(names: seq<string>, name: string)
    requires name !in names
    ensures forall x :: x in names ==> Codes(x) != Codes(name)
  {
    forall x | x in names ensures Codes(x) != Codes(name) {
      if Codes(x) == Codes(name) {
        CodesInjective(x, name);
      }
    }
  }

  /** A sorted list has no duplicates. */
  lemma SortedIsDistinct(names: seq<string>)
    requires Sorted(names)
    ensures Distinct(names)
  {
    forall i, j | 0 <= i < j < |names| ensures names[i] != names[j] {
      BeforeTotal(Codes(names[i]), Codes(names[j]));
    }
  }

  /** Drops repetitions and sorts. */
  method DedupeSorted(input: seq<string>) returns (out: seq<string>)
    ensures Sorted(out) && Distinct(out) && forall x :: x in out <==> x in input
  {
    var seen: set<string> := {};
    out := [];
    for k := 0 to |input|
      invariant Sorted(out)
      invariant forall x :: x in out <==> x in input[..k]
      invariant forall x :: x in seen <==> x in input[..k]
    {
      assert input[..k + 1] == input[..k] + [input[k]];
      if input[k] in seen {
        continue;
      }
      seen := seen + {input[k]};
      NewRank(out, input[k]);
      out := InsertBy(out, input[k], Codes);
    }
    assert input[..|input|] == input;
    SortedIsDistinct(out);
  }

  /** A request resolves to known operations without repetitions, or to nothing: for a custom profile
      to exactly the operations asked for, if there are any and all of them are known. */
  method ResolveOperations(profile: string, ops: seq<string>) returns (r: Option<seq<string>>)
    ensures r.Some? ==> r.value != [] && Distinct(r.value) && forall x :: x in r.value ==> Known(x)
    ensures TrimSpace(Lower(profile)) == "custom" ==>
              (r.Some? <==> ops != [] && forall k :: 0 <= k < |ops| ==> Known(ops[k]))
              && (r.Some? ==> Sorted(r.value) && forall x :: x in r.value <==> x in ops)
    ensures TrimSpace(Lower(profile)) != "custom" ==> r == ProfileOperations(TrimSpace(Lower(profile)))
  {
    var name := TrimSpace(Lower(profile));
    if name == "custom" {
      if ops == [] {
        return None;
      }
      for k := 0 to |ops|
        invariant forall i :: 0 <= i < k ==> Known(ops[i])
      {
        if !Known(ops[k]) {
          return None;
        }
      }
      var out := DedupeSorted(ops);
      assert ops[0] in out;
      return Some(out);
    }
    r := ProfileOperations(name);
    ProfilesAreDistinct(name);
  }

  function ProfileOperations(name: string): Option<seq<string>> {
    if name == "" || name == "cis_level1" then Some([DISABLE_RPCBIND, SSH_LEVEL1])
    else if name == "cis_level2" then Some([DISABLE_RPCBIND, SSH_LEVEL1, AUDITD_ENABLE])
    else None
  }

  /** The profiles and the operations there are, by their names. */
  lemma ProfilesAre(name: string)
    ensures
      ProfileOperations(name) ==
        if name in ["", "cis_level1"] then Some(["disable_rpcbind", "ssh_level1"])
        else if name == "cis_level2" then Some(["disable_rpcbind", "ssh_level1", "auditd_enable"])
        else None
    ensures Known(name) <==> name in ["disable_rpcbind", "ssh_level1", "auditd_enable"]
  {
  }

  lemma ProfilesAreDistinct(name: string)
    ensures
      var r := ProfileOperations(name);
      r.Some? ==> r.value != [] && Distinct(r.value) && forall x :: x in r.value ==> Known(x)
  {
    assert |DISABLE_RPCBIND| == 15 && |SSH_LEVEL1| == 10 && |AUDITD_ENABLE| == 13;
  }

  /** A whole request: it succeeds exactly if it resolves, no save is lost and every operation it asks for ends
      well. Nothing is saved for one that does not resolve; otherwise every saved job is well shaped, and a
      reported success covers exactly the operations of the request, each once. */
  method Apply(jobID: string, profile: string, ops: seq<string>, fate: string -> Fate)
    returns (res: Option<Result>, ghost saved: seq<Job>, ghost lost: bool)
    requires forall name :: Named(fate(name))
    ensures AllShaped(saved) && (res == None ==> NoSuccessFrom(saved, 0))
    ensures res.Some?
            <==> !lost && Resolves(profile, ops) && forall x :: Requested(profile, ops, x) ==> EndsWell(fate(x))
    ensures !Resolves(profile, ops) ==> saved == []
    ensures forall k :: 0 <= k < |saved| ==>
              saved[k].jobID == (if jobID == "" then "local" else jobID) && saved[k].profile == profile
    ensures res == None && !lost && Resolves(profile, ops) ==> saved != [] && saved[|saved| - 1].status == Fail
    ensures res.Some? ==> saved != [] && NoSuccessFrom(saved[..|saved| - 1], 0)
    ensures res.Some? ==> Covers(profile, ops, res.value) && Truthful(res.value, fate)
  {
    var names := ResolveOperations(profile, ops);
    if names == None {
      return None, [], false;
    }
    res, saved, lost := ApplyOperations(if jobID == "" then "local" else jobID, profile, names.value, fate);
    NotedIsShaped(saved, names.value, fate);
    RequestEndsWell(profile, ops, names.value, fate);
    if res.Some? {
      ReportCovers(profile, ops, names.value, fate);
    }
  }

  lemma RequestEndsWell(profile: string, ops: seq<string>, names: seq<string>, fate: string -> Fate)
    requires forall x :: x in names <==> Requested(profile, ops, x)
    ensures AllEndWell(names, fate) <==> forall x :: Requested(profile, ops, x) ==> EndsWell(fate(x))
  {
    if forall x :: Requested(profile, ops, x) ==> EndsWell(fate(x)) {
      forall k | 0 <= k < |names| ensures EndsWell(fate(names[k])) {
        assert names[k] in names;
      }
    }
  }

  /** A request resolves if its profile is known, and a custom one if it asks for known operations only and
      for at least one. */
  predicate Resolves(profile: string, ops: seq<string>) {
    var name := TrimSpace(Lower(profile));
    if name == "custom" then ops != [] && forall k :: 0 <= k < |ops| ==> Known(ops[k])
    else ProfileOperations(name).Some?
  }

  /** The operations of the request, each reported once, as applied or as a no-op. */
  ghost predicate Covers(profile: string, ops: seq<string>, r: Result) {
    forall x :: multiset(r.applied + r.noop)[x] == if Requested(profile, ops, x) then 1 else 0
  }

  predicate Requested(profile: string, ops: seq<string>, x: string) {
    var name := TrimSpace(Lower(profile));
    if name == "custom" then x in ops
    else ProfileOperations(name).Some? && x in ProfileOperations(name).value
  }

  lemma ReportCovers(profile: string, ops: seq<string>, names: seq<string>, fate: string -> Fate)
    requires Distinct(names) && AllEndWell(names, fate)
    requires forall x :: x in names <==> Requested(profile, ops, x)
    ensures Covers(profile, ops, Reported(names, fate)) && Truthful(Reported(names, fate), fate)
  {
    ReportSplits(names, fate);
    ReportIsTruthful(names, fate);
    SplitOnce(names, Reported(names, fate));
  }

  lemma SplitOnce(names: seq<string>, r: Result)
    requires Distinct(names) && Splits(names, r)
    ensures forall x :: multiset(r.applied + r.noop)[x] == if x in names then 1 else 0
  {
    forall x
      ensures multiset(names)[x] == if x in names then 1 else 0
    {
      DistinctCount(names, x);
    }
  }

  lemma {:induction false} DistinctCount(names: seq<string>, x: string)
    requires Distinct(names)
    ensures multiset(names)[x] == if x in names then 1 else 0
  {
    if names != [] {
      var init, last := names[..|names| - 1], names[|names| - 1];
      DistinctCount(init, x);
      assert names == init + [last];
    }
  }
}
