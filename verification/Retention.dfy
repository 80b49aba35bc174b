/** Retention: which archives each rule keeps, and how the archives are split into kept and
    to-be-deleted. A rule's bucket key (day, ISO week or month of the timestamp) is a parameter. */
module RetentionPolicies {
  import opened Bytes

  datatype Archive = Archive(path: string, timestamp: int)

  datatype Policy = Policy(dailies: int, weeklies: int, monthlies: int)

  /** The bucket keys of the three rules. */
  datatype Calendar = Calendar(day: int -> string, week: int -> string, month: int -> string)

  predicate DistinctPaths(archives: seq<Archive>) {
    forall i, j :: 0 <= i < j < |archives| ==> archives[i].path != archives[j].path
  }

  // ---- One rule ----------------------------------------------------------------------------

  function Buckets(archives: seq<Archive>, key: int -> string): set<string> {
    set a | a in archives :: key(a.timestamp)
  }

  /** The archive is the first of its bucket, and fewer than n buckets come before it. */
  predicate RuleKeeps(archives: seq<Archive>, key: int -> string, n: int, i: nat)
    requires i < |archives|
  {
    key(archives[i].timestamp) !in Buckets(archives[..i], key) && |Buckets(archives[..i], key)| < n
  }

  /** The paths a rule keeps among the first `upTo` archives. */
  ghost function KeptAmong(archives: seq<Archive>, key: int -> string, n: int, upTo: nat): set<string>
    requires upTo <= |archives|
  {
    set i | 0 <= i < upTo && RuleKeeps(archives, key, n, i) :: archives[i].path
  }

  ghost function KeptBy(archives: seq<Archive>, key: int -> string, n: int): set<string> {
    KeptAmong(archives, key, n, |archives|)
  }

  /** Each rule keeps exactly the first archive of each of the first n distinct buckets. */
  lemma KeptExactly(archives: seq<Archive>, key: int -> string, n: int, i: nat)
    requires DistinctPaths(archives) && i < |archives|
    ensures archives[i].path in KeptBy(archives, key, n) <==> RuleKeeps(archives, key, n, i)
  {
    if archives[i].path in KeptBy(archives, key, n) {
      var j :| 0 <= j < |archives| && RuleKeeps(archives, key, n, j) && archives[j].path == archives[i].path;
      assert i == j;
    }
  }

  lemma BucketsGrow(archives: seq<Archive>, key: int -> string, i: nat)
    requires i < |archives|
    ensures Buckets(archives[..i + 1], key) == Buckets(archives[..i], key) + {key(archives[i].timestamp)}
  {
    assert archives[..i + 1] == archives[..i] + [archives[i]];
    assert forall a :: a in archives[..i + 1] <==> a in archives[..i] || a == archives[i];
    assert archives[i] in archives[..i + 1];
  }

  lemma BucketsWithin(a: seq<Archive>, b: seq<Archive>, key: int -> string)
    requires forall x :: x in a ==> x in b
    ensures Buckets(a, key) <= Buckets(b, key) && |Buckets(a, key)| <= |Buckets(b, key)|
  {
    SubsetSize(Buckets(a, key), Buckets(b, key));
  }

  /** Walks the archives, keeping the first of each new bucket until n buckets are full. */
  method ApplyRule(archives: seq<Archive>, key: int -> string, n: int, kept: set<string>) returns (r: set<string>)
    requires n > 0
    ensures r == kept + KeptBy(archives, key, n)
  {
    r := kept;
    var seen: set<string> := {};
    ghost var chosen := KeptAmong(archives, key, n, 0);
    var i := 0;
    assert archives[..0] == [];
    while i < |archives|
      invariant 0 <= i <= |archives|
      invariant seen == Buckets(archives[..i], key) && |seen| < n
      invariant chosen == KeptAmong(archives, key, n, i)
      invariant r == kept + chosen
    {
      var candidate := archives[i];
      BucketsGrow(archives, key, i);
      KeptAmongGrows(archives, key, n, i);
      i := i + 1;
      if key(candidate.timestamp) in seen {
        continue;
      }
      seen := seen + {key(candidate.timestamp)};
      AddLast(kept, chosen, candidate.path);
      r, chosen := r + {candidate.path}, chosen + {candidate.path};
      if |seen| >= n {
        NoneAfter(archives, key, n, i);
        break;
      }
    }
  }

  lemma AddLast(a: set<string>, b: set<string>, x: string)
    ensures a + b + {x} == a + (b + {x})
  {
  }

  lemma KeptAmongGrows(archives: seq<Archive>, key: int -> string, n: int, i: nat)
    requires i < |archives|
    ensures KeptAmong(archives, key, n, i + 1) ==
              if RuleKeeps(archives, key, n, i) then KeptAmong(archives, key, n, i) + {archives[i].path}
              else KeptAmong(archives, key, n, i)
  {
  }

  lemma NoneAfter(archives: seq<Archive>, key: int -> string, n: int, i: nat)
    requires i <= |archives| && |Buckets(archives[..i], key)| >= n
    ensures KeptAmong(archives, key, n, i) == KeptBy(archives, key, n)
  {
    forall j | i <= j < |archives| ensures !RuleKeeps(archives, key, n, j) {
      assert forall x :: x in archives[..i] ==> x in archives[..j];
      BucketsWithin(archives[..i], archives[..j], key);
    }
  }

  // ---- The keep-set ------------------------------------------------------------------------

  ghost function KeepSet(archives: seq<Archive>, policy: Policy, c: Calendar): set<string> {
    KeptBy(archives, c.day, policy.dailies) + KeptBy(archives, c.week, policy.weeklies)
    + KeptBy(archives, c.month, policy.monthlies)
  }

  lemma RuleKeepsMeans(archives: seq<Archive>, key: int -> string, n: int, i: nat)
    requires i < |archives|
    ensures RuleKeeps(archives, key, n, i)
            <==> && (forall j :: 0 <= j < i ==> key(archives[j].timestamp) != key(archives[i].timestamp))
                 && |set j | 0 <= j < i :: key(archives[j].timestamp)| < n
  {
    var before := archives[..i];
    forall x ensures x in Buckets(before, key) <==> x in set j | 0 <= j < i :: key(archives[j].timestamp) {
      if j :| 0 <= j < i && key(archives[j].timestamp) == x {
        assert before[j] in before;
      }
    }
    assert Buckets(before, key) == set j | 0 <= j < i :: key(archives[j].timestamp);
  }

  lemma KeptByMeans(archives: seq<Archive>, key: int -> string, n: int, path: string)
    ensures path in KeptBy(archives, key, n) <==>
              exists i :: 0 <= i < |archives| && archives[i].path == path
                && (forall j :: 0 <= j < i ==> key(archives[j].timestamp) != key(archives[i].timestamp))
                && |set j | 0 <= j < i :: key(archives[j].timestamp)| < n
  {
    forall i | 0 <= i < |archives|
      ensures RuleKeeps(archives, key, n, i)
              <==> && (forall j :: 0 <= j < i ==> key(archives[j].timestamp) != key(archives[i].timestamp))
                   && |set j | 0 <= j < i :: key(archives[j].timestamp)| < n
    {
      RuleKeepsMeans(archives, key, n, i);
    }
  }

  /** What the three counts mean: a path is kept exactly if an archive with that path is the first of its day, with
      fewer than `dailies` days in front of it, or likewise for weeks and months. */
  lemma KeepSetMeans(archives: seq<Archive>, policy: Policy, c: Calendar, path: string)
    ensures
      path in KeepSet(archives, policy, c)
      <==> || (exists i :: 0 <= i < |archives| && archives[i].path == path
                      && (forall j :: 0 <= j < i ==> c.day(archives[j].timestamp) != c.day(archives[i].timestamp))
                      && |set j | 0 <= j < i :: c.day(archives[j].timestamp)| < policy.dailies)
           || (exists i :: 0 <= i < |archives| && archives[i].path == path
                      && (forall j :: 0 <= j < i ==> c.week(archives[j].timestamp) != c.week(archives[i].timestamp))
                      && |set j | 0 <= j < i :: c.week(archives[j].timestamp)| < policy.weeklies)
           || (exists i :: 0 <= i < |archives| && archives[i].path == path
                      && (forall j :: 0 <= j < i ==> c.month(archives[j].timestamp) != c.month(archives[i].timestamp))
                      && |set j | 0 <= j < i :: c.month(archives[j].timestamp)| < policy.monthlies)
  {
    KeptByMeans(archives, c.day, policy.dailies, path);
    KeptByMeans(archives, c.week, policy.weeklies, path);
    KeptByMeans(archives, c.month, policy.monthlies, path);
  }

  method ComputeKeepSet(archives: seq<Archive>, policy: Policy, c: Calendar) returns (kept: set<string>)
    ensures kept == KeepSet(archives, policy, c)
  {
    kept := {};
    if |archives| == 0 {
      return;
    }
    if policy.dailies > 0 {
      kept := ApplyRule(archives, c.day, policy.dailies, kept);
    }
    if policy.weeklies > 0 {
      kept := ApplyRule(archives, c.week, policy.weeklies, kept);
    }
    if policy.monthlies > 0 {
      kept := ApplyRule(archives, c.month, policy.monthlies, kept);
    }
  }

  /** Larger policies keep supersets. */
  lemma LargerPolicyKeepsMore(archives: seq<Archive>, p: Policy, q: Policy, c: Calendar)
    requires p.dailies <= q.dailies && p.weeklies <= q.weeklies && p.monthlies <= q.monthlies
    ensures KeepSet(archives, p, c) <= KeepSet(archives, q, c)
  {
    MoreBuckets(archives, c.day, p.dailies, q.dailies);
    MoreBuckets(archives, c.week, p.weeklies, q.weeklies);
    MoreBuckets(archives, c.month, p.monthlies, q.monthlies);
  }

  lemma MoreBuckets(archives: seq<Archive>, key: int -> string, n: int, m: int)
    requires n <= m
    ensures KeptBy(archives, key, n) <= KeptBy(archives, key, m)
  {
    forall path | path in KeptBy(archives, key, n) ensures path in KeptBy(archives, key, m) {
      var i :| 0 <= i < |archives| && RuleKeeps(archives, key, n, i) && archives[i].path == path;
      assert RuleKeeps(archives, key, m, i);
    }
  }

  // ---- Splitting the archives --------------------------------------------------------------

  /** The archives whose path is in the set (or, with `want` false, is not), in their order. */
  function Select(archives: seq<Archive>, paths: set<string>, want: bool): seq<Archive> {
    if archives == [] then []
    else
      var last := archives[|archives| - 1];
      var init := Select(archives[..|archives| - 1], paths, want);
      if (last.path in paths) == want then init + [last] else init
  }

  method Split(archives: seq<Archive>, keep: set<string>) returns (kept: seq<Archive>, wouldDelete: seq<Archive>)
    ensures kept == Select(archives, keep, true) && wouldDelete == Select(archives, keep, false)
  {
    kept, wouldDelete := [], [];
    for i := 0 to |archives|
      invariant kept == Select(archives[..i], keep, true) && wouldDelete == Select(archives[..i], keep, false)
    {
      assert archives[..i + 1][..i] == archives[..i];
      if archives[i].path in keep {
        kept := kept + [archives[i]];
        continue;
      }
      wouldDelete := wouldDelete + [archives[i]];
    }
    assert archives[..|archives|] == archives;
  }

  /** Kept and would-delete partition the list. */
  lemma {:induction false} SplitPartitions(archives: seq<Archive>, keep: set<string>)
    ensures multiset(Select(archives, keep, true)) + multiset(Select(archives, keep, false)) == multiset(archives)
    ensures forall a :: a in Select(archives, keep, true) ==> a.path in keep
    ensures forall a :: a in Select(archives, keep, false) ==> a.path !in keep
  {
    if archives != [] {
      var init := archives[..|archives| - 1];
      SplitPartitions(init, keep);
      assert archives == init + [archives[|archives| - 1]];
      OneMoreSelected(init, archives[|archives| - 1], keep);
    }
  }

  lemma OneMoreSelected(archives: seq<Archive>, last: Archive, keep: set<string>)
    ensures
      var more := archives + [last];
      if last.path in keep
      then
        && Select(more, keep, true) == Select(archives, keep, true) + [last]
        && Select(more, keep, false) == Select(archives, keep, false)
      else
        && Select(more, keep, true) == Select(archives, keep, true)
        && Select(more, keep, false) == Select(archives, keep, false) + [last]
  {
    assert (archives + [last])[..|archives|] == archives;
  }

  /** Where a kept archive lands: behind the kept ones that came before it. */
  lemma {:induction false} SelectAt(archives: seq<Archive>, keep: set<string>, i: nat)
    requires i < |archives| && archives[i].path in keep
    ensures
      var b, k := Select(archives, keep, true), |Select(archives[..i], keep, true)|;
      k < |b| && b[k] == archives[i] && b[..k] == Select(archives[..i], keep, true)
  {
    var n := |archives| - 1;
    if i < n {
      SelectAt(archives[..n], keep, i);
      assert archives[..n][..i] == archives[..i];
    }
  }

  lemma {:induction false} SelectWithin(archives: seq<Archive>, keep: set<string>)
    ensures forall a :: a in Select(archives, keep, true) ==> a in archives
  {
    if archives != [] {
      SelectWithin(archives[..|archives| - 1], keep);
    }
  }

  lemma RuleKeepsAgain(archives: seq<Archive>, key: int -> string, n: int, keep: set<string>, i: nat)
    requires i < |archives| && RuleKeeps(archives, key, n, i) && archives[i].path in keep
    ensures archives[i].path in KeptBy(Select(archives, keep, true), key, n)
  {
    var b, k := Select(archives, keep, true), |Select(archives[..i], keep, true)|;
    SelectAt(archives, keep, i);
    SelectWithin(archives[..i], keep);
    BucketsWithin(b[..k], archives[..i], key);
    assert RuleKeeps(b, key, n, k);
  }

  /** Applying the policy again to what it kept deletes nothing. */
  lemma RecomputeKeepsAll(archives: seq<Archive>, policy: Policy, c: Calendar, a: Archive)
    requires a in Select(archives, KeepSet(archives, policy, c), true)
    ensures a.path in KeepSet(Select(archives, KeepSet(archives, policy, c), true), policy, c)
  {
    var keep := KeepSet(archives, policy, c);
    SplitPartitions(archives, keep);
    if a.path in KeptBy(archives, c.day, policy.dailies) {
      KeptOnce(archives, c.day, policy.dailies, keep, a.path);
    } else if a.path in KeptBy(archives, c.week, policy.weeklies) {
      KeptOnce(archives, c.week, policy.weeklies, keep, a.path);
    } else {
      KeptOnce(archives, c.month, policy.monthlies, keep, a.path);
    }
  }

  lemma KeptOnce(archives: seq<Archive>, key: int -> string, n: int, keep: set<string>, path: string)
    requires path in KeptBy(archives, key, n) && path in keep
    ensures path in KeptBy(Select(archives, keep, true), key, n)
  {
    var i :| 0 <= i < |archives| && RuleKeeps(archives, key, n, i) && archives[i].path == path;
    RuleKeepsAgain(archives, key, n, keep, i);
  }
}
