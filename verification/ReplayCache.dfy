/** The in-memory replay cache: a lookup index over an ordered list, oldest entry first.

    The class keeps the index and the list as separate mutable structures. Every method is tied
    to a function on the plain sequence of entries, and the lemmas about those functions are
    what the envelope protocol relies on. */
module ReplayCaches {

  datatype Entry = Entry(jobID: string, observedAt: int)

  /** At most this many entries are kept: a capacity below one still keeps the newest entry. */
  function Bound(capacity: int): int {
    if capacity < 1 then 1 else capacity
  }

  function Ids(es: seq<Entry>): set<string> {
    set e | e in es :: e.jobID
  }

  predicate Distinct(es: seq<Entry>) {
    forall i, j :: 0 <= i < j < |es| ==> es[i].jobID != es[j].jobID
  }

  predicate Ordered(es: seq<Entry>) {
    forall i, j :: 0 <= i < j < |es| ==> es[i].observedAt <= es[j].observedAt
  }

  /** What every cache state satisfies at clock reading `now`. */
  predicate WellFormed(es: seq<Entry>, capacity: int, now: int) {
    && Distinct(es) && Ordered(es)
    && |es| <= Bound(capacity)
    && forall i :: 0 <= i < |es| ==> es[i].observedAt <= now
  }

  predicate SeenIn(es: seq<Entry>, ttl: int, jobID: string, now: int) {
    exists i :: 0 <= i < |es| && es[i].jobID == jobID && now - es[i].observedAt < ttl
  }

  function RemoveAt<T>(s: seq<T>, k: nat): (r: seq<T>)
    requires k < |s|
    ensures |r| == |s| - 1
    ensures forall i :: 0 <= i < |r| ==> r[i] == if i < k then s[i] else s[i + 1]
  {
    s[..k] + s[k + 1..]
  }

  function Without(es: seq<Entry>, jobID: string): seq<Entry> {
    if es == [] then []
    else if es[0].jobID == jobID then Without(es[1..], jobID)
    else [es[0]] + Without(es[1..], jobID)
  }

  function Remembered(es: seq<Entry>, capacity: int, jobID: string, now: int): seq<Entry> {
    if jobID in Ids(es) then Without(es, jobID) + [Entry(jobID, now)]
    else if |es| >= capacity && es != [] then es[1..] + [Entry(jobID, now)]
    else es + [Entry(jobID, now)]
  }

  /** Drops entries from the front until the first one observed after the cutoff. */
  function Purged(es: seq<Entry>, cutoff: int): seq<Entry> {
    if es == [] || es[0].observedAt > cutoff then es else Purged(es[1..], cutoff)
  }

  /** The index and the list hold the same entries, one per job id. */
  ghost predicate Linked(index: map<string, Entry>, order: seq<Entry>) {
    && Distinct(order)
    && (forall e :: e in order ==> e.jobID in index && index[e.jobID] == e)
    && (forall id :: id in index ==> index[id] in order && index[id].jobID == id)
  }

  class ReplayCache {
    const capacity: int
    const ttl: int
    var index: map<string, Entry>
    var order: seq<Entry>

    ghost predicate Valid()
      reads this
    {
      Linked(index, order)
    }

    constructor (capacity: int, ttl: int)
      ensures Valid() && order == [] && index == map[]
      ensures this.capacity == capacity && this.ttl == ttl
    {
      this.capacity := capacity;
      this.ttl := ttl;
      index := map[];
      order := [];
    }

    method Seen(jobID: string, now: int) returns (seen: bool)
      requires Valid()
      ensures seen == SeenIn(order, ttl, jobID, now)
    {
      if jobID !in index {
        return false;
      }
      var entry := index[jobID];
      ghost var k :| 0 <= k < |order| && order[k] == entry;
      return now - entry.observedAt < ttl;
    }

    method Remember(jobID: string, now: int)
      requires Valid()
      modifies this
      ensures Valid() && order == Remembered(old(order), capacity, jobID, now)
    {
      IdsAreIndexed(index, order, jobID);
      var entry := Entry(jobID, now);
      if jobID in index {
        var k :| 0 <= k < |order| && order[k] == index[jobID];
        WithoutAt(order, k);
        LinkedAfterMove(index, order, k, now);
        order := RemoveAt(order, k) + [entry];
        index := index[jobID := entry];
        return;
      }
      if |order| >= capacity && order != [] {
        LinkedAfterRemoval(index, order, 0);
        index := index - {order[0].jobID};
        order := order[1..];
      }
      LinkedAfterPush(index, order, entry);
      order := order + [entry];
      index := index[jobID := entry];
    }

    method Purge(now: int)
      requires Valid()
      modifies this
      ensures Valid() && order == Purged(old(order), now - ttl)
    {
      var cutoff := now - ttl;
      while order != []
        invariant Valid()
        invariant Purged(order, cutoff) == Purged(old(order), cutoff)
        decreases |order|
      {
        var front := order[0];
        if front.observedAt > cutoff {
          break;
        }
        LinkedAfterRemoval(index, order, 0);
        index := index - {front.jobID};
        order := order[1..];
      }
    }
  }

  // ---- Index and list stay in step ---------------------------------------------------------

  lemma IdsAreIndexed(index: map<string, Entry>, order: seq<Entry>, jobID: string)
    requires Linked(index, order)
    ensures jobID in Ids(order) <==> jobID in index
  {
    if jobID in index {
      assert index[jobID] in order;
    }
  }

  lemma LinkedAfterMove(index: map<string, Entry>, order: seq<Entry>, k: nat, now: int)
    requires Linked(index, order) && k < |order|
    ensures
      var moved := Entry(order[k].jobID, now);
      Linked(index[moved.jobID := moved], RemoveAt(order, k) + [moved])
  {
    var moved := Entry(order[k].jobID, now);
    LinkedAfterRemoval(index, order, k);
    LinkedAfterPush(index - {moved.jobID}, RemoveAt(order, k), moved);
    assert (index - {moved.jobID})[moved.jobID := moved] == index[moved.jobID := moved];
  }

  lemma LinkedAfterRemoval(index: map<string, Entry>, order: seq<Entry>, k: nat)
    requires Linked(index, order) && k < |order|
    ensures Linked(index - {order[k].jobID}, RemoveAt(order, k))
  {
    RemoveAtMembers(order, k);
  }

  lemma RemoveAtMembers(es: seq<Entry>, k: nat)
    requires Distinct(es) && k < |es|
    ensures Distinct(RemoveAt(es, k))
    ensures forall e :: e in RemoveAt(es, k) <==> e in es && e.jobID != es[k].jobID
  {
    RemoveAtDistinct(es, k);
    forall e ensures e in RemoveAt(es, k) <==> e in es && e.jobID != es[k].jobID {
      RemoveAtMember(es, k, e);
    }
  }

  lemma RemoveAtMember(es: seq<Entry>, k: nat, e: Entry)
    requires Distinct(es) && k < |es|
    ensures e in RemoveAt(es, k) <==> e in es && e.jobID != es[k].jobID
  {
    if e in es[..k] {
      var i :| 0 <= i < k && es[i] == e;
      assert es[i].jobID != es[k].jobID;
    } else if e in es[k + 1..] {
      var i :| k < i < |es| && es[i] == e;
      assert es[i].jobID != es[k].jobID;
    }
    assert es == es[..k] + [es[k]] + es[k + 1..];
  }

  lemma RemoveAtDistinct(es: seq<Entry>, k: nat)
    requires Distinct(es) && k < |es|
    ensures Distinct(RemoveAt(es, k))
  {
    var rest := RemoveAt(es, k);
    assert forall i :: 0 <= i < |rest| ==> rest[i] == es[if i < k then i else i + 1];
  }

  lemma LinkedAfterPush(index: map<string, Entry>, order: seq<Entry>, entry: Entry)
    requires Linked(index, order) && entry.jobID !in index
    ensures Linked(index[entry.jobID := entry], order + [entry])
  {
    forall id | id in index ensures index[id] in order + [entry] {
      assert index[id] in order;
    }
  }

  lemma IdsAppend(es: seq<Entry>, e: Entry)
    ensures Ids(es + [e]) == Ids(es) + {e.jobID}
  {
    assert forall x :: x in es + [e] <==> x in es || x == e;
    assert e in es + [e];
  }

  // ---- Without ---------------------------------------------------------------------------

  lemma {:induction false} WithoutAt(es: seq<Entry>, k: nat)
    requires Distinct(es) && k < |es|
    ensures Without(es, es[k].jobID) == RemoveAt(es, k)
  {
    if k == 0 {
      WithoutAbsent(es[1..], es[0].jobID);
    } else {
      assert es[0].jobID != es[k].jobID;
      WithoutAt(es[1..], k - 1);
      assert es[1..][..k - 1] == es[1..k] && es[1..][k..] == es[k + 1..];
      assert [es[0]] + es[1..k] == es[..k];
    }
  }

  lemma {:induction false} WithoutAbsent(es: seq<Entry>, jobID: string)
    requires jobID !in Ids(es)
    ensures Without(es, jobID) == es
  {
    if es != [] {
      assert es[0] in es;
      assert forall e :: e in es[1..] ==> e in es;
      WithoutAbsent(es[1..], jobID);
    }
  }

  lemma IndexOf(es: seq<Entry>, jobID: string) returns (k: nat)
    requires jobID in Ids(es)
    ensures k < |es| && es[k].jobID == jobID
  {
    var e :| e in es && e.jobID == jobID;
    k :| k < |es| && es[k] == e;
  }

  lemma DistinctSize(es: seq<Entry>)
    requires Distinct(es)
    ensures |Ids(es)| == |es|
  {
    if es == [] {
      assert Ids(es) == {};
    } else {
      var rest := es[1..];
      DistinctSize(rest);
      assert es == [es[0]] + rest;
      assert Ids(es) == {es[0].jobID} + Ids(rest);
      assert es[0].jobID !in Ids(rest);
    }
  }

  // ---- The invariant every operation keeps -------------------------------------------------

  lemma RememberedWellFormed(es: seq<Entry>, capacity: int, jobID: string, before: int, now: int)
    requires WellFormed(es, capacity, before) && before <= now
    ensures
      var r := Remembered(es, capacity, jobID, now);
      WellFormed(r, capacity, now) && r != [] && r[|r| - 1] == Entry(jobID, now)
  {
    if jobID in Ids(es) {
      var k := IndexOf(es, jobID);
      WithoutAt(es, k);
      RemovedWellFormed(es, capacity, k, before);
      AppendWellFormed(RemoveAt(es, k), capacity, jobID, before, now);
    } else {
      AbsentId(es, jobID);
      if |es| >= capacity && es != [] {
        assert es[1..] == RemoveAt(es, 0);
        RemovedWellFormed(es, capacity, 0, before);
        AppendWellFormed(es[1..], capacity, jobID, before, now);
      } else {
        AppendWellFormed(es, capacity, jobID, before, now);
      }
    }
  }

  lemma RemovedWellFormed(es: seq<Entry>, capacity: int, k: nat, now: int)
    requires WellFormed(es, capacity, now) && k < |es|
    ensures WellFormed(RemoveAt(es, k), capacity, now) && |RemoveAt(es, k)| < Bound(capacity)
    ensures forall i :: 0 <= i < |RemoveAt(es, k)| ==> RemoveAt(es, k)[i].jobID != es[k].jobID
  {
    var rest := RemoveAt(es, k);
    assert forall i :: 0 <= i < |rest| ==> rest[i] == es[if i < k then i else i + 1];
  }

  lemma AbsentId(es: seq<Entry>, jobID: string)
    requires jobID !in Ids(es)
    ensures forall i :: 0 <= i < |es| ==> es[i].jobID != jobID
  {
    forall i | 0 <= i < |es| ensures es[i].jobID != jobID {
      assert es[i] in es;
    }
  }

  lemma AppendWellFormed(kept: seq<Entry>, capacity: int, jobID: string, before: int, now: int)
    requires WellFormed(kept, capacity, before) && before <= now
    requires |kept| < Bound(capacity)
    requires forall i :: 0 <= i < |kept| ==> kept[i].jobID != jobID
    ensures WellFormed(kept + [Entry(jobID, now)], capacity, now)
  {
  }

  lemma {:induction false} PurgedIsSuffix(es: seq<Entry>, cutoff: int) returns (k: nat)
    ensures k <= |es| && Purged(es, cutoff) == es[k..]
    ensures forall i :: 0 <= i < k ==> es[i].observedAt <= cutoff
    ensures k < |es| ==> es[k].observedAt > cutoff
  {
    if es == [] || es[0].observedAt > cutoff {
      k := 0;
    } else {
      k := PurgedIsSuffix(es[1..], cutoff);
      k := k + 1;
    }
  }

  lemma PurgedWellFormed(es: seq<Entry>, capacity: int, cutoff: int, now: int)
    requires WellFormed(es, capacity, now)
    ensures WellFormed(Purged(es, cutoff), capacity, now)
  {
    var k := PurgedIsSuffix(es, cutoff);
  }

  /** Stopping at the first fresh entry removes exactly the expired ones. */
  lemma PurgeRemovesExactlyExpired(es: seq<Entry>, cutoff: int, e: Entry)
    requires Ordered(es)
    ensures e in Purged(es, cutoff) <==> e in es && e.observedAt > cutoff
  {
    var k := PurgedIsSuffix(es, cutoff);
    if e in es && e.observedAt > cutoff {
      var i :| 0 <= i < |es| && es[i] == e;
      assert es[k..][i - k] == e;
    }
  }

  // ---- Refinement of a plain "id to last time" map -----------------------------------------

  ghost function TimeOf(es: seq<Entry>, jobID: string): int
    requires jobID in Ids(es)
  {
    var e :| e in es && e.jobID == jobID; e.observedAt
  }

  ghost function LastSeen(es: seq<Entry>): map<string, int> {
    map id | id in Ids(es) :: TimeOf(es, id)
  }

  lemma TimeOfAt(es: seq<Entry>, k: nat)
    requires Distinct(es) && k < |es|
    ensures es[k].jobID in Ids(es) && TimeOf(es, es[k].jobID) == es[k].observedAt
  {
    assert es[k] in es;
    forall e | e in es && e.jobID == es[k].jobID ensures e == es[k] {
      var j :| 0 <= j < |es| && es[j] == e;
    }
  }

  /** Reading: a job is seen exactly when the map holds a time younger than the TTL. */
  lemma SeenReadsTheMap(es: seq<Entry>, ttl: int, jobID: string, now: int)
    requires Distinct(es)
    ensures SeenIn(es, ttl, jobID, now) <==> jobID in LastSeen(es) && now - LastSeen(es)[jobID] < ttl
  {
    if jobID in Ids(es) {
      var k := IndexOf(es, jobID);
      TimeOfAt(es, k);
    } else {
      AbsentId(es, jobID);
    }
  }

  /** Writing: one key is set; a key is lost only when a new id meets a full cache, and then
      it is the one with the least time. */
  lemma RememberWritesTheMap(es: seq<Entry>, capacity: int, jobID: string, now: int)
    requires WellFormed(es, capacity, now)
    ensures
      var m, m' := LastSeen(es), LastSeen(Remembered(es, capacity, jobID, now));
      if jobID in m || |m| < Bound(capacity) then m' == m[jobID := now]
      else exists oldest :: oldest in m && m' == (m - {oldest})[jobID := now]
                            && forall id :: id in m ==> m[oldest] <= m[id]
  {
    DistinctSize(es);
    var m := LastSeen(es);
    assert m.Keys == Ids(es);
    assert |m| == |m.Keys| == |es|;
    if jobID in Ids(es) {
      RewritesKey(es, capacity, jobID, now);
    } else if |es| < Bound(capacity) {
      LastSeenAppend(es, jobID, now);
    } else {
      EvictsOldest(es, jobID, now);
      assert Remembered(es, capacity, jobID, now) == es[1..] + [Entry(jobID, now)];
    }
  }

  lemma RewritesKey(es: seq<Entry>, capacity: int, jobID: string, now: int)
    requires Distinct(es) && jobID in Ids(es)
    ensures LastSeen(Remembered(es, capacity, jobID, now)) == LastSeen(es)[jobID := now]
  {
    var k := IndexOf(es, jobID);
    WithoutAt(es, k);
    RewritesKeyAt(es, k, now);
  }

  lemma RewritesKeyAt(es: seq<Entry>, k: nat, now: int)
    requires Distinct(es) && k < |es|
    ensures LastSeen(RemoveAt(es, k) + [Entry(es[k].jobID, now)]) == LastSeen(es)[es[k].jobID := now]
  {
    DropOne(es, k);
    LastSeenAppend(RemoveAt(es, k), es[k].jobID, now);
    SetAgain(LastSeen(es), es[k].jobID, now);
  }

  lemma SetAgain(m: map<string, int>, id: string, t: int)
    ensures (m - {id})[id := t] == m[id := t]
  {
  }

  lemma EvictsOldest(es: seq<Entry>, jobID: string, now: int)
    requires Distinct(es) && Ordered(es) && es != [] && jobID !in Ids(es)
    ensures
      var m, oldest := LastSeen(es), es[0].jobID;
      && oldest in m && (forall id :: id in m ==> m[oldest] <= m[id])
      && LastSeen(es[1..] + [Entry(jobID, now)]) == (m - {oldest})[jobID := now]
  {
    DropOne(es, 0);
    assert RemoveAt(es, 0) == es[1..];
    assert Ids(es[1..]) <= Ids(es);
    LastSeenAppend(es[1..], jobID, now);
    OldestIsLeast(es);
  }

  lemma OldestIsLeast(es: seq<Entry>)
    requires Distinct(es) && Ordered(es) && es != []
    ensures es[0].jobID in LastSeen(es)
    ensures forall id :: id in LastSeen(es) ==> LastSeen(es)[es[0].jobID] <= LastSeen(es)[id]
  {
    TimeOfAt(es, 0);
    forall id | id in LastSeen(es) ensures es[0].observedAt <= LastSeen(es)[id] {
      var k := IndexOf(es, id);
      TimeOfAt(es, k);
    }
  }

  lemma LastSeenAppend(kept: seq<Entry>, jobID: string, now: int)
    requires Distinct(kept) && jobID !in Ids(kept)
    ensures LastSeen(kept + [Entry(jobID, now)]) == LastSeen(kept)[jobID := now]
  {
    var es := kept + [Entry(jobID, now)];
    AbsentId(kept, jobID);
    assert Ids(es) == Ids(kept) + {jobID} by {
      assert Entry(jobID, now) in es;
      assert forall e :: e in es <==> e in kept || e == Entry(jobID, now);
    }
    TimeOfAt(es, |kept|);
    forall id | id in Ids(kept) ensures TimeOf(es, id) == TimeOf(kept, id) {
      var k := IndexOf(kept, id);
      TimeOfAt(kept, k);
      assert es[k] == kept[k];
      TimeOfAt(es, k);
    }
  }

  lemma DropOne(es: seq<Entry>, k: nat)
    requires Distinct(es) && k < |es|
    ensures Distinct(RemoveAt(es, k)) && es[k].jobID !in Ids(RemoveAt(es, k))
    ensures LastSeen(RemoveAt(es, k)) == LastSeen(es) - {es[k].jobID}
  {
    var kept := RemoveAt(es, k);
    DropOneId(es, k);
    forall id | id in Ids(kept) ensures TimeOf(kept, id) == TimeOf(es, id) {
      var j := IndexOf(kept, id);
      TimeOfAt(kept, j);
      TimeOfAt(es, if j < k then j else j + 1);
    }
  }

  lemma DropOneId(es: seq<Entry>, k: nat)
    requires Distinct(es) && k < |es|
    ensures Distinct(RemoveAt(es, k))
    ensures Ids(RemoveAt(es, k)) == Ids(es) - {es[k].jobID}
  {
    RemoveAtMembers(es, k);
  }
}
