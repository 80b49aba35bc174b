/** Runs of the replay cache: any sequence of offered job ids, background purges and restarts. */
module ReplayRuns {
  import opened Bytes
  import opened ReplayCaches

  /** One step of an agent: a job id is offered (`passes` says whether everything but the replay
      check lets it through), the background purge runs, or the agent restarts, which forgets the
      cache because it is kept in memory. Each step reads the clock in order.
      Lookup and insertion take the cache's lock separately, so the purge can also run inside an offer:
      `early` before the lookup, `late` between lookup and insertion. Of several purges in one place
      the last one decides. */
  datatype Event =
    | Offer(jobID: string, passes: bool, now: int, early: Option<int>, seenAt: int, late: Option<int>,
            rememberedAt: int)
    | Purge(at: int)
    | Restart(at: int)

  function Start(ev: Event): int {
    if ev.Offer? then ev.now else ev.at
  }

  function End(ev: Event): int {
    if ev.Offer? then ev.rememberedAt else ev.at
  }

  /** `purging` says whether purges do anything. */
  datatype Config = Config(capacity: int, ttl: int, purging: bool)

  function Swept(c: Config, es: seq<Entry>, at: Option<int>): seq<Entry> {
    if at.Some? && c.purging then Purged(es, at.value - c.ttl) else es
  }

  predicate Accepts(c: Config, es: seq<Entry>, ev: Event) {
    ev.Offer? && ev.passes && !SeenIn(Swept(c, es, ev.early), c.ttl, ev.jobID, ev.seenAt)
  }

  /** The cache that an offer's insertion finds. */
  function FoundByInsertion(c: Config, es: seq<Entry>, ev: Event): seq<Entry>
    requires ev.Offer?
  {
    Swept(c, Swept(c, es, ev.early), ev.late)
  }

  function Step(c: Config, es: seq<Entry>, ev: Event): seq<Entry> {
    match ev
    case Purge(at) => Swept(c, es, Some(at))
    case Restart(_) => []
    case Offer(jobID, _, _, _, _, _, rememberedAt) =>
      var found := FoundByInsertion(c, es, ev);
      if Accepts(c, es, ev) then Remembered(found, c.capacity, jobID, rememberedAt) else found
  }

  /** What happened, and the cache between steps: states[k] is the cache before events[k]. */
  datatype Trace = Trace(events: seq<Event>, states: seq<seq<Entry>>)

  ghost predicate Shaped(tr: Trace) {
    |tr.states| == |tr.events| + 1
  }

  function ClockAt(events: seq<Event>, begin: int, k: nat): int
    requires k <= |events|
  {
    if k == 0 then begin else End(events[k - 1])
  }

  /** The clock never goes back, within a step or between steps. */
  predicate Advances(clock: int, ev: Event) {
    clock <= Start(ev)
    && (ev.Offer? ==>
          && ev.now <= ev.seenAt <= ev.rememberedAt
          && (ev.early.Some? ==> ev.now <= ev.early.value <= ev.seenAt)
          && (ev.late.Some? ==> ev.seenAt <= ev.late.value <= ev.rememberedAt))
  }

  ghost predicate StepAt(c: Config, tr: Trace, begin: int, k: nat)
    requires Shaped(tr) && k < |tr.events|
  {
    && Advances(ClockAt(tr.events, begin, k), tr.events[k])
    && tr.states[k + 1] == Step(c, tr.states[k], tr.events[k])
  }

  /** A run from a cache that is well formed when the run begins. */
  ghost predicate Run(c: Config, tr: Trace, begin: int) {
    && Shaped(tr)
    && WellFormed(tr.states[0], c.capacity, begin)
    && forall k :: 0 <= k < |tr.events| ==> StepAt(c, tr, begin, k)
  }

  predicate AcceptedAt(c: Config, tr: Trace, k: nat)
    requires k < |tr.events| && k < |tr.states|
  {
    Accepts(c, tr.states[k], tr.events[k])
  }

  lemma {:induction false} LaterStep(c: Config, tr: Trace, begin: int, j: nat, k: nat)
    requires Run(c, tr, begin) && j < k < |tr.events|
    ensures End(tr.events[j]) <= Start(tr.events[k])
  {
    assert StepAt(c, tr, begin, k);
    if j < k - 1 {
      LaterStep(c, tr, begin, j, k - 1);
      assert StepAt(c, tr, begin, k - 1);
    }
  }

  /** Every step of every run keeps the cache duplicate-free, ordered by time and bounded. */
  lemma {:induction false} RunKeepsWellFormed(c: Config, tr: Trace, begin: int, k: nat)
    requires Run(c, tr, begin) && k <= |tr.events|
    ensures WellFormed(tr.states[k], c.capacity, ClockAt(tr.events, begin, k))
  {
    if k > 0 {
      RunKeepsWellFormed(c, tr, begin, k - 1);
      assert StepAt(c, tr, begin, k - 1);
      StepWellFormed(c, tr.states[k - 1], tr.events[k - 1], ClockAt(tr.events, begin, k - 1));
    }
  }

  lemma SweptWellFormed(c: Config, es: seq<Entry>, at: Option<int>, clock: int)
    requires WellFormed(es, c.capacity, clock)
    ensures WellFormed(Swept(c, es, at), c.capacity, clock)
  {
    if at.Some? {
      PurgedWellFormed(es, c.capacity, at.value - c.ttl, clock);
    }
  }

  lemma FoundWellFormed(c: Config, es: seq<Entry>, ev: Event, clock: int)
    requires WellFormed(es, c.capacity, clock) && ev.Offer?
    ensures WellFormed(FoundByInsertion(c, es, ev), c.capacity, clock)
  {
    SweptWellFormed(c, es, ev.early, clock);
    SweptWellFormed(c, Swept(c, es, ev.early), ev.late, clock);
  }

  lemma StepWellFormed(c: Config, es: seq<Entry>, ev: Event, clock: int)
    requires WellFormed(es, c.capacity, clock) && Advances(clock, ev)
    ensures WellFormed(Step(c, es, ev), c.capacity, End(ev))
  {
    if ev.Offer? {
      FoundWellFormed(c, es, ev, clock);
      RememberedWellFormed(FoundByInsertion(c, es, ev), c.capacity, ev.jobID, clock, ev.rememberedAt);
    } else if ev.Purge? {
      SweptWellFormed(c, es, Some(ev.at), clock);
    }
  }

  // ---- Purging changes no verdict ----------------------------------------------------------

  lemma {:induction false} PurgedTwice(es: seq<Entry>, c: int, d: int)
    requires c <= d
    ensures Purged(Purged(es, c), d) == Purged(es, d)
  {
    if es != [] && es[0].observedAt <= c {
      PurgedTwice(es[1..], c, d);
    }
  }

  lemma SeenIgnoresExpired(es: seq<Entry>, ttl: int, jobID: string, now: int)
    ensures SeenIn(es, ttl, jobID, now) == SeenIn(Purged(es, now - ttl), ttl, jobID, now)
  {
    var k := PurgedIsSuffix(es, now - ttl);
    if SeenIn(es, ttl, jobID, now) {
      var i :| 0 <= i < |es| && es[i].jobID == jobID && now - es[i].observedAt < ttl;
      assert es[k..][i - k] == es[i];
    }
  }

  lemma {:induction false} PurgedSplit(stale: seq<Entry>, live: seq<Entry>, cutoff: int)
    requires forall i :: 0 <= i < |stale| ==> stale[i].observedAt <= cutoff
    requires forall i :: 0 <= i < |live| ==> live[i].observedAt > cutoff
    ensures Purged(stale + live, cutoff) == live
  {
    if stale == [] {
      assert stale + live == live;
    } else {
      assert (stale + live)[1..] == stale[1..] + live;
      PurgedSplit(stale[1..], live, cutoff);
    }
  }

  lemma {:induction false} WithoutSplit(a: seq<Entry>, b: seq<Entry>, jobID: string)
    ensures Without(a + b, jobID) == Without(a, jobID) + Without(b, jobID)
  {
    if a == [] {
      assert a + b == b;
    } else {
      assert (a + b)[1..] == a[1..] + b;
      WithoutSplit(a[1..], b, jobID);
    }
  }

  lemma {:induction false} WithoutWithin(es: seq<Entry>, jobID: string)
    ensures forall e :: e in Without(es, jobID) ==> e in es
  {
    if es != [] {
      WithoutWithin(es[1..], jobID);
    }
  }

  /** Expired entries never decide what insertion does to the live ones. */
  lemma RememberIgnoresExpired(es: seq<Entry>, capacity: int, ttl: int, jobID: string, now: int)
    requires WellFormed(es, capacity, now)
    ensures
      var cutoff := now - ttl;
      Purged(Remembered(es, capacity, jobID, now), cutoff)
      == Purged(Remembered(Purged(es, cutoff), capacity, jobID, now), cutoff)
  {
    var cutoff := now - ttl;
    var k := PurgedIsSuffix(es, cutoff);
    var stale, live := es[..k], es[k..];
    assert es == stale + live;
    if ttl <= 0 {
      PurgedAtOnce(es, capacity, jobID, now, cutoff);
      PurgedAtOnce(live, capacity, jobID, now, cutoff);
    } else if k > 0 {
      RememberedBesideStale(stale, live, capacity, jobID, now, cutoff);
    }
  }

  lemma PurgedAtOnce(es: seq<Entry>, capacity: int, jobID: string, now: int, cutoff: int)
    requires WellFormed(es, capacity, now) && now <= cutoff
    ensures Purged(Remembered(es, capacity, jobID, now), cutoff) == []
  {
    var r := Remembered(es, capacity, jobID, now);
    RememberedWellFormed(es, capacity, jobID, now, now);
    assert r + [] == r;
    PurgedSplit(r, [], cutoff);
  }

  /** What insertion makes of the live part, beside a non-empty expired part. */
  lemma RememberedBesideStale(stale: seq<Entry>, live: seq<Entry>, capacity: int, jobID: string, now: int, cutoff: int)
    requires WellFormed(stale + live, capacity, now) && stale != [] && cutoff < now
    requires forall i :: 0 <= i < |stale| ==> stale[i].observedAt <= cutoff
    requires forall i :: 0 <= i < |live| ==> live[i].observedAt > cutoff
    ensures
      && Purged(Remembered(stale + live, capacity, jobID, now), cutoff) == Without(live, jobID) + [Entry(jobID, now)]
      && Purged(Remembered(live, capacity, jobID, now), cutoff) == Without(live, jobID) + [Entry(jobID, now)]
  {
    var live' := Without(live, jobID) + [Entry(jobID, now)];
    WithoutWithin(live, jobID);
    assert forall i :: 0 <= i < |live'| - 1 ==> live'[i] in live;
    var stale' := RememberedSplit(stale, live, capacity, jobID, now);
    assert forall i :: 0 <= i < |stale'| ==> stale'[i] in stale;
    PurgedSplit(stale', live', cutoff);
    PurgedSplit([], live', cutoff);
    assert [] + live' == live';
  }

  lemma RememberedSplit(stale: seq<Entry>, live: seq<Entry>, capacity: int, jobID: string, now: int)
    returns (stale': seq<Entry>)
    requires |stale + live| <= Bound(capacity) && stale != []
    ensures forall e :: e in stale' ==> e in stale
    ensures Remembered(stale + live, capacity, jobID, now) == stale' + (Without(live, jobID) + [Entry(jobID, now)])
    ensures Remembered(live, capacity, jobID, now) == Without(live, jobID) + [Entry(jobID, now)]
  {
    var es := stale + live;
    IdsOfParts(stale, live, jobID);
    if jobID !in Ids(live) {
      WithoutAbsent(live, jobID);
    }
    if jobID in Ids(es) {
      WithoutSplit(stale, live, jobID);
      WithoutWithin(stale, jobID);
      stale' := Without(stale, jobID);
    } else if |es| >= capacity {
      assert es[1..] == stale[1..] + live;
      stale' := stale[1..];
    } else {
      stale' := stale;
    }
  }

  lemma IdsOfParts(a: seq<Entry>, b: seq<Entry>, jobID: string)
    ensures jobID in Ids(a + b) <==> jobID in Ids(a) || jobID in Ids(b)
  {
    if jobID in Ids(a) {
      var k := IndexOf(a, jobID);
      assert (a + b)[k] in a + b;
    }
    if jobID in Ids(b) {
      var k := IndexOf(b, jobID);
      assert (a + b)[|a| + k] in a + b;
    }
  }

  /** The same events with and without the background purge. */
  ghost predicate SameEvents(c: Config, on: Trace, off: Trace, begin: int) {
    && Run(c.(purging := true), on, begin) && Run(c.(purging := false), off, begin)
    && on.events == off.events && on.states[0] == off.states[0]
  }

  /** With and without the background purge, the live part of the cache is the same at every step. */
  lemma {:induction false} PurgingKeepsLiveEntries(c: Config, on: Trace, off: Trace, begin: int, k: nat)
    requires SameEvents(c, on, off, begin) && k <= |on.events|
    ensures
      var cutoff := ClockAt(on.events, begin, k) - c.ttl;
      Purged(on.states[k], cutoff) == Purged(off.states[k], cutoff)
  {
    if k > 0 {
      PurgingKeepsLiveEntries(c, on, off, begin, k - 1);
      RunKeepsWellFormed(c.(purging := true), on, begin, k - 1);
      RunKeepsWellFormed(c.(purging := false), off, begin, k - 1);
      assert StepAt(c.(purging := true), on, begin, k - 1);
      assert StepAt(c.(purging := false), off, begin, k - 1);
      StepKeepsLiveEntries(c, on.states[k - 1], off.states[k - 1], on.events[k - 1], ClockAt(on.events, begin, k - 1));
    }
  }

  lemma StepKeepsLiveEntries(c: Config, a: seq<Entry>, b: seq<Entry>, ev: Event, clock: int)
    requires WellFormed(a, c.capacity, clock) && WellFormed(b, c.capacity, clock) && Advances(clock, ev)
    requires Purged(a, clock - c.ttl) == Purged(b, clock - c.ttl)
    ensures Purged(Step(c.(purging := true), a, ev), End(ev) - c.ttl)
            == Purged(Step(c.(purging := false), b, ev), End(ev) - c.ttl)
  {
    SameLiveLater(a, b, clock - c.ttl, End(ev) - c.ttl);
    if ev.Purge? {
      SweptLater(c.(purging := true), a, Some(ev.at), ev.at);
    } else if ev.Offer? {
      OfferKeepsLiveEntries(c, a, b, ev, clock);
    }
  }

  lemma OfferKeepsLiveEntries(c: Config, a: seq<Entry>, b: seq<Entry>, ev: Event, clock: int)
    requires WellFormed(a, c.capacity, clock) && WellFormed(b, c.capacity, clock) && Advances(clock, ev) && ev.Offer?
    requires Purged(a, clock - c.ttl) == Purged(b, clock - c.ttl)
    requires Purged(a, End(ev) - c.ttl) == Purged(b, End(ev) - c.ttl)
    ensures Purged(Step(c.(purging := true), a, ev), End(ev) - c.ttl)
            == Purged(Step(c.(purging := false), b, ev), End(ev) - c.ttl)
  {
    var on := c.(purging := true);
    SameSeen(a, b, c.ttl, clock, ev.jobID, ev.seenAt);
    SweptSeen(on, a, ev);
    SweptLater(on, a, ev.early, End(ev));
    SweptLater(on, Swept(on, a, ev.early), ev.late, End(ev));
    if Accepts(on, a, ev) {
      FoundWellFormed(on, a, ev, clock);
      SameLiveInserted(c, FoundByInsertion(on, a, ev), b, ev.jobID, clock, ev.rememberedAt);
    }
  }

  /** Inserting into caches with the same live entries gives caches with the same live entries. */
  lemma SameLiveInserted(c: Config, a: seq<Entry>, b: seq<Entry>, jobID: string, clock: int, now: int)
    requires WellFormed(a, c.capacity, clock) && WellFormed(b, c.capacity, clock) && clock <= now
    requires Purged(a, now - c.ttl) == Purged(b, now - c.ttl)
    ensures Purged(Remembered(a, c.capacity, jobID, now), now - c.ttl)
            == Purged(Remembered(b, c.capacity, jobID, now), now - c.ttl)
  {
    RememberIgnoresExpired(a, c.capacity, c.ttl, jobID, now);
    RememberIgnoresExpired(b, c.capacity, c.ttl, jobID, now);
  }

  /** A purge makes no difference to what a later one leaves. */
  lemma SweptLater(c: Config, es: seq<Entry>, at: Option<int>, later: int)
    requires at.Some? ==> at.value <= later
    ensures Purged(Swept(c, es, at), later - c.ttl) == Purged(es, later - c.ttl)
  {
    if at.Some? {
      PurgedTwice(es, at.value - c.ttl, later - c.ttl);
    }
  }

  /** A purge before the lookup makes no difference to its answer. */
  lemma SweptSeen(c: Config, es: seq<Entry>, ev: Event)
    requires ev.Offer? && (ev.early.Some? ==> ev.early.value <= ev.seenAt)
    ensures SeenIn(Swept(c, es, ev.early), c.ttl, ev.jobID, ev.seenAt) == SeenIn(es, c.ttl, ev.jobID, ev.seenAt)
  {
    SweptLater(c, es, ev.early, ev.seenAt);
    SeenIgnoresExpired(es, c.ttl, ev.jobID, ev.seenAt);
    SeenIgnoresExpired(Swept(c, es, ev.early), c.ttl, ev.jobID, ev.seenAt);
  }

  lemma SameSeen(a: seq<Entry>, b: seq<Entry>, ttl: int, clock: int, jobID: string, now: int)
    requires Purged(a, clock - ttl) == Purged(b, clock - ttl) && clock <= now
    ensures SeenIn(a, ttl, jobID, now) == SeenIn(b, ttl, jobID, now)
  {
    SameLiveLater(a, b, clock - ttl, now - ttl);
    SeenIgnoresExpired(a, ttl, jobID, now);
    SeenIgnoresExpired(b, ttl, jobID, now);
  }

  lemma SameLiveLater(a: seq<Entry>, b: seq<Entry>, cutoff: int, later: int)
    requires Purged(a, cutoff) == Purged(b, cutoff) && cutoff <= later
    ensures Purged(a, later) == Purged(b, later)
  {
    PurgedTwice(a, cutoff, later);
    PurgedTwice(b, cutoff, later);
  }

  /** Whenever and however often the purge runs, every job id offered is accepted or refused as if
      the purge never ran. */
  lemma PurgeIsInvisible(c: Config, on: Trace, off: Trace, begin: int, k: nat)
    requires SameEvents(c, on, off, begin) && k < |on.events|
    ensures AcceptedAt(c.(purging := true), on, k) == AcceptedAt(c.(purging := false), off, k)
  {
    var ev := on.events[k];
    assert StepAt(c.(purging := true), on, begin, k);
    PurgingKeepsLiveEntries(c, on, off, begin, k);
    if ev.Offer? {
      SameSeen(on.states[k], off.states[k], c.ttl, ClockAt(on.events, begin, k), ev.jobID, ev.seenAt);
      SweptSeen(c.(purging := true), on.states[k], ev);
    }
  }

  // ---- Following one accepted job id --------------------------------------------------------

  /** Job ids other than `jobID` accepted at steps i, ..., j-1. */
  function OthersAccepted(c: Config, tr: Trace, jobID: string, i: nat, j: nat): set<string>
    requires j <= |tr.events| && j <= |tr.states|
  {
    if j <= i then {}
    else OthersAccepted(c, tr, jobID, i, j - 1)
         + if AcceptedAt(c, tr, j - 1) && tr.events[j - 1].jobID != jobID then {tr.events[j - 1].jobID} else {}
  }

  /** Where the entry remembered at `at` is, given the other ids accepted since: the entries behind
      it are exactly those ids, and it is gone only once they fill the cache. */
  ghost predicate Tracked(es: seq<Entry>, capacity: int, jobID: string, at: int, others: set<string>) {
    if jobID in Ids(es)
    then exists p :: TrackedAt(es, p, jobID, at, others)
    else |others| >= Bound(capacity)
  }

  ghost predicate TrackedAt(es: seq<Entry>, p: int, jobID: string, at: int, others: set<string>) {
    0 <= p < |es| && es[p] == Entry(jobID, at) && Ids(es[p + 1..]) == others
  }

  lemma TrackedAtBack(es: seq<Entry>, capacity: int, jobID: string, at: int)
    requires es != [] && es[|es| - 1] == Entry(jobID, at)
    ensures Tracked(es, capacity, jobID, at, {})
  {
    assert es[|es| - 1] in es;
    assert Ids(es[|es|..]) == {};
    assert TrackedAt(es, |es| - 1, jobID, at, {});
  }

  lemma TrackedAfterOther(es: seq<Entry>, capacity: int, jobID: string, at: int, others: set<string>,
                          other: string, clock: int, now: int)
    requires WellFormed(es, capacity, clock) && clock <= now && other != jobID
    requires Tracked(es, capacity, jobID, at, others)
    ensures Tracked(Remembered(es, capacity, other, now), capacity, jobID, at, others + {other})
  {
    if jobID !in Ids(es) {
      NotGained(es, capacity, jobID, other, now);
      SubsetSize(others, others + {other});
    } else {
      var p :| TrackedAt(es, p, jobID, at, others);
      TrackedFrom(es, capacity, p, others, other, clock, now);
    }
  }

  lemma TrackedFrom(es: seq<Entry>, capacity: int, p: nat, others: set<string>, other: string, clock: int, now: int)
    requires WellFormed(es, capacity, clock) && clock <= now && p < |es| && other != es[p].jobID
    requires Ids(es[p + 1..]) == others
    ensures Tracked(Remembered(es, capacity, other, now), capacity, es[p].jobID, es[p].observedAt, others + {other})
  {
    if other in Ids(es) {
      var k := IndexOf(es, other);
      WithoutAt(es, k);
      TrackedAfterRefresh(es, p, k, Entry(other, now));
    } else if |es| >= capacity && p == 0 {
      EvictedWhenFull(es, other);
      IdsAppend(es[1..], Entry(other, now));
    } else {
      TrackedAfterPush(es, if |es| >= capacity then 1 else 0, p, Entry(other, now));
    }
  }

  lemma TrackedAfterPush(es: seq<Entry>, drop: nat, p: nat, entry: Entry)
    requires drop <= p < |es|
    ensures
      var r := es[drop..] + [entry];
      es[p].jobID in Ids(r) && TrackedAt(r, p - drop, es[p].jobID, es[p].observedAt, Ids(es[p + 1..]) + {entry.jobID})
  {
    var r := es[drop..] + [entry];
    assert r[p - drop] in r;
    assert r[p - drop + 1..] == es[p + 1..] + [entry];
    IdsAppend(es[p + 1..], entry);
  }

  lemma NotGained(es: seq<Entry>, capacity: int, jobID: string, other: string, now: int)
    requires jobID !in Ids(es) && other != jobID
    ensures jobID !in Ids(Remembered(es, capacity, other, now))
  {
    WithoutWithin(es, other);
    IdsAppend(Without(es, other), Entry(other, now));
    IdsAppend(es, Entry(other, now));
    if es != [] {
      IdsAppend(es[1..], Entry(other, now));
    }
  }

  lemma EvictedWhenFull(es: seq<Entry>, other: string)
    requires Distinct(es) && es != [] && other !in Ids(es)
    ensures es[0].jobID !in Ids(es[1..]) && other !in Ids(es[1..])
    ensures |Ids(es[1..]) + {other}| == |es|
  {
    DistinctSize(es[1..]);
    assert forall e :: e in es[1..] ==> e in es;
  }

  lemma TrackedAfterRefresh(es: seq<Entry>, p: nat, k: nat, entry: Entry)
    requires Distinct(es) && p < |es| && k < |es| && p != k && es[k].jobID == entry.jobID
    ensures
      var r, p' := RemoveAt(es, k) + [entry], if k < p then p - 1 else p;
      es[p].jobID in Ids(r) && TrackedAt(r, p', es[p].jobID, es[p].observedAt, Ids(es[p + 1..]) + {entry.jobID})
  {
    if k < p {
      RefreshedInFront(es, p, k, entry);
    } else {
      RefreshedBehind(es, p, k, entry);
    }
  }

  lemma RefreshedInFront(es: seq<Entry>, p: nat, k: nat, entry: Entry)
    requires k < p < |es|
    ensures
      var r := RemoveAt(es, k) + [entry];
      es[p].jobID in Ids(r) && TrackedAt(r, p - 1, es[p].jobID, es[p].observedAt, Ids(es[p + 1..]) + {entry.jobID})
  {
    var r := RemoveAt(es, k) + [entry];
    assert r[p - 1] in r;
    assert r[p..] == es[p + 1..] + [entry];
    IdsAppend(es[p + 1..], entry);
  }

  lemma RefreshedBehind(es: seq<Entry>, p: nat, k: nat, entry: Entry)
    requires Distinct(es) && p < k < |es| && es[k].jobID == entry.jobID
    ensures
      var r := RemoveAt(es, k) + [entry];
      es[p].jobID in Ids(r) && TrackedAt(r, p, es[p].jobID, es[p].observedAt, Ids(es[p + 1..]) + {entry.jobID})
  {
    var r, tail := RemoveAt(es, k) + [entry], es[p + 1..];
    assert r[p] in r;
    assert r[p + 1..] == RemoveAt(tail, k - p - 1) + [entry];
    IdsAppend(RemoveAt(tail, k - p - 1), entry);
    DropOneId(tail, k - p - 1);
    assert tail[k - p - 1] in tail;
  }

  lemma TrackedAfterPurge(es: seq<Entry>, capacity: int, jobID: string, at: int, others: set<string>, cutoff: int)
    requires Ordered(es) && cutoff < at
    requires Tracked(es, capacity, jobID, at, others)
    ensures Tracked(Purged(es, cutoff), capacity, jobID, at, others)
  {
    var k := PurgedIsSuffix(es, cutoff);
    if jobID in Ids(es) {
      var p :| TrackedAt(es, p, jobID, at, others);
      assert es[k..][p - k] == es[p] && es[k..][p - k + 1..] == es[p + 1..];
      assert es[k..][p - k] in es[k..];
      assert TrackedAt(es[k..], p - k, jobID, at, others);
    }
  }

  /** No step strictly between i and j restarts the agent. */
  predicate Unbroken(events: seq<Event>, i: nat, j: nat)
    requires j <= |events|
  {
    forall k :: i < k < j ==> !events[k].Restart?
  }

  /** Step i accepts a job id, and no step strictly between i and j accepts it again. */
  ghost predicate LastAccepted(c: Config, tr: Trace, i: nat, j: nat) {
    && Shaped(tr)
    && i < j <= |tr.events| && AcceptedAt(c, tr, i)
    && (forall k :: i < k < j && AcceptedAt(c, tr, k) ==> tr.events[k].jobID != tr.events[i].jobID)
  }

  /** No step strictly between i and j restarts the agent or ends after the time to live of the entry
      that step i made. */
  ghost predicate InTime(c: Config, tr: Trace, i: nat, j: nat)
    requires i < j <= |tr.events| && tr.events[i].Offer?
  {
    && Unbroken(tr.events, i, j)
    && (forall k :: i < k < j ==> End(tr.events[k]) - tr.events[i].rememberedAt < c.ttl)
  }

  ghost predicate Watched(c: Config, tr: Trace, i: nat, j: nat) {
    LastAccepted(c, tr, i, j) && InTime(c, tr, i, j)
  }

  lemma InTimeBefore(c: Config, tr: Trace, i: nat, j: nat)
    requires i + 1 < j <= |tr.events| && tr.events[i].Offer? && InTime(c, tr, i, j)
    ensures InTime(c, tr, i, j - 1) && End(tr.events[j - 1]) - tr.events[i].rememberedAt < c.ttl
  {
  }

  /** An accepted job id is the newest entry afterwards. */
  lemma AcceptedIsNewest(c: Config, tr: Trace, begin: int, i: nat)
    requires Run(c, tr, begin) && i < |tr.events| && AcceptedAt(c, tr, i)
    ensures
      var es := tr.states[i + 1];
      Distinct(es) && es != [] && es[|es| - 1] == Entry(tr.events[i].jobID, tr.events[i].rememberedAt)
  {
    var ev, clock := tr.events[i], ClockAt(tr.events, begin, i);
    RunKeepsWellFormed(c, tr, begin, i);
    assert StepAt(c, tr, begin, i);
    FoundWellFormed(c, tr.states[i], ev, clock);
    RememberedWellFormed(FoundByInsertion(c, tr.states[i], ev), c.capacity, ev.jobID, clock, ev.rememberedAt);
  }

  lemma {:induction false} EntryIsTracked(c: Config, tr: Trace, begin: int, i: nat, j: nat)
    requires Run(c, tr, begin) && Watched(c, tr, i, j)
    ensures
      var Offer(jobID, _, _, _, _, _, at) := tr.events[i];
      Tracked(tr.states[j], c.capacity, jobID, at, OthersAccepted(c, tr, jobID, i + 1, j))
  {
    var Offer(jobID, _, _, _, _, _, at) := tr.events[i];
    if j == i + 1 {
      AcceptedIsNewest(c, tr, begin, i);
      TrackedAtBack(tr.states[j], c.capacity, jobID, at);
    } else {
      InTimeBefore(c, tr, i, j);
      EntryIsTracked(c, tr, begin, i, j - 1);
      RunKeepsWellFormed(c, tr, begin, j - 1);
      assert StepAt(c, tr, begin, j - 1);
      TrackedAfterStep(c, tr.states[j - 1], jobID, at, OthersAccepted(c, tr, jobID, i + 1, j - 1), tr.events[j - 1],
                       ClockAt(tr.events, begin, j - 1), tr.states[j], OthersAccepted(c, tr, jobID, i + 1, j));
    }
  }

  lemma TrackedAfterStep(c: Config, es: seq<Entry>, jobID: string, at: int, others: set<string>, ev: Event, clock: int,
                         es': seq<Entry>, others': set<string>)
    requires WellFormed(es, c.capacity, clock) && Advances(clock, ev) && End(ev) - at < c.ttl && !ev.Restart?
    requires Tracked(es, c.capacity, jobID, at, others)
    requires Accepts(c, es, ev) ==> ev.jobID != jobID
    requires es' == Step(c, es, ev) && others' == others + if Accepts(c, es, ev) then {ev.jobID} else {}
    ensures Tracked(es', c.capacity, jobID, at, others')
  {
    if ev.Purge? {
      TrackedAfterSweep(c, es, jobID, at, others, Some(ev.at), clock);
    } else {
      var looked, found := Swept(c, es, ev.early), FoundByInsertion(c, es, ev);
      SweptWellFormed(c, es, ev.early, clock);
      SweptWellFormed(c, looked, ev.late, clock);
      TrackedAfterSweep(c, es, jobID, at, others, ev.early, clock);
      TrackedAfterSweep(c, looked, jobID, at, others, ev.late, clock);
      if Accepts(c, es, ev) {
        TrackedAfterOther(found, c.capacity, jobID, at, others, ev.jobID, clock, ev.rememberedAt);
      }
    }
    if !Accepts(c, es, ev) {
      assert others' == others;
    }
  }

  lemma TrackedAfterSweep(c: Config, es: seq<Entry>, jobID: string, at: int, others: set<string>, when: Option<int>,
                          clock: int)
    requires WellFormed(es, c.capacity, clock) && (when.Some? ==> when.value - at < c.ttl)
    requires Tracked(es, c.capacity, jobID, at, others)
    ensures Tracked(Swept(c, es, when), c.capacity, jobID, at, others)
  {
    if when.Some? {
      TrackedAfterPurge(es, c.capacity, jobID, at, others, when.value - c.ttl);
    }
  }

  /** An accepted job id is still seen exactly while its time to live has not passed and fewer than
      the cache's bound of other ids were accepted since. */
  lemma SeenUnlessCrowdedOut(c: Config, tr: Trace, begin: int, i: nat, j: nat, when: int)
    requires Run(c, tr, begin) && Watched(c, tr, i, j)
    ensures
      var Offer(id, _, _, _, _, _, at) := tr.events[i];
      SeenIn(tr.states[j], c.ttl, id, when)
      <==> when - at < c.ttl && |OthersAccepted(c, tr, id, i + 1, j)| < Bound(c.capacity)
  {
    var Offer(jobID, _, _, _, _, _, at) := tr.events[i];
    EntryIsTracked(c, tr, begin, i, j);
    RunKeepsWellFormed(c, tr, begin, j);
    SeenWhenTracked(tr.states[j], c, jobID, at, OthersAccepted(c, tr, jobID, i + 1, j),
                    ClockAt(tr.events, begin, j), when);
  }

  lemma SeenAtIndex(es: seq<Entry>, ttl: int, p: nat, when: int)
    requires Distinct(es) && p < |es|
    ensures SeenIn(es, ttl, es[p].jobID, when) <==> when - es[p].observedAt < ttl
  {
    assert forall i :: 0 <= i < |es| && es[i].jobID == es[p].jobID ==> i == p;
  }

  lemma SeenWhenTracked(es: seq<Entry>, c: Config, jobID: string, at: int, others: set<string>, clock: int, when: int)
    requires WellFormed(es, c.capacity, clock) && Tracked(es, c.capacity, jobID, at, others)
    ensures SeenIn(es, c.ttl, jobID, when) <==> when - at < c.ttl && |others| < Bound(c.capacity)
  {
    if jobID in Ids(es) {
      var p :| TrackedAt(es, p, jobID, at, others);
      DistinctSize(es[p + 1..]);
      assert |others| == |es| - p - 1 < Bound(c.capacity);
      SeenAtIndex(es, c.ttl, p, when);
    } else {
      AbsentId(es, jobID);
    }
  }

  // ---- Without a bound on time --------------------------------------------------------------

  /** Every entry for the id carries this time, and there is none after a restart. */
  ghost predicate Stamped(es: seq<Entry>, jobID: string, at: int, unbroken: bool) {
    forall k :: 0 <= k < |es| && es[k].jobID == jobID ==> unbroken && es[k].observedAt == at
  }

  lemma StampedAfterSweep(c: Config, es: seq<Entry>, jobID: string, at: int, unbroken: bool, when: Option<int>)
    requires Stamped(es, jobID, at, unbroken)
    ensures Stamped(Swept(c, es, when), jobID, at, unbroken)
  {
    if when.Some? {
      var k := PurgedIsSuffix(es, when.value - c.ttl);
    }
  }

  lemma StampedAfterOther(es: seq<Entry>, capacity: int, jobID: string, at: int, unbroken: bool, other: string,
                          now: int)
    requires Stamped(es, jobID, at, unbroken) && other != jobID
    ensures Stamped(Remembered(es, capacity, other, now), jobID, at, unbroken)
  {
    var r := Remembered(es, capacity, other, now);
    WithoutWithin(es, other);
    forall k | 0 <= k < |r| && r[k].jobID == jobID ensures r[k] in es {
      if other in Ids(es) {
        assert r[k] in Without(es, other);
      }
    }
  }

  lemma StampedAfterStep(c: Config, es: seq<Entry>, jobID: string, at: int, unbroken: bool, ev: Event)
    requires Stamped(es, jobID, at, unbroken) && (Accepts(c, es, ev) ==> ev.jobID != jobID)
    ensures Stamped(Step(c, es, ev), jobID, at, unbroken && !ev.Restart?)
  {
    if ev.Purge? {
      StampedAfterSweep(c, es, jobID, at, unbroken, Some(ev.at));
    } else if ev.Offer? {
      StampedAfterSweep(c, es, jobID, at, unbroken, ev.early);
      StampedAfterSweep(c, Swept(c, es, ev.early), jobID, at, unbroken, ev.late);
      if Accepts(c, es, ev) {
        StampedAfterOther(FoundByInsertion(c, es, ev), c.capacity, jobID, at, unbroken, ev.jobID, ev.rememberedAt);
      }
    }
  }

  lemma StampedAtBack(es: seq<Entry>, jobID: string, at: int)
    requires Distinct(es) && es != [] && es[|es| - 1] == Entry(jobID, at)
    ensures Stamped(es, jobID, at, true)
  {
  }

  /** As long as an accepted job id is not accepted again, the cache knows it by that one time. */
  lemma {:induction false} EntryIsStamped(c: Config, tr: Trace, begin: int, i: nat, j: nat)
    requires Run(c, tr, begin) && LastAccepted(c, tr, i, j)
    ensures Stamped(tr.states[j], tr.events[i].jobID, tr.events[i].rememberedAt, Unbroken(tr.events, i, j))
  {
    var ev := tr.events[i];
    if j == i + 1 {
      AcceptedIsNewest(c, tr, begin, i);
      StampedAtBack(tr.states[j], ev.jobID, ev.rememberedAt);
    } else {
      EntryIsStamped(c, tr, begin, i, j - 1);
      assert StepAt(c, tr, begin, j - 1);
      StampedAfterStep(c, tr.states[j - 1], ev.jobID, ev.rememberedAt, Unbroken(tr.events, i, j - 1), tr.events[j - 1]);
    }
  }

  /** Exactly when a lookup still sees the last acceptance of a job id: no restart since, the time to
      live not passed, and fewer than the cache's bound of other ids accepted since. */
  lemma SeenIff(c: Config, tr: Trace, begin: int, i: nat, j: nat, when: int)
    requires Run(c, tr, begin) && LastAccepted(c, tr, i, j) && ClockAt(tr.events, begin, j) <= when
    ensures
      var id, at := tr.events[i].jobID, tr.events[i].rememberedAt;
      SeenIn(tr.states[j], c.ttl, id, when)
      <==> Unbroken(tr.events, i, j) && when - at < c.ttl && |OthersAccepted(c, tr, id, i + 1, j)| < Bound(c.capacity)
  {
    if Unbroken(tr.events, i, j) && when - tr.events[i].rememberedAt < c.ttl {
      EndedBefore(c, tr, begin, i, j);
      SeenUnlessCrowdedOut(c, tr, begin, i, j, when);
    } else {
      EntryIsStamped(c, tr, begin, i, j);
    }
  }

  lemma EndedBefore(c: Config, tr: Trace, begin: int, i: nat, j: nat)
    requires Run(c, tr, begin) && i < j <= |tr.events|
    ensures forall k :: i < k < j ==> End(tr.events[k]) <= ClockAt(tr.events, begin, j)
  {
    forall k | i < k < j ensures End(tr.events[k]) <= ClockAt(tr.events, begin, j) {
      if k < j - 1 {
        LaterStep(c, tr, begin, k, j - 1);
        assert StepAt(c, tr, begin, j - 1);
      }
    }
  }

  lemma {:induction false} NotAcceptedBetween(c: Config, tr: Trace, begin: int, i: nat, j: nat)
    requires Run(c, tr, begin) && i < j <= |tr.events|
    requires AcceptedAt(c, tr, i) && InTime(c, tr, i, j)
    requires |OthersAccepted(c, tr, tr.events[i].jobID, i + 1, j)| < Bound(c.capacity)
    ensures Watched(c, tr, i, j)
  {
    if j > i + 1 {
      FewerBefore(c, tr, tr.events[i].jobID, i + 1, j);
      InTimeBefore(c, tr, i, j);
      NotAcceptedBetween(c, tr, begin, i, j - 1);
      StillRefused(c, tr, begin, i, j - 1);
      LastAcceptedNext(c, tr, i, j - 1);
    }
  }

  lemma LastAcceptedNext(c: Config, tr: Trace, i: nat, j: nat)
    requires LastAccepted(c, tr, i, j) && j < |tr.events|
    requires AcceptedAt(c, tr, j) ==> tr.events[j].jobID != tr.events[i].jobID
    ensures LastAccepted(c, tr, i, j + 1)
  {
  }

  lemma FewerBefore(c: Config, tr: Trace, id: string, i: nat, j: nat)
    requires i < j <= |tr.events| && j <= |tr.states|
    ensures |OthersAccepted(c, tr, id, i, j - 1)| <= |OthersAccepted(c, tr, id, i, j)|
  {
    SubsetSize(OthersAccepted(c, tr, id, i, j - 1), OthersAccepted(c, tr, id, i, j));
  }

  lemma StillRefused(c: Config, tr: Trace, begin: int, i: nat, j: nat)
    requires Run(c, tr, begin) && Watched(c, tr, i, j) && j < |tr.events|
    requires End(tr.events[j]) - tr.events[i].rememberedAt < c.ttl
    requires |OthersAccepted(c, tr, tr.events[i].jobID, i + 1, j)| < Bound(c.capacity)
    ensures AcceptedAt(c, tr, j) ==> tr.events[j].jobID != tr.events[i].jobID
  {
    assert StepAt(c, tr, begin, j);
    if tr.events[j].Offer? && tr.events[j].jobID == tr.events[i].jobID {
      SeenUnlessCrowdedOut(c, tr, begin, i, j, tr.events[j].seenAt);
      SweptSeen(c, tr.states[j], tr.events[j]);
    }
  }
}
