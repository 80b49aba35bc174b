/** Envelope verification over the replay cache, one call and whole runs. Times are nanoseconds;
    a call reads the clock up to three times (expiry, replay lookup, replay insertion). */
module Envelopes {
  import opened Bytes
  import opened ReplayCaches
  import opened ReplayRuns

  const SUPPORTED_VERSION := "pmx-agent-v1"
  const SECOND := 1_000_000_000
  const MAX_LIFETIME := 3600 * SECOND
  const NTP_SKEW := 30 * SECOND

  /** `params` is carried as an opaque value: verification never looks inside it. */
  datatype Envelope = Envelope(
    version: string, jobID: string, issuedAt: int, expiresAt: int, issuer: string,
    audience: string, host: string, command: string, params: string, signature: string)

  datatype SignatureCheck = Good | Bad | Unencodable

  /** `check` stands for canonical encoding, hex decoding and the keyset's Ed25519 check. */
  datatype Agent = Agent(agentClass: string, fingerprint: string, check: Envelope -> SignatureCheck)

  datatype Verdict =
    | Accepted
    | VersionUnsupported | Expired | TooLongLived | AudienceMismatch | HostMismatch
    | EncodingError | BadSignature | Replayed

  /** The checks that do not involve the cache, in their documented order. */
  function Screen(agent: Agent, env: Envelope, now: int): Verdict {
    if env.version != SUPPORTED_VERSION then VersionUnsupported
    else if env.expiresAt < now - NTP_SKEW then Expired
    else if env.expiresAt - env.issuedAt > MAX_LIFETIME then TooLongLived
    else if env.audience != agent.agentClass then AudienceMismatch
    else if env.host != agent.fingerprint then HostMismatch
    else match agent.check(env)
      case Unencodable => EncodingError
      case Bad => BadSignature
      case Good => Accepted
  }

  function Judge(agent: Agent, env: Envelope, es: seq<Entry>, ttl: int, now: int, seenAt: int): Verdict {
    var v := Screen(agent, env, now);
    if v == Accepted && SeenIn(es, ttl, env.jobID, seenAt) then Replayed else v
  }

  /** An envelope is accepted exactly if all seven checks pass, and refused by the first one that fails: a
      supported version, not expired by more than 30 seconds, a lifetime of at most an hour, this agent's class
      and host, a good signature, and no unexpired entry for its job id. Only an accepted envelope changes the
      cache. */
  method Verify(env: Envelope, agent: Agent, cache: ReplayCache, now: int, seenAt: int, rememberedAt: int)
    returns (v: Verdict)
    requires cache.Valid()
    modifies cache
    ensures cache.Valid()
    ensures
      var supported := env.version == "pmx-agent-v1";
      var unexpired := supported && env.expiresAt >= now - 30_000_000_000;
      var shortLived := unexpired && env.expiresAt - env.issuedAt <= 3_600_000_000_000;
      var forClass := shortLived && env.audience == agent.agentClass;
      var forHost := forClass && env.host == agent.fingerprint;
      var signed := forHost && agent.check(env) == Good;
      var seen := exists e :: e in old(cache.order) && e.jobID == env.jobID && seenAt - e.observedAt < cache.ttl;
      && (v == VersionUnsupported <==> !supported)
      && (v == Expired <==> supported && !unexpired)
      && (v == TooLongLived <==> unexpired && !shortLived)
      && (v == AudienceMismatch <==> shortLived && !forClass)
      && (v == HostMismatch <==> forClass && !forHost)
      && (v == EncodingError <==> forHost && agent.check(env) == Unencodable)
      && (v == BadSignature <==> forHost && agent.check(env) == Bad)
      && (v == Replayed <==> signed && seen)
      && (v == Accepted <==> signed && !seen)
    ensures v == Judge(agent, env, old(cache.order), cache.ttl, now, seenAt)
    ensures v == Accepted ==> cache.order == Remembered(old(cache.order), cache.capacity, env.jobID, rememberedAt)
    ensures v != Accepted ==> cache.order == old(cache.order) && cache.index == old(cache.index)
  {
    if env.version != SUPPORTED_VERSION {
      return VersionUnsupported;
    }
    if env.expiresAt < now - NTP_SKEW {
      return Expired;
    }
    if env.expiresAt - env.issuedAt > MAX_LIFETIME {
      return TooLongLived;
    }
    if env.audience != agent.agentClass {
      return AudienceMismatch;
    }
    if env.host != agent.fingerprint {
      return HostMismatch;
    }
    var checked := agent.check(env);
    if checked.Unencodable? {
      return EncodingError;
    }
    if checked.Bad? {
      return BadSignature;
    }
    var seen := cache.Seen(env.jobID, seenAt);
    if seen {
      return Replayed;
    }
    cache.Remember(env.jobID, rememberedAt);
    return Accepted;
  }

  // ---- Runs --------------------------------------------------------------------------------

  /** One step of an agent: an envelope is offered, the background purge runs, or the agent restarts. */
  datatype Delivery =
    | Arrives(env: Envelope, now: int, early: Option<int>, seenAt: int, late: Option<int>, rememberedAt: int)
    | PurgeTick(at: int)
    | Restarts(at: int)

  function EventOf(agent: Agent, d: Delivery): Event {
    match d
    case Arrives(env, now, early, seenAt, late, rememberedAt) =>
      Offer(env.jobID, Screen(agent, env, now) == Accepted, now, early, seenAt, late, rememberedAt)
    case PurgeTick(at) => Purge(at)
    case Restarts(at) => Restart(at)
  }

  /** The cache-level trace of a run in which the agent handles the deliveries `ds` one by one. */
  ghost predicate Handles(agent: Agent, c: Config, ds: seq<Delivery>, tr: Trace, begin: int) {
    && Run(c, tr, begin) && |tr.events| == |ds|
    && forall k :: 0 <= k < |ds| ==> tr.events[k] == EventOf(agent, ds[k])
  }

  ghost function VerdictAt(agent: Agent, c: Config, ds: seq<Delivery>, tr: Trace, k: nat): Verdict
    requires k < |ds| && k < |tr.states| && ds[k].Arrives?
  {
    Judge(agent, ds[k].env, Swept(c, tr.states[k], ds[k].early), c.ttl, ds[k].now, ds[k].seenAt)
  }

  /** A run's next state is the one Verify leaves behind, purges between its lookup and its insertion
      included. */
  lemma StepIsVerify(agent: Agent, c: Config, es: seq<Entry>, d: Delivery)
    requires d.Arrives?
    ensures
      var looked := Swept(c, es, d.early);
      var found := Swept(c, looked, d.late);
      var v := Judge(agent, d.env, looked, c.ttl, d.now, d.seenAt);
      && (Accepts(c, es, EventOf(agent, d)) <==> v == Accepted)
      && Step(c, es, EventOf(agent, d)) ==
           if v == Accepted then Remembered(found, c.capacity, d.env.jobID, d.rememberedAt) else found
  {
  }

  /** The background purge never changes a verdict. */
  lemma PurgeChangesNoVerdict(agent: Agent, c: Config, ds: seq<Delivery>, on: Trace, off: Trace, begin: int, k: nat)
    requires Handles(agent, c.(purging := true), ds, on, begin) && Handles(agent, c.(purging := false), ds, off, begin)
    requires on.states[0] == off.states[0]
    requires k < |ds| && ds[k].Arrives?
    ensures VerdictAt(agent, c.(purging := true), ds, on, k) == VerdictAt(agent, c.(purging := false), ds, off, k)
  {
    assert on.events == off.events;
    PurgeIsInvisible(c, on, off, begin, k);
    StepIsVerify(agent, c.(purging := true), on.states[k], ds[k]);
    StepIsVerify(agent, c.(purging := false), off.states[k], ds[k]);
  }

  // ---- At most once ------------------------------------------------------------------------

  /** Step i accepts an envelope, and step j offers one with the same job id. */
  ghost predicate Reoffered(agent: Agent, c: Config, ds: seq<Delivery>, tr: Trace, begin: int, i: nat, j: nat) {
    && Handles(agent, c, ds, tr, begin)
    && i < j < |ds| && ds[i].Arrives? && ds[j].Arrives? && ds[j].env.jobID == ds[i].env.jobID
    && VerdictAt(agent, c, ds, tr, i) == Accepted
  }

  /** Step i accepts an envelope, and step j offers the same one again. */
  ghost predicate Redelivered(agent: Agent, c: Config, ds: seq<Delivery>, tr: Trace, begin: int, i: nat, j: nat) {
    Reoffered(agent, c, ds, tr, begin, i, j) && ds[j].env == ds[i].env
  }

  /** No step strictly between i and j accepts an envelope with the job id of step i. */
  ghost predicate NotAgain(agent: Agent, c: Config, ds: seq<Delivery>, tr: Trace, i: nat, j: nat)
    requires i < j <= |ds| && |ds| <= |tr.states| && ds[i].Arrives?
  {
    forall k :: i < k < j && ds[k].Arrives? && ds[k].env.jobID == ds[i].env.jobID
                ==> VerdictAt(agent, c, ds, tr, k) != Accepted
  }

  lemma LastAcceptance(agent: Agent, c: Config, ds: seq<Delivery>, tr: Trace, begin: int, i: nat, j: nat)
    requires Reoffered(agent, c, ds, tr, begin, i, j) && NotAgain(agent, c, ds, tr, i, j)
    ensures LastAccepted(c, tr, i, j)
  {
    StepIsVerify(agent, c, tr.states[i], ds[i]);
    forall k | i < k < j && AcceptedAt(c, tr, k) ensures tr.events[k].jobID != tr.events[i].jobID {
      assert ds[k].Arrives?;
      StepIsVerify(agent, c, tr.states[k], ds[k]);
    }
  }

  /** The exact verdict on any envelope with a job id that was accepted before, last at step i. */
  lemma ReofferedVerdict(agent: Agent, c: Config, ds: seq<Delivery>, tr: Trace, begin: int, i: nat, j: nat)
    requires Reoffered(agent, c, ds, tr, begin, i, j) && NotAgain(agent, c, ds, tr, i, j)
    ensures
      var v := Screen(agent, ds[j].env, ds[j].now);
      VerdictAt(agent, c, ds, tr, j) ==
        if v != Accepted then v
        else if && Unbroken(tr.events, i, j) && ds[j].seenAt - ds[i].rememberedAt < c.ttl
                && |OthersAccepted(c, tr, ds[i].env.jobID, i + 1, j)| < Bound(c.capacity) then Replayed
        else Accepted
  {
    LastAcceptance(agent, c, ds, tr, begin, i, j);
    assert StepAt(c, tr, begin, j);
    SeenIff(c, tr, begin, i, j, ds[j].seenAt);
    SweptSeen(c, tr.states[j], tr.events[j]);
  }

  /** Of the checks besides the replay check only expiry depends on the clock. */
  lemma ScreenLater(agent: Agent, env: Envelope, now: int, later: int)
    requires Screen(agent, env, now) == Accepted
    ensures Screen(agent, env, later) == if env.expiresAt < later - NTP_SKEW then Expired else Accepted
    ensures env.expiresAt - env.issuedAt <= MAX_LIFETIME
  {
  }

  /** The exact verdict on a redelivery, when no step in between accepts that job id again: an envelope
      that has not expired is let through again exactly if the agent restarted since, the cache entry
      lapsed before the lookup, or other ids crowded it out. */
  lemma RedeliveryVerdict(agent: Agent, c: Config, ds: seq<Delivery>, tr: Trace, begin: int, i: nat, j: nat)
    requires Redelivered(agent, c, ds, tr, begin, i, j) && NotAgain(agent, c, ds, tr, i, j)
    ensures
      VerdictAt(agent, c, ds, tr, j) ==
        if ds[i].env.expiresAt < ds[j].now - NTP_SKEW then Expired
        else if && Unbroken(tr.events, i, j) && ds[j].seenAt - ds[i].rememberedAt < c.ttl
                && |OthersAccepted(c, tr, ds[i].env.jobID, i + 1, j)| < Bound(c.capacity) then Replayed
        else Accepted
  {
    ReofferedVerdict(agent, c, ds, tr, begin, i, j);
    ScreenLater(agent, ds[i].env, ds[i].now, ds[j].now);
  }

  lemma UnexpiredSteps(agent: Agent, c: Config, ds: seq<Delivery>, tr: Trace, begin: int, i: nat, j: nat)
    requires Redelivered(agent, c, ds, tr, begin, i, j) && c.ttl > MAX_LIFETIME + NTP_SKEW
    requires ds[i].env.issuedAt <= ds[i].rememberedAt && ds[i].env.expiresAt >= ds[j].now - NTP_SKEW
    ensures AcceptedAt(c, tr, i)
    ensures forall k :: i < k < j ==> End(tr.events[k]) - tr.events[i].rememberedAt < c.ttl
  {
    StepIsVerify(agent, c, tr.states[i], ds[i]);
    forall k | i < k < j ensures End(tr.events[k]) - tr.events[i].rememberedAt < c.ttl {
      LaterStep(c, tr, begin, k, j);
    }
  }

  /** At most once, over every run: an accepted envelope is never accepted again while the agent does not
      restart and fewer than the cache's bound of other job ids are accepted in between, provided it was
      not issued for later and the lookup follows the expiry check within the slack that the TTL leaves.
      The agents run with a TTL of 24 hours, the console broker with 2 hours. */
  lemma AtMostOnce(agent: Agent, c: Config, ds: seq<Delivery>, tr: Trace, begin: int, i: nat, j: nat)
    requires Redelivered(agent, c, ds, tr, begin, i, j) && Unbroken(tr.events, i, j)
    requires |OthersAccepted(c, tr, ds[i].env.jobID, i + 1, j)| < Bound(c.capacity)
    requires ds[i].env.issuedAt <= ds[i].rememberedAt
    requires ds[j].seenAt - ds[j].now < c.ttl - MAX_LIFETIME - NTP_SKEW
    ensures VerdictAt(agent, c, ds, tr, j) ==
              if ds[i].env.expiresAt < ds[j].now - NTP_SKEW then Expired else Replayed
  {
    assert StepAt(c, tr, begin, j);
    if ds[i].env.expiresAt >= ds[j].now - NTP_SKEW {
      UnexpiredSteps(agent, c, ds, tr, begin, i, j);
      NotAcceptedBetween(c, tr, begin, i, j);
      SeenUnlessCrowdedOut(c, tr, begin, i, j, ds[j].seenAt);
      SweptSeen(c, tr.states[j], tr.events[j]);
    }
  }

  // ---- Where it fails ----------------------------------------------------------------------

  /** An agent that finds every signature good, and an envelope for it that lives for an hour. */
  function SomeAgent(): Agent {
    Agent("broker", "host", _ => Good)
  }

  function SomeEnvelope(jobID: string): Envelope {
    Envelope(SUPPORTED_VERSION, jobID, 0, MAX_LIFETIME, "issuer", "broker", "host", "command", [], [])
  }

  function At(jobID: string, now: int, later: int): Delivery {
    Arrives(SomeEnvelope(jobID), now, None, later, None, later)
  }

  /** An envelope issued for later. */
  function Postdated(issuedAt: int): Envelope {
    SomeEnvelope("a").(issuedAt := issuedAt, expiresAt := issuedAt + MAX_LIFETIME)
  }

  function PostdatedAt(issuedAt: int, now: int): Delivery {
    Arrives(Postdated(issuedAt), now, None, now, None, now)
  }

  /** The second delivery passes the expiry check, but its lookup comes when the entry has lapsed. */
  lemma LateLookupAcceptsTwice(ttl: int)
    requires ttl > MAX_LIFETIME + NTP_SKEW
    ensures
      var c, ds := Config(1, ttl, true), [At("a", 0, 0), At("a", 0, ttl)];
      var events := [EventOf(SomeAgent(), ds[0]), EventOf(SomeAgent(), ds[1])];
      var tr := Trace(events, [[], [Entry("a", 0)], [Entry("a", ttl)]]);
      Redelivered(SomeAgent(), c, ds, tr, 0, 0, 1) && VerdictAt(SomeAgent(), c, ds, tr, 1) == Accepted
  {
    var c, ds := Config(1, ttl, true), [At("a", 0, 0), At("a", 0, ttl)];
    var events := [EventOf(SomeAgent(), ds[0]), EventOf(SomeAgent(), ds[1])];
    FirstSteps(c, "a");
    RefreshStep(c, ttl);
    TwoSteps(c, events[0], events[1], [], [Entry("a", 0)], [Entry("a", ttl)]);
  }

  /** Issue times are not compared with the clock, so an envelope issued for later outlives its entry. */
  lemma PostdatedAcceptsTwice(ttl: int)
    requires ttl > 0
    ensures
      var c, ds := Config(1, ttl, true), [PostdatedAt(ttl, 0), PostdatedAt(ttl, ttl)];
      var events := [EventOf(SomeAgent(), ds[0]), EventOf(SomeAgent(), ds[1])];
      var tr := Trace(events, [[], [Entry("a", 0)], [Entry("a", ttl)]]);
      Redelivered(SomeAgent(), c, ds, tr, 0, 0, 1) && VerdictAt(SomeAgent(), c, ds, tr, 1) == Accepted
  {
    var c, ds := Config(1, ttl, true), [PostdatedAt(ttl, 0), PostdatedAt(ttl, ttl)];
    var events := [EventOf(SomeAgent(), ds[0]), EventOf(SomeAgent(), ds[1])];
    PostdatedSteps(c, ttl);
    TwoSteps(c, events[0], events[1], [], [Entry("a", 0)], [Entry("a", ttl)]);
  }

  lemma PostdatedSteps(c: Config, ttl: int)
    requires c.capacity == 1 && c.ttl == ttl > 0
    ensures
      var first, again := EventOf(SomeAgent(), PostdatedAt(ttl, 0)), EventOf(SomeAgent(), PostdatedAt(ttl, ttl));
      && Accepts(c, [], first) && Step(c, [], first) == [Entry("a", 0)]
      && Accepts(c, [Entry("a", 0)], again) && Step(c, [Entry("a", 0)], again) == [Entry("a", ttl)]
  {
    var es := [Entry("a", 0)];
    assert Screen(SomeAgent(), Postdated(ttl), 0) == Screen(SomeAgent(), Postdated(ttl), ttl) == Accepted;
    assert es[0] in es;
    WithoutAt(es, 0);
  }

  /** A restart forgets the accepted id. */
  lemma RestartAcceptsTwice(ttl: int)
    ensures
      var c, ds := Config(1, ttl, true), [At("a", 0, 0), Restarts(0), At("a", 0, 0)];
      var events := [EventOf(SomeAgent(), ds[0]), Restart(0), EventOf(SomeAgent(), ds[2])];
      var tr := Trace(events, [[], [Entry("a", 0)], [], [Entry("a", 0)]]);
      Redelivered(SomeAgent(), c, ds, tr, 0, 0, 2) && VerdictAt(SomeAgent(), c, ds, tr, 2) == Accepted
  {
    var c, ds := Config(1, ttl, true), [At("a", 0, 0), Restarts(0), At("a", 0, 0)];
    var events := [EventOf(SomeAgent(), ds[0]), Restart(0), EventOf(SomeAgent(), ds[2])];
    FirstSteps(c, "a");
    ThreeSteps(c, events[0], events[1], events[2], [], [Entry("a", 0)], [], [Entry("a", 0)]);
  }

  lemma FirstSteps(c: Config, jobID: string)
    requires c.capacity == 1
    ensures
      var ev := EventOf(SomeAgent(), At(jobID, 0, 0));
      Accepts(c, [], ev) && Step(c, [], ev) == [Entry(jobID, 0)]
  {
    assert Screen(SomeAgent(), SomeEnvelope(jobID), 0) == Accepted;
  }

  lemma RefreshStep(c: Config, ttl: int)
    requires c.capacity == 1 && c.ttl == ttl
    ensures
      var ev := EventOf(SomeAgent(), At("a", 0, ttl));
      Accepts(c, [Entry("a", 0)], ev) && Step(c, [Entry("a", 0)], ev) == [Entry("a", ttl)]
  {
    var es := [Entry("a", 0)];
    assert Screen(SomeAgent(), SomeEnvelope("a"), 0) == Accepted;
    assert es[0] in es;
    WithoutAt(es, 0);
  }

  /** In a cache for one id another id crowds the first one out. */
  lemma CrowdedCacheAcceptsTwice(ttl: int)
    requires ttl > MAX_LIFETIME + NTP_SKEW
    ensures
      var c, ds := Config(1, ttl, true), [At("a", 0, 0), At("b", 0, 0), At("a", 0, 0)];
      var events := [EventOf(SomeAgent(), ds[0]), EventOf(SomeAgent(), ds[1]), EventOf(SomeAgent(), ds[2])];
      var tr := Trace(events, [[], [Entry("a", 0)], [Entry("b", 0)], [Entry("a", 0)]]);
      Redelivered(SomeAgent(), c, ds, tr, 0, 0, 2) && VerdictAt(SomeAgent(), c, ds, tr, 2) == Accepted
  {
    var c, ds := Config(1, ttl, true), [At("a", 0, 0), At("b", 0, 0), At("a", 0, 0)];
    var events := [EventOf(SomeAgent(), ds[0]), EventOf(SomeAgent(), ds[1]), EventOf(SomeAgent(), ds[2])];
    FirstSteps(c, "a");
    CrowdingStep(c, "a", "b");
    CrowdingStep(c, "b", "a");
    ThreeSteps(c, events[0], events[1], events[2], [], [Entry("a", 0)], [Entry("b", 0)], [Entry("a", 0)]);
  }

  lemma TwoSteps(c: Config, e: Event, f: Event, s0: seq<Entry>, s1: seq<Entry>, s2: seq<Entry>)
    requires WellFormed(s0, c.capacity, 0) && Advances(0, e) && Advances(End(e), f)
    requires s1 == Step(c, s0, e) && s2 == Step(c, s1, f)
    ensures Run(c, Trace([e, f], [s0, s1, s2]), 0)
  {
    var tr := Trace([e, f], [s0, s1, s2]);
    assert StepAt(c, tr, 0, 0) && StepAt(c, tr, 0, 1);
  }

  lemma ThreeSteps(c: Config, e: Event, f: Event, g: Event,
                   s0: seq<Entry>, s1: seq<Entry>, s2: seq<Entry>, s3: seq<Entry>)
    requires WellFormed(s0, c.capacity, 0) && Advances(0, e) && Advances(End(e), f) && Advances(End(f), g)
    requires s1 == Step(c, s0, e) && s2 == Step(c, s1, f) && s3 == Step(c, s2, g)
    ensures Run(c, Trace([e, f, g], [s0, s1, s2, s3]), 0)
  {
    var tr := Trace([e, f, g], [s0, s1, s2, s3]);
    assert StepAt(c, tr, 0, 0) && StepAt(c, tr, 0, 1) && StepAt(c, tr, 0, 2);
  }

  lemma CrowdingStep(c: Config, first: string, jobID: string)
    requires c.capacity == 1 && first != jobID
    ensures
      var ev := EventOf(SomeAgent(), At(jobID, 0, 0));
      Accepts(c, [Entry(first, 0)], ev) && Step(c, [Entry(first, 0)], ev) == [Entry(jobID, 0)]
  {
    assert Screen(SomeAgent(), SomeEnvelope(jobID), 0) == Accepted;
    assert jobID !in Ids([Entry(first, 0)]);
    assert [Entry(first, 0)][1..] == [];
  }
}
