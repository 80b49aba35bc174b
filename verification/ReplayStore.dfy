/** The console broker's file-backed replay store. Each broker process opens the store under an
    exclusive file lock, rebuilds an in-memory cache from it, verifies one envelope and records it. */
module ReplayStores {
  import opened Text
  import opened ReplayCaches
  import opened Envelopes

  /** One line of the store file; `Junk` is a line that does not decode as a record. */
  datatype Line = Record(jobID: string, observedAt: int) | Junk

  predicate Kept(l: Line, cutoff: int) {
    l.Record? && TrimSpace(l.jobID) != "" && l.observedAt >= cutoff
  }

  /** What loading keeps of a file: per job id, the last record that is not too old. */
  function Loaded(file: seq<Line>, cutoff: int): map<string, int> {
    if file == [] then map[]
    else
      var m, l := Loaded(file[..|file| - 1], cutoff), file[|file| - 1];
      if Kept(l, cutoff) then m[l.jobID := l.observedAt] else m
  }

  /** Every record in the file is a pair of the map. */
  ghost predicate DrawnFrom(file: seq<Line>, m: map<string, int>) {
    forall k :: 0 <= k < |file| && file[k].Record? ==> file[k].jobID in m && m[file[k].jobID] == file[k].observedAt
  }

  /** The file lists some pairs of the map, each at most once, and may end in a torn line. */
  ghost predicate ListsPart(file: seq<Line>, m: map<string, int>) {
    && DrawnFrom(file, m)
    && (forall k :: 0 <= k < |file| - 1 ==> file[k].Record?)
    && (forall i, j :: 0 <= i < j < |file| ==> file[i] != file[j])
  }

  /** The file lists each pair of the map once, in some order. */
  ghost predicate Lists(file: seq<Line>, m: map<string, int>) {
    && ListsPart(file, m)
    && (forall k :: 0 <= k < |file| ==> file[k].Record?)
    && (forall id :: id in m ==> Record(id, m[id]) in file)
  }

  predicate Within(es: seq<Entry>, begin: int, end: int) {
    forall i :: 0 <= i < |es| ==> begin <= es[i].observedAt <= end
  }

  /** What became of the write that records an accepted job. */
  datatype Write = Synced | Unwritten | Torn | Unsynced

  function AppendLine(file: seq<Line>, l: Line, w: Write): seq<Line> {
    match w
    case Unwritten => file
    case Torn => file + [Junk]
    case Synced | Unsynced => file + [l]
  }

  /** How opening the store goes: to the end; not as far as the truncation, so that the file stays as it
      is; or into the rewriting, which stops after `written` records and perhaps part of another line. */
  datatype Opening = Opened | Untouched | Cut(written: nat, torn: bool)

  class ReplayStore {
    const ttl: int
    var file: seq<Line>
    var seen: map<string, int>

    constructor (file: seq<Line>, ttl: int)
      ensures this.ttl == ttl && this.file == file && seen == map[]
    {
      this.ttl := ttl;
      this.file := file;
      seen := map[];
    }

    /** Opening loads the records that are still young enough and rewrites the file with them. The file
        is truncated first, so an opening that stops in the rewriting leaves part of them. */
    method Open(now: int, opening: Opening) returns (ok: bool)
      requires seen == map[]
      modifies this
      ensures ok <==> opening == Opened
      ensures ok ==> seen == Loaded(old(file), now - ttl)
      ensures Rewritten(old(file), now - ttl, opening, file)
    {
      if opening == Untouched {
        return false;
      }
      Load(now);
      ok := RewriteActive(opening);
    }

    method Load(now: int)
      requires seen == map[]
      modifies this`seen
      ensures seen == Loaded(file, now - ttl)
    {
      var cutoff := now - ttl;
      for k := 0 to |file|
        invariant seen == Loaded(file[..k], cutoff)
      {
        assert file[..k + 1][..k] == file[..k];
        var l := file[k];
        if l.Record? && TrimSpace(l.jobID) != "" && l.observedAt >= cutoff {
          seen := seen[l.jobID := l.observedAt];
        }
      }
      assert file[..|file|] == file;
    }

    /** Truncates, writes record by record in any order, and syncs. */
    method RewriteActive(opening: Opening) returns (ok: bool)
      modifies this`file
      ensures ok <==> opening == Opened
      ensures ok ==> Lists(file, seen)
      ensures opening.Cut? ==> ListsPart(file, seen) && |file| <= opening.written + if opening.torn then 1 else 0
    {
      file := [];
      var todo := seen.Keys;
      while todo != {}
        invariant todo <= seen.Keys
        invariant forall k :: 0 <= k < |file| ==>
            file[k].Record? && file[k].jobID in seen.Keys - todo && seen[file[k].jobID] == file[k].observedAt
        invariant forall i, j :: 0 <= i < j < |file| ==> file[i] != file[j]
        invariant forall id :: id in seen.Keys - todo ==> Record(id, seen[id]) in file
        invariant opening.Cut? ==> |file| <= opening.written
        decreases todo
      {
        if opening.Cut? && |file| == opening.written {
          if opening.torn {
            file := file + [Junk];
          }
          return false;
        }
        var id :| id in todo;
        file := file + [Record(id, seen[id])];
        todo := todo - {id};
      }
      return opening == Opened;
    }

    method Remember(jobID: string, now: int, w: Write) returns (ok: bool)
      modifies this
      ensures ok <==> TrimSpace(jobID) != "" && w == Synced
      ensures file == if TrimSpace(jobID) == "" then old(file)
                      else AppendLine(old(file), Record(TrimSpace(jobID), now), w)
      ensures ok ==> file == old(file) + [Record(TrimSpace(jobID), now)]
    {
      var trimmed := TrimSpace(jobID);
      if trimmed == "" {
        return false;
      }
      file := AppendLine(file, Record(trimmed, now), w);
      if w != Synced {
        return false;
      }
      seen := seen[trimmed := now];
      return true;
    }

    /** Rebuilds a cache that has room for every record, each stamped with the clock as it is added. */
    method BuildCache(begin: int, end: int) returns (cache: ReplayCache)
      requires begin <= end
      ensures fresh(cache) && cache.Valid() && cache.ttl == ttl
      ensures Ids(cache.order) == seen.Keys && Within(cache.order, begin, end)
    {
      cache := new ReplayCache(|seen| + 1, ttl);
      FillCache(cache, begin, end);
      IndexHoldsIds(cache.index, cache.order);
    }

    method FillCache(cache: ReplayCache, begin: int, end: int)
      requires cache.Valid() && cache.capacity == |seen| + 1 && cache.order == [] && cache.index == map[]
      requires begin <= end
      modifies cache
      ensures cache.Valid() && cache.index.Keys == seen.Keys && Within(cache.order, begin, end)
    {
      var todo, clock := seen.Keys, begin;
      while todo != {}
        invariant cache.Valid()
        invariant begin <= clock <= end && Within(cache.order, begin, end)
        invariant todo <= seen.Keys && cache.index.Keys == seen.Keys - todo
        decreases todo
      {
        var jobID :| jobID in todo;
        var now :| clock <= now <= end;
        AddRecord(cache, jobID, now, begin, end);
        clock, todo := now, todo - {jobID};
      }
    }

    method AddRecord(cache: ReplayCache, jobID: string, now: int, ghost begin: int, ghost end: int)
      requires cache.Valid() && cache.capacity == |seen| + 1
      requires cache.index.Keys <= seen.Keys && jobID in seen.Keys - cache.index.Keys
      requires Within(cache.order, begin, end) && begin <= now <= end
      modifies cache
      ensures cache.Valid() && Within(cache.order, begin, end)
      ensures cache.index.Keys == old(cache.index.Keys) + {jobID}
    {
      IndexHoldsIds(cache.index, cache.order);
      NewIdFits(cache.order, seen.Keys, jobID, cache.capacity, now);
      cache.Remember(jobID, now);
      IndexHoldsIds(cache.index, cache.order);
    }
  }

  /** What opening leaves of a file. */
  ghost predicate Rewritten(before: seq<Line>, cutoff: int, opening: Opening, after: seq<Line>) {
    match opening
    case Opened => Lists(after, Loaded(before, cutoff))
    case Untouched => after == before
    case Cut(written, torn) =>
      ListsPart(after, Loaded(before, cutoff)) && |after| <= written + if torn then 1 else 0
  }

  lemma IndexHoldsIds(index: map<string, Entry>, order: seq<Entry>)
    requires Linked(index, order)
    ensures index.Keys == Ids(order)
  {
    forall id ensures id in index <==> id in Ids(order) {
      IdsAreIndexed(index, order, id);
    }
  }

  lemma NewIdFits(es: seq<Entry>, ids: set<string>, jobID: string, capacity: int, now: int)
    requires Distinct(es) && Ids(es) <= ids && jobID in ids - Ids(es) && capacity == |ids| + 1
    ensures Remembered(es, capacity, jobID, now) == es + [Entry(jobID, now)]
    ensures Ids(es + [Entry(jobID, now)]) == Ids(es) + {jobID}
  {
    DistinctSize(es);
    assert ids == Ids(es) + (ids - Ids(es));
    assert Entry(jobID, now) in es + [Entry(jobID, now)];
    assert forall e :: e in es + [Entry(jobID, now)] <==> e in es || e == Entry(jobID, now);
  }

  // ---- One broker process ------------------------------------------------------------------

  datatype Outcome = Ran | Rejected(verdict: Verdict) | NotRecorded | NotOpened

  /** The envelope of one process, its clock readings in order, and the fates of its opening of the
      store and of its store write. */
  datatype Process = Process(
    env: Envelope, loadAt: int, opening: Opening, now: int, seenAt: int, rememberedAt: int, recordedAt: int,
    write: Write)

  predicate InOrder(p: Process) {
    p.loadAt <= p.now <= p.seenAt <= p.rememberedAt <= p.recordedAt
  }

  /** Everything a process does to the store file and says about its envelope: `active` is the file
      after opening, `es` the rebuilt cache. */
  ghost predicate Handled(agent: Agent, ttl: int, p: Process, before: seq<Line>, active: seq<Line>, es: seq<Entry>,
                          outcome: Outcome, after: seq<Line>)
  {
    && Rewritten(before, p.loadAt - ttl, p.opening, active)
    && if p.opening == Opened then Served(agent, ttl, p, before, active, es, outcome, after)
       else outcome == NotOpened && after == active
  }

  ghost predicate Served(agent: Agent, ttl: int, p: Process, before: seq<Line>, active: seq<Line>, es: seq<Entry>,
                         outcome: Outcome, after: seq<Line>)
  {
    var v := Judge(agent, p.env, es, ttl, p.now, p.seenAt);
    var id := TrimSpace(p.env.jobID);
    && Ids(es) == Loaded(before, p.loadAt - ttl).Keys && Distinct(es) && Within(es, p.loadAt, p.now)
    && outcome == (if v != Accepted then Rejected(v) else if id == "" || p.write != Synced then NotRecorded else Ran)
    && after == (if v != Accepted || id == "" then active else AppendLine(active, Record(id, p.recordedAt), p.write))
  }

  method ReadAndVerify(agent: Agent, before: seq<Line>, ttl: int, p: Process)
    returns (outcome: Outcome, after: seq<Line>, ghost active: seq<Line>, ghost es: seq<Entry>)
    requires InOrder(p)
    ensures Handled(agent, ttl, p, before, active, es, outcome, after)
    ensures outcome == NotOpened <==> p.opening != Opened
    ensures p.opening == Untouched ==> after == before
    ensures outcome == Ran ==>
              && p.env.version == "pmx-agent-v1" && p.env.expiresAt >= p.now - 30_000_000_000
              && p.env.expiresAt - p.env.issuedAt <= 3_600_000_000_000 && p.env.audience == agent.agentClass
              && p.env.host == agent.fingerprint && agent.check(p.env) == Good
              && p.write == Synced && after == active + [Record(TrimSpace(p.env.jobID), p.recordedAt)]
  {
    var store := new ReplayStore(before, ttl);
    var ok := store.Open(p.loadAt, p.opening);
    active, es := store.file, [];
    if !ok {
      return NotOpened, store.file, active, es;
    }
    var cache := store.BuildCache(p.loadAt, p.now);
    es := cache.order;
    var v := Verify(p.env, agent, cache, p.now, p.seenAt, p.rememberedAt);
    if v != Accepted {
      return Rejected(v), store.file, active, es;
    }
    ok := store.Remember(p.env.jobID, p.recordedAt, p.write);
    return if ok then Ran else NotRecorded, store.file, active, es;
  }

  // ---- Sequences of broker processes -------------------------------------------------------

  /** files[k] is the store before process k, active[k] and caches[k] what process k makes of it. */
  datatype Trace = Trace(
    processes: seq<Process>, files: seq<seq<Line>>, active: seq<seq<Line>>, caches: seq<seq<Entry>>,
    outcomes: seq<Outcome>)

  predicate Shaped(tr: Trace) {
    var n := |tr.processes|;
    |tr.files| == n + 1 && |tr.active| == n && |tr.caches| == n && |tr.outcomes| == n
  }

  /** Process k starts after process k-1 has released the lock. */
  ghost predicate ProcessAt(agent: Agent, ttl: int, tr: Trace, k: nat)
    requires Shaped(tr) && k < |tr.processes|
  {
    && InOrder(tr.processes[k])
    && (k > 0 ==> tr.processes[k - 1].recordedAt <= tr.processes[k].loadAt)
    && Handled(agent, ttl, tr.processes[k], tr.files[k], tr.active[k], tr.caches[k], tr.outcomes[k], tr.files[k + 1])
  }

  ghost predicate Brokers(agent: Agent, ttl: int, tr: Trace) {
    Shaped(tr) && forall k :: 0 <= k < |tr.processes| ==> ProcessAt(agent, ttl, tr, k)
  }

  // ---- What the file holds -----------------------------------------------------------------

  lemma {:induction false} LoadedKeys(file: seq<Line>, cutoff: int, id: string)
    ensures id in Loaded(file, cutoff) <==> exists k :: 0 <= k < |file| && Kept(file[k], cutoff) && file[k].jobID == id
    ensures id in Loaded(file, cutoff) ==>
              var t := Loaded(file, cutoff)[id]; Record(id, t) in file && cutoff <= t && TrimSpace(id) != ""
  {
    if file != [] {
      var init, l := file[..|file| - 1], file[|file| - 1];
      LoadedKeys(init, cutoff, id);
      assert forall k :: 0 <= k < |init| ==> init[k] == file[k];
      if exists k :: 0 <= k < |file| && Kept(file[k], cutoff) && file[k].jobID == id {
        var k :| 0 <= k < |file| && Kept(file[k], cutoff) && file[k].jobID == id;
        assert k < |init| ==> Kept(init[k], cutoff);
      }
    }
  }

  /** Line k records the id at time t, and no later record of it is young enough. */
  predicate LastYoung(file: seq<Line>, cutoff: int, k: nat, id: string, t: int)
    requires k < |file|
  {
    && file[k] == Record(id, t)
    && forall n :: k < n < |file| && file[n].Record? && file[n].jobID == id ==> file[n].observedAt < cutoff
  }

  /** What a load finds: an id with the time of its last record that is readable, not blank and young enough. */
  lemma {:induction false} LoadedMeans(file: seq<Line>, cutoff: int, id: string, t: int)
    ensures
      id in Loaded(file, cutoff) && Loaded(file, cutoff)[id] == t
      <==> TrimSpace(id) != "" && cutoff <= t && exists k :: 0 <= k < |file| && LastYoung(file, cutoff, k, id, t)
  {
    if file != [] {
      var init, l := file[..|file| - 1], file[|file| - 1];
      LoadedMeans(init, cutoff, id, t);
      assert forall k :: 0 <= k < |init| ==> init[k] == file[k];
      if Kept(l, cutoff) && l.jobID == id {
        assert LastYoung(file, cutoff, |file| - 1, id, l.observedAt);
      } else if TrimSpace(id) != "" {
        forall k | 0 <= k < |init| ensures LastYoung(init, cutoff, k, id, t) <==> LastYoung(file, cutoff, k, id, t) {
        }
      }
    }
  }

  /** The file still remembers `id` with a time no earlier than `t`, for any load that could matter. */
  ghost predicate Holds(file: seq<Line>, id: string, t: int) {
    forall cutoff :: cutoff <= t ==> id in Loaded(file, cutoff) && Loaded(file, cutoff)[id] >= t
  }

  lemma HoldsAppended(file: seq<Line>, id: string, t: int)
    requires TrimSpace(id) != ""
    ensures Holds(file + [Record(id, t)], id, t)
  {
    assert (file + [Record(id, t)])[..|file|] == file;
  }

  lemma HoldsAfterAppend(file: seq<Line>, id: string, t: int, l: Line, w: Write)
    requires Holds(file, id, t) && l.Record? && l.observedAt >= t
    ensures Holds(AppendLine(file, l, w), id, t)
  {
    assert (file + [l])[..|file|] == file && (file + [Junk])[..|file|] == file;
  }

  /** The file has a record of the id. */
  ghost predicate Wrote(file: seq<Line>, id: string) {
    exists k :: 0 <= k < |file| && file[k].Record? && file[k].jobID == id
  }

  /** A rewriting keeps what it writes. */
  lemma HoldsAfterRewrite(file: seq<Line>, id: string, t: int, cutoff: int, active: seq<Line>)
    requires Holds(file, id, t) && cutoff <= t && DrawnFrom(active, Loaded(file, cutoff)) && Wrote(active, id)
    ensures Holds(active, id, t)
  {
    var m := Loaded(file, cutoff);
    LoadedKeys(file, cutoff, id);
    var k :| 0 <= k < |active| && active[k].Record? && active[k].jobID == id;
    forall c | c <= t ensures id in Loaded(active, c) && Loaded(active, c)[id] >= t {
      assert Kept(active[k], c);
      LoadedKeys(active, c, id);
      var n :| 0 <= n < |active| && active[n] == Record(id, Loaded(active, c)[id]);
      assert Loaded(active, c)[id] == m[id];
    }
  }

  /** A rewriting to the end writes everything. */
  lemma ListsWrites(file: seq<Line>, m: map<string, int>, id: string)
    requires Lists(file, m) && id in m
    ensures Wrote(file, id)
  {
    assert Record(id, m[id]) in file;
  }

  /** What a file drawn from a map remembers is in the map. */
  lemma LoadedWasDrawn(file: seq<Line>, m: map<string, int>, id: string, cutoff: int)
    requires DrawnFrom(file, m) && id in Loaded(file, cutoff)
    ensures id in m && m[id] == Loaded(file, cutoff)[id] && Wrote(file, id)
  {
    LoadedKeys(file, cutoff, id);
    var k :| 0 <= k < |file| && Kept(file[k], cutoff) && file[k].jobID == id;
    assert file[k].Record?;
  }

  ghost predicate AllTrimmed(file: seq<Line>) {
    forall k :: 0 <= k < |file| && file[k].Record? ==> Bare(file[k].jobID)
  }

  lemma LoadedTrimmed(file: seq<Line>, cutoff: int, active: seq<Line>)
    requires AllTrimmed(file) && DrawnFrom(active, Loaded(file, cutoff))
    ensures forall id :: id in Loaded(file, cutoff) ==> Bare(id)
    ensures AllTrimmed(active)
  {
    var m := Loaded(file, cutoff);
    forall id | id in m ensures Bare(id) {
      LoadedKeys(file, cutoff, id);
      assert Record(id, m[id]) in file;
    }
  }

  lemma TrimmedAfterProcess(agent: Agent, ttl: int, tr: Trace, k: nat)
    requires Brokers(agent, ttl, tr) && k < |tr.processes| && AllTrimmed(tr.files[k])
    ensures AllTrimmed(tr.files[k + 1])
    ensures tr.processes[k].opening == Opened ==> forall e :: e in tr.caches[k] ==> Bare(e.jobID)
  {
    assert ProcessAt(agent, ttl, tr, k);
    var p := tr.processes[k];
    if p.opening == Opened {
      TrimmedAfterServing(agent, ttl, p, tr.files[k], tr.active[k], tr.caches[k], tr.outcomes[k], tr.files[k + 1]);
    } else if p.opening.Cut? {
      LoadedTrimmed(tr.files[k], p.loadAt - ttl, tr.active[k]);
    }
  }

  lemma TrimmedAfterServing(agent: Agent, ttl: int, p: Process, before: seq<Line>, active: seq<Line>, es: seq<Entry>,
                            outcome: Outcome, after: seq<Line>)
    requires Served(agent, ttl, p, before, active, es, outcome, after) && AllTrimmed(before)
    requires DrawnFrom(active, Loaded(before, p.loadAt - ttl))
    ensures AllTrimmed(after)
    ensures forall e :: e in es ==> Bare(e.jobID)
  {
    LoadedTrimmed(before, p.loadAt - ttl, active);
    TrimSpaceFixes(p.env.jobID);
    TrimmedAfterAppend(active, TrimSpace(p.env.jobID), p.recordedAt, p.write);
    forall e | e in es ensures Bare(e.jobID) {
      assert e.jobID in Ids(es);
    }
  }

  lemma TrimmedAfterAppend(file: seq<Line>, id: string, t: int, w: Write)
    requires AllTrimmed(file) && Bare(id)
    ensures AllTrimmed(AppendLine(file, Record(id, t), w))
  {
  }

  lemma {:induction false} AlwaysTrimmed(agent: Agent, ttl: int, tr: Trace, k: nat)
    requires Brokers(agent, ttl, tr) && AllTrimmed(tr.files[0]) && k <= |tr.processes|
    ensures AllTrimmed(tr.files[k])
  {
    if k > 0 {
      AlwaysTrimmed(agent, ttl, tr, k - 1);
      TrimmedAfterProcess(agent, ttl, tr, k - 1);
    }
  }

  /** No record in the file is later than the clock. */
  ghost predicate Past(file: seq<Line>, clock: int) {
    forall k :: 0 <= k < |file| && file[k].Record? ==> file[k].observedAt <= clock
  }

  lemma LoadedPast(file: seq<Line>, cutoff: int, active: seq<Line>, clock: int)
    requires Past(file, clock) && DrawnFrom(active, Loaded(file, cutoff))
    ensures Past(active, clock)
  {
    forall k | 0 <= k < |active| && active[k].Record? ensures active[k].observedAt <= clock {
      LoadedKeys(file, cutoff, active[k].jobID);
    }
  }

  lemma PastAfterProcess(agent: Agent, ttl: int, tr: Trace, k: nat)
    requires Brokers(agent, ttl, tr) && k < |tr.processes| && Past(tr.files[k], tr.processes[k].loadAt)
    ensures Past(tr.files[k + 1], tr.processes[k].recordedAt)
  {
    assert ProcessAt(agent, ttl, tr, k);
    if tr.processes[k].opening != Untouched {
      LoadedPast(tr.files[k], tr.processes[k].loadAt - ttl, tr.active[k], tr.processes[k].loadAt);
    }
  }

  /** The clock never goes back, so no process ever finds a record from its future. */
  lemma {:induction false} AlwaysPast(agent: Agent, ttl: int, tr: Trace, k: nat)
    requires Brokers(agent, ttl, tr) && k < |tr.processes| && Past(tr.files[0], tr.processes[0].loadAt)
    ensures Past(tr.files[k], tr.processes[k].loadAt)
  {
    if k > 0 {
      AlwaysPast(agent, ttl, tr, k - 1);
      PastAfterProcess(agent, ttl, tr, k - 1);
      assert ProcessAt(agent, ttl, tr, k);
    }
  }

  // ---- Which records survive ---------------------------------------------------------------

  lemma {:induction false} LaterProcess(agent: Agent, ttl: int, tr: Trace, i: nat, j: nat)
    requires Brokers(agent, ttl, tr) && i < j < |tr.processes|
    ensures tr.processes[i].recordedAt <= tr.processes[j].loadAt
  {
    assert ProcessAt(agent, ttl, tr, j);
    if i < j - 1 {
      LaterProcess(agent, ttl, tr, i, j - 1);
      assert ProcessAt(agent, ttl, tr, j - 1);
    }
  }

  /** Process k put a record of the id into the file, whether or not its sync succeeded. */
  predicate Recorded(tr: Trace, k: nat, id: string)
    requires Shaped(tr) && k < |tr.processes|
  {
    && id != "" && TrimSpace(tr.processes[k].env.jobID) == id
    && (tr.outcomes[k] == Ran || (tr.outcomes[k] == NotRecorded && tr.processes[k].write == Unsynced))
  }

  /** If process k stopped in rewriting the file, it had written the id's record by then. */
  ghost predicate Spared(tr: Trace, k: nat, id: string)
    requires Shaped(tr) && k < |tr.processes|
  {
    tr.processes[k].opening.Cut? ==> Wrote(tr.files[k + 1], id)
  }

  /** Process r recorded the id, and no process between r and j lost it. */
  ghost predicate KeptSince(tr: Trace, r: nat, j: nat, id: string)
    requires Shaped(tr) && r < j <= |tr.processes|
  {
    Recorded(tr, r, id) && forall k :: r < k < j ==> Spared(tr, k, id)
  }

  /** Every process between i and j that gets to rewriting the file loads it within the TTL of process
      i's record. */
  predicate Young(ttl: int, tr: Trace, i: nat, j: nat)
    requires i < j <= |tr.processes|
  {
    forall k :: i < k < j && tr.processes[k].opening != Untouched
                ==> tr.processes[k].loadAt - ttl <= tr.processes[i].recordedAt
  }

  lemma RecordedIsHeld(agent: Agent, ttl: int, tr: Trace, k: nat, id: string)
    requires Brokers(agent, ttl, tr) && k < |tr.processes| && Recorded(tr, k, id)
    ensures Holds(tr.files[k + 1], id, tr.processes[k].recordedAt)
  {
    assert ProcessAt(agent, ttl, tr, k);
    TrimSpaceFixes(tr.processes[k].env.jobID);
    TrimSpaceFixes(id);
    HoldsAppended(tr.active[k], id, tr.processes[k].recordedAt);
  }

  /** A process that loads in time keeps a record, unless it is cut short before writing it. */
  lemma HeldThroughProcess(agent: Agent, ttl: int, tr: Trace, k: nat, id: string, t: int)
    requires Brokers(agent, ttl, tr) && k < |tr.processes| && Spared(tr, k, id)
    requires Holds(tr.files[k], id, t) && t <= tr.processes[k].recordedAt
    requires tr.processes[k].opening != Untouched ==> tr.processes[k].loadAt - ttl <= t
    ensures Holds(tr.files[k + 1], id, t)
  {
    assert ProcessAt(agent, ttl, tr, k);
    var p, m := tr.processes[k], Loaded(tr.files[k], tr.processes[k].loadAt - ttl);
    match p.opening
    case Untouched =>
    case Cut(_, _) =>
      HoldsAfterRewrite(tr.files[k], id, t, p.loadAt - ttl, tr.active[k]);
    case Opened =>
      ListsWrites(tr.active[k], m, id);
      HoldsAfterRewrite(tr.files[k], id, t, p.loadAt - ttl, tr.active[k]);
      HoldsAfterAppend(tr.active[k], id, t, Record(TrimSpace(p.env.jobID), p.recordedAt), p.write);
  }

  /** A record is in the file as long as no process drops it. */
  lemma {:induction false} RecordSurvives(agent: Agent, ttl: int, tr: Trace, i: nat, j: nat, id: string)
    requires Brokers(agent, ttl, tr) && i < j <= |tr.processes| && KeptSince(tr, i, j, id) && Young(ttl, tr, i, j)
    ensures Holds(tr.files[j], id, tr.processes[i].recordedAt)
  {
    if j == i + 1 {
      RecordedIsHeld(agent, ttl, tr, i, id);
    } else {
      RecordSurvives(agent, ttl, tr, i, j - 1, id);
      LaterProcess(agent, ttl, tr, i, j - 1);
      assert ProcessAt(agent, ttl, tr, j - 1);
      assert Spared(tr, j - 1, id);
      HeldThroughProcess(agent, ttl, tr, j - 1, id, tr.processes[i].recordedAt);
    }
  }

  /** What the file remembers after a process, it remembered before, unless the process recorded it. */
  lemma RememberedBefore(agent: Agent, ttl: int, tr: Trace, k: nat, id: string, cutoff: int)
    requires Brokers(agent, ttl, tr) && k < |tr.processes| && id in Loaded(tr.files[k + 1], cutoff)
    requires !Recorded(tr, k, id)
    ensures Spared(tr, k, id)
    ensures
      var before := Loaded(tr.files[k], CutoffAt(ttl, tr, k, cutoff));
      id in before && before[id] == Loaded(tr.files[k + 1], cutoff)[id]
  {
    assert ProcessAt(agent, ttl, tr, k);
    var p, m := tr.processes[k], Loaded(tr.files[k], tr.processes[k].loadAt - ttl);
    if p.opening == Opened {
      NotAppended(tr.active[k], TrimSpace(p.env.jobID), p.recordedAt, p.write, tr.files[k + 1], id, cutoff);
      LoadedWasDrawn(tr.active[k], m, id, cutoff);
    } else if p.opening.Cut? {
      LoadedWasDrawn(tr.active[k], m, id, cutoff);
    }
  }

  /** The cutoff that decides what of the file before process k is left to a load with `cutoff`. */
  function CutoffAt(ttl: int, tr: Trace, k: nat, cutoff: int): int
    requires k < |tr.processes|
  {
    if tr.processes[k].opening == Untouched then cutoff else tr.processes[k].loadAt - ttl
  }

  lemma NotAppended(active: seq<Line>, other: string, t: int, w: Write, after: seq<Line>, id: string, cutoff: int)
    requires after == active || after == AppendLine(active, Record(other, t), w)
    requires id in Loaded(after, cutoff)
    requires after == active || other != id || w == Torn || w == Unwritten
    ensures id in Loaded(active, cutoff) && Loaded(active, cutoff)[id] == Loaded(after, cutoff)[id]
  {
    assert (active + [Record(other, t)])[..|active|] == active && (active + [Junk])[..|active|] == active;
  }

  /** Whatever the file remembers was recorded by some process since i, and every later one loaded it in
      time and spared it. */
  lemma {:induction false} RememberedWasKept(agent: Agent, ttl: int, tr: Trace, i: nat, j: nat, id: string, cutoff: int)
    returns (r: nat)
    requires Brokers(agent, ttl, tr) && i < j <= |tr.processes| && Recorded(tr, i, id)
    requires Past(tr.files[0], tr.processes[0].loadAt) && id in Loaded(tr.files[j], cutoff)
    ensures i <= r < j && KeptSince(tr, r, j, id) && Young(ttl, tr, r, j)
    ensures cutoff <= Loaded(tr.files[j], cutoff)[id] <= tr.processes[r].recordedAt
  {
    LoadedKeys(tr.files[j], cutoff, id);
    if Recorded(tr, j - 1, id) {
      r := j - 1;
      AlwaysPast(agent, ttl, tr, j - 1);
      PastAfterProcess(agent, ttl, tr, j - 1);
    } else {
      RememberedBefore(agent, ttl, tr, j - 1, id, cutoff);
      r := RememberedWasKept(agent, ttl, tr, i, j - 1, id, CutoffAt(ttl, tr, j - 1, cutoff));
    }
  }

  /** Some process from i on recorded the id no earlier than the cutoff, and every later one before j
      loaded it in time and spared it. */
  ghost predicate Remembers(ttl: int, tr: Trace, i: nat, j: nat, id: string, cutoff: int)
    requires Shaped(tr) && j <= |tr.processes|
  {
    exists r :: i <= r < j && KeptSince(tr, r, j, id) && Young(ttl, tr, r, j) && cutoff <= tr.processes[r].recordedAt
  }

  /** Exactly when an id that process i recorded is still remembered. */
  lemma RememberedIff(agent: Agent, ttl: int, tr: Trace, i: nat, j: nat, id: string, cutoff: int)
    requires Brokers(agent, ttl, tr) && i < j <= |tr.processes| && Recorded(tr, i, id)
    requires Past(tr.files[0], tr.processes[0].loadAt)
    ensures id in Loaded(tr.files[j], cutoff) <==> Remembers(ttl, tr, i, j, id, cutoff)
  {
    if id in Loaded(tr.files[j], cutoff) {
      var r := RememberedWasKept(agent, ttl, tr, i, j, id, cutoff);
    }
    if Remembers(ttl, tr, i, j, id, cutoff) {
      var r :| i <= r < j && KeptSince(tr, r, j, id) && Young(ttl, tr, r, j) && cutoff <= tr.processes[r].recordedAt;
      RecordSurvives(agent, ttl, tr, r, j, id);
    }
  }

  // ---- At most once, across processes ------------------------------------------------------

  function VerdictOf(agent: Agent, ttl: int, tr: Trace, j: nat): Verdict
    requires Shaped(tr) && j < |tr.processes|
  {
    var p := tr.processes[j];
    Judge(agent, p.env, tr.caches[j], ttl, p.now, p.seenAt)
  }

  /** The cache knows the id, but by a time that is no longer within the TTL. */
  predicate Lapsed(es: seq<Entry>, ttl: int, jobID: string, when: int) {
    exists k :: 0 <= k < |es| && es[k].jobID == jobID && when - es[k].observedAt >= ttl
  }

  /** A process refuses an id as replayed, once nothing else is wrong, exactly if its load finds it and
      its lookup comes before the entry stamped at the load has lapsed. */
  lemma ReplayedIffLoaded(agent: Agent, ttl: int, tr: Trace, j: nat)
    requires Brokers(agent, ttl, tr) && j < |tr.processes| && tr.processes[j].opening == Opened
    ensures
      var p := tr.processes[j];
      var v := Screen(agent, p.env, p.now);
      VerdictOf(agent, ttl, tr, j) ==
        if v != Accepted then v
        else if p.env.jobID in Loaded(tr.files[j], p.loadAt - ttl) && !Lapsed(tr.caches[j], ttl, p.env.jobID, p.seenAt)
        then Replayed
        else Accepted
  {
    assert ProcessAt(agent, ttl, tr, j);
    SeenIffFresh(tr.caches[j], ttl, tr.processes[j].env.jobID, tr.processes[j].seenAt);
  }

  lemma SeenIffFresh(es: seq<Entry>, ttl: int, jobID: string, when: int)
    requires Distinct(es)
    ensures SeenIn(es, ttl, jobID, when) <==> jobID in Ids(es) && !Lapsed(es, ttl, jobID, when)
  {
    if jobID in Ids(es) {
      var n := IndexOf(es, jobID);
    } else {
      AbsentId(es, jobID);
    }
  }

  /** Entries are stamped between load and expiry check, so a lookup within the TTL of the load finds them
      fresh, and one that comes a TTL after the expiry check finds them lapsed. */
  lemma LapsedWithin(agent: Agent, ttl: int, tr: Trace, j: nat)
    requires Brokers(agent, ttl, tr) && j < |tr.processes| && tr.processes[j].opening == Opened
    ensures
      var p, id := tr.processes[j], tr.processes[j].env.jobID;
      && (p.seenAt - p.loadAt < ttl ==> !Lapsed(tr.caches[j], ttl, id, p.seenAt))
      && (p.seenAt - p.now >= ttl && id in Loaded(tr.files[j], p.loadAt - ttl)
          ==> Lapsed(tr.caches[j], ttl, id, p.seenAt))
  {
    assert ProcessAt(agent, ttl, tr, j);
    var p, id, es := tr.processes[j], tr.processes[j].env.jobID, tr.caches[j];
    if id in Ids(es) {
      var n := IndexOf(es, id);
      assert p.loadAt <= es[n].observedAt <= p.now;
    }
  }

  /** Within the TTL of a record no process whose lookup comes within the TTL of its load accepts an
      envelope with exactly that job id, unless some process in between was cut short before rewriting
      the record. */
  lemma RecordedIdIsRefused(agent: Agent, ttl: int, tr: Trace, i: nat, j: nat)
    requires Brokers(agent, ttl, tr) && i < j < |tr.processes| && tr.processes[j].opening == Opened
    requires KeptSince(tr, i, j, tr.processes[j].env.jobID) && Young(ttl, tr, i, j + 1)
    requires tr.processes[j].seenAt - tr.processes[j].loadAt < ttl
    ensures VerdictOf(agent, ttl, tr, j) != Accepted && tr.outcomes[j] == Rejected(VerdictOf(agent, ttl, tr, j))
  {
    assert ProcessAt(agent, ttl, tr, j);
    RecordSurvives(agent, ttl, tr, i, j, tr.processes[j].env.jobID);
    ReplayedIffLoaded(agent, ttl, tr, j);
    LapsedWithin(agent, ttl, tr, j);
  }

  /** The exact verdict on any envelope whose trimmed job id process i recorded: it is refused as replayed
      if and only if the id has no surrounding white space, because ids are recorded trimmed but looked up
      as they come, some record of it was loaded in time and spared by every later process, and the
      process's own lookup comes before its rebuilt entry lapses. */
  lemma BrokerVerdict(agent: Agent, ttl: int, tr: Trace, i: nat, j: nat)
    requires Brokers(agent, ttl, tr) && i < j < |tr.processes| && tr.processes[j].opening == Opened
    requires Recorded(tr, i, TrimSpace(tr.processes[j].env.jobID))
    requires AllTrimmed(tr.files[0]) && Past(tr.files[0], tr.processes[0].loadAt)
    ensures
      var p, id := tr.processes[j], tr.processes[j].env.jobID;
      var v := Screen(agent, p.env, p.now);
      VerdictOf(agent, ttl, tr, j) ==
        if v != Accepted then v
        else if && TrimSpace(id) == id && Remembers(ttl, tr, i, j, id, p.loadAt - ttl)
                && !Lapsed(tr.caches[j], ttl, id, p.seenAt) then Replayed
        else Accepted
  {
    var p, id := tr.processes[j], tr.processes[j].env.jobID;
    ReplayedIffLoaded(agent, ttl, tr, j);
    if TrimSpace(id) == id {
      RememberedIff(agent, ttl, tr, i, j, id, p.loadAt - ttl);
    } else {
      AlwaysTrimmed(agent, ttl, tr, j);
      UntrimmedIsUnknown(tr.files[j], p.loadAt - ttl, id);
    }
  }

  lemma UntrimmedIsUnknown(file: seq<Line>, cutoff: int, id: string)
    requires AllTrimmed(file) && TrimSpace(id) != id
    ensures id !in Loaded(file, cutoff)
  {
    TrimSpaceFixes(id);
    LoadedKeys(file, cutoff, id);
    if id in Loaded(file, cutoff) {
      assert Record(id, Loaded(file, cutoff)[id]) in file;
    }
  }

  /** Process i ran an envelope; process j gets the same one again. */
  ghost predicate Redelivered(agent: Agent, ttl: int, tr: Trace, i: nat, j: nat) {
    && Brokers(agent, ttl, tr)
    && i < j < |tr.processes| && tr.outcomes[i] == Ran
    && tr.processes[j].env == tr.processes[i].env
  }

  lemma RanIsRecorded(agent: Agent, ttl: int, tr: Trace, i: nat)
    requires Brokers(agent, ttl, tr) && i < |tr.processes| && tr.outcomes[i] == Ran
    ensures Recorded(tr, i, TrimSpace(tr.processes[i].env.jobID))
    ensures Screen(agent, tr.processes[i].env, tr.processes[i].now) == Accepted
  {
    assert ProcessAt(agent, ttl, tr, i);
  }

  /** The exact verdict on a redelivery. */
  lemma BrokerRedelivery(agent: Agent, ttl: int, tr: Trace, i: nat, j: nat)
    requires Redelivered(agent, ttl, tr, i, j) && tr.processes[j].opening == Opened
    requires AllTrimmed(tr.files[0]) && Past(tr.files[0], tr.processes[0].loadAt)
    ensures
      var p, id := tr.processes[j], tr.processes[j].env.jobID;
      VerdictOf(agent, ttl, tr, j) ==
        if p.env.expiresAt < p.now - NTP_SKEW then Expired
        else if && TrimSpace(id) == id && Remembers(ttl, tr, i, j, id, p.loadAt - ttl)
                && !Lapsed(tr.caches[j], ttl, id, p.seenAt) then Replayed
        else Accepted
  {
    RanIsRecorded(agent, ttl, tr, i);
    BrokerVerdict(agent, ttl, tr, i, j);
    ScreenLater(agent, tr.processes[j].env, tr.processes[i].now, tr.processes[j].now);
  }

  /** What the TTL is chosen for: while an envelope that was not issued for later is unexpired, its record
      is young enough for every load. */
  lemma UnexpiredIsYoung(agent: Agent, ttl: int, tr: Trace, i: nat, j: nat)
    requires Redelivered(agent, ttl, tr, i, j) && ttl > MAX_LIFETIME + NTP_SKEW
    requires tr.processes[i].env.issuedAt <= tr.processes[i].recordedAt
    ensures
      var p := tr.processes[j];
      && Screen(agent, p.env, p.now) == (if p.env.expiresAt < p.now - NTP_SKEW then Expired else Accepted)
      && (p.env.expiresAt >= p.now - NTP_SKEW ==> Young(ttl, tr, i, j + 1))
  {
    var p, first := tr.processes[j], tr.processes[i];
    RanIsRecorded(agent, ttl, tr, i);
    ScreenLater(agent, p.env, first.now, p.now);
    if p.env.expiresAt >= p.now - NTP_SKEW {
      forall k | i < k < j + 1 ensures tr.processes[k].loadAt - ttl <= first.recordedAt {
        LoadedBy(agent, ttl, tr, k, j);
      }
    }
  }

  lemma LoadedBy(agent: Agent, ttl: int, tr: Trace, k: nat, j: nat)
    requires Brokers(agent, ttl, tr) && k <= j < |tr.processes|
    ensures tr.processes[k].loadAt <= tr.processes[j].now
  {
    assert ProcessAt(agent, ttl, tr, j) && ProcessAt(agent, ttl, tr, k);
    if k < j {
      LaterProcess(agent, ttl, tr, k, j);
    }
  }

  /** At most once across processes: an envelope that was not issued for later, whose job id has no
      surrounding white space and that ran once never runs again, if every process in between that
      stopped in rewriting the file had written its record and the lookup comes within the TTL of the
      load. */
  lemma BrokerAtMostOnce(agent: Agent, ttl: int, tr: Trace, i: nat, j: nat)
    requires Redelivered(agent, ttl, tr, i, j) && ttl > MAX_LIFETIME + NTP_SKEW
    requires tr.processes[i].env.issuedAt <= tr.processes[i].recordedAt
    requires TrimSpace(tr.processes[j].env.jobID) == tr.processes[j].env.jobID
    requires forall k :: i < k < j ==> Spared(tr, k, tr.processes[j].env.jobID)
    requires tr.processes[j].seenAt - tr.processes[j].loadAt < ttl
    ensures if tr.processes[j].opening == Opened
            then tr.outcomes[j] == Rejected(Expired) || tr.outcomes[j] == Rejected(Replayed)
            else tr.outcomes[j] == NotOpened
  {
    var p := tr.processes[j];
    assert ProcessAt(agent, ttl, tr, j);
    if p.opening == Opened {
      UnexpiredIsYoung(agent, ttl, tr, i, j);
      ReplayedIffLoaded(agent, ttl, tr, j);
      LapsedWithin(agent, ttl, tr, j);
      if p.env.expiresAt >= p.now - NTP_SKEW {
        RanIsRecorded(agent, ttl, tr, i);
        assert KeptSince(tr, i, j, p.env.jobID);
        RecordSurvives(agent, ttl, tr, i, j, p.env.jobID);
      }
    }
  }

  // ---- Where it fails ----------------------------------------------------------------------

  /** Process number n, at second n, all its clock readings alike. */
  function SomeProcess(jobID: string, n: nat, opening: Opening): Process {
    Process(SomeEnvelope(jobID), n * SECOND, opening, n * SECOND, n * SECOND, n * SECOND, n * SECOND, Synced)
  }

  /** A process that does not see its job id in its cache runs, and its record is the last one. */
  lemma UnseenRuns(ttl: int, p: Process, before: seq<Line>, active: seq<Line>, es: seq<Entry>)
    requires p.opening == Opened && p.write == Synced && TrimSpace(p.env.jobID) != ""
    requires Screen(SomeAgent(), p.env, p.now) == Accepted && !SeenIn(es, ttl, p.env.jobID, p.seenAt)
    requires Lists(active, Loaded(before, p.loadAt - ttl)) && Ids(es) == Loaded(before, p.loadAt - ttl).Keys
    requires Distinct(es) && Within(es, p.loadAt, p.now)
    ensures Handled(SomeAgent(), ttl, p, before, active, es, Ran,
                    active + [Record(TrimSpace(p.env.jobID), p.recordedAt)])
  {
  }

  lemma FirstRuns(ttl: int, p: Process)
    requires p.opening == Opened && p.write == Synced && TrimSpace(p.env.jobID) != ""
    requires Screen(SomeAgent(), p.env, p.now) == Accepted
    ensures Handled(SomeAgent(), ttl, p, [], [], [], Ran, [Record(TrimSpace(p.env.jobID), p.recordedAt)])
  {
    UnseenRuns(ttl, p, [], [], []);
    assert [] + [Record(TrimSpace(p.env.jobID), p.recordedAt)] == [Record(TrimSpace(p.env.jobID), p.recordedAt)];
  }

  /** The second process finds the record of the first one, but not under its own id, or too late. */
  lemma SecondRuns(ttl: int, p: Process, t: int)
    requires p.opening == Opened && p.write == Synced && TrimSpace(p.env.jobID) != "" && p.loadAt <= p.now
    requires Screen(SomeAgent(), p.env, p.now) == Accepted && p.loadAt - ttl <= t
    requires TrimSpace(p.env.jobID) != p.env.jobID || p.seenAt - p.loadAt >= ttl
    ensures
      var id := TrimSpace(p.env.jobID);
      Handled(SomeAgent(), ttl, p, [Record(id, t)], [Record(id, t)], [Entry(id, p.loadAt)], Ran,
              [Record(id, t), Record(id, p.recordedAt)])
  {
    var id := TrimSpace(p.env.jobID);
    var es := [Entry(id, p.loadAt)];
    TrimSpaceFixes(p.env.jobID);
    OneRecordLoads(id, t, p.loadAt - ttl);
    assert es[0] in es;
    assert Ids(es) == {id};
    UnseenRuns(ttl, p, [Record(id, t)], [Record(id, t)], es);
    assert [Record(id, t)] + [Record(id, p.recordedAt)] == [Record(id, t), Record(id, p.recordedAt)];
  }

  lemma OneRecordLoads(id: string, t: int, cutoff: int)
    requires Bare(id) && id != "" && cutoff <= t
    ensures Loaded([Record(id, t)], cutoff) == map[id := t]
    ensures Lists([Record(id, t)], map[id := t])
  {
    TrimSpaceFixes(id);
    assert [Record(id, t)][..0] == [];
  }

  lemma IsProcess(agent: Agent, ttl: int, tr: Trace, k: nat, before: seq<Line>, after: seq<Line>)
    requires Shaped(tr) && k < |tr.processes| && InOrder(tr.processes[k])
    requires k > 0 ==> tr.processes[k - 1].recordedAt <= tr.processes[k].loadAt
    requires tr.files[k] == before && tr.files[k + 1] == after
    requires Handled(agent, ttl, tr.processes[k], before, tr.active[k], tr.caches[k], tr.outcomes[k], after)
    ensures ProcessAt(agent, ttl, tr, k)
  {
  }

  lemma TwoBrokers(agent: Agent, ttl: int, p: Process, q: Process, f0: seq<Line>, f1: seq<Line>, f2: seq<Line>,
                   a0: seq<Line>, a1: seq<Line>, e0: seq<Entry>, e1: seq<Entry>, o0: Outcome, o1: Outcome)
    requires InOrder(p) && InOrder(q) && p.recordedAt <= q.loadAt
    requires Handled(agent, ttl, p, f0, a0, e0, o0, f1) && Handled(agent, ttl, q, f1, a1, e1, o1, f2)
    ensures Brokers(agent, ttl, Trace([p, q], [f0, f1, f2], [a0, a1], [e0, e1], [o0, o1]))
  {
    var tr := Trace([p, q], [f0, f1, f2], [a0, a1], [e0, e1], [o0, o1]);
    IsProcess(agent, ttl, tr, 0, f0, f1);
    IsProcess(agent, ttl, tr, 1, f1, f2);
  }

  /** A record is lost by a process that stops after truncating the file, and the redelivery runs. */
  lemma CutLosesRecord(ttl: int) returns (tr: Trace)
    requires ttl > MAX_LIFETIME + NTP_SKEW
    ensures Redelivered(SomeAgent(), ttl, tr, 0, 2) && tr.files[0] == [] && tr.processes[1].opening == Cut(0, false)
    ensures tr.processes[2].env == SomeEnvelope("a") && tr.outcomes[2] == Ran
  {
    TrimSpaceFixes("a");
    var r0, r2 := Record("a", 0), Record("a", 2 * SECOND);
    tr := Trace([SomeProcess("a", 0, Opened), SomeProcess("b", 1, Cut(0, false)), SomeProcess("a", 2, Opened)],
                [[], [r0], [], [r2]], [[], [], []], [[], [], []], [Ran, NotOpened, Ran]);
    FirstRuns(ttl, tr.processes[0]);
    FirstRuns(ttl, tr.processes[2]);
    IsProcess(SomeAgent(), ttl, tr, 0, [], [r0]);
    IsProcess(SomeAgent(), ttl, tr, 1, [r0], []);
    IsProcess(SomeAgent(), ttl, tr, 2, [], [r2]);
  }

  /** Two processes that run the same envelope, the second one with the first one's record in its file. */
  lemma RunsTwice(ttl: int, p: Process, q: Process) returns (tr: Trace)
    requires InOrder(p) && InOrder(q) && p.recordedAt <= q.loadAt && q.loadAt - ttl <= p.recordedAt && p.env == q.env
    requires p.opening == q.opening == Opened && p.write == q.write == Synced && TrimSpace(p.env.jobID) != ""
    requires Screen(SomeAgent(), p.env, p.now) == Screen(SomeAgent(), q.env, q.now) == Accepted
    requires TrimSpace(q.env.jobID) != q.env.jobID || q.seenAt - q.loadAt >= ttl
    ensures Redelivered(SomeAgent(), ttl, tr, 0, 1) && tr.processes == [p, q] && tr.files[0] == []
    ensures tr.outcomes[1] == Ran
  {
    var id := TrimSpace(p.env.jobID);
    var r0, r1 := Record(id, p.recordedAt), Record(id, q.recordedAt);
    var es := [Entry(id, q.loadAt)];
    FirstRuns(ttl, p);
    SecondRuns(ttl, q, p.recordedAt);
    TwoBrokers(SomeAgent(), ttl, p, q, [], [r0], [r0, r1], [], [r0], [], es, Ran, Ran);
    tr := Trace([p, q], [[], [r0], [r0, r1]], [[], [r0]], [[], es], [Ran, Ran]);
  }

  /** Every id with surrounding white space can run in two processes one after the other. */
  lemma SpacedIdRunsTwice(id: string, ttl: int) returns (tr: Trace)
    requires TrimSpace(id) != id && TrimSpace(id) != "" && ttl > MAX_LIFETIME + NTP_SKEW
    ensures Redelivered(SomeAgent(), ttl, tr, 0, 1) && tr.files[0] == []
    ensures tr.processes[1].env.jobID == id && tr.outcomes[1] == Ran
  {
    tr := RunsTwice(ttl, SomeProcess(id, 0, Opened), SomeProcess(id, 1, Opened));
  }

  /** With the shortest such id, a letter behind a space. */
  lemma SpacedIdExample(ttl: int) returns (tr: Trace)
    requires ttl > MAX_LIFETIME + NTP_SKEW
    ensures Redelivered(SomeAgent(), ttl, tr, 0, 1) && tr.processes[1].env.jobID == " a" && tr.outcomes[1] == Ran
  {
    assert TrimSpace(" a") == "a" by {
      TrimSpaceFixes("a");
      assert " a"[1..] == "a";
    }
    tr := SpacedIdRunsTwice(" a", ttl);
  }

  /** The record is there, but the rebuilt entry has lapsed when the lookup comes. */
  lemma LateLookupRunsTwice(ttl: int) returns (tr: Trace)
    requires ttl > MAX_LIFETIME + NTP_SKEW
    ensures Redelivered(SomeAgent(), ttl, tr, 0, 1) && tr.files[0] == []
    ensures tr.processes[1].env == SomeEnvelope("a") && tr.processes[1].now == tr.processes[1].loadAt
    ensures Remembers(ttl, tr, 0, 1, "a", tr.processes[1].loadAt - ttl) && tr.outcomes[1] == Ran
  {
    TrimSpaceFixes("a");
    var late := Process(SomeEnvelope("a"), 0, Opened, 0, ttl, ttl, ttl, Synced);
    tr := RunsTwice(ttl, SomeProcess("a", 0, Opened), late);
    assert KeptSince(tr, 0, 1, "a") && Young(ttl, tr, 0, 1);
  }

  /** An envelope issued for later outlives its record, which is dropped at a load after the TTL. */
  lemma PostdatedRunsTwice(ttl: int) returns (tr: Trace)
    requires ttl > 0
    ensures Redelivered(SomeAgent(), ttl, tr, 0, 1) && tr.files[0] == []
    ensures tr.processes[1].env == Postdated(ttl) && tr.processes[1].seenAt == tr.processes[1].loadAt
    ensures tr.outcomes[1] == Ran
  {
    TrimSpaceFixes("a");
    var t := ttl + 1;
    var p := Process(Postdated(ttl), 0, Opened, 0, 0, 0, 0, Synced);
    var q := Process(Postdated(ttl), t, Opened, t, t, t, t, Synced);
    var r0, r1 := Record("a", 0), Record("a", t);
    FirstRuns(ttl, p);
    assert [r0][..0] == [] && [] + [r1] == [r1];
    assert Loaded([r0], t - ttl) == map[];
    UnseenRuns(ttl, q, [r0], [], []);
    TwoBrokers(SomeAgent(), ttl, p, q, [], [r0], [r1], [], [], [], [], Ran, Ran);
    tr := Trace([p, q], [[], [r0], [r1]], [[], []], [[], []], [Ran, Ran]);
  }
}
