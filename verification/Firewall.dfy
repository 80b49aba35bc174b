/** The firewall commands and the lockdown flag file. A rendered ruleset reaches the kernel in one nft
    transaction; the active-ruleset link and the flag are written after it, and each write may fail. */
module Firewalls {
  import opened Bytes
  import opened Text
  import opened Rulesets
  import opened RulesetReadings

  /** lockdown-state.json: missing, readable, or damaged by a write that failed half way. */
  datatype Flag = Absent | Saved(enabled: bool) | Unreadable

  /** How a command ends: done, an error before nft ran, the lockdown refusal, nft or the promotion of
      the checked file failed, or nft loaded the rules and then the link or the flag could not be
      written. */
  datatype Outcome = Done | Rejected | Refused | NftFailed | LinkFailed | FlagFailed

  /** How a write of the flag file ends: written, failed without effect, or failed half way. */
  datatype Write = Written | Kept | Damaged

  /** How the outside world treats one command: whether the files in front of nft can be written, nft
      succeeds, the link can be replaced, and what happens to the flag when it is turned off and on. */
  datatype World = World(stages: bool, nft: bool, links: bool, off: Write, on: Write)

  datatype Command = Apply | Lockdown | Clear
  datatype Event = Event(command: Command, outcome: Outcome)

  /** The flag, and whether the rules last loaded are those of a lockdown. */
  datatype State = State(flag: Flag, locked: bool)

  // ---- What one command may do -------------------------------------------------------------

  predicate Loads(e: Event) {
    e.command != Clear && e.outcome in {Done, LinkFailed, FlagFailed}
  }

  ghost predicate Step(s: State, e: Event, t: State) {
    && (s.flag == Unreadable ==> e.outcome == Rejected)
    && (e.outcome in {Rejected, Refused, NftFailed} ==> t == s)
    && (e.outcome == Refused ==> e.command == Clear)
    && (e.command == Clear ==> e.outcome !in {LinkFailed, FlagFailed} && t.flag == s.flag)
    && (e.command == Clear ==> (e.outcome == Refused <==> s.flag == Saved(true)))
    && (e.command == Clear && e.outcome == Done ==> !t.locked)
    && (Loads(e) ==> t.locked == (e.command == Lockdown))
    && (e.outcome == LinkFailed ==> t.flag == s.flag)
    && (e.outcome == Done && e.command == Apply ==> t.flag == if s.flag == Saved(true) then Saved(false) else s.flag)
    && (e.outcome == Done && e.command == Lockdown ==> t.flag == Saved(true))
    && (e.outcome == FlagFailed && e.command == Apply ==> s.flag == Saved(true) && t.flag in {s.flag, Unreadable})
    && (e.outcome == FlagFailed && e.command == Lockdown ==>
          t.flag in {s.flag, Unreadable, if s.flag == Saved(true) then Saved(false) else s.flag})
  }

  predicate ValidRevision(revision: Option<string>) {
    revision.Some? ==>
      var r := TrimSpace(revision.value);
      0 < |r| <= 128
      && forall k :: 0 <= k < |r| ==>
           'a' <= r[k] <= 'z' || 'A' <= r[k] <= 'Z' || '0' <= r[k] <= '9' || r[k] == '-' || r[k] == '_' || r[k] == '.'
  }

  /** The rulesets that get as far as nft. */
  predicate Acceptable(c: Config, rs: RuleSet, ssh: seq<string>) {
    |rs.rules| <= c.maxRules && ValidTarget(rs) && ValidRevision(rs.revision) && Renderable(c, rs, ssh)
  }

  function TextFor(c: Config, rs: RuleSet, ssh: seq<string>): Option<string> {
    if Acceptable(c, rs, ssh) then Some(Unlines(RulesetLines(c, rs, ssh))) else None
  }

  /** Only the management networks may connect. */
  function LockdownRules(cidrs: seq<string>, revision: string): RuleSet {
    RuleSet(Some(revision), "inet", "pmx-cloud",
            [Chain("input", Some("filter"), Some("input"), Some(0), Some("drop"))],
            seq(|cidrs|, k requires 0 <= k < |cidrs| => Rule("input", [Match("ip saddr", "==", cidrs[k]), Accept])))
  }

  /** Which outcome a command has, by what can go wrong first. */
  function LoadOutcome(flag: Flag, text: Option<string>, w: World): Outcome {
    if flag == Unreadable || text == None || !w.stages then Rejected
    else if !w.nft then NftFailed
    else if !w.links then LinkFailed
    else if flag == Saved(true) && w.off != Written then FlagFailed
    else Done
  }

  function LockdownOutcome(flag: Flag, cidrs: seq<string>, text: Option<string>, w: World): Outcome {
    if cidrs == [] then Rejected
    else
      var o := LoadOutcome(flag, text, w);
      if o == Done && w.on != Written then FlagFailed else o
  }

  function ClearOutcome(flag: Flag, renders: bool, w: World): Outcome {
    if flag == Saved(true) then Refused
    else if flag == Unreadable || !renders || !w.stages then Rejected
    else if !w.nft then NftFailed
    else Done
  }

  class Firewall {
    const c: Config
    var flag: Flag
    /** The text nft last accepted, and whether a lockdown loaded it. */
    var loaded: Option<string>
    ghost var locked: bool

    constructor (c: Config, flag: Flag)
      ensures this.c == c && this.flag == flag && loaded == None && !locked
    {
      this.c := c;
      this.flag := flag;
      loaded := None;
      locked := false;
    }

    ghost function Now(): State
      reads this
    {
      State(flag, locked)
    }

    method SetLockdown(enabled: bool, w: Write) returns (ok: bool)
      modifies this`flag
      ensures ok <==> w == Written
      ensures flag == match w case Written => Saved(enabled) case Kept => old(flag) case Damaged => Unreadable
    {
      match w
      case Written =>
        flag := Saved(enabled);
        return true;
      case Kept =>
        return false;
      case Damaged =>
        flag := Unreadable;
        return false;
    }

    /** apply: only an acceptable ruleset is loaded, and then exactly its rendered text. */
    method Load(rs: RuleSet, ssh: seq<string>, w: World, ghost lockdown: bool) returns (o: Outcome)
      modifies this
      ensures o == LoadOutcome(old(flag), TextFor(c, rs, ssh), w)
      ensures o in {Rejected, NftFailed} ==> flag == old(flag) && loaded == old(loaded) && locked == old(locked)
      ensures o !in {Rejected, NftFailed} ==> locked == lockdown && loaded == TextFor(c, rs, ssh)
      ensures o == Done ==> flag == if old(flag) == Saved(true) then Saved(false) else old(flag)
      ensures o == LinkFailed ==> flag == old(flag)
      ensures o == FlagFailed ==> flag == if w.off == Kept then old(flag) else Unreadable
    {
      if flag == Unreadable {
        return Rejected;
      }
      var wasLockdown := flag == Saved(true);
      if |rs.rules| > c.maxRules || !ValidTarget(rs) || !ValidRevision(rs.revision) {
        return Rejected;
      }
      var rendered := Stage(rs, ssh, w.stages);
      if rendered == None {
        return Rejected;
      }
      if !w.nft {
        return NftFailed;
      }
      loaded, locked := rendered, lockdown;
      if !w.links {
        return LinkFailed;
      }
      if wasLockdown {
        var cleared := SetLockdown(false, w.off);
        if !cleared {
          return FlagFailed;
        }
      }
      return Done;
    }

    /** Renders, checks the isolation table and writes the staging file. */
    method Stage(rs: RuleSet, ssh: seq<string>, stages: bool) returns (r: Option<string>)
      ensures r == if stages && Renderable(c, rs, ssh) then Some(Unlines(RulesetLines(c, rs, ssh))) else None
    {
      r := RenderRuleset(c, rs, ssh);
      if r == None {
        return;
      }
      var expected := RenderIsolationTable(c, ssh);
      IsolationIntact(c, rs, ssh);
      assert expected.Some?;
      if !(expected.value <= r.value) || !stages {
        return None;
      }
    }

    method ApplyRules(rs: RuleSet, ssh: seq<string>, w: World) returns (o: Outcome)
      modifies this
      ensures o == LoadOutcome(old(flag), TextFor(c, rs, ssh), w)
      ensures Step(old(Now()), Event(Apply, o), Now())
      ensures o == FlagFailed ==> !Synced(Now())
      ensures loaded == if Loads(Event(Apply, o)) then TextFor(c, rs, ssh) else old(loaded)
    {
      o := Load(rs, ssh, w, false);
    }

    method EmergencyLockdown(cidrs: seq<string>, revision: string, w: World) returns (o: Outcome)
      modifies this
      ensures o == LockdownOutcome(old(flag), cidrs, TextFor(c, LockdownRules(cidrs, revision), cidrs), w)
      ensures Step(old(Now()), Event(Lockdown, o), Now())
      ensures o == FlagFailed ==> (Synced(Now()) <==> old(flag) == Saved(true) && w.off == Kept)
      ensures loaded == if Loads(Event(Lockdown, o)) then TextFor(c, LockdownRules(cidrs, revision), cidrs)
                        else old(loaded)
    {
      if cidrs == [] {
        return Rejected;
      }
      o := LoadLocked(LockdownRules(cidrs, revision), cidrs, w);
    }

    /** Loads rules as those of a lockdown and turns the flag on. */
    method LoadLocked(rs: RuleSet, ssh: seq<string>, w: World) returns (o: Outcome)
      requires ssh != []
      modifies this
      ensures o == LockdownOutcome(old(flag), ssh, TextFor(c, rs, ssh), w)
      ensures Step(old(Now()), Event(Lockdown, o), Now())
      ensures o == FlagFailed ==> (Synced(Now()) <==> old(flag) == Saved(true) && w.off == Kept)
      ensures loaded == if Loads(Event(Lockdown, o)) then TextFor(c, rs, ssh) else old(loaded)
    {
      o := Load(rs, ssh, w, true);
      if o == Done {
        var saved := SetLockdown(true, w.on);
        o := if saved then Done else FlagFailed;
      }
    }

    /** Flushes the cloud table and reloads the isolation table, unless a lockdown is on. */
    method ClearRules(w: World) returns (o: Outcome)
      modifies this
      ensures o == ClearOutcome(old(flag), Addresses(c, Allowed(c.allowSsh, [])), w)
      ensures Step(old(Now()), Event(Clear, o), Now())
      ensures o == Done ==> Addresses(c, Allowed(c.allowSsh, []))
                            && loaded == Some("flush table inet pmx-cloud\n" + Unlines(IsolationLines(c, [])))
      ensures o != Done ==> loaded == old(loaded)
    {
      if flag == Unreadable {
        return Rejected;
      }
      if flag == Saved(true) {
        return Refused;
      }
      var isolation := RenderIsolationTable(c, []);
      if isolation == None || !w.stages {
        return Rejected;
      }
      if !w.nft {
        return NftFailed;
      }
      loaded := Some("flush table inet pmx-cloud\n" + isolation.value);
      locked := false;
      return Done;
    }
  }

  // ---- Every run ---------------------------------------------------------------------------

  /** The flag says lockdown exactly when lockdown rules are loaded. */
  predicate Synced(s: State) {
    s.flag != Unreadable && (s.flag == Saved(true) <==> s.locked)
  }

  ghost predicate StepAt(states: seq<State>, events: seq<Event>, k: nat)
    requires k < |events| && |states| == |events| + 1
  {
    Step(states[k], events[k], states[k + 1])
  }

  ghost predicate Run(states: seq<State>, events: seq<Event>) {
    |states| == |events| + 1 && forall k: nat :: k < |events| ==> StepAt(states, events, k)
  }

  /** The writes after nft succeeded. */
  predicate Clean(e: Event) {
    e.outcome !in {LinkFailed, FlagFailed}
  }

  /** A command that is done puts flag and rules in step whatever the state was, one that failed before
      or in nft keeps them so, and one whose link failed keeps them so exactly when it did not change
      between lockdown and normal rules. After an apply that could not turn the flag off they are never
      in step; after a lockdown that could not write it, only if it was on before and still is. */
  lemma SyncStep(s: State, e: Event, t: State)
    requires Step(s, e, t)
    ensures e.outcome == FlagFailed && e.command == Apply ==> !Synced(t)
    ensures e.outcome == FlagFailed && e.command == Lockdown ==> (Synced(t) <==> s.flag == t.flag == Saved(true))
    ensures e.outcome == Done ==> Synced(t)
    ensures e.outcome in {Rejected, Refused, NftFailed} ==> (Synced(t) <==> Synced(s))
    ensures e.outcome == LinkFailed && Synced(s) ==> (Synced(t) <==> s.locked == (e.command == Lockdown))
  {
  }

  /** The last completed apply or lockdown. */
  function LastDone(events: seq<Event>): Option<Command> {
    if events == [] then None
    else
      var last := events[|events| - 1];
      if last.command != Clear && last.outcome == Done then Some(last.command)
      else LastDone(events[..|events| - 1])
  }

  /** If no write after nft ever fails, the flag is on after every command exactly when the last
      completed apply or lockdown was a lockdown. */
  lemma {:induction false} FlagFollowsLastDone(states: seq<State>, events: seq<Event>, k: nat)
    requires Run(states, events) && k <= |events|
    requires Synced(states[0]) && !states[0].locked
    requires forall i :: 0 <= i < k ==> Clean(events[i])
    ensures Synced(states[k])
    ensures states[k].flag == Saved(true) <==> LastDone(events[..k]) == Some(Lockdown)
  {
    if k > 0 {
      FlagFollowsLastDone(states, events, k - 1);
      assert StepAt(states, events, k - 1);
      assert events[..k][..k - 1] == events[..k - 1] && events[..k][k - 1] == events[k - 1];
      assert Clean(events[k - 1]);
    }
  }

  /** In such a run a clear is refused exactly while that is so. */
  lemma ClearRefusedIff(states: seq<State>, events: seq<Event>, k: nat)
    requires Run(states, events) && k < |events| && events[k].command == Clear
    requires Synced(states[0]) && !states[0].locked
    requires forall i :: 0 <= i < k ==> Clean(events[i])
    ensures events[k].outcome == Refused <==> LastDone(events[..k]) == Some(Lockdown)
  {
    FlagFollowsLastDone(states, events, k);
    assert StepAt(states, events, k);
  }

  /** After failed writes, the next completed command puts flag and rules in step again. */
  lemma {:induction false} DoneResyncs(states: seq<State>, events: seq<Event>, j: nat, k: nat)
    requires Run(states, events) && j < k <= |events|
    requires events[j].outcome == Done
    requires forall i :: j < i < k ==> Clean(events[i])
    ensures Synced(states[k])
  {
    assert StepAt(states, events, k - 1);
    SyncStep(states[k - 1], events[k - 1], states[k]);
    if k > j + 1 {
      assert Clean(events[k - 1]);
      DoneResyncs(states, events, j, k - 1);
    }
  }

  /** A damaged flag file stops every later command, for good. */
  lemma {:induction false} DamagedFlagSticks(states: seq<State>, events: seq<Event>, j: nat, k: nat)
    requires Run(states, events) && j <= k <= |events|
    requires states[j].flag == Unreadable
    ensures states[k] == states[j]
    ensures k > j ==> events[k - 1].outcome == Rejected
  {
    if k > j {
      DamagedFlagSticks(states, events, j, k - 1);
      assert StepAt(states, events, k - 1);
    }
  }

  /** An apply of normal rules over a lockdown whose link fails leaves the flag on. */
  lemma StaleFlagExample()
    ensures
      var s, t := State(Saved(true), true), State(Saved(true), false);
      Synced(s) && Step(s, Event(Apply, LinkFailed), t) && !Synced(t)
  {
  }

  // ---- Which outcome a command has ------------------------------------------------------------

  /** What goes wrong first decides: flag, ruleset and staging, then nft, then the link, then the flag. */
  lemma LoadOutcomeMeans(flag: Flag, text: Option<string>, w: World)
    ensures
      var o, staged := LoadOutcome(flag, text, w), flag != Unreadable && text.Some? && w.stages;
      && (o == Rejected <==> !staged)
      && (o == NftFailed <==> staged && !w.nft)
      && (o == LinkFailed <==> staged && w.nft && !w.links)
      && (o == FlagFailed <==> staged && w.nft && w.links && flag == Saved(true) && w.off != Written)
      && (o == Done <==> staged && w.nft && w.links && (flag == Saved(true) ==> w.off == Written))
  {
  }

  /** A lockdown needs a network and ends with turning the flag on. */
  lemma LockdownOutcomeMeans(flag: Flag, cidrs: seq<string>, text: Option<string>, w: World)
    ensures
      var o, load := LockdownOutcome(flag, cidrs, text, w), LoadOutcome(flag, text, w);
      && (cidrs == [] ==> o == Rejected)
      && (cidrs != [] && load != Done ==> o == load)
      && (cidrs != [] && load == Done ==> o == if w.on == Written then Done else FlagFailed)
  {
  }

  /** A clear is refused while the flag is on, and writes no flag. */
  lemma ClearOutcomeMeans(flag: Flag, renders: bool, w: World)
    ensures
      var o := ClearOutcome(flag, renders, w);
      && (o == Refused <==> flag == Saved(true))
      && (o == Rejected <==> flag == Unreadable || (flag != Saved(true) && !(renders && w.stages)))
      && (o == NftFailed <==> flag !in {Saved(true), Unreadable} && renders && w.stages && !w.nft)
      && (o == Done <==> flag !in {Saved(true), Unreadable} && renders && w.stages && w.nft)
  {
  }

  // ---- Which rulesets are loaded -------------------------------------------------------------

  /** What the checks in front of nft ask of a ruleset. */
  lemma AcceptableMeans(c: Config, rs: RuleSet, ssh: seq<string>)
    ensures
      Acceptable(c, rs, ssh) <==>
        && |rs.rules| <= c.maxRules
        && rs.table != "pmx-isolation" && SafeIdent(rs.table) && rs.family in ["inet", "ip", "ip6"]
        && (forall chain :: chain in rs.chains ==>
              && SafeIdent(chain.name) && (chain.kind == None <==> chain.hook == None)
              && chain.kind in [None, Some("filter"), Some("nat"), Some("route")]
              && chain.hook in [None, Some("input"), Some("output"), Some("forward"), Some("prerouting"),
                                Some("postrouting"), Some("ingress")]
              && (chain.hook == Some("input") ==> chain.priority.Some? ==> chain.priority.value > -300)
              && chain.policy in [None, Some("accept"), Some("drop")])
        && (rs.revision.Some? ==>
              var r := TrimSpace(rs.revision.value);
              && 1 <= |r| <= 128
              && forall k :: 0 <= k < |r| ==>
                   || 'a' <= r[k] <= 'z' || 'A' <= r[k] <= 'Z' || '0' <= r[k] <= '9'
                   || r[k] == '-' || r[k] == '_' || r[k] == '.')
        && (forall rule :: rule in rs.rules ==>
              && (exists chain :: chain in rs.chains && chain.name == rule.chain)
              && forall e :: e in rule.exprs ==> ExprText(c, e).Some?)
        && (forall a :: a in c.allowSsh || a in ssh ==> c.address(a).Some?)
  {
    AllowedKeeps(c.allowSsh, ssh);
    forall chain | chain in rs.chains {
      ChainValidMeans(chain);
    }
    RulesRenderMeans(c, rs);
    AddressesMeans(c, c.allowSsh, ssh);
  }

  lemma AddressesMeans(c: Config, configured: seq<string>, extra: seq<string>)
    ensures Addresses(c, Allowed(configured, extra))
            <==> forall a :: a in configured || a in extra ==> c.address(a).Some?
  {
    AllowedKeeps(configured, extra);
    var allowed := Allowed(configured, extra);
    if Addresses(c, allowed) {
      forall a | a in configured || a in extra ensures c.address(a).Some? {
        assert a in allowed;
      }
    }
  }

  lemma ChainValidMeans(chain: Chain)
    ensures
      ValidChain(chain) <==>
        && SafeIdent(chain.name) && (chain.kind == None <==> chain.hook == None)
        && chain.kind in [None, Some("filter"), Some("nat"), Some("route")]
        && chain.hook in [None, Some("input"), Some("output"), Some("forward"), Some("prerouting"),
                          Some("postrouting"), Some("ingress")]
        && (chain.hook == Some("input") ==> chain.priority.Some? ==> chain.priority.value > -300)
        && chain.policy in [None, Some("accept"), Some("drop")]
  {
    KnownIff(chain.kind, ["filter", "nat", "route"]);
    KnownIff(chain.hook, ["input", "output", "forward", "prerouting", "postrouting", "ingress"]);
    KnownIff(chain.policy, ["accept", "drop"]);
    assert [None, Some("filter"), Some("nat"), Some("route")] == [None] + Options(["filter", "nat", "route"]);
    assert [None, Some("accept"), Some("drop")] == [None] + Options(["accept", "drop"]);
    assert [None, Some("input"), Some("output"), Some("forward"), Some("prerouting"), Some("postrouting"),
            Some("ingress")]
           == [None] + Options(["input", "output", "forward", "prerouting", "postrouting", "ingress"]);
  }

  function Options(words: seq<string>): seq<Option<string>> {
    seq(|words|, k requires 0 <= k < |words| => Some(words[k]))
  }

  lemma KnownIff(word: Option<string>, words: seq<string>)
    ensures word in [None] + Options(words) <==> (word.Some? ==> word.value in words)
  {
    if word.Some? && word.value in words {
      var k :| 0 <= k < |words| && words[k] == word.value;
      assert ([None] + Options(words))[k + 1] == word;
    }
  }

  lemma RulesRenderMeans(c: Config, rs: RuleSet)
    ensures AllDeclared(rs.chains, rs.rules) && AllRender(c, rs.rules)
            <==> forall rule :: rule in rs.rules ==>
                   && (exists chain :: chain in rs.chains && chain.name == rule.chain)
                   && forall e :: e in rule.exprs ==> ExprText(c, e).Some?
  {
  }

  // ---- When a lockdown is possible ---------------------------------------------------------

  /** The rules of a lockdown always pass the checks on table and chains. */
  lemma LockdownTargetIsValid(cidrs: seq<string>, revision: string)
    ensures ValidTarget(LockdownRules(cidrs, revision))
    ensures AllDeclared(LockdownRules(cidrs, revision).chains, LockdownRules(cidrs, revision).rules)
  {
    var rs := LockdownRules(cidrs, revision);
    assert rs.chains[0].name == "input";
    assert SafeIdent("pmx-cloud") && SafeIdent("input");
  }

  /** A lockdown gets as far as nft exactly when networks are given but not too many, its revision is valid, every
      network and every configured source is an address, the flag can be read and the text can be staged. */
  lemma LockdownReachesNftIff(c: Config, flag: Flag, cidrs: seq<string>, revision: string, w: World)
    ensures
      LockdownOutcome(flag, cidrs, TextFor(c, LockdownRules(cidrs, revision), cidrs), w) != Rejected
      <==> && 0 < |cidrs| <= c.maxRules && ValidRevision(Some(revision))
           && (forall k :: 0 <= k < |cidrs| ==> c.matchText("ip saddr", "==", cidrs[k]).Some?)
           && Addresses(c, Allowed(c.allowSsh, cidrs)) && flag != Unreadable && w.stages
  {
    LockdownAcceptableIff(c, cidrs, revision);
    NotRejectedIff(flag, cidrs, TextFor(c, LockdownRules(cidrs, revision), cidrs), w);
  }

  lemma NotRejectedIff(flag: Flag, cidrs: seq<string>, text: Option<string>, w: World)
    ensures LockdownOutcome(flag, cidrs, text, w) != Rejected
            <==> cidrs != [] && text.Some? && flag != Unreadable && w.stages
  {
  }

  /** Which lockdown rules are acceptable. */
  lemma LockdownAcceptableIff(c: Config, cidrs: seq<string>, revision: string)
    ensures Acceptable(c, LockdownRules(cidrs, revision), cidrs)
            <==> && |cidrs| <= c.maxRules && ValidRevision(Some(revision))
                 && (forall k :: 0 <= k < |cidrs| ==> c.matchText("ip saddr", "==", cidrs[k]).Some?)
                 && Addresses(c, Allowed(c.allowSsh, cidrs))
  {
    LockdownTargetIsValid(cidrs, revision);
    LockdownRenders(c, cidrs, revision);
  }

  lemma LockdownRenders(c: Config, cidrs: seq<string>, revision: string)
    ensures AllRender(c, LockdownRules(cidrs, revision).rules)
            <==> forall k :: 0 <= k < |cidrs| ==> c.matchText("ip saddr", "==", cidrs[k]).Some?
  {
    var rules := LockdownRules(cidrs, revision).rules;
    forall k | 0 <= k < |cidrs|
      ensures Renders(c, rules[k].exprs) <==> c.matchText("ip saddr", "==", cidrs[k]).Some?
    {
      var exprs := rules[k].exprs;
      assert exprs[0] == Match("ip saddr", "==", cidrs[k]) && exprs[1] == Accept;
    }
  }

  // ---- What a lockdown lets through ----------------------------------------------------------

  /** The text a lockdown loads declares, behind the isolation table, one table with one chain: it drops what
      comes in, except from the management networks, which have one accepting rule each, in order. */
  lemma LockdownTextReads(c: Config, cidrs: seq<string>, revision: string)
    requires PlainConfig(c) && TextFor(c, LockdownRules(cidrs, revision), cidrs).Some?
    ensures
      var text := TextFor(c, LockdownRules(cidrs, revision), cidrs).value;
      var tables := Blocks(RustLines(text), "table ", "}");
      && |tables| == 2 && tables[0].head == "inet pmx-isolation {" && tables[1].head == "inet pmx-cloud {"
      && var chains := Blocks(tables[1].body, "  chain ", "  }");
      && |chains| == 1 && chains[0].head == "input {" && |chains[0].body| == |cidrs| + 1
      && chains[0].body[0] == "    type filter hook input priority 0; policy drop;"
      && forall k :: 0 <= k < |cidrs| ==>
           && c.matchText("ip saddr", "==", cidrs[k]).Some?
           && chains[0].body[k + 1] == "    " + (c.matchText("ip saddr", "==", cidrs[k]).value + " " + "accept")
  {
    LockdownTable(cidrs, revision);
    OneChainText(c, LockdownRules(cidrs, revision), cidrs);
    LockdownChainReads(c, cidrs, revision);
  }

  lemma LockdownTable(cidrs: seq<string>, revision: string)
    ensures
      var rs := LockdownRules(cidrs, revision);
      |rs.chains| == 1 && rs.family + " " + rs.table + " {" == "inet pmx-cloud {"
  {
    assert "inet" + " " + "pmx-cloud" + " {" == "inet pmx-cloud {";
  }

  lemma OneChainText(c: Config, rs: RuleSet, ssh: seq<string>)
    requires PlainConfig(c) && TextFor(c, rs, ssh).Some? && |rs.chains| == 1
    ensures
      var tables := Blocks(RustLines(TextFor(c, rs, ssh).value), TABLE, END_TABLE);
      && |tables| == 2 && tables[0].head == "inet pmx-isolation {"
      && tables[1].head == rs.family + " " + rs.table + " {"
      && AllRender(c, rs.rules) && Blocks(tables[1].body, CHAIN, END_CHAIN) == [ChainBlock(c, rs.chains[0], rs.rules)]
  {
    RenderedTextReads(c, rs, ssh);
  }

  lemma LockdownChainReads(c: Config, cidrs: seq<string>, revision: string)
    requires AllRender(c, LockdownRules(cidrs, revision).rules)
    ensures
      var rs := LockdownRules(cidrs, revision);
      var block := ChainBlock(c, rs.chains[0], rs.rules);
      && block.head == "input {" && |block.body| == |cidrs| + 1
      && block.body[0] == "    type filter hook input priority 0; policy drop;"
      && forall k :: 0 <= k < |cidrs| ==>
           && c.matchText("ip saddr", "==", cidrs[k]).Some?
           && block.body[k + 1] == "    " + (c.matchText("ip saddr", "==", cidrs[k]).value + " " + "accept")
  {
    var rs := LockdownRules(cidrs, revision);
    PriorityText();
    ChainBlockReads(c, rs.chains[0], rs.rules);
    LockdownRenders(c, cidrs, revision);
    AcceptingRules(c, rs.rules, cidrs);
    LockdownHook();
    assert "input" + " {" == "input {";
  }

  lemma LockdownHook()
    ensures "    type " + "filter" + " hook " + "input" + " priority " + "0" + "; policy " + "drop" + ";"
            == "    type filter hook input priority 0; policy drop;"
  {
  }

  lemma {:induction false} AcceptingRules(c: Config, rules: seq<Rule>, cidrs: seq<string>)
    requires AllRender(c, rules) && |rules| == |cidrs|
    requires forall k :: 0 <= k < |cidrs| ==> c.matchText("ip saddr", "==", cidrs[k]).Some?
    requires forall k :: 0 <= k < |cidrs| ==> rules[k] == Rule("input", [Match("ip saddr", "==", cidrs[k]), Accept])
    ensures |RulesOf(c, rules, "input")| == |cidrs|
    ensures forall k :: 0 <= k < |cidrs| ==>
              RulesOf(c, rules, "input")[k] == c.matchText("ip saddr", "==", cidrs[k]).value + " " + "accept"
  {
    if rules != [] {
      var n := |rules| - 1;
      AcceptingRules(c, rules[..n], cidrs[..n]);
      AcceptingRule(c, rules[n].exprs, cidrs[n]);
      assert rules == rules[..n] + [rules[n]];
      RulesInOrder(c, rules[..n], rules[n], "input");
    }
  }

  lemma AcceptingRule(c: Config, exprs: seq<Expr>, cidr: string)
    requires exprs == [Match("ip saddr", "==", cidr), Accept] && Renders(c, exprs)
    ensures c.matchText("ip saddr", "==", cidr).Some?
    ensures RuleText(c, exprs) == c.matchText("ip saddr", "==", cidr).value + " " + "accept"
  {
    var first := Match("ip saddr", "==", cidr);
    assert exprs == [first] + [Accept];
    RuleTextMore(c, [first], Accept);
    assert [] + [first] == [first];
    RuleTextMore(c, [], first);
  }
}
