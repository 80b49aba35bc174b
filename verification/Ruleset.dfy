/** The nftables ruleset text: the isolation table first, then one table whose chains hold the rules
    that name them. */
module Rulesets {
  import opened Bytes
  import opened Text

  const ISOLATION_INPUT_PRIORITY := -300
  const ISOLATION_TABLE := "pmx-isolation"

  datatype Expr = Match(left: string, op: string, right: string) | Counter | Accept | Drop | Jump(target: string)
  datatype Rule = Rule(chain: string, exprs: seq<Expr>)
  datatype Chain = Chain(
    name: string, kind: Option<string>, hook: Option<string>, priority: Option<int>, policy: Option<string>)

  datatype RuleSet = RuleSet(
    revision: Option<string>, family: string, table: string, chains: seq<Chain>, rules: seq<Rule>)

  /** The host's isolation settings, and the validators of match expressions and addresses. */
  datatype Config = Config(
    maxRules: nat, dropInput: bool, allowSsh: seq<string>,
    matchText: (string, string, string) -> Option<string>,
    address: string -> Option<string>)

  // ---- Rules -------------------------------------------------------------------------------

  predicate SafeIdent(s: string) {
    s != "" && forall k :: 0 <= k < |s| ==>
      'a' <= s[k] <= 'z' || 'A' <= s[k] <= 'Z' || '0' <= s[k] <= '9' || s[k] == '_' || s[k] == '-'
  }

  function ExprText(c: Config, e: Expr): Option<string> {
    match e
    case Match(left, op, right) => c.matchText(left, op, right)
    case Counter => Some("counter")
    case Accept => Some("accept")
    case Drop => Some("drop")
    case Jump(target) => if SafeIdent(target) then Some("jump " + target) else None
  }

  predicate Renders(c: Config, exprs: seq<Expr>) {
    forall k :: 0 <= k < |exprs| ==> ExprText(c, exprs[k]).Some?
  }

  function RuleText(c: Config, exprs: seq<Expr>): string
    requires Renders(c, exprs)
  {
    JoinWords(seq(|exprs|, k requires 0 <= k < |exprs| => ExprText(c, exprs[k]).value))
  }

  method RenderExprs(c: Config, exprs: seq<Expr>) returns (r: Option<string>)
    ensures r == if Renders(c, exprs) then Some(RuleText(c, exprs)) else None
  {
    var out: seq<string> := [];
    for i := 0 to |exprs|
      invariant |out| == i
      invariant forall k :: 0 <= k < i ==> ExprText(c, exprs[k]) == Some(out[k])
    {
      var text := ExprText(c, exprs[i]);
      if text == None {
        return None;
      }
      out := out + [text.value];
    }
    assert out == seq(|exprs|, k requires 0 <= k < |exprs| => ExprText(c, exprs[k]).value);
    return Some(JoinWords(out));
  }

  /** The words a rule is written with. */
  lemma ExprTextMeans(c: Config, e: Expr)
    ensures
      match e
      case Match(left, op, right) => ExprText(c, e) == c.matchText(left, op, right)
      case Counter => ExprText(c, e) == Some("counter")
      case Accept => ExprText(c, e) == Some("accept")
      case Drop => ExprText(c, e) == Some("drop")
      case Jump(target) =>
        ExprText(c, e) == if target != "" && forall k :: 0 <= k < |target| ==>
                                'a' <= target[k] <= 'z' || 'A' <= target[k] <= 'Z' || '0' <= target[k] <= '9'
                                || target[k] == '_' || target[k] == '-'
                          then Some("jump " + target)
                          else None
  {
  }

  /** A rule's text is the words of its expressions, in order, one space apart. */
  lemma RuleTextMore(c: Config, exprs: seq<Expr>, e: Expr)
    requires Renders(c, exprs + [e])
    ensures Renders(c, exprs) && ExprText(c, e).Some?
    ensures RuleText(c, exprs + [e])
            == if exprs == [] then ExprText(c, e).value else RuleText(c, exprs) + " " + ExprText(c, e).value
  {
    assert (exprs + [e])[|exprs|] == e;
    assert forall k :: 0 <= k < |exprs| ==> (exprs + [e])[k] == exprs[k];
    var words := seq(|exprs|, k requires 0 <= k < |exprs| => ExprText(c, exprs[k]).value);
    JoinMore(words, ExprText(c, e).value);
    assert seq(|exprs + [e]|, k requires 0 <= k < |exprs + [e]| => ExprText(c, (exprs + [e])[k]).value)
           == words + [ExprText(c, e).value];
  }

  // ---- Grouping ----------------------------------------------------------------------------

  predicate AllRender(c: Config, rules: seq<Rule>) {
    forall k :: 0 <= k < |rules| ==> Renders(c, rules[k].exprs)
  }

  /** The texts of the rules of one chain, in source order. */
  function RulesOf(c: Config, rules: seq<Rule>, name: string): seq<string>
    requires AllRender(c, rules)
  {
    if rules == [] then []
    else
      var last := rules[|rules| - 1];
      RulesOf(c, rules[..|rules| - 1], name) + if last.chain == name then [RuleText(c, last.exprs)] else []
  }

  predicate Declared(chains: seq<Chain>, name: string) {
    exists k :: 0 <= k < |chains| && chains[k].name == name
  }

  predicate AllDeclared(chains: seq<Chain>, rules: seq<Rule>) {
    forall k :: 0 <= k < |rules| ==> Declared(chains, rules[k].chain)
  }

  method DeclaredNames(chains: seq<Chain>) returns (names: set<string>)
    ensures forall name :: name in names <==> Declared(chains, name)
  {
    names := {};
    for i := 0 to |chains|
      invariant forall name :: name in names <==> Declared(chains[..i], name)
    {
      assert chains[..i + 1] == chains[..i] + [chains[i]];
      names := names + {chains[i].name};
    }
    assert chains[..|chains|] == chains;
  }

  lemma OneMoreRule(c: Config, chains: seq<Chain>, rules: seq<Rule>, rule: Rule)
    requires AllRender(c, rules) && Renders(c, rule.exprs) && AllDeclared(chains, rules) && Declared(chains, rule.chain)
    ensures AllRender(c, rules + [rule]) && AllDeclared(chains, rules + [rule])
    ensures forall name :: RulesOf(c, rules + [rule], name)
                           == RulesOf(c, rules, name) + if rule.chain == name then [RuleText(c, rule.exprs)] else []
  {
    assert (rules + [rule])[..|rules|] == rules;
  }

  /** Each rule goes to its chain's list; a rule of an undeclared chain is an error. */
  method GroupRules(c: Config, chains: seq<Chain>, rules: seq<Rule>) returns (r: Option<map<string, seq<string>>>)
    ensures r.Some? <==> AllDeclared(chains, rules) && AllRender(c, rules)
    ensures r.Some? ==> forall name :: RulesOf(c, rules, name) == if name in r.value then r.value[name] else []
  {
    var declared := DeclaredNames(chains);
    var grouped: map<string, seq<string>> := map[];
    for i := 0 to |rules|
      invariant AllDeclared(chains, rules[..i]) && AllRender(c, rules[..i])
      invariant forall name :: RulesOf(c, rules[..i], name) == if name in grouped then grouped[name] else []
    {
      var rule := rules[i];
      if rule.chain !in declared {
        return None;
      }
      var line := RenderExprs(c, rule.exprs);
      if line == None {
        return None;
      }
      OneMoreRule(c, chains, rules[..i], rule);
      assert rules[..i + 1] == rules[..i] + [rule];
      grouped := grouped[rule.chain := (if rule.chain in grouped then grouped[rule.chain] else []) + [line.value]];
    }
    assert rules[..|rules|] == rules;
    return Some(grouped);
  }

  // ---- The text ----------------------------------------------------------------------------

  function HookLines(chain: Chain): seq<string> {
    if chain.kind.Some? && chain.hook.Some? then
      var priority := if chain.priority.Some? then chain.priority.value else 0;
      var policy := if chain.policy.Some? then chain.policy.value else "accept";
      ["    type " + chain.kind.value + " hook " + chain.hook.value + " priority " + Decimal(priority)
       + "; policy " + policy + ";"]
    else []
  }

  function Indented(texts: seq<string>): seq<string> {
    seq(|texts|, k requires 0 <= k < |texts| => "    " + texts[k])
  }

  function ChainBody(chain: Chain, texts: seq<string>): seq<string> {
    HookLines(chain) + Indented(texts)
  }

  function ChainLines(chain: Chain, texts: seq<string>): seq<string> {
    ["  chain " + chain.name + " {"] + ChainBody(chain, texts) + ["  }"]
  }

  /** The chains of a table, in source order. */
  function ChainsLines(c: Config, chains: seq<Chain>, rules: seq<Rule>): seq<string>
    requires AllRender(c, rules)
  {
    if chains == [] then []
    else
      var last := chains[|chains| - 1];
      ChainsLines(c, chains[..|chains| - 1], rules) + ChainLines(last, RulesOf(c, rules, last.name))
  }

  /** The configured sources, then those of the command that are not yet listed. */
  function Allowed(configured: seq<string>, extra: seq<string>): seq<string> {
    if extra == [] then configured
    else
      var before := Allowed(configured, extra[..|extra| - 1]);
      var last := extra[|extra| - 1];
      if last in before then before else before + [last]
  }

  predicate Addresses(c: Config, allowed: seq<string>) {
    forall k :: 0 <= k < |allowed| ==> c.address(allowed[k]).Some?
  }

  function SshLines(c: Config, allowed: seq<string>): seq<string>
    requires Addresses(c, allowed)
  {
    seq(|allowed|, k requires 0 <= k < |allowed| =>
          "    ip saddr " + c.address(allowed[k]).value + " tcp dport 22 accept")
  }

  function IsolationHead(c: Config): seq<string> {
    ["table inet pmx-isolation {", "  chain input {",
     "    type filter hook input priority " + Decimal(ISOLATION_INPUT_PRIORITY) + ";",
     if c.dropInput then "    policy drop;" else "    policy accept;",
     "    ct state established,related accept"]
  }

  function IsolationLines(c: Config, ssh: seq<string>): seq<string>
    requires Addresses(c, Allowed(c.allowSsh, ssh))
  {
    IsolationHead(c) + SshLines(c, Allowed(c.allowSsh, ssh)) + ["  }", "}"]
  }

  predicate Renderable(c: Config, rs: RuleSet, ssh: seq<string>) {
    AllDeclared(rs.chains, rs.rules) && AllRender(c, rs.rules) && Addresses(c, Allowed(c.allowSsh, ssh))
  }

  function RulesetLines(c: Config, rs: RuleSet, ssh: seq<string>): seq<string>
    requires Renderable(c, rs, ssh)
  {
    IsolationLines(c, ssh) + ["", "table " + rs.family + " " + rs.table + " {"]
    + ChainsLines(c, rs.chains, rs.rules) + ["}"]
  }

  lemma {:induction false} UnlinesConcat(a: seq<string>, b: seq<string>)
    ensures Unlines(a + b) == Unlines(a) + Unlines(b)
  {
    if a == [] {
      assert a + b == b;
    } else {
      UnlinesConcat(a[1..], b);
      assert (a + b)[0] == a[0] && (a + b)[1..] == a[1..] + b;
      Regroup(a[0] + "\n", Unlines(a[1..]), Unlines(b));
    }
  }

  method AllowedSources(configured: seq<string>, extra: seq<string>) returns (allowed: seq<string>)
    ensures allowed == Allowed(configured, extra)
  {
    allowed := configured;
    for i := 0 to |extra|
      invariant allowed == Allowed(configured, extra[..i])
    {
      assert extra[..i + 1][..i] == extra[..i];
      if extra[i] !in allowed {
        allowed := allowed + [extra[i]];
      }
    }
    assert extra[..|extra|] == extra;
  }

  method RenderSources(c: Config, allowed: seq<string>) returns (r: Option<string>)
    ensures r == if Addresses(c, allowed) then Some(Unlines(SshLines(c, allowed))) else None
  {
    var out := "";
    for i := 0 to |allowed|
      invariant Addresses(c, allowed[..i]) && out == Unlines(SshLines(c, allowed[..i]))
    {
      var parsed := c.address(allowed[i]);
      if parsed == None {
        return None;
      }
      var line := "    ip saddr " + parsed.value + " tcp dport 22 accept";
      assert SshLines(c, allowed[..i + 1]) == SshLines(c, allowed[..i]) + [line];
      UnlinesAppend(SshLines(c, allowed[..i]), line);
      out := out + line + "\n";
    }
    assert allowed[..|allowed|] == allowed;
    return Some(out);
  }

  method RenderIsolationTable(c: Config, ssh: seq<string>) returns (r: Option<string>)
    ensures r == if Addresses(c, Allowed(c.allowSsh, ssh)) then Some(Unlines(IsolationLines(c, ssh))) else None
  {
    var allowed := AllowedSources(c.allowSsh, ssh);
    var sources := RenderSources(c, allowed);
    if sources == None {
      return None;
    }
    var out := FrameIsolation(IsolationHead(c), sources.value, SshLines(c, allowed));
    return Some(out);
  }

  method FrameIsolation(head: seq<string>, sources: string, ghost lines: seq<string>) returns (out: string)
    requires sources == Unlines(lines)
    ensures out == Unlines(head + lines + ["  }", "}"])
  {
    assert [] + head == head;
    out := PushLines("", head, []);
    UnlinesConcat(head, lines);
    out := PushLines(out + sources, ["  }", "}"], head + lines);
  }

  /** Writes lines behind those already written. */
  method PushLines(start: string, lines: seq<string>, ghost before: seq<string>) returns (out: string)
    requires start == Unlines(before)
    ensures out == Unlines(before + lines)
  {
    out := start;
    assert before + lines[..0] == before;
    for i := 0 to |lines|
      invariant out == Unlines(before + lines[..i])
    {
      UnlinesAppend(before + lines[..i], lines[i]);
      assert before + lines[..i] + [lines[i]] == before + lines[..i + 1];
      out := out + lines[i] + "\n";
    }
    assert lines[..|lines|] == lines;
  }

  method RenderChain(chain: Chain, texts: seq<string>) returns (out: string)
    ensures out == Unlines(ChainLines(chain, texts))
  {
    ghost var head := ["  chain " + chain.name + " {"];
    out := PushLines("", ["  chain " + chain.name + " {"], []);
    out := PushLines(out, HookLines(chain), head);
    out := PushLines(out, Indented(texts), head + HookLines(chain));
    out := PushLines(out, ["  }"], head + HookLines(chain) + Indented(texts));
    assert head + HookLines(chain) + Indented(texts) + ["  }"] == ChainLines(chain, texts);
  }

  method RenderChains(c: Config, chains: seq<Chain>, rules: seq<Rule>, grouped: map<string, seq<string>>)
    returns (out: string)
    requires AllRender(c, rules)
    requires forall name :: RulesOf(c, rules, name) == if name in grouped then grouped[name] else []
    ensures out == Unlines(ChainsLines(c, chains, rules))
  {
    out := "";
    for i := 0 to |chains|
      invariant out == Unlines(ChainsLines(c, chains[..i], rules))
    {
      var chain := chains[i];
      var texts := if chain.name in grouped then grouped[chain.name] else [];
      var block := RenderChain(chain, texts);
      assert chains[..i + 1][..i] == chains[..i];
      UnlinesConcat(ChainsLines(c, chains[..i], rules), ChainLines(chain, texts));
      out := out + block;
    }
    assert chains[..|chains|] == chains;
  }

  /** Succeeds exactly when every rule names a declared chain and renders and every allowed source is
      an address; the text is then the isolation table followed by the ruleset's own table. */
  method RenderRuleset(c: Config, rs: RuleSet, ssh: seq<string>) returns (r: Option<string>)
    ensures r == if Renderable(c, rs, ssh) then Some(Unlines(RulesetLines(c, rs, ssh))) else None
  {
    var grouped := GroupRules(c, rs.chains, rs.rules);
    if grouped == None {
      return None;
    }
    var isolation := RenderIsolationTable(c, ssh);
    if isolation == None {
      return None;
    }
    var chains := RenderChains(c, rs.chains, rs.rules, grouped.value);
    var out := RenderTable(isolation.value, "table " + rs.family + " " + rs.table + " {", chains,
                           IsolationLines(c, ssh), ChainsLines(c, rs.chains, rs.rules));
    return Some(out);
  }

  method RenderTable(start: string, table: string, chains: string, ghost before: seq<string>,
                     ghost lines: seq<string>)
    returns (out: string)
    requires start == Unlines(before) && chains == Unlines(lines)
    ensures out == Unlines(before + ["", table] + lines + ["}"])
  {
    out := PushLines(start, ["", table], before);
    UnlinesConcat(before + ["", table], lines);
    out := PushLines(out + chains, ["}"], before + ["", table] + lines);
  }

  /** The isolation check never fails on a rendered ruleset. */
  lemma IsolationIntact(c: Config, rs: RuleSet, ssh: seq<string>)
    requires Renderable(c, rs, ssh)
    ensures Unlines(IsolationLines(c, ssh)) <= Unlines(RulesetLines(c, rs, ssh))
  {
    var rest := ["", "table " + rs.family + " " + rs.table + " {"] + ChainsLines(c, rs.chains, rs.rules) + ["}"];
    assert RulesetLines(c, rs, ssh) == IsolationLines(c, ssh) + rest;
    UnlinesConcat(IsolationLines(c, ssh), rest);
  }

  lemma {:induction false} AllowedKeeps(configured: seq<string>, extra: seq<string>)
    ensures configured <= Allowed(configured, extra)
    ensures forall s :: s in Allowed(configured, extra) <==> s in configured || s in extra
    ensures extra != [] ==>
              var init, last := extra[..|extra| - 1], extra[|extra| - 1];
              Allowed(configured, extra)
              == Allowed(configured, init) + if last in configured || last in init then [] else [last]
  {
    if extra != [] {
      AllowedKeeps(configured, extra[..|extra| - 1]);
      assert extra == extra[..|extra| - 1] + [extra[|extra| - 1]];
    }
  }
}
