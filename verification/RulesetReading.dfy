/** Reading a rendered ruleset back: which tables, chains and rules its text declares. */
module RulesetReadings {
  import opened Bytes
  import opened Text
  import opened Rulesets

  // ---- Which rulesets reach the renderer ---------------------------------------------------

  predicate ValidChain(chain: Chain) {
    SafeIdent(chain.name)
    && (chain.kind.Some? <==> chain.hook.Some?)
    && (chain.kind.Some? ==> chain.kind.value in ["filter", "nat", "route"])
    && (chain.hook.Some? ==>
          chain.hook.value in ["input", "output", "forward", "prerouting", "postrouting", "ingress"]
          && (chain.hook.value == "input" ==>
                (if chain.priority.Some? then chain.priority.value else 0) > ISOLATION_INPUT_PRIORITY))
    && (chain.policy.Some? ==> chain.policy.value in ["accept", "drop"])
  }

  predicate ValidTarget(rs: RuleSet) {
    rs.table != ISOLATION_TABLE && rs.family in ["inet", "ip", "ip6"] && SafeIdent(rs.table)
    && forall k :: 0 <= k < |rs.chains| ==> ValidChain(rs.chains[k])
  }

  // ---- A reader of blocks ------------------------------------------------------------------

  datatype Block = Block(head: string, body: seq<string>)

  function IndexOf(lines: seq<string>, line: string): (k: nat)
    ensures k <= |lines| && line !in lines[..k] && (k < |lines| ==> lines[k] == line)
  {
    if lines == [] || lines[0] == line then 0
    else
      var k := IndexOf(lines[1..], line);
      assert lines[..k + 1] == [lines[0]] + lines[1..][..k];
      k + 1
  }

  /** The blocks that a line starting with `open` begins and the next line equal to `close` ends. */
  function Blocks(lines: seq<string>, open: string, close: string): seq<Block>
    decreases |lines|
  {
    if lines == [] then []
    else if open <= lines[0] then
      var k := IndexOf(lines[1..], close);
      if k + 1 == |lines| then []
      else [Block(lines[0][|open|..], lines[1..k + 1])] + Blocks(lines[k + 2..], open, close)
    else Blocks(lines[1..], open, close)
  }

  lemma FirstBlock(head: string, body: seq<string>, rest: seq<string>, open: string, close: string)
    requires close !in body
    ensures Blocks([open + head] + body + [close] + rest, open, close)
            == [Block(head, body)] + Blocks(rest, open, close)
  {
    var lines := [open + head] + body + [close] + rest;
    assert lines[0][|open|..] == head;
    assert lines[1..] == body + [close] + rest;
    ClosedAt(body, close, rest);
    assert lines[1..|body| + 1] == body && lines[|body| + 2..] == rest;
  }

  lemma ClosedAt(body: seq<string>, close: string, rest: seq<string>)
    requires close !in body
    ensures IndexOf(body + [close] + rest, close) == |body|
  {
    var lines := body + [close] + rest;
    assert lines[|body|] == close;
    assert forall i :: 0 <= i < |body| ==> lines[i] == body[i];
  }

  // ---- Chains ------------------------------------------------------------------------------

  const CHAIN := "  chain "
  const END_CHAIN := "  }"
  const TABLE := "table "
  const END_TABLE := "}"

  /** What each chain must read as: its hook line if it has one, and its own rules in source order. */
  function ChainBlock(c: Config, chain: Chain, rules: seq<Rule>): Block
    requires AllRender(c, rules)
  {
    Block(chain.name + " {", ChainBody(chain, RulesOf(c, rules, chain.name)))
  }

  function ChainBlocks(c: Config, chains: seq<Chain>, rules: seq<Rule>): seq<Block>
    requires AllRender(c, rules)
  {
    seq(|chains|, k requires 0 <= k < |chains| => ChainBlock(c, chains[k], rules))
  }

  lemma BodyIsDeep(chain: Chain, texts: seq<string>)
    ensures forall k :: 0 <= k < |ChainBody(chain, texts)| ==> "    " <= ChainBody(chain, texts)[k]
    ensures END_CHAIN !in ChainBody(chain, texts)
  {
    var body := ChainBody(chain, texts);
    assert forall k :: 0 <= k < |body| ==> "    " <= body[k];
    assert forall k :: 0 <= k < |body| ==> body[k] != END_CHAIN by {
      assert !("    " <= END_CHAIN);
    }
  }

  lemma ChainReads(chain: Chain, texts: seq<string>, rest: seq<string>)
    ensures Blocks(ChainLines(chain, texts) + rest, CHAIN, END_CHAIN)
            == [Block(chain.name + " {", ChainBody(chain, texts))] + Blocks(rest, CHAIN, END_CHAIN)
  {
    BodyIsDeep(chain, texts);
    assert "  chain " + chain.name + " {" == CHAIN + (chain.name + " {");
    FirstBlock(chain.name + " {", ChainBody(chain, texts), rest, CHAIN, END_CHAIN);
  }

  /** The chain blocks of the text are the declared chains, in order, each with exactly its rules. */
  lemma {:induction false} ChainsRead(c: Config, chains: seq<Chain>, rules: seq<Rule>, rest: seq<string>)
    requires AllRender(c, rules)
    ensures Blocks(ChainsLines(c, chains, rules) + rest, CHAIN, END_CHAIN)
            == ChainBlocks(c, chains, rules) + Blocks(rest, CHAIN, END_CHAIN)
  {
    if chains == [] {
      assert ChainsLines(c, chains, rules) + rest == rest;
    } else {
      var init, last := chains[..|chains| - 1], chains[|chains| - 1];
      var block := ChainLines(last, RulesOf(c, rules, last.name));
      Regroup(ChainsLines(c, init, rules), block, rest);
      ChainsRead(c, init, rules, block + rest);
      ChainReads(last, RulesOf(c, rules, last.name), rest);
      LastChainBlock(c, chains, rules);
      Regroup(ChainBlocks(c, init, rules), [ChainBlock(c, last, rules)], Blocks(rest, CHAIN, END_CHAIN));
    }
  }

  lemma LastChainBlock(c: Config, chains: seq<Chain>, rules: seq<Rule>)
    requires AllRender(c, rules) && chains != []
    ensures ChainBlocks(c, chains, rules)
            == ChainBlocks(c, chains[..|chains| - 1], rules) + [ChainBlock(c, chains[|chains| - 1], rules)]
  {
  }

  // ---- Tables ------------------------------------------------------------------------------

  predicate Indents(lines: seq<string>) {
    forall k :: 0 <= k < |lines| ==> "  " <= lines[k]
  }

  lemma {:induction false} ChainsIndent(c: Config, chains: seq<Chain>, rules: seq<Rule>)
    requires AllRender(c, rules)
    ensures Indents(ChainsLines(c, chains, rules))
  {
    if chains != [] {
      ChainsIndent(c, chains[..|chains| - 1], rules);
      var last := chains[|chains| - 1];
      ChainIndents(last, RulesOf(c, rules, last.name));
    }
  }

  lemma ChainIndents(chain: Chain, texts: seq<string>)
    ensures Indents(ChainLines(chain, texts))
  {
    BodyIsDeep(chain, texts);
  }

  lemma NotClosedWithin(lines: seq<string>)
    requires Indents(lines)
    ensures END_TABLE !in lines
  {
    assert !("  " <= END_TABLE);
  }

  function IsolationBody(c: Config, ssh: seq<string>): seq<string>
    requires Addresses(c, Allowed(c.allowSsh, ssh))
  {
    IsolationHead(c)[1..] + SshLines(c, Allowed(c.allowSsh, ssh)) + ["  }"]
  }

  /** The text declares the isolation table, then the ruleset's own table, and nothing else. */
  lemma TablesRead(c: Config, rs: RuleSet, ssh: seq<string>)
    requires Renderable(c, rs, ssh)
    ensures Blocks(RulesetLines(c, rs, ssh), TABLE, END_TABLE)
            == [Block("inet pmx-isolation {", IsolationBody(c, ssh)),
                Block(rs.family + " " + rs.table + " {", ChainsLines(c, rs.chains, rs.rules))]
  {
    var name := rs.family + " " + rs.table + " {";
    var body := ChainsLines(c, rs.chains, rs.rules);
    ChainsIndent(c, rs.chains, rs.rules);
    NotClosedWithin(body);
    var own := [TABLE + name] + body + [END_TABLE];
    FirstBlock(name, body, [], TABLE, END_TABLE);
    assert own + [] == own;
    assert Blocks([""] + own, TABLE, END_TABLE) == Blocks(own, TABLE, END_TABLE) by {
      assert ([""] + own)[1..] == own;
    }
    IsolationIndents(c, ssh);
    NotClosedWithin(IsolationBody(c, ssh));
    FirstBlock("inet pmx-isolation {", IsolationBody(c, ssh), [""] + own, TABLE, END_TABLE);
    RulesetSplits(c, rs, ssh);
  }

  lemma RulesetSplits(c: Config, rs: RuleSet, ssh: seq<string>)
    requires Renderable(c, rs, ssh)
    ensures RulesetLines(c, rs, ssh)
            == [TABLE + "inet pmx-isolation {"] + IsolationBody(c, ssh) + [END_TABLE]
               + ([""]
                  + ([TABLE + (rs.family + " " + rs.table + " {")] + ChainsLines(c, rs.chains, rs.rules) + [END_TABLE]))
  {
    assert "table " + rs.family + " " + rs.table + " {" == TABLE + (rs.family + " " + rs.table + " {");
    IsolationHeadSplits(c);
    var tail, ssh' := IsolationHead(c)[1..], SshLines(c, Allowed(c.allowSsh, ssh));
    Shape([TABLE + "inet pmx-isolation {"], tail, ssh', ["  }"], [END_TABLE],
          TABLE + (rs.family + " " + rs.table + " {"), ChainsLines(c, rs.chains, rs.rules));
    assert ["  }", "}"] == ["  }"] + [END_TABLE];
  }

  lemma IsolationHeadSplits(c: Config)
    ensures IsolationHead(c) == [TABLE + "inet pmx-isolation {"] + IsolationHead(c)[1..]
  {
    assert TABLE + "inet pmx-isolation {" == "table inet pmx-isolation {";
  }

  lemma Shape(first: seq<string>, tail: seq<string>, ssh: seq<string>, endChain: seq<string>, end: seq<string>,
              name: string, chains: seq<string>)
    ensures first + tail + ssh + (endChain + end) + ["", name] + chains + end
            == first + (tail + ssh + endChain) + end + ([""] + ([name] + chains + end))
  {
  }

  lemma IsolationIndents(c: Config, ssh: seq<string>)
    requires Addresses(c, Allowed(c.allowSsh, ssh))
    ensures Indents(IsolationBody(c, ssh))
  {
    assert Indents(IsolationHead(c)[1..]);
    assert Indents(SshLines(c, Allowed(c.allowSsh, ssh)));
  }

  // ---- The text has these lines ------------------------------------------------------------

  /** Validated match expressions and addresses stay on one line. */
  ghost predicate PlainConfig(c: Config) {
    (forall l, o, r :: c.matchText(l, o, r).Some? ==> Plain(c.matchText(l, o, r).value))
    && forall a :: c.address(a).Some? ==> Plain(c.address(a).value)
  }

  lemma {:induction false} DigitsPlain(n: nat)
    ensures Plain(Digits(n))
  {
    if n >= 10 {
      DigitsPlain(n / 10);
    }
  }

  lemma ExprPlain(c: Config, e: Expr)
    requires PlainConfig(c) && ExprText(c, e).Some?
    ensures Plain(ExprText(c, e).value)
  {
  }

  lemma RulePlain(c: Config, exprs: seq<Expr>)
    requires PlainConfig(c) && Renders(c, exprs)
    ensures Plain(RuleText(c, exprs))
  {
    var words := seq(|exprs|, k requires 0 <= k < |exprs| => ExprText(c, exprs[k]).value);
    forall k | 0 <= k < |exprs|
      ensures Plain(words[k])
    {
      ExprPlain(c, exprs[k]);
    }
    JoinIsPlain(words);
  }

  lemma {:induction false} RulesPlain(c: Config, rules: seq<Rule>, name: string)
    requires PlainConfig(c) && AllRender(c, rules)
    ensures AllPlain(RulesOf(c, rules, name))
  {
    if rules != [] {
      RulesPlain(c, rules[..|rules| - 1], name);
      RulePlain(c, rules[|rules| - 1].exprs);
    }
  }

  lemma HookPlain(chain: Chain)
    requires ValidChain(chain)
    ensures AllPlain(HookLines(chain))
  {
    if chain.kind.Some? && chain.hook.Some? {
      var priority := if chain.priority.Some? then chain.priority.value else 0;
      DigitsPlain(if priority < 0 then -priority else priority);
      HookLinePlain(chain.kind.value, chain.hook.value, Decimal(priority),
                    if chain.policy.Some? then chain.policy.value else "accept");
    }
  }

  lemma HookLinePlain(kind: string, hook: string, priority: string, policy: string)
    requires Plain(kind) && Plain(hook) && Plain(priority) && Plain(policy)
    ensures Plain("    type " + kind + " hook " + hook + " priority " + priority + "; policy " + policy + ";")
  {
  }

  lemma ChainPlain(chain: Chain, texts: seq<string>)
    requires ValidChain(chain) && AllPlain(texts)
    ensures AllPlain(ChainLines(chain, texts))
  {
    HookPlain(chain);
    assert AllPlain(Indented(texts));
    assert Plain("  chain " + chain.name + " {");
  }

  lemma {:induction false} ChainsPlain(c: Config, chains: seq<Chain>, rules: seq<Rule>)
    requires PlainConfig(c) && AllRender(c, rules)
    requires forall k :: 0 <= k < |chains| ==> ValidChain(chains[k])
    ensures AllPlain(ChainsLines(c, chains, rules))
  {
    if chains != [] {
      var last := chains[|chains| - 1];
      ChainsPlain(c, chains[..|chains| - 1], rules);
      RulesPlain(c, rules, last.name);
      ChainPlain(last, RulesOf(c, rules, last.name));
    }
  }

  lemma IsolationPlain(c: Config, ssh: seq<string>)
    requires PlainConfig(c) && Addresses(c, Allowed(c.allowSsh, ssh))
    ensures AllPlain(IsolationLines(c, ssh))
  {
    IsolationHeadPlain(c);
    SshPlain(c, Allowed(c.allowSsh, ssh));
    assert AllPlain(["  }", "}"]);
  }

  lemma SshPlain(c: Config, allowed: seq<string>)
    requires PlainConfig(c) && Addresses(c, allowed)
    ensures AllPlain(SshLines(c, allowed))
  {
  }

  lemma IsolationHeadPlain(c: Config)
    ensures AllPlain(IsolationHead(c))
  {
    DigitsPlain(-ISOLATION_INPUT_PRIORITY);
    PriorityPlain(Digits(-ISOLATION_INPUT_PRIORITY));
    FramePlain();
    PoliciesPlain();
    EstablishedPlain();
  }

  lemma PriorityPlain(digits: string)
    requires Plain(digits)
    ensures Plain("    type filter hook input priority " + ("-" + digits) + ";")
  {
  }

  lemma FramePlain()
    ensures Plain("table inet pmx-isolation {") && Plain("  chain input {")
  {
  }

  lemma PoliciesPlain()
    ensures Plain("    policy drop;") && Plain("    policy accept;")
  {
  }

  lemma EstablishedPlain()
    ensures Plain("    ct state established,related accept")
  {
  }

  lemma TableLinePlain(rs: RuleSet)
    requires ValidTarget(rs)
    ensures Plain("table " + rs.family + " " + rs.table + " {")
  {
  }

  /** A ruleset that passes the checks renders to a text with exactly the lines of the model. */
  lemma RenderedLines(c: Config, rs: RuleSet, ssh: seq<string>)
    requires PlainConfig(c) && ValidTarget(rs) && Renderable(c, rs, ssh)
    ensures RustLines(Unlines(RulesetLines(c, rs, ssh))) == RulesetLines(c, rs, ssh)
  {
    IsolationPlain(c, ssh);
    ChainsPlain(c, rs.chains, rs.rules);
    TableLinePlain(rs);
    assert AllPlain(RulesetLines(c, rs, ssh));
    RustUnlines(RulesetLines(c, rs, ssh));
  }

  /** Reading the rendered text: the isolation table comes first, then one table that is not the
      isolation table, whose chains are the declared ones, each with exactly its own rules in order. */
  lemma RenderedTextReads(c: Config, rs: RuleSet, ssh: seq<string>)
    requires PlainConfig(c) && ValidTarget(rs) && Renderable(c, rs, ssh)
    ensures
      var tables := Blocks(RustLines(Unlines(RulesetLines(c, rs, ssh))), TABLE, END_TABLE);
      && |tables| == 2
      && tables[0] == Block("inet pmx-isolation {", IsolationBody(c, ssh))
      && tables[1].head == rs.family + " " + rs.table + " {"
      && Blocks(tables[1].body, CHAIN, END_CHAIN) == ChainBlocks(c, rs.chains, rs.rules)
  {
    RenderedLines(c, rs, ssh);
    TablesRead(c, rs, ssh);
    var body := ChainsLines(c, rs.chains, rs.rules);
    ChainsRead(c, rs.chains, rs.rules, []);
    assert body + [] == body;
    assert ChainBlocks(c, rs.chains, rs.rules) + [] == ChainBlocks(c, rs.chains, rs.rules);
  }

  // ---- The text spelled out ------------------------------------------------------------------

  lemma PriorityText()
    ensures Decimal(ISOLATION_INPUT_PRIORITY) == "-300" && Decimal(0) == "0"
  {
    assert Digits(3) == "3" && Digits(30) == "30" && Digits(300) == "300";
  }

  /** The isolation table, line by line: established connections and ssh from the allowed sources alone get
      through, and the rest is dropped or accepted as configured. */
  lemma IsolationReads(c: Config, ssh: seq<string>)
    requires Addresses(c, Allowed(c.allowSsh, ssh))
    ensures
      var body, allowed := IsolationBody(c, ssh), Allowed(c.allowSsh, ssh);
      && |body| == |allowed| + 5
      && body[..4] == ["  chain input {", "    type filter hook input priority -300;",
                       if c.dropInput then "    policy drop;" else "    policy accept;",
                       "    ct state established,related accept"]
      && (forall k :: 0 <= k < |allowed| ==>
            c.address(allowed[k]).Some?
            && body[4 + k] == "    ip saddr " + c.address(allowed[k]).value + " tcp dport 22 accept")
      && body[|allowed| + 4] == "  }"
  {
    PriorityText();
    assert "    type filter hook input priority " + "-300" + ";" == "    type filter hook input priority -300;";
  }

  /** A chain, line by line: a hook line exactly if it has a type and a hook, with priority 0 and policy accept
      unless it says otherwise, and then its rules. */
  lemma ChainBlockReads(c: Config, chain: Chain, rules: seq<Rule>)
    requires AllRender(c, rules)
    ensures
      var block, texts := ChainBlock(c, chain, rules), RulesOf(c, rules, chain.name);
      && block.head == chain.name + " {"
      && if chain.kind.Some? && chain.hook.Some?
         then
           && |block.body| == |texts| + 1
           && block.body[0] == "    type " + chain.kind.value + " hook " + chain.hook.value + " priority "
                               + Decimal(if chain.priority.Some? then chain.priority.value else 0)
                               + "; policy " + (if chain.policy.Some? then chain.policy.value else "accept") + ";"
           && forall k :: 0 <= k < |texts| ==> block.body[k + 1] == "    " + texts[k]
         else |block.body| == |texts| && forall k :: 0 <= k < |texts| ==> block.body[k] == "    " + texts[k]
  {
  }

  /** A chain holds the rules that name it, in the order in which they are given. */
  lemma RulesInOrder(c: Config, rules: seq<Rule>, rule: Rule, name: string)
    requires AllRender(c, rules + [rule])
    ensures AllRender(c, rules) && Renders(c, rule.exprs) && RulesOf(c, [], name) == []
    ensures RulesOf(c, rules + [rule], name)
            == RulesOf(c, rules, name) + if rule.chain == name then [RuleText(c, rule.exprs)] else []
  {
    assert (rules + [rule])[|rules|] == rule && (rules + [rule])[..|rules|] == rules;
    assert forall k :: 0 <= k < |rules| ==> (rules + [rule])[k] == rules[k];
  }

  // ---- Every rule once ---------------------------------------------------------------------

  /** How many chains carry a name. */
  function Declarations(chains: seq<Chain>, name: string): nat {
    if chains == [] then 0
    else Declarations(chains[..|chains| - 1], name) + if chains[|chains| - 1].name == name then 1 else 0
  }

  /** How many rule lines the chains hold together. */
  function RuleLines(c: Config, chains: seq<Chain>, rules: seq<Rule>): nat
    requires AllRender(c, rules)
  {
    if chains == [] then 0
    else RuleLines(c, chains[..|chains| - 1], rules) + |RulesOf(c, rules, chains[|chains| - 1].name)|
  }

  lemma {:induction false} NoRulesNoLines(c: Config, chains: seq<Chain>)
    ensures RuleLines(c, chains, []) == 0
  {
    if chains != [] {
      NoRulesNoLines(c, chains[..|chains| - 1]);
    }
  }

  lemma {:induction false} LastRuleLines(c: Config, chains: seq<Chain>, rules: seq<Rule>)
    requires AllRender(c, rules) && rules != []
    ensures RuleLines(c, chains, rules)
            == RuleLines(c, chains, rules[..|rules| - 1]) + Declarations(chains, rules[|rules| - 1].chain)
  {
    if chains != [] {
      LastRuleLines(c, chains[..|chains| - 1], rules);
    }
  }

  lemma {:induction false} DeclaredCounts(chains: seq<Chain>, name: string)
    ensures Declarations(chains, name) >= 1 <==> Declared(chains, name)
  {
    if chains != [] {
      var init := chains[..|chains| - 1];
      DeclaredCounts(init, name);
      assert chains == init + [chains[|chains| - 1]];
      if Declared(init, name) {
        var k :| 0 <= k < |init| && init[k].name == name;
        assert chains[k].name == name;
      }
    }
  }

  /** Every rule is written at least once, and the text holds as many rule lines as there are rules
      exactly when no rule's chain is declared twice. */
  lemma {:induction false} EachRuleOnceIff(c: Config, chains: seq<Chain>, rules: seq<Rule>)
    requires AllRender(c, rules) && AllDeclared(chains, rules)
    ensures RuleLines(c, chains, rules) >= |rules|
    ensures RuleLines(c, chains, rules) == |rules|
            <==> forall k :: 0 <= k < |rules| ==> Declarations(chains, rules[k].chain) == 1
    decreases |rules|
  {
    if rules == [] {
      NoRulesNoLines(c, chains);
    } else {
      var init, last := rules[..|rules| - 1], rules[|rules| - 1];
      LastRuleLines(c, chains, rules);
      DeclaredCounts(chains, last.chain);
      EachRuleOnceIff(c, chains, init);
      assert forall k :: 0 <= k < |init| ==> init[k] == rules[k];
      assert rules[|rules| - 1] == last;
    }
  }

  /** A chain declared twice holds its one rule twice. */
  lemma RepeatedChainExample(c: Config)
    ensures
      var chain, rules := Chain("input", None, None, None, None), [Rule("input", [Accept])];
      AllDeclared([chain, chain], rules) && AllRender(c, rules) && RuleLines(c, [chain, chain], rules) == 2
  {
    var chain, rules := Chain("input", None, None, None, None), [Rule("input", [Accept])];
    assert [chain, chain][0].name == "input";
    assert rules[..0] == [] && [chain, chain][..1] == [chain] && [chain][..0] == [];
    assert AllRender(c, rules);
    assert RulesOf(c, rules, "input") == [RuleText(c, [Accept])];
    assert RuleLines(c, [chain], rules) == 1;
  }
}
