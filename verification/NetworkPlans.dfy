/** The commands that bring a specification up, and what they achieve when every one takes effect. */
module NetworkPlans {
  import opened Bytes
  import opened Text
  import opened InterfaceConfigs
  import opened KernelLinks

  // ---- What read-backs look for ------------------------------------------------------------

  predicate AddressShown(link: Link, expected: string) {
    var slash := Find(expected, '/');
    slash < |expected|
    && exists a :: a in link.addresses && a.0 == expected[..slash] && Decimal(a.1) == expected[slash + 1..]
  }

  predicate HasAddress(links: Links, name: string, address: Option<string>) {
    address.Some? ==> name in links && AddressShown(links[name], address.value)
  }

  /** What a successful bridge read-back confirms. */
  predicate BridgeShown(links: Links, s: Spec)
    requires s.kind.Bridge?
  {
    && s.name in links && links[s.name].kind == BridgeLink && links[s.name].up
    && (forall p :: p in s.kind.ports ==> p in Members(links, s.name))
    && HasAddress(links, s.name, s.address)
  }

  /** What a successful VLAN read-back confirms. */
  predicate VlanShown(links: Links, s: Spec)
    requires s.kind.Vlan?
  {
    && s.name in links && links[s.name].kind.VlanLink? && links[s.name].kind.vid == s.kind.vid && links[s.name].up
    && HasAddress(links, s.name, s.address)
  }

  predicate Confirmed(links: Links, s: Spec) {
    if s.kind.Bridge? then BridgeShown(links, s) else VlanShown(links, s)
  }

  predicate MasterIs(links: Links, port: string, master: Option<string>) {
    port in links && links[port].master == master
  }

  // ---- Plans -------------------------------------------------------------------------------

  function PortCommands(ports: seq<string>, bridge: string): seq<Command> {
    if ports == [] then [] else [SetMaster(ports[0], bridge), SetUp(ports[0])] + PortCommands(ports[1..], bridge)
  }

  function AddressCommands(s: Spec): seq<Command> {
    if s.address.Some? then [AddAddress(s.name, s.address.value)] else []
  }

  /** The commands that bring a specification up, in order. */
  function Plan(s: Spec): seq<Command> {
    match s.kind
    case Bridge(ports, stp) =>
      [AddBridge(s.name), SetStp(s.name, stp)] + PortCommands(ports, s.name) + AddressCommands(s) + [SetUp(s.name)]
    case Vlan(parent, vid) =>
      [AddVlan(parent, s.name, vid)] + AddressCommands(s) + [SetUp(s.name)]
  }

  /** The links that bringing up a specification may touch. */
  function Touched(s: Spec): set<string> {
    {s.name} + if s.kind.Bridge? then set p | p in s.kind.ports else {}
  }

  /** Every command changes a link in `own`, or moves or sets up one in `touched`. */
  predicate Stays(plan: seq<Command>, own: set<string>, touched: set<string>) {
    forall k :: 0 <= k < |plan| ==>
      && !plan[k].DeleteLink? && Target(plan[k]) in touched
      && (Target(plan[k]) in own || plan[k].SetMaster? || plan[k].NoMaster? || plan[k].SetUp?)
  }

  lemma {:induction false} PortCommandsStay(ports: seq<string>, bridge: string, own: set<string>, touched: set<string>)
    requires forall p :: p in ports ==> p in touched
    ensures Stays(PortCommands(ports, bridge), own, touched)
  {
    if ports != [] {
      assert ports[0] in ports;
      PortCommandsStay(ports[1..], bridge, own, touched);
    }
  }

  lemma PlanStays(s: Spec)
    ensures Stays(Plan(s), {s.name}, Touched(s))
  {
    if s.kind.Bridge? {
      PortCommandsStay(s.kind.ports, s.name, {s.name}, Touched(s));
    }
  }

  // ---- What a plan achieves ----------------------------------------------------------------

  /** The links after commands that all take effect. */
  function After(shown: string -> (string, nat), links: Links, plan: seq<Command>): Links
    decreases |plan|
  {
    if plan == [] then links else After(shown, Effect(shown, links, plan[0]), plan[1..])
  }

  lemma {:induction false} AfterConcat(shown: string -> (string, nat), links: Links, a: seq<Command>, b: seq<Command>)
    ensures After(shown, links, a + b) == After(shown, After(shown, links, a), b)
    decreases |a|
  {
    if a == [] {
      assert a + b == b;
    } else {
      AfterConcat(shown, Effect(shown, links, a[0]), a[1..], b);
      assert (a + b)[0] == a[0] && (a + b)[1..] == a[1..] + b;
    }
  }

  lemma AfterOne(shown: string -> (string, nat), links: Links, c: Command)
    ensures After(shown, links, [c]) == Effect(shown, links, c)
  {
    assert After(shown, Effect(shown, links, c), []) == Effect(shown, links, c);
  }

  lemma AfterTwo(shown: string -> (string, nat), links: Links, c: Command, d: Command)
    ensures After(shown, links, [c, d]) == Effect(shown, Effect(shown, links, c), d)
  {
    AfterConcat(shown, links, [c], [d]);
    AfterOne(shown, links, c);
    AfterOne(shown, Effect(shown, links, c), d);
    assert [c, d] == [c] + [d];
  }

  /** Ports that exist become members and are set up, and keep all else; everything else stays. */
  ghost predicate Attached(before: Links, after: Links, ports: seq<string>, bridge: string) {
    && (forall l :: l in after <==> l in before)
    && (forall l :: l in before && l !in ports ==> after[l] == before[l])
    && (forall l :: l in before && l in ports ==> after[l] == before[l].(master := Some(bridge), up := true))
  }

  lemma {:induction false} PortsAttach(shown: string -> (string, nat), links: Links, ports: seq<string>, bridge: string)
    requires bridge in links && bridge !in ports
    ensures Attached(links, After(shown, links, PortCommands(ports, bridge)), ports, bridge)
    decreases |ports|
  {
    if ports != [] {
      var first, rest := [SetMaster(ports[0], bridge), SetUp(ports[0])], PortCommands(ports[1..], bridge);
      var next := After(shown, links, first);
      AfterTwo(shown, links, first[0], first[1]);
      AfterConcat(shown, links, first, rest);
      PortsAttach(shown, next, ports[1..], bridge);
      AttachedMore(links, next, After(shown, next, rest), ports, bridge);
    }
  }

  lemma AttachedMore(before: Links, next: Links, after: Links, ports: seq<string>, bridge: string)
    requires ports != [] && Attached(before, next, [ports[0]], bridge) && Attached(next, after, ports[1..], bridge)
    ensures Attached(before, after, ports, bridge)
  {
    assert ports == [ports[0]] + ports[1..];
  }

  /** Shown by the kernel as it was written. */
  predicate ShownAsWritten(shown: string -> (string, nat), address: string) {
    var slash := Find(address, '/');
    slash < |address| && shown(address).0 == address[..slash] && Decimal(shown(address).1) == address[slash + 1..]
  }

  /** What the plan needs to find: every port or the parent, and an address the kernel shows as written. */
  predicate Feasible(shown: string -> (string, nat), links: Links, s: Spec) {
    && (match s.kind
        case Bridge(ports, _) => forall p :: p in ports ==> p in links
        case Vlan(parent, _) => parent in links)
    && (s.address.Some? ==> ShownAsWritten(shown, s.address.value))
  }

  /** What the last commands of a plan leave of a link without addresses. */
  lemma Finished(shown: string -> (string, nat), links: Links, s: Spec)
    requires s.name in links && links[s.name].addresses == {}
    ensures
      var addresses := if s.address.Some? then {shown(s.address.value)} else {};
      After(shown, links, AddressCommands(s) + [SetUp(s.name)])
      == links[s.name := links[s.name].(addresses := addresses, up := true)]
  {
    if s.address.Some? {
      AfterTwo(shown, links, AddAddress(s.name, s.address.value), SetUp(s.name));
      assert AddressCommands(s) + [SetUp(s.name)] == [AddAddress(s.name, s.address.value), SetUp(s.name)];
      assert links[s.name].addresses + {shown(s.address.value)} == {shown(s.address.value)};
    } else {
      AfterOne(shown, links, SetUp(s.name));
      assert AddressCommands(s) + [SetUp(s.name)] == [SetUp(s.name)];
    }
  }

  /** A link without addresses gets its address and is set up. */
  lemma AddressedAndUp(shown: string -> (string, nat), links: Links, s: Spec)
    requires s.name in links && links[s.name].addresses == {}
    ensures
      var after := After(shown, links, AddressCommands(s) + [SetUp(s.name)]);
      && s.name in after && after == links[s.name := after[s.name]]
      && after[s.name].kind == links[s.name].kind && after[s.name].up && after[s.name].master == links[s.name].master
      && (HasAddress(after, s.name, s.address) <==> s.address.Some? ==> ShownAsWritten(shown, s.address.value))
  {
    Finished(shown, links, s);
  }

  lemma BridgePlanAchieves(shown: string -> (string, nat), links: Links, s: Spec)
    requires s.kind.Bridge? && s.name !in links && s.name !in s.kind.ports
    ensures BridgeShown(After(shown, links, Plan(s)), s) <==> Feasible(shown, links, s)
  {
    var added := After(shown, links, BridgeCommands(s));
    var attached := After(shown, added, PortCommands(s.kind.ports, s.name));
    BridgePlanPhases(shown, links, s);
    BridgeIsAdded(shown, links, s);
    PortsAttach(shown, added, s.kind.ports, s.name);
    FinishedBridgeIff(shown, links, added, attached, s);
  }

  function BridgeCommands(s: Spec): seq<Command>
    requires s.kind.Bridge?
  {
    [AddBridge(s.name), SetStp(s.name, s.kind.stp)]
  }

  lemma BridgePlanPhases(shown: string -> (string, nat), links: Links, s: Spec)
    requires s.kind.Bridge?
    ensures After(shown, links, Plan(s))
            == After(shown, After(shown, After(shown, links, BridgeCommands(s)), PortCommands(s.kind.ports, s.name)),
                     AddressCommands(s) + [SetUp(s.name)])
  {
    var first, middle := BridgeCommands(s), PortCommands(s.kind.ports, s.name);
    var last := AddressCommands(s) + [SetUp(s.name)];
    assert Plan(s) == first + (middle + last);
    AfterConcat(shown, links, first, middle + last);
    AfterConcat(shown, After(shown, links, first), middle, last);
  }

  lemma BridgeIsAdded(shown: string -> (string, nat), links: Links, s: Spec)
    requires s.kind.Bridge? && s.name !in links
    ensures After(shown, links, BridgeCommands(s)) == links[s.name := Link(BridgeLink, false, None, s.kind.stp, {})]
  {
    AfterTwo(shown, links, AddBridge(s.name), SetStp(s.name, s.kind.stp));
  }

  lemma FinishedBridgeIff(shown: string -> (string, nat), links: Links, added: Links, attached: Links, s: Spec)
    requires s.kind.Bridge? && s.name !in links && s.name !in s.kind.ports
    requires added == links[s.name := Link(BridgeLink, false, None, s.kind.stp, {})]
    requires Attached(added, attached, s.kind.ports, s.name)
    ensures BridgeShown(After(shown, attached, AddressCommands(s) + [SetUp(s.name)]), s) <==> Feasible(shown, links, s)
  {
    assert attached[s.name] == added[s.name];
    AddressedAndUp(shown, attached, s);
    MembersAreExistingPorts(links, added, attached, After(shown, attached, AddressCommands(s) + [SetUp(s.name)]), s);
  }

  lemma MembersAreExistingPorts(links: Links, added: Links, attached: Links, after: Links, s: Spec)
    requires s.kind.Bridge? && s.name !in links && s.name in added && added == links[s.name := added[s.name]]
    requires s.name !in s.kind.ports && Attached(added, attached, s.kind.ports, s.name)
    requires s.name in after && after == attached[s.name := after[s.name]]
    ensures (forall p :: p in s.kind.ports ==> p in Members(after, s.name))
            <==> forall p :: p in s.kind.ports ==> p in links
  {
    forall p | p in s.kind.ports
      ensures p in Members(after, s.name) <==> p in links
    {
    }
  }

  lemma VlanPlanAchieves(shown: string -> (string, nat), links: Links, s: Spec)
    requires s.kind.Vlan? && s.name !in links
    ensures VlanShown(After(shown, links, Plan(s)), s) <==> Feasible(shown, links, s)
  {
    var Vlan(parent, vid) := s.kind;
    var first, last := [AddVlan(parent, s.name, vid)], AddressCommands(s) + [SetUp(s.name)];
    assert Plan(s) == first + last;
    AfterOne(shown, links, first[0]);
    AfterConcat(shown, links, first, last);
    if parent in links {
      AddressedAndUp(shown, After(shown, links, first), s);
    } else {
      NothingToSet(shown, links, s);
    }
  }

  lemma NothingToSet(shown: string -> (string, nat), links: Links, s: Spec)
    requires s.name !in links
    ensures After(shown, links, AddressCommands(s) + [SetUp(s.name)]) == links
  {
    if s.address.Some? {
      AfterTwo(shown, links, AddAddress(s.name, s.address.value), SetUp(s.name));
      assert AddressCommands(s) + [SetUp(s.name)] == [AddAddress(s.name, s.address.value), SetUp(s.name)];
    } else {
      AfterOne(shown, links, SetUp(s.name));
      assert AddressCommands(s) + [SetUp(s.name)] == [SetUp(s.name)];
    }
  }

  /** If every command takes effect, a bridge is up with the spanning-tree setting asked for, and every port that
      exists is up and its member; all other links are as before. */
  lemma BridgePlanBrings(shown: string -> (string, nat), links: Links, s: Spec, l: string)
    requires s.kind.Bridge? && s.name !in links && s.name !in s.kind.ports
    ensures
      var after := After(shown, links, Plan(s));
      && s.name in after && after[s.name].kind == BridgeLink && after[s.name].up
      && after[s.name].stp == s.kind.stp && after[s.name].master == None
      && after[s.name].addresses == (if s.address.Some? then {shown(s.address.value)} else {})
      && (l != s.name ==> (l in after <==> l in links))
      && (l in links && l in s.kind.ports ==> after[l] == links[l].(master := Some(s.name), up := true))
      && (l in links && l !in s.kind.ports ==> after[l] == links[l])
  {
    var added := After(shown, links, BridgeCommands(s));
    var attached := After(shown, added, PortCommands(s.kind.ports, s.name));
    BridgePlanPhases(shown, links, s);
    BridgeIsAdded(shown, links, s);
    PortsAttach(shown, added, s.kind.ports, s.name);
    Finished(shown, attached, s);
  }

  /** If every command takes effect and the parent exists, a VLAN is up on its parent with its id; all other links
      are as before. */
  lemma VlanPlanBrings(shown: string -> (string, nat), links: Links, s: Spec)
    requires s.kind.Vlan? && s.name !in links && s.kind.parent in links
    ensures
      var addresses := if s.address.Some? then {shown(s.address.value)} else {};
      After(shown, links, Plan(s))
      == links[s.name := Link(VlanLink(s.kind.parent, s.kind.vid), true, None, false, addresses)]
  {
    var first, last := [AddVlan(s.kind.parent, s.name, s.kind.vid)], AddressCommands(s) + [SetUp(s.name)];
    assert Plan(s) == first + last;
    AfterOne(shown, links, first[0]);
    AfterConcat(shown, links, first, last);
    Finished(shown, After(shown, links, first), s);
  }

  /** The link is as the specification asks: a bridge with its spanning-tree setting and its ports up, a VLAN on
      its parent with its id. */
  ghost predicate AsAsked(links: Links, s: Spec) {
    && s.name in links && links[s.name].up
    && match s.kind
       case Bridge(ports, stp) =>
         && links[s.name].kind == BridgeLink && links[s.name].stp == stp
         && forall p :: p in ports ==> p in links && links[p].up && links[p].master == Some(s.name)
       case Vlan(parent, vid) => links[s.name].kind == VlanLink(parent, vid)
  }

  lemma PlanBrings(shown: string -> (string, nat), links: Links, s: Spec)
    requires s.name !in links && (s.kind.Bridge? ==> s.name !in s.kind.ports)
    requires Confirmed(After(shown, links, Plan(s)), s)
    ensures AsAsked(After(shown, links, Plan(s)), s)
  {
    PlanAchievesIff(shown, links, s);
    if s.kind.Vlan? {
      VlanPlanBrings(shown, links, s);
    } else {
      BridgePlanBrings(shown, links, s, s.name);
      forall p | p in s.kind.ports ensures
        var after := After(shown, links, Plan(s));
        p in after && after[p].up && after[p].master == Some(s.name)
      {
        BridgePlanBrings(shown, links, s, p);
      }
    }
  }

  /** If every command takes effect, the read-back confirms the specification if and only if its ports or
      parent exist and the kernel shows its address as written. */
  lemma PlanAchievesIff(shown: string -> (string, nat), links: Links, s: Spec)
    requires s.name !in links && (s.kind.Bridge? ==> s.name !in s.kind.ports)
    ensures Confirmed(After(shown, links, Plan(s)), s) <==> Feasible(shown, links, s)
  {
    if s.kind.Bridge? {
      BridgePlanAchieves(shown, links, s);
    } else {
      VlanPlanAchieves(shown, links, s);
    }
  }
}
