/** Live network links and the commands that change them. Nothing is assumed of a mutating command's
    result: whatever it reports, its effect may or may not have happened. Read-backs either fail or
    show the links as they are. */
module KernelLinks {
  import opened Bytes

  datatype LinkKind = BridgeLink | VlanLink(parent: string, vid: nat) | OtherLink

  /** `addresses` holds the addresses as the kernel shows them: local address and prefix length. */
  datatype Link = Link(kind: LinkKind, up: bool, master: Option<string>, stp: bool, addresses: set<(string, nat)>)

  type Links = map<string, Link>

  datatype Command =
    | AddBridge(name: string) | AddVlan(parent: string, name: string, vid: nat)
    | SetStp(name: string, on: bool) | SetMaster(port: string, bridge: string) | NoMaster(port: string)
    | SetUp(name: string) | AddAddress(name: string, address: string) | DeleteLink(name: string)

  function Members(links: Links, bridge: string): set<string> {
    set l | l in links && links[l].master == Some(bridge)
  }

  /** The links in `names` and all VLANs on top of them, at any depth. */
  function Stacked(links: Links, names: set<string>): set<string>
    decreases links.Keys - names
  {
    var more := set l | l in links && l !in names && links[l].kind.VlanLink? && links[l].kind.parent in names;
    if more == {} then names else Stacked(links, names + more)
  }

  /** The master that a link keeps when the links in `gone` are deleted. */
  function MasterWithout(link: Link, gone: set<string>): Option<string> {
    if link.master.Some? && link.master.value in gone then None else link.master
  }

  /** `shown` is how the kernel shows an address that was added as text. */
  function Effect(shown: string -> (string, nat), links: Links, c: Command): Links {
    match c
    case AddBridge(name) => if name in links then links else links[name := Link(BridgeLink, false, None, false, {})]
    case AddVlan(parent, name, vid) =>
      if name in links || parent !in links then links
      else links[name := Link(VlanLink(parent, vid), false, None, false, {})]
    case SetStp(name, on) => if name in links then links[name := links[name].(stp := on)] else links
    case SetMaster(port, bridge) =>
      if port in links && bridge in links then links[port := links[port].(master := Some(bridge))] else links
    case NoMaster(port) => if port in links then links[port := links[port].(master := None)] else links
    case SetUp(name) => if name in links then links[name := links[name].(up := true)] else links
    case AddAddress(name, address) =>
      if name in links then links[name := links[name].(addresses := links[name].addresses + {shown(address)})]
      else links
    case DeleteLink(name) =>
      if name !in links then links
      else
        var gone := Stacked(links, {name});
        map l | l in links && l !in gone :: links[l].(master := MasterWithout(links[l], gone))
  }

  datatype RunResult = Zero | NonZero | Broken

  datatype Shown = NoAnswer | Absent | Present(link: Link)

  class Runner {
    const shown: string -> (string, nat)
    var links: Links
    /** The commands given so far. */
    ghost var issued: seq<Command>
    /** Some command failed, or reported success without taking effect. */
    ghost var faulty: bool

    constructor (shown: string -> (string, nat), links: Links)
      ensures this.shown == shown && this.links == links
    {
      this.shown := shown;
      this.links := links;
      issued, faulty := [], false;
    }

    method Run(c: Command) returns (r: RunResult)
      modifies this
      ensures links == old(links) || links == Effect(shown, old(links), c)
      ensures issued == old(issued) + [c]
      ensures !faulty ==> !old(faulty) && r == Zero && links == Effect(shown, old(links), c)
      ensures Grounded(old(links)) ==> Grounded(links)
    {
      if Grounded(links) {
        EffectKeepsGrounded(shown, links, c);
      }
      issued := issued + [c];
      var happens: bool := *;
      r := *;
      faulty := faulty || !happens || r != Zero;
      if happens {
        links := Effect(shown, links, c);
      }
    }

    method ShowLink(name: string) returns (r: Shown)
      ensures r == NoAnswer || r == if name in links then Present(links[name]) else Absent
    {
      var answers: bool := *;
      if !answers {
        return NoAnswer;
      }
      return if name in links then Present(links[name]) else Absent;
    }

    /** Listing the members of a link that does not exist is an error, so it gives no answer. */
    method ShowMembers(bridge: string) returns (r: Option<set<string>>)
      ensures r == None || (bridge in links && r == Some(Members(links, bridge)))
    {
      var answers: bool := *;
      if !answers || bridge !in links {
        return None;
      }
      return Some(Members(links, bridge));
    }
  }

  // ---- What a command touches --------------------------------------------------------------

  /** The two states agree on every link outside `touched`. */
  ghost predicate SameExcept(a: Links, b: Links, touched: set<string>) {
    forall l :: l !in touched ==> (l in a <==> l in b) && (l in a ==> a[l] == b[l])
  }

  function Target(c: Command): string {
    match c
    case AddBridge(name) => name
    case AddVlan(_, name, _) => name
    case SetStp(name, _) => name
    case SetMaster(port, _) => port
    case NoMaster(port) => port
    case SetUp(name) => name
    case AddAddress(name, _) => name
    case DeleteLink(name) => name
  }

  /** What deleting a link affects: it, the VLANs on top of it, and the members of those. */
  function Affected(links: Links, name: string): set<string> {
    var gone := Stacked(links, {name});
    gone + set l | l in links && links[l].master.Some? && links[l].master.value in gone
  }

  /** Every command touches its target alone, except that deleting a link takes the VLANs on top of it along
      and frees their members. */
  lemma EffectTouches(shown: string -> (string, nat), links: Links, c: Command)
    ensures SameExcept(links, Effect(shown, links, c), if c.DeleteLink? then Affected(links, c.name) else {Target(c)})
  {
    if c.DeleteLink? {
      StackedClosed(links, {c.name});
    }
  }

  lemma {:induction false} StackedClosed(links: Links, names: set<string>)
    ensures names <= Stacked(links, names) <= names + links.Keys
    ensures forall l :: l in links && links[l].kind.VlanLink? && links[l].kind.parent in Stacked(links, names)
                        ==> l in Stacked(links, names)
    decreases links.Keys - names
  {
    var more := set l | l in links && l !in names && links[l].kind.VlanLink? && links[l].kind.parent in names;
    if more == {} {
      forall l | l in links && links[l].kind.VlanLink? && links[l].kind.parent in names ensures l in names {
        assert l !in more;
      }
    } else {
      StackedClosed(links, names + more);
    }
  }

  /** Masters and parents exist. */
  ghost predicate Grounded(links: Links) {
    forall l :: l in links ==>
      && (links[l].master.Some? ==> links[l].master.value in links)
      && (links[l].kind.VlanLink? ==> links[l].kind.parent in links)
  }

  /** No command leaves a link with a master or a parent that does not exist. */
  lemma EffectKeepsGrounded(shown: string -> (string, nat), links: Links, c: Command)
    requires Grounded(links)
    ensures Grounded(Effect(shown, links, c))
  {
    if c.DeleteLink? {
      StackedClosed(links, {c.name});
    }
  }

  /** Only links in `s` are members of `name`, and no VLAN is on top of it. */
  ghost predicate UsedWithin(links: Links, name: string, s: set<string>) {
    && Members(links, name) <= s
    && forall l :: l in links && links[l].kind.VlanLink? ==> links[l].kind.parent != name
  }

  lemma EffectKeepsUse(shown: string -> (string, nat), links: Links, c: Command, name: string, s: set<string>)
    requires UsedWithin(links, name, s)
    requires (c.SetMaster? ==> c.port in s) && (c.AddVlan? ==> c.name == name)
    ensures UsedWithin(Effect(shown, links, c), name, s)
  {
    var after := Effect(shown, links, c);
    forall l | l in Members(after, name) ensures l in s {
      assert l in Members(links, name) || (c.SetMaster? && l == c.port);
    }
  }

  /** Deleting a link with nothing on top of it. */
  lemma DeleteAlone(shown: string -> (string, nat), links: Links, name: string, s: set<string>)
    requires UsedWithin(links, name, s)
    ensures Affected(links, name) <= {name} + s
    ensures Remastered(links, Effect(shown, links, DeleteLink(name)), {name})
  {
    assert (set l | l in links && l !in {name} && links[l].kind.VlanLink? && links[l].kind.parent in {name}) == {};
    assert Stacked(links, {name}) == {name};
    forall l | l in Affected(links, name) && l != name ensures l in s {
      assert l in Members(links, name);
    }
  }

  /** All that changes in a link that is moved between bridges and set up. */
  predicate SameButMaster(a: Link, b: Link) {
    a.kind == b.kind && a.stp == b.stp && a.addresses == b.addresses && (a.up ==> b.up)
  }

  /** No link outside `own` appears or disappears or changes but in its master and by being set up. */
  ghost predicate Remastered(a: Links, b: Links, own: set<string>) {
    forall l :: l !in own ==> (l in a <==> l in b) && (l in a ==> SameButMaster(a[l], b[l]))
  }

  lemma EffectRemasters(shown: string -> (string, nat), links: Links, c: Command, own: set<string>)
    requires !c.DeleteLink? && (Target(c) in own || c.SetMaster? || c.NoMaster? || c.SetUp?)
    ensures Remastered(links, Effect(shown, links, c), own)
  {
  }
}
