/** Whether the stored specifications and the live links agree, over runs of bridge and VLAN transactions. */
module NetworkAgreement {
  import opened Bytes
  import opened InterfaceConfigs
  import opened IfupdownStores
  import opened KernelLinks
  import opened NetworkPlans
  import opened NetworkTransactions

  /** Every specification that loads is confirmed by the links. */
  ghost predicate Agrees(f: Format, a: State) {
    forall name :: AgreesOn(f, a, name)
  }

  predicate AgreesOn(f: Format, a: State, name: string) {
    var loaded := LoadFrom(f, a.dir, name);
    loaded.Ok? ==> Confirmed(a.links, loaded.value)
  }

  // ---- Loading around a change ---------------------------------------------------------------

  lemma LoadsOther(f: Format, dir: Dir, s: Spec, name: string)
    requires SoundFormat(f) && name != s.name
    ensures LoadFrom(f, Stored(f, dir, s), name) == LoadFrom(f, dir, name)
  {
    assert f.fileName(name) != f.fileName(s.name);
  }

  lemma LoadsWithout(f: Format, dir: Dir, gone: string, name: string)
    requires SoundFormat(f)
    ensures name != gone ==> LoadFrom(f, Without(f, dir, gone), name) == LoadFrom(f, dir, name)
    ensures !LoadFrom(f, Without(f, dir, gone), gone).Ok?
  {
    if name != gone {
      assert f.fileName(name) != f.fileName(gone);
    }
  }

  lemma LoadedIsNamed(f: Format, dir: Dir, name: string)
    requires SoundFormat(f)
    ensures LoadFrom(f, dir, name).Ok? ==> LoadFrom(f, dir, name).value.name == name
  {
  }

  // ---- What keeps a specification confirmed --------------------------------------------------

  /** The specification's own link and its ports are as confirmed as they were. */
  lemma StaysConfirmed(a: Links, b: Links, t: Spec)
    requires Confirmed(a, t) && t.name in b && SameButMaster(a[t.name], b[t.name])
    requires t.kind.Bridge? ==> forall p :: p in t.kind.ports ==> p in b && b[p].master == a[p].master
    ensures Confirmed(b, t)
  {
    if t.kind.Bridge? {
      forall p | p in t.kind.ports ensures p in Members(b, t.name) {
        assert p in Members(a, t.name);
      }
    }
  }

  /** A port has one master, so two bridges that list it are not both confirmed. */
  lemma OneMaster(links: Links, s: Spec, t: Spec, p: string)
    requires s.kind.Bridge? && t.kind.Bridge? && p in s.kind.ports && p in t.kind.ports && s.name != t.name
    ensures !(Confirmed(links, s) && Confirmed(links, t))
  {
    assert !(p in Members(links, s.name) && p in Members(links, t.name));
  }

  // ---- Creating ------------------------------------------------------------------------------

  predicate Shares(s: Spec, t: Spec) {
    s.kind.Bridge? && t.kind.Bridge? && exists p :: p in s.kind.ports && p in t.kind.ports
  }

  predicate SharesWith(f: Format, dir: Dir, s: Spec, name: string) {
    var loaded := LoadFrom(f, dir, name);
    loaded.Ok? && Shares(s, loaded.value)
  }

  /** No other stored bridge lists one of the specification's ports. */
  ghost predicate PortsFree(f: Format, dir: Dir, s: Spec) {
    forall name :: name != s.name ==> !SharesWith(f, dir, s, name)
  }

  /** The file was changed, and then its directory sync failed. */
  predicate Unsynced(r: Txn, fault: Fault) {
    fault == AfterChange && (r == Failed(InStore(WriteFailed)) || r == Failed(InStore(RemoveFailed)))
  }

  lemma OtherStaysConfirmed(f: Format, s: Spec, a: State, b: State, name: string)
    requires SoundFormat(f) && AgreesOn(f, a, name) && name != s.name && !SharesWith(f, a.dir, s, name)
    requires Framed(a.links, b.links, {s.name}, Touched(s)) && s.name !in a.links
    ensures LoadFrom(f, a.dir, name).Ok? ==> Confirmed(b.links, LoadFrom(f, a.dir, name).value)
  {
    var loaded := LoadFrom(f, a.dir, name);
    if loaded.Ok? {
      var t := loaded.value;
      LoadedIsNamed(f, a.dir, name);
      if t.kind.Bridge? {
        forall p | p in t.kind.ports ensures p in b.links && b.links[p].master == a.links[p].master {
          assert p in Members(a.links, t.name);
          assert p !in Touched(s);
        }
      }
      StaysConfirmed(a.links, b.links, t);
    }
  }

  lemma CreateKeeps(f: Format, s: Spec, a: State, write: Fault, r: Txn, b: State)
    requires SoundFormat(f) && Agrees(f, a) && LinkMade(f, s, a, write, r, b) && PortsFree(f, a.dir, s)
    requires r != Failed(RollbackFailed) && !Unsynced(r, write)
    ensures Agrees(f, b)
  {
    if s.name !in a.links {
      forall name ensures AgreesOn(f, b, name) {
        assert AgreesOn(f, a, name);
        LoadedIsNamed(f, a.dir, name);
        if name == s.name {
          if r == Done {
            StoredLoads(f, a.dir, s);
          }
        } else {
          OtherStaysConfirmed(f, s, a, b, name);
          LoadsOther(f, a.dir, s, name);
        }
      }
    }
  }

  lemma SharedPortBreaks(f: Format, s: Spec, a: State, write: Fault, b: State, name: string)
    requires SoundFormat(f) && LinkMade(f, s, a, write, Done, b) && name != s.name && SharesWith(f, a.dir, s, name)
    ensures !AgreesOn(f, b, name)
  {
    var t := LoadFrom(f, a.dir, name).value;
    LoadedIsNamed(f, a.dir, name);
    LoadsOther(f, a.dir, s, name);
    var p :| p in s.kind.ports && p in t.kind.ports;
    OneMaster(b.links, s, t, p);
  }

  /** A created link keeps the agreement if and only if no other stored bridge lists one of its ports. A failed
      creation keeps it in that case, unless only the directory sync failed, which always breaks it. */
  lemma CreateAgreesIff(f: Format, s: Spec, a: State, write: Fault, r: Txn, b: State)
    requires SoundFormat(f) && Agrees(f, a) && LinkMade(f, s, a, write, r, b) && r != Failed(RollbackFailed)
    ensures r == Done ==> (Agrees(f, b) <==> PortsFree(f, a.dir, s))
    ensures r.Failed? && !Unsynced(r, write) && PortsFree(f, a.dir, s) ==> Agrees(f, b)
    ensures r == Failed(InStore(WriteFailed)) && write == AfterChange ==> !Agrees(f, b)
  {
    if r == Failed(InStore(WriteFailed)) && write == AfterChange {
      StoredLoads(f, a.dir, s);
      assert !AgreesOn(f, b, s.name);
    } else if PortsFree(f, a.dir, s) {
      if !Unsynced(r, write) {
        CreateKeeps(f, s, a, write, r, b);
      }
    } else if r == Done {
      var name :| name != s.name && SharesWith(f, a.dir, s, name);
      SharedPortBreaks(f, s, a, write, b, name);
    }
  }

  // ---- Destroying ----------------------------------------------------------------------------

  /** The specification needs one of the links. */
  predicate Needs(t: Spec, gone: set<string>) {
    t.name in gone || (t.kind.Bridge? && exists p :: p in t.kind.ports && p in gone)
  }

  predicate NeededBy(f: Format, dir: Dir, gone: set<string>, name: string) {
    var loaded := LoadFrom(f, dir, name);
    loaded.Ok? && Needs(loaded.value, gone)
  }

  /** No other stored specification needs the link or a VLAN on top of it. */
  ghost predicate Dispensable(f: Format, a: State, name: string) {
    forall other :: other != name ==> !NeededBy(f, a.dir, Stacked(a.links, {name}), other)
  }

  /** Deleting links keeps a specification confirmed if and only if it needs none of them. */
  lemma DeletedConfirmedIff(shown: string -> (string, nat), links: Links, name: string, t: Spec)
    requires Confirmed(links, t) && name in links
    ensures Confirmed(Effect(shown, links, DeleteLink(name)), t) <==> !Needs(t, Stacked(links, {name}))
  {
    var gone, after := Stacked(links, {name}), Effect(shown, links, DeleteLink(name));
    if Needs(t, gone) {
      if t.kind.Bridge? && t.name !in gone {
        var p :| p in t.kind.ports && p in gone;
        assert p !in Members(after, t.name);
      }
    } else {
      if t.kind.Bridge? {
        forall p | p in t.kind.ports ensures p in after && after[p].master == links[p].master {
          assert p in Members(links, t.name);
        }
      }
      StaysConfirmed(links, after, t);
    }
  }

  lemma DeletedAgreesOnIff(f: Format, shown: string -> (string, nat), a: State, name: string, b: State, other: string)
    requires SoundFormat(f) && AgreesOn(f, a, other) && name in a.links && other != name
    requires b.dir == Without(f, a.dir, name) && b.links == Effect(shown, a.links, DeleteLink(name))
    ensures AgreesOn(f, b, other) <==> !NeededBy(f, a.dir, Stacked(a.links, {name}), other)
  {
    LoadsWithout(f, a.dir, name, other);
    var loaded := LoadFrom(f, a.dir, other);
    if loaded.Ok? {
      DeletedConfirmedIff(shown, a.links, name, loaded.value);
    }
  }

  lemma DestroyedAgreesIff(f: Format, shown: string -> (string, nat), a: State, name: string, b: State)
    requires SoundFormat(f) && Agrees(f, a) && name in a.links
    requires b.dir == Without(f, a.dir, name) && b.links == Effect(shown, a.links, DeleteLink(name))
    ensures Agrees(f, b) <==> Dispensable(f, a, name)
  {
    forall other
      ensures AgreesOn(f, b, other) <==> other == name || !NeededBy(f, a.dir, Stacked(a.links, {name}), other)
    {
      assert AgreesOn(f, a, other);
      if other == name {
        LoadsWithout(f, a.dir, name, name);
      } else {
        DeletedAgreesOnIff(f, shown, a, name, b, other);
      }
    }
  }

  lemma StoredLinkExists(f: Format, a: State, name: string)
    requires SoundFormat(f) && Agrees(f, a) && LoadFrom(f, a.dir, name).Ok?
    ensures name in a.links
  {
    assert AgreesOn(f, a, name);
    LoadedIsNamed(f, a.dir, name);
  }

  /** A destroyed link keeps the agreement if and only if no other stored specification needs it or a VLAN on top
      of it. A failed destruction keeps it if and only if the delete command did not take effect after all; one
      whose directory sync failed keeps it, because then only a file is missing. */
  lemma DestroyAgreesIff(f: Format, shown: string -> (string, nat), name: string, a: State, remove: Fault, r: Txn,
                         b: State)
    requires SoundFormat(f) && Agrees(f, a) && LinkDropped(f, shown, name, a, remove, r, b)
    requires r != Failed(RestoreFailed)
    ensures r == Done ==> (Agrees(f, b) <==> Dispensable(f, a, name))
    ensures r.Failed? ==> (Agrees(f, b) <==> b.links == a.links)
  {
    if LoadFrom(f, a.dir, name).Ok? {
      StoredLinkExists(f, a, name);
    }
    if r == Done {
      DestroyedAgreesIff(f, shown, a, name, b);
    } else if b.links == a.links {
      forall other ensures AgreesOn(f, b, other) {
        assert AgreesOn(f, a, other);
        LoadsWithout(f, a.dir, name, other);
      }
    } else {
      Gone(shown, a.links, name);
      LoadedIsNamed(f, a.dir, name);
      assert !AgreesOn(f, b, name);
    }
  }

  // ---- Moving ports --------------------------------------------------------------------------

  /** If the masters are as before, so is what is confirmed. */
  lemma SameMastersAgree(f: Format, a: State, b: State, port: string, name: string)
    requires SoundFormat(f) && AgreesOn(f, a, name) && Framed(a.links, b.links, {}, {port})
    requires forall m :: MasterIs(b.links, port, m) <==> MasterIs(a.links, port, m)
    ensures LoadFrom(f, a.dir, name).Ok? ==> Confirmed(b.links, LoadFrom(f, a.dir, name).value)
  {
    var loaded := LoadFrom(f, a.dir, name);
    if loaded.Ok? {
      var t := loaded.value;
      if t.kind.Bridge? {
        forall p | p in t.kind.ports ensures p in b.links && b.links[p].master == a.links[p].master {
          assert p in Members(a.links, t.name);
          assert MasterIs(a.links, p, a.links[p].master);
        }
      }
      StaysConfirmed(a.links, b.links, t);
    }
  }

  /** A specification that does not list the moved port stays confirmed. */
  lemma UnlistedStaysConfirmed(a: Links, b: Links, port: string, t: Spec)
    requires Confirmed(a, t) && Framed(a, b, {}, {port})
    requires t.kind.Bridge? ==> port !in t.kind.ports
    ensures Confirmed(b, t)
  {
    if t.kind.Bridge? {
      forall p | p in t.kind.ports ensures p in b && b[p].master == a[p].master {
        assert p in Members(a, t.name);
      }
    }
    StaysConfirmed(a, b, t);
  }

  /** A moved port is listed by no stored bridge but the one it was or is attached to. */
  lemma OtherBridgeUnlisted(f: Format, a: State, bridge: string, port: string, was: Option<string>, name: string)
    requires SoundFormat(f) && AgreesOn(f, a, name) && name != bridge && was in {None, Some(bridge)}
    requires MasterIs(a.links, port, was)
    ensures
      var loaded := LoadFrom(f, a.dir, name);
      loaded.Ok? && loaded.value.kind.Bridge? ==> port !in loaded.value.kind.ports
  {
    var loaded := LoadFrom(f, a.dir, name);
    LoadedIsNamed(f, a.dir, name);
    assert port !in Members(a.links, name);
  }

  lemma PluggedConfirmed(a: Links, b: Links, s: Spec, port: string)
    requires Confirmed(a, s) && s.kind.Bridge? && port !in s.kind.ports
    requires Framed(a, b, {}, {port}) && MasterIs(b, port, Some(s.name))
    ensures Confirmed(b, Plugged(s, port))
  {
    UnlistedStaysConfirmed(a, b, port, s);
    forall p | p in Plugged(s, port).kind.ports ensures p in Members(b, s.name) {
      if p != port {
        assert p in s.kind.ports;
      }
    }
  }

  lemma UnpluggedConfirmed(a: Links, b: Links, s: Spec, port: string)
    requires Confirmed(a, s) && s.kind.Bridge? && Framed(a, b, {}, {port})
    ensures Confirmed(b, Unplugged(s, port))
  {
    WithoutPort(s.kind.ports, port);
    UnlistedStaysConfirmed(a, b, port, Unplugged(s, port));
  }

  lemma MovedKeepsOthers(f: Format, a: State, b: State, bridge: string, s: Spec, port: string, was: Option<string>,
                         name: string)
    requires SoundFormat(f) && Agrees(f, a) && s.name == bridge && b.dir == Stored(f, a.dir, s) && name != bridge
    requires Framed(a.links, b.links, {}, {port}) && MasterIs(a.links, port, was) && was in {None, Some(bridge)}
    ensures AgreesOn(f, b, name)
  {
    assert AgreesOn(f, a, name);
    LoadsOther(f, a.dir, s, name);
    OtherBridgeUnlisted(f, a, bridge, port, was, name);
    if LoadFrom(f, a.dir, name).Ok? {
      UnlistedStaysConfirmed(a.links, b.links, port, LoadFrom(f, a.dir, name).value);
    }
  }

  lemma FailedMoveAgrees(f: Format, a: State, b: State, port: string)
    requires SoundFormat(f) && Agrees(f, a) && b.dir == a.dir && Framed(a.links, b.links, {}, {port})
    requires forall m :: MasterIs(b.links, port, m) <==> MasterIs(a.links, port, m)
    ensures Agrees(f, b)
  {
    forall name ensures AgreesOn(f, b, name) {
      assert AgreesOn(f, a, name);
      SameMastersAgree(f, a, b, port, name);
    }
  }

  /** Adding a port keeps the agreement if and only if it is not just the directory sync that failed. */
  lemma PortAddAgreesIff(f: Format, bridge: string, port: string, s: Spec, a: State, write: Fault, r: Txn, b: State)
    requires SoundFormat(f) && Agrees(f, a) && PortAdded(f, bridge, port, s, a, write, r, b)
    requires r != Failed(RollbackFailed)
    ensures Agrees(f, b) <==> !(r == Failed(InStore(WriteFailed)) && write == AfterChange)
  {
    var t := Plugged(s, port);
    if r == Done {
      PortAddedAgrees(f, bridge, port, s, a, write, b);
    } else if r == Failed(InStore(WriteFailed)) && write == AfterChange {
      LoadedIsNamed(f, a.dir, bridge);
      StoredLoads(f, a.dir, t);
      assert t.kind.ports[|s.kind.ports|] == port;
      assert !MasterIs(b.links, port, Some(bridge));
      assert port !in Members(b.links, bridge);
      assert !AgreesOn(f, b, bridge);
    } else {
      FailedMoveAgrees(f, a, b, port);
    }
  }

  lemma PortAddedAgrees(f: Format, bridge: string, port: string, s: Spec, a: State, write: Fault, b: State)
    requires SoundFormat(f) && Agrees(f, a) && PortAdded(f, bridge, port, s, a, write, Done, b)
    ensures Agrees(f, b)
  {
    var t := Plugged(s, port);
    LoadedIsNamed(f, a.dir, bridge);
    forall name ensures AgreesOn(f, b, name) {
      if name == bridge {
        assert AgreesOn(f, a, bridge);
        StoredLoads(f, a.dir, t);
        PluggedConfirmed(a.links, b.links, s, port);
      } else {
        MovedKeepsOthers(f, a, b, bridge, t, port, None, name);
      }
    }
  }

  /** Removing a port always keeps the agreement: a bridge may have more members than its file lists. */
  lemma PortRemoveAgrees(f: Format, bridge: string, port: string, s: Spec, a: State, write: Fault, r: Txn, b: State)
    requires SoundFormat(f) && Agrees(f, a) && PortRemoved(f, bridge, port, s, a, write, r, b)
    requires r != Failed(RollbackFailed)
    ensures Agrees(f, b)
  {
    var t := Unplugged(s, port);
    if r == Done || (r == Failed(InStore(WriteFailed)) && write == AfterChange) {
      LoadedIsNamed(f, a.dir, bridge);
      forall name ensures AgreesOn(f, b, name) {
        if name == bridge {
          assert AgreesOn(f, a, bridge);
          StoredLoads(f, a.dir, t);
          UnpluggedConfirmed(a.links, b.links, s, port);
        } else {
          MovedKeepsOthers(f, a, b, bridge, t, port, Some(bridge), name);
        }
      }
    } else {
      FailedMoveAgrees(f, a, b, port);
    }
  }

  // ---- Runs ----------------------------------------------------------------------------------

  /** One transaction; `s` of a port move is the bridge as stored before. */
  datatype Move =
    | MakeLink(s: Spec) | DropLink(name: string)
    | AddPort(bridge: string, port: string, s: Spec) | RemovePort(bridge: string, port: string, s: Spec)

  /** What a transaction can do, by the contract of the method that performs it. */
  ghost predicate Step(f: Format, shown: string -> (string, nat), a: State, m: Move, fault: Fault, r: Txn, b: State) {
    match m
    case MakeLink(s) => LinkMade(f, s, a, fault, r, b)
    case DropLink(name) => LinkDropped(f, shown, name, a, fault, r, b)
    case AddPort(bridge, port, s) => PortAdded(f, bridge, port, s, a, fault, r, b)
    case RemovePort(bridge, port, s) => PortRemoved(f, bridge, port, s, a, fault, r, b)
  }

  /** The transaction neither takes a port or a link that a stored specification needs, nor fails halfway. */
  ghost predicate Harmless(f: Format, a: State, m: Move, fault: Fault, r: Txn, b: State) {
    && r != Failed(RollbackFailed) && r != Failed(RestoreFailed)
    && match m
       case MakeLink(s) => PortsFree(f, a.dir, s) && !Unsynced(r, fault)
       case DropLink(name) => if r == Done then Dispensable(f, a, name) else b.links == a.links
       case AddPort(_, _, _) => !Unsynced(r, fault)
       case RemovePort(_, _, _) => true
  }

  datatype Trace = Trace(states: seq<State>, moves: seq<Move>, faults: seq<Fault>, results: seq<Txn>)

  ghost predicate StepAt(f: Format, shown: string -> (string, nat), tr: Trace, k: nat)
    requires k < |tr.moves| == |tr.faults| == |tr.results| && |tr.states| == |tr.moves| + 1
  {
    Step(f, shown, tr.states[k], tr.moves[k], tr.faults[k], tr.results[k], tr.states[k + 1])
  }

  ghost predicate Run(f: Format, shown: string -> (string, nat), tr: Trace) {
    && |tr.moves| == |tr.faults| == |tr.results| && |tr.states| == |tr.moves| + 1
    && forall k :: 0 <= k < |tr.moves| ==> StepAt(f, shown, tr, k)
  }

  ghost predicate HarmlessAt(f: Format, tr: Trace, k: nat)
    requires k < |tr.moves| == |tr.faults| == |tr.results| && |tr.states| == |tr.moves| + 1
  {
    Harmless(f, tr.states[k], tr.moves[k], tr.faults[k], tr.results[k], tr.states[k + 1])
  }

  lemma StepAgrees(f: Format, shown: string -> (string, nat), a: State, m: Move, fault: Fault, r: Txn, b: State)
    requires SoundFormat(f) && Agrees(f, a) && Step(f, shown, a, m, fault, r, b) && Harmless(f, a, m, fault, r, b)
    ensures Agrees(f, b)
  {
    match m
    case MakeLink(s) => CreateAgreesIff(f, s, a, fault, r, b);
    case DropLink(name) => DestroyAgreesIff(f, shown, name, a, fault, r, b);
    case AddPort(bridge, port, s) => PortAddAgreesIff(f, bridge, port, s, a, fault, r, b);
    case RemovePort(bridge, port, s) => PortRemoveAgrees(f, bridge, port, s, a, fault, r, b);
  }

  /** Over every run of harmless transactions the stored specifications stay confirmed by the links. */
  lemma {:induction false} AlwaysAgrees(f: Format, shown: string -> (string, nat), tr: Trace, k: nat)
    requires SoundFormat(f) && Run(f, shown, tr) && k <= |tr.moves| && Agrees(f, tr.states[0])
    requires forall i :: 0 <= i < k ==> HarmlessAt(f, tr, i)
    ensures Agrees(f, tr.states[k])
  {
    if k > 0 {
      AlwaysAgrees(f, shown, tr, k - 1);
      AgreesNext(f, shown, tr, k - 1);
    }
  }

  lemma AgreesNext(f: Format, shown: string -> (string, nat), tr: Trace, k: nat)
    requires SoundFormat(f) && Run(f, shown, tr) && k < |tr.moves| && Agrees(f, tr.states[k]) && HarmlessAt(f, tr, k)
    ensures Agrees(f, tr.states[k + 1])
  {
    assert StepAt(f, shown, tr, k);
    StepAgrees(f, shown, tr.states[k], tr.moves[k], tr.faults[k], tr.results[k], tr.states[k + 1]);
  }

  /** Over every run masters and parents exist, so no link uses a name that no link has: what creating asks for. */
  lemma {:induction false} AlwaysGrounded(f: Format, shown: string -> (string, nat), tr: Trace, k: nat)
    requires Run(f, shown, tr) && k <= |tr.moves| && Grounded(tr.states[0].links)
    ensures Grounded(tr.states[k].links)
    ensures forall name :: name !in tr.states[k].links ==> UsedWithin(tr.states[k].links, name, {})
  {
    if k > 0 {
      AlwaysGrounded(f, shown, tr, k - 1);
      assert StepAt(f, shown, tr, k - 1);
      if tr.moves[k - 1].DropLink? {
        EffectKeepsGrounded(shown, tr.states[k - 1].links, DeleteLink(tr.moves[k - 1].name));
      }
    }
    forall name | name !in tr.states[k].links ensures UsedWithin(tr.states[k].links, name, {}) {
      GroundedUse(tr.states[k].links, name);
    }
  }

  lemma GroundedUse(links: Links, name: string)
    requires Grounded(links) && name !in links
    ensures UsedWithin(links, name, {})
  {
    assert Members(links, name) == {};
  }

  // ---- Where it fails ------------------------------------------------------------------------

  lemma {:induction false} AfterFramed(shown: string -> (string, nat), links: Links, plan: seq<Command>,
                                       own: set<string>,
                                       touched: set<string>)
    requires Stays(plan, own, touched)
    ensures Framed(links, After(shown, links, plan), own, touched)
    decreases |plan|
  {
    if plan != [] {
      var next := Effect(shown, links, plan[0]);
      EffectFramed(shown, links, links, plan[0], own, touched);
      AfterFramed(shown, next, plan[1..], own, touched);
      FramedTwice(links, next, After(shown, next, plan[1..]), own, touched);
    }
  }

  /** A creation whose commands all take effect. */
  lemma CreationSucceeds(f: Format, shown: string -> (string, nat), s: Spec, a: State)
    requires f.valid(s) && s.name !in a.links && (s.kind.Bridge? ==> s.name !in s.kind.ports)
    requires Feasible(shown, a.links, s)
    ensures LinkMade(f, s, a, NoFault, Done, State(Stored(f, a.dir, s), After(shown, a.links, Plan(s))))
  {
    PlanStays(s);
    AfterFramed(shown, a.links, Plan(s), {s.name}, Touched(s));
    PlanAchievesIff(shown, a.links, s);
  }

  function OnePort(name: string, port: string): Spec {
    Spec(name, None, Bridge([port], false))
  }

  function OneFile(f: Format, s: Spec): Dir {
    Stored(f, map[], s)
  }

  lemma OneFileAgrees(f: Format, s: Spec, links: Links)
    requires SoundFormat(f) && f.valid(s) && Confirmed(links, s)
    ensures Agrees(f, State(OneFile(f, s), links))
  {
    forall name ensures AgreesOn(f, State(OneFile(f, s), links), name) {
      if name == s.name {
        StoredLoads(f, map[], s);
      } else {
        LoadsOther(f, map[], s, name);
      }
    }
  }

  /** A bridge with one member. */
  function OneMember(): Links {
    map["p" := Link(OtherLink, true, Some("b1"), false, {}), "b1" := Link(BridgeLink, true, None, false, {})]
  }

  /** Nothing stops a second bridge from taking the port of a stored one. */
  lemma SharedPortExample(f: Format, shown: string -> (string, nat))
    requires SoundFormat(f) && f.valid(OnePort("b1", "p")) && f.valid(OnePort("b2", "p"))
    ensures
      var s, t := OnePort("b1", "p"), OnePort("b2", "p");
      var links := OneMember();
      var a := State(OneFile(f, s), links);
      var b := State(Stored(f, a.dir, t), After(shown, links, Plan(t)));
      Agrees(f, a) && LinkMade(f, t, a, NoFault, Done, b) && !Agrees(f, b)
  {
    var s, t := OnePort("b1", "p"), OnePort("b2", "p");
    var links := OneMember();
    var a := State(OneFile(f, s), links);
    var b := State(Stored(f, a.dir, t), After(shown, links, Plan(t)));
    assert "p" in Members(links, "b1");
    OneFileAgrees(f, s, links);
    CreationSucceeds(f, shown, t, a);
    StoredLoads(f, map[], s);
    assert "p" in s.kind.ports && "p" in t.kind.ports;
    assert SharesWith(f, a.dir, t, "b1");
    SharedPortBreaks(f, t, a, NoFault, b, "b1");
  }

  /** A VLAN on top of one link, as the only member of a bridge. */
  function SomeLinks(): Links {
    map["p" := Link(OtherLink, true, None, false, {}), "v" := Link(VlanLink("p", 5), true, Some("b"), false, {}),
        "b" := Link(BridgeLink, true, None, false, {})]
  }

  /** Nothing stops a VLAN from being destroyed that a stored bridge lists as its port. */
  lemma ListedVlanExample(f: Format, shown: string -> (string, nat))
    requires SoundFormat(f) && f.valid(OnePort("b", "v")) && f.valid(Spec("v", None, Vlan("p", 5)))
    ensures
      var s, t := OnePort("b", "v"), Spec("v", None, Vlan("p", 5));
      var links := SomeLinks();
      var a := State(Stored(f, OneFile(f, s), t), links);
      var b := State(Without(f, a.dir, "v"), Effect(shown, links, DeleteLink("v")));
      Agrees(f, a) && LinkDropped(f, shown, "v", a, NoFault, Done, b) && !Agrees(f, b)
  {
    var s, t := OnePort("b", "v"), Spec("v", None, Vlan("p", 5));
    var links := SomeLinks();
    var a := State(Stored(f, OneFile(f, s), t), links);
    var b := State(Without(f, a.dir, "v"), Effect(shown, links, DeleteLink("v")));
    assert "v" in Members(links, "b");
    OneFileAgrees(f, s, links);
    forall name ensures AgreesOn(f, a, name) {
      assert AgreesOn(f, State(OneFile(f, s), links), name);
      if name == "v" {
        StoredLoads(f, OneFile(f, s), t);
      } else {
        LoadsOther(f, OneFile(f, s), t, name);
      }
    }
    StoredLoads(f, OneFile(f, s), t);
    StoredLoads(f, map[], s);
    LoadsOther(f, OneFile(f, s), t, "b");
    Gone(shown, links, "v");
    StackedClosed(links, {"v"});
    assert "v" in s.kind.ports;
    assert NeededBy(f, a.dir, Stacked(links, {"v"}), "b");
    DestroyAgreesIff(f, shown, "v", a, NoFault, Done, b);
  }
}
