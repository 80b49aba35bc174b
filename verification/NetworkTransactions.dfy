/** Bridge and VLAN mutations: each changes the managed configuration and the live links, reads the
    result back, and undoes both when something fails. */
module NetworkTransactions {
  import opened Bytes
  import opened Text
  import opened InterfaceConfigs
  import opened IfupdownStores
  import opened KernelLinks
  import opened NetworkPlans

  /** Why links could not be brought to what was wanted. */
  datatype Cause = CommandFailed | NotConfirmed | Unanswered

  datatype Failure =
    | RoutesUnreadable | Protected | NoReadback | AlreadyExists | InStore(error: StoreError) | KindMismatch
    | InUse | AlreadyAttached | NotAttached | StateMismatch
    | ApplyFailed(cause: Cause) | RollbackFailed | DeleteFailed | StillThere | RestoreFailed

  datatype Txn = Done | Failed(failure: Failure)

  /** Refuses interfaces that own a default route; `routes` is None when the tables cannot be read. */
  function ManagementCheck(routes: Option<set<string>>, names: set<string>): (r: Option<Failure>)
    ensures r == None ==> routes.Some? && forall name :: name in names ==> name !in routes.value
    ensures r == Some(RoutesUnreadable) ==> routes == None
    ensures r == Some(Protected) ==> routes.Some? && exists name :: name in names && name in routes.value
    ensures r in {None, Some(RoutesUnreadable), Some(Protected)}
  {
    assert routes.Some? && names * routes.value != {} ==> exists name :: name in names * routes.value;
    assert forall name :: name in names && routes.Some? && name in routes.value ==> name in names * routes.value;
    if routes == None then Some(RoutesUnreadable)
    else if names * routes.value != {} then Some(Protected)
    else None
  }

  // ---- What a transaction does to the stored files and the links -----------------------------

  datatype State = State(dir: Dir, links: Links)

  /** What commands that stay within `own` and `touched` leave of the links. */
  ghost predicate Framed(a: Links, b: Links, own: set<string>, touched: set<string>) {
    SameExcept(a, b, touched) && Remastered(a, b, own) && (Grounded(a) ==> Grounded(b))
  }

  /** All of what creating a link can do. */
  ghost predicate LinkMade(f: Format, s: Spec, a: State, write: Fault, r: Txn, b: State) {
    && Framed(a.links, b.links, {s.name}, Touched(s))
    && (s.name in a.links ==> r.Failed? && !r.failure.InStore? && b == a)
    && match r
       case Done => f.valid(s) && b.dir == Stored(f, a.dir, s) && Confirmed(b.links, s)
       case Failed(RollbackFailed) => true
       case Failed(failure) =>
         && (s.name in b.links <==> s.name in a.links)
         && if failure == InStore(WriteFailed) && write == AfterChange
            then f.valid(s) && b.links == a.links && b.dir == Stored(f, a.dir, s)
            else b.dir == a.dir
  }

  /** All of what destroying a managed link can do; a command that fails may have taken effect. */
  ghost predicate LinkDropped(f: Format, shown: string -> (string, nat), name: string, a: State, remove: Fault, r: Txn,
                              b: State)
  {
    && (b.links == a.links || (LoadFrom(f, a.dir, name).Ok? && b.links == Effect(shown, a.links, DeleteLink(name))))
    && match r
       case Done => LoadFrom(f, a.dir, name).Ok? && name !in b.links && b.dir == Without(f, a.dir, name)
       case Failed(RestoreFailed) => true
       case Failed(failure) =>
         if failure == InStore(RemoveFailed) && remove == AfterChange
         then b.links == a.links && b.dir == Without(f, a.dir, name)
         else b.dir == a.dir
  }

  /** All of what moving a port can do: `s` is the specification to be stored, which changes only where the
      port is listed, and the port goes from master `was` to `want`. */
  ghost predicate PortMoved(f: Format, s: Spec, port: string, was: Option<string>, want: Option<string>, a: State,
                            write: Fault, r: Txn, b: State)
  {
    && Framed(a.links, b.links, {}, {port})
    && match r
       case Done =>
         && f.valid(s) && b.dir == Stored(f, a.dir, s)
         && MasterIs(a.links, port, was) && MasterIs(b.links, port, want)
       case Failed(RollbackFailed) => true
       case Failed(failure) =>
         && (forall m :: MasterIs(b.links, port, m) <==> MasterIs(a.links, port, m))
         && if failure == InStore(WriteFailed) && write == AfterChange
            then f.valid(s) && MasterIs(a.links, port, was) && b.dir == Stored(f, a.dir, s)
            else b.dir == a.dir
  }

  /** A specification with a port listed, or no longer listed. */
  function Plugged(s: Spec, port: string): Spec {
    if s.kind.Bridge? then s.(kind := Bridge(s.kind.ports + [port], s.kind.stp)) else s
  }

  function Unplugged(s: Spec, port: string): Spec {
    if s.kind.Bridge? then s.(kind := Bridge(Detached(s.kind.ports, port), s.kind.stp)) else s
  }

  function Detached(ports: seq<string>, port: string): seq<string> {
    if ports == [] then []
    else if ports[0] == port then Detached(ports[1..], port)
    else [ports[0]] + Detached(ports[1..], port)
  }

  /** The stored bridge that a port is added to or removed from. */
  predicate StoredBridge(f: Format, dir: Dir, bridge: string, s: Spec) {
    LoadFrom(f, dir, bridge) == Ok(s) && s.kind.Bridge?
  }

  /** The transaction got as far as changing the bridge's file. */
  predicate Wrote(r: Txn) {
    r == Done || r == Failed(InStore(WriteFailed))
  }

  ghost predicate PortAdded(f: Format, bridge: string, port: string, s: Spec, a: State, write: Fault, r: Txn,
                            b: State)
  {
    && PortMoved(f, Plugged(s, port), port, None, Some(bridge), a, write, r, b)
    && (Wrote(r) ==> StoredBridge(f, a.dir, bridge, s) && port !in s.kind.ports)
  }

  ghost predicate PortRemoved(f: Format, bridge: string, port: string, s: Spec, a: State, write: Fault, r: Txn,
                              b: State)
  {
    && PortMoved(f, Unplugged(s, port), port, Some(bridge), None, a, write, r, b)
    && (Wrote(r) ==> StoredBridge(f, a.dir, bridge, s) && port in s.kind.ports)
  }

  // ---- Read-backs --------------------------------------------------------------------------

  datatype Readback = Yes | No | Unclear

  /** A link shows the address as text if it has it with that prefix length. */
  lemma ShownAsText(link: Link, expected: string)
    requires AddressShown(link, expected)
    ensures exists a :: a in link.addresses && a.0 + "/" + Decimal(a.1) == expected
  {
    var slash := Find(expected, '/');
    var a :| a in link.addresses && a.0 == expected[..slash] && Decimal(a.1) == expected[slash + 1..];
    assert expected == expected[..slash] + "/" + expected[slash + 1..];
  }

  method VerifyAddress(runner: Runner, name: string, address: Option<string>) returns (r: Readback)
    ensures r == Yes && address.Some? ==>
              && name in runner.links
              && exists a :: a in runner.links[name].addresses && a.0 + "/" + Decimal(a.1) == address.value
    ensures r == Yes ==> HasAddress(runner.links, name, address)
    ensures r == No ==> !HasAddress(runner.links, name, address)
  {
    if address == None {
      return Yes;
    }
    var shown := runner.ShowLink(name);
    if shown.Present? && AddressShown(shown.link, address.value) {
      ShownAsText(shown.link, address.value);
      return Yes;
    }
    return if shown == NoAnswer then Unclear else No;
  }

  method VerifyBridge(runner: Runner, s: Spec) returns (r: Readback)
    requires s.kind.Bridge?
    ensures r == Yes ==>
              && s.name in runner.links && runner.links[s.name].kind == BridgeLink && runner.links[s.name].up
              && forall p :: p in s.kind.ports ==> p in runner.links && runner.links[p].master == Some(s.name)
    ensures r == Yes && s.address.Some? ==>
              && s.name in runner.links
              && exists a :: a in runner.links[s.name].addresses && a.0 + "/" + Decimal(a.1) == s.address.value
    ensures r == Yes ==> BridgeShown(runner.links, s)
    ensures r == No ==> !BridgeShown(runner.links, s)
  {
    var shown := runner.ShowLink(s.name);
    if shown == NoAnswer {
      return Unclear;
    }
    if !shown.Present? || shown.link.kind != BridgeLink || !shown.link.up {
      return No;
    }
    var members := runner.ShowMembers(s.name);
    if members == None {
      return Unclear;
    }
    if exists p :: p in s.kind.ports && p !in members.value {
      return No;
    }
    r := VerifyAddress(runner, s.name, s.address);
  }

  method VerifyVlan(runner: Runner, s: Spec) returns (r: Readback)
    requires s.kind.Vlan?
    ensures r == Yes ==>
              && s.name in runner.links && runner.links[s.name].kind.VlanLink?
              && runner.links[s.name].kind.vid == s.kind.vid && runner.links[s.name].up
    ensures r == Yes && s.address.Some? ==>
              && s.name in runner.links
              && exists a :: a in runner.links[s.name].addresses && a.0 + "/" + Decimal(a.1) == s.address.value
    ensures r == Yes ==> VlanShown(runner.links, s)
    ensures r == No ==> !VlanShown(runner.links, s)
  {
    var shown := runner.ShowLink(s.name);
    if shown == NoAnswer {
      return Unclear;
    }
    if !shown.Present? || !shown.link.kind.VlanLink? || shown.link.kind.vid != s.kind.vid || !shown.link.up {
      return No;
    }
    r := VerifyAddress(runner, s.name, s.address);
  }

  method VerifyPortMaster(runner: Runner, port: string, expected: Option<string>) returns (r: Readback)
    ensures r == Yes ==> port in runner.links && runner.links[port].master == expected
    ensures r == No ==> !MasterIs(runner.links, port, expected)
  {
    var shown := runner.ShowLink(port);
    return if shown == NoAnswer then Unclear
           else if shown.Present? && shown.link.master == expected then Yes
           else No;
  }

  function CauseOf(r: Readback): Option<Cause> {
    match r case Yes => None case No => Some(NotConfirmed) case Unclear => Some(Unanswered)
  }

  // ---- Applying ----------------------------------------------------------------------------

  lemma FramedTwice(a: Links, b: Links, c: Links, own: set<string>, touched: set<string>)
    requires Framed(a, b, own, touched) && Framed(b, c, own, touched)
    ensures Framed(a, c, own, touched)
  {
  }

  lemma EffectFramed(shown: string -> (string, nat), a: Links, b: Links, c: Command, own: set<string>,
                     touched: set<string>)
    requires Framed(a, b, own, touched) && Stays([c], own, touched)
    ensures Framed(a, Effect(shown, b, c), own, touched)
  {
    assert [c][0] == c;
    EffectTouches(shown, b, c);
    EffectRemasters(shown, b, c, own);
    if Grounded(b) {
      EffectKeepsGrounded(shown, b, c);
    }
  }

  /** Runs the commands in order up to the first one that fails. */
  method RunAll(runner: Runner, plan: seq<Command>, ghost name: string, ghost own: set<string>,
                ghost touched: set<string>)
    returns (ok: bool)
    requires Stays(plan, own, touched) && own <= {name}
    modifies runner
    ensures Framed(old(runner.links), runner.links, own, touched)
    ensures UsedWithin(old(runner.links), name, touched) ==> UsedWithin(runner.links, name, touched)
    ensures ok ==> runner.issued == old(runner.issued) + plan
    ensures !runner.faulty ==> !old(runner.faulty) && ok && runner.links == After(runner.shown, old(runner.links), plan)
  {
    ghost var goal := After(runner.shown, runner.links, plan);
    for k := 0 to |plan|
      invariant Framed(old(runner.links), runner.links, own, touched)
      invariant UsedWithin(old(runner.links), name, touched) ==> UsedWithin(runner.links, name, touched)
      invariant runner.issued == old(runner.issued) + plan[..k]
      invariant !runner.faulty ==> !old(runner.faulty) && After(runner.shown, runner.links, plan[k..]) == goal
    {
      EffectFramed(runner.shown, old(runner.links), runner.links, plan[k], own, touched);
      if UsedWithin(runner.links, name, touched) {
        EffectKeepsUse(runner.shown, runner.links, plan[k], name, touched);
      }
      assert plan[..k + 1] == plan[..k] + [plan[k]] && plan[k..][1..] == plan[k + 1..];
      var r := runner.Run(plan[k]);
      if r != Zero {
        return false;
      }
    }
    assert plan[..|plan|] == plan;
    return true;
  }

  /** None means the read-back confirmed the specification. */
  method ApplyRuntime(runner: Runner, s: Spec) returns (r: Option<Cause>)
    requires UsedWithin(runner.links, s.name, Touched(s))
    modifies runner
    ensures Framed(old(runner.links), runner.links, {s.name}, Touched(s))
    ensures UsedWithin(runner.links, s.name, Touched(s))
    ensures r == None ==> Confirmed(runner.links, s) && runner.issued == old(runner.issued) + Plan(s)
    ensures r == None && !runner.faulty && s.name !in old(runner.links) && (s.kind.Bridge? ==> s.name !in s.kind.ports)
            ==> AsAsked(runner.links, s)
    ensures r == Some(CommandFailed) ==> runner.faulty
    ensures r == Some(NotConfirmed) && !runner.faulty ==> !Confirmed(After(runner.shown, old(runner.links), Plan(s)), s)
    ensures old(runner.faulty) ==> runner.faulty
  {
    PlanStays(s);
    var ok := RunAll(runner, Plan(s), s.name, {s.name}, Touched(s));
    if !ok {
      return Some(CommandFailed);
    }
    var shown: Readback;
    if s.kind.Bridge? {
      shown := VerifyBridge(runner, s);
    } else {
      shown := VerifyVlan(runner, s);
    }
    if shown == Yes && !runner.faulty && s.name !in old(runner.links) && (s.kind.Bridge? ==> s.name !in s.kind.ports) {
      PlanBrings(runner.shown, old(runner.links), s);
    }
    return CauseOf(shown);
  }

  /** Deletes a link that was just created; succeeds only if the read-back no longer finds it. */
  method RollbackCreated(runner: Runner, name: string, ghost touched: set<string>) returns (ok: bool)
    requires UsedWithin(runner.links, name, touched) && name in touched
    modifies runner
    ensures Framed(old(runner.links), runner.links, {name}, touched)
    ensures ok ==> name !in runner.links
    ensures old(runner.faulty) ==> runner.faulty
  {
    EffectTouches(runner.shown, runner.links, DeleteLink(name));
    DeleteAlone(runner.shown, runner.links, name, touched);
    var r := runner.Run(DeleteLink(name));
    if r == Broken {
      return false;
    }
    var shown := runner.ShowLink(name);
    return shown == Absent;
  }

  // ---- Creating a bridge or a VLAN ---------------------------------------------------------

  /** Brings a specification up that was just written; if that fails, deletes the link and restores the
      directory that `snapshot` was taken of. */
  method BringUp(runner: Runner, store: IfupdownStore, s: Spec, snapshot: Snapshot, undo: Fault) returns (r: Txn)
    requires UsedWithin(runner.links, s.name, {}) && s.name !in runner.links
    modifies runner, store
    ensures Framed(old(runner.links), runner.links, {s.name}, Touched(s))
    ensures r == Done ==> store.dir == old(store.dir) && Confirmed(runner.links, s)
    ensures r == Done ==> runner.issued == old(runner.issued) + Plan(s)
    ensures r == Done && !runner.faulty && (s.kind.Bridge? ==> s.name !in s.kind.ports) ==> AsAsked(runner.links, s)
    ensures r.Failed? ==> r.failure.ApplyFailed? || r.failure == RollbackFailed
    ensures r.Failed? && r.failure != RollbackFailed ==>
              store.dir == RolledBack(old(store.dir), snapshot) && s.name !in runner.links
    ensures store.dir == old(store.dir) || store.dir == RolledBack(old(store.dir), snapshot)
    ensures r == Failed(ApplyFailed(CommandFailed)) ==> runner.faulty
    ensures r == Failed(ApplyFailed(NotConfirmed)) && !runner.faulty ==>
              !Confirmed(After(runner.shown, old(runner.links), Plan(s)), s)
  {
    var applied := ApplyRuntime(runner, s);
    if applied == None {
      return Done;
    }
    ghost var brought := runner.links;
    var linkGone := RollbackCreated(runner, s.name, Touched(s));
    FramedTwice(old(runner.links), brought, runner.links, {s.name}, Touched(s));
    var restored := store.Rollback(snapshot, undo);
    return Failed(if linkGone && restored then ApplyFailed(applied.value) else RollbackFailed);
  }

  /** What is checked before anything is written: no port of a bridge owns a default route, and the link does
      not exist yet. */
  method CheckNew(runner: Runner, s: Spec, routes: Option<set<string>>) returns (refused: Option<Failure>)
    ensures refused == None ==> s.name !in runner.links
    ensures refused == None && s.kind.Bridge? ==> routes.Some? && forall p :: p in s.kind.ports ==> p !in routes.value
    ensures refused == Some(RoutesUnreadable) ==> s.kind.Bridge? && routes == None
    ensures refused == Some(Protected) ==>
              s.kind.Bridge? && routes.Some? && exists p :: p in s.kind.ports && p in routes.value
    ensures refused == Some(AlreadyExists) ==> s.name in runner.links
    ensures refused in {None, Some(RoutesUnreadable), Some(Protected), Some(NoReadback), Some(AlreadyExists)}
  {
    if s.kind.Bridge? {
      refused := ManagementCheck(routes, set p | p in s.kind.ports);
      if refused != None {
        return;
      }
    }
    var shown := runner.ShowLink(s.name);
    return if shown == NoAnswer then Some(NoReadback) else if shown.Present? then Some(AlreadyExists) else None;
  }

  /** All or nothing: success means the stored specification and the read-back links agree; a failure
      other than a failed rollback leaves the directory as it was, except exactly when the write
      itself happened and only its directory sync failed, and the link does not exist, as before. */
  method Create(runner: Runner, store: IfupdownStore, s: Spec, routes: Option<set<string>>, write: Fault, undo: Fault)
    returns (r: Txn)
    requires UsedWithin(runner.links, s.name, {}) || s.name in runner.links
    modifies runner, store
    ensures LinkMade(store.f, s, State(old(store.dir), old(runner.links)), write, r, State(store.dir, runner.links))
    ensures r == Done ==> runner.issued == old(runner.issued) + Plan(s) && s.name !in old(runner.links)
    ensures r == Done && s.kind.Bridge? ==> routes.Some? && forall p :: p in s.kind.ports ==> p !in routes.value
    ensures r == Done && !runner.faulty && s.kind.Bridge? && s.name !in s.kind.ports ==>
              && s.name in runner.links && runner.links[s.name].up && runner.links[s.name].stp == s.kind.stp
              && forall p :: p in s.kind.ports ==>
                   p in runner.links && runner.links[p].up && runner.links[p].master == Some(s.name)
    ensures r == Done && !runner.faulty && s.kind.Vlan? ==>
              && s.name in runner.links && runner.links[s.name].up
              && runner.links[s.name].kind == VlanLink(s.kind.parent, s.kind.vid)
    ensures r.Failed? && !r.failure.ApplyFailed? && r.failure != RollbackFailed ==> runner.issued == old(runner.issued)
    ensures r == Failed(AlreadyExists) ==> s.name in old(runner.links)
    ensures r == Failed(RoutesUnreadable) ==> s.kind.Bridge? && routes == None
    ensures r == Failed(Protected) ==>
              s.kind.Bridge? && routes.Some? && exists p :: p in s.kind.ports && p in routes.value
    ensures r.Failed? && r.failure.InStore? && r.failure.error != WriteFailed ==>
              WriteRefused(store.f, store.main, old(store.dir), s, false, r.failure.error)
    ensures r == Failed(InStore(WriteFailed)) ==> write != NoFault
    ensures r == Failed(ApplyFailed(CommandFailed)) ==> runner.faulty
    ensures r == Failed(ApplyFailed(NotConfirmed)) && !runner.faulty ==>
              s.name !in old(runner.links) && !Confirmed(After(runner.shown, old(runner.links), Plan(s)), s)
    ensures r.Failed? && r.failure != RollbackFailed ==>
              (store.dir == old(store.dir) <==> !(r.failure == InStore(WriteFailed) && write == AfterChange))
    ensures Evolves(store.f, store.main, old(store.dir), store.dir)
  {
    var refused := CheckNew(runner, s, routes);
    if refused != None {
      return Failed(refused.value);
    }
    ghost var before := store.dir;
    var written := store.Write(s, false, write);
    if written.Err? {
      return Failed(InStore(written.error));
    }
    RollbackUndoesWrite(store.f, store.main, before, s, false);
    r := BringUp(runner, store, s, written.value, undo);
  }

  // ---- Destroying --------------------------------------------------------------------------

  /** Deletes a link whose file was just removed; restores the directory that `snapshot` was taken of if the
      link is not confirmed to be gone. */
  method TakeDown(runner: Runner, store: IfupdownStore, name: string, snapshot: Snapshot, undo: Fault) returns (r: Txn)
    modifies runner, store
    ensures Grounded(old(runner.links)) ==> Grounded(runner.links)
    ensures || runner.links == old(runner.links)
            || runner.links == Effect(runner.shown, old(runner.links), DeleteLink(name))
    ensures r == Done ==> store.dir == old(store.dir) && name !in runner.links
    ensures r == Failed(DeleteFailed) || r == Failed(StillThere) ==> runner.faulty
    ensures runner.issued == old(runner.issued) + [DeleteLink(name)]
    ensures r.Failed? ==> !r.failure.InStore?
    ensures r.Failed? && r.failure != RestoreFailed ==> store.dir == RolledBack(old(store.dir), snapshot)
    ensures store.dir == old(store.dir) || store.dir == RolledBack(old(store.dir), snapshot)
  {
    ghost var before := runner.links;
    var deleted := runner.Run(DeleteLink(name));
    var failure := DeleteFailed;
    if deleted == Zero {
      var shown := runner.ShowLink(name);
      if shown == Absent {
        return Done;
      }
      failure := if shown == NoAnswer then NoReadback else StillThere;
    }
    Gone(runner.shown, before, name);
    var restored := store.Rollback(snapshot, undo);
    return Failed(if restored then failure else RestoreFailed);
  }

  lemma Gone(shown: string -> (string, nat), links: Links, name: string)
    ensures name !in Effect(shown, links, DeleteLink(name))
  {
    StackedClosed(links, {name});
  }

  /** Removes the managed file, deletes the link and reads back; restores the file on any failure. */
  method RemoveManaged(runner: Runner, store: IfupdownStore, name: string, remove: Fault, undo: Fault) returns (r: Txn)
    requires LoadFrom(store.f, store.dir, name).Ok?
    modifies runner, store
    ensures Grounded(old(runner.links)) ==> Grounded(runner.links)
    ensures r == Done ==> store.dir == Without(store.f, old(store.dir), name) && name !in runner.links
    ensures r == Failed(DeleteFailed) || r == Failed(StillThere) ==> runner.faulty
    ensures r == Done ==>
              Removable(store.f, old(store.dir), name) && runner.issued == old(runner.issued) + [DeleteLink(name)]
    ensures r.Failed? && r.failure != RestoreFailed ==>
              (store.dir == old(store.dir) <==> !(r.failure == InStore(RemoveFailed) && remove == AfterChange))
    ensures r.Failed? && r.failure.InStore? && r.failure.error != RemoveFailed ==>
              RemovalRefused(store.f, old(store.dir), name, r.failure.error)
    ensures LinkDropped(store.f, runner.shown, name, State(old(store.dir), old(runner.links)), remove, r,
                        State(store.dir, runner.links))
    ensures SameExcept(old(runner.links), runner.links, Affected(old(runner.links), name))
    ensures Evolves(store.f, store.main, old(store.dir), store.dir)
  {
    ghost var before := store.dir;
    var removed := store.Remove(name, remove);
    if removed.Err? {
      return Failed(InStore(removed.error));
    }
    RollbackUndoesRemoval(store.f, before, name);
    EffectTouches(runner.shown, runner.links, DeleteLink(name));
    r := TakeDown(runner, store, name, removed.value, undo);
  }

  predicate StoredKind(f: Format, dir: Dir, name: string, bridge: bool) {
    var loaded := LoadFrom(f, dir, name);
    loaded.Ok? && loaded.value.kind.Bridge? == bridge
  }

  /** Destroys a managed bridge that has no members. */
  method DestroyBridge(runner: Runner, store: IfupdownStore, name: string, routes: Option<set<string>>,
                       remove: Fault, undo: Fault)
    returns (r: Txn)
    modifies runner, store
    ensures Grounded(old(runner.links)) ==> Grounded(runner.links)
    ensures r == Done ==> store.dir == Without(store.f, old(store.dir), name) && name !in runner.links
    ensures r == Done ==> StoredKind(store.f, old(store.dir), name, true) && Members(old(runner.links), name) == {}
    ensures r == Done ==> runner.issued == old(runner.issued) + [DeleteLink(name)]
    ensures r == Done ==> routes.Some? && name !in routes.value
    ensures r.Failed? && r.failure != RestoreFailed ==>
              (store.dir == old(store.dir) <==> !(r.failure == InStore(RemoveFailed) && remove == AfterChange))
    ensures LinkDropped(store.f, runner.shown, name, State(old(store.dir), old(runner.links)), remove, r,
                        State(store.dir, runner.links))
    ensures SameExcept(old(runner.links), runner.links, Affected(old(runner.links), name))
    ensures Evolves(store.f, store.main, old(store.dir), store.dir)
  {
    var loaded := store.Load(name);
    if loaded.Err? {
      return Failed(InStore(loaded.error));
    }
    if !loaded.value.kind.Bridge? {
      return Failed(KindMismatch);
    }
    var refused := ManagementCheck(routes, {name});
    if refused != None {
      return Failed(refused.value);
    }
    var members := runner.ShowMembers(name);
    if members == None {
      return Failed(NoReadback);
    }
    if members.value != {} {
      return Failed(InUse);
    }
    r := RemoveManaged(runner, store, name, remove, undo);
  }

  method DestroyVlan(runner: Runner, store: IfupdownStore, name: string, routes: Option<set<string>>,
                     remove: Fault, undo: Fault)
    returns (r: Txn)
    modifies runner, store
    ensures Grounded(old(runner.links)) ==> Grounded(runner.links)
    ensures r == Done ==> store.dir == Without(store.f, old(store.dir), name) && name !in runner.links
    ensures r == Done ==> StoredKind(store.f, old(store.dir), name, false)
    ensures r == Done ==> runner.issued == old(runner.issued) + [DeleteLink(name)]
    ensures r == Done ==> routes.Some? && name !in routes.value
    ensures r.Failed? && r.failure != RestoreFailed ==>
              (store.dir == old(store.dir) <==> !(r.failure == InStore(RemoveFailed) && remove == AfterChange))
    ensures LinkDropped(store.f, runner.shown, name, State(old(store.dir), old(runner.links)), remove, r,
                        State(store.dir, runner.links))
    ensures SameExcept(old(runner.links), runner.links, Affected(old(runner.links), name))
    ensures Evolves(store.f, store.main, old(store.dir), store.dir)
  {
    var loaded := store.Load(name);
    if loaded.Err? {
      return Failed(InStore(loaded.error));
    }
    if !loaded.value.kind.Vlan? {
      return Failed(KindMismatch);
    }
    var refused := ManagementCheck(routes, {name});
    if refused != None {
      return Failed(refused.value);
    }
    r := RemoveManaged(runner, store, name, remove, undo);
  }

  // ---- Attaching and detaching ports -------------------------------------------------------

  lemma {:induction false} WithoutPort(ports: seq<string>, port: string)
    ensures port !in Detached(ports, port)
    ensures forall p :: p != port ==> (p in Detached(ports, port) <==> p in ports)
    ensures port !in ports ==> Detached(ports, port) == ports
  {
    if ports != [] {
      WithoutPort(ports[1..], port);
      assert ports == [ports[0]] + ports[1..];
    }
  }

  /** The other ports keep their order. */
  lemma {:induction false} DetachedMore(ports: seq<string>, last: string, port: string)
    ensures Detached(ports + [last], port) == Detached(ports, port) + if last == port then [] else [last]
  {
    if ports == [] {
      assert [last][1..] == [];
    } else {
      assert (ports + [last])[1..] == ports[1..] + [last];
      DetachedMore(ports[1..], last, port);
    }
  }

  /** Runs commands on one port and confirms its master. */
  method Attach(runner: Runner, port: string, plan: seq<Command>, expected: Option<string>) returns (r: Option<Cause>)
    requires Stays(plan, {}, {port})
    modifies runner
    ensures Framed(old(runner.links), runner.links, {}, {port})
    ensures r == None ==> MasterIs(runner.links, port, expected) && runner.issued == old(runner.issued) + plan
    ensures r == Some(CommandFailed) ==> runner.faulty
    ensures r == Some(NotConfirmed) && !runner.faulty ==>
              !MasterIs(After(runner.shown, old(runner.links), plan), port, expected)
    ensures old(runner.faulty) ==> runner.faulty
  {
    var ok := RunAll(runner, plan, port, {}, {port});
    if !ok {
      return Some(CommandFailed);
    }
    var shown := VerifyPortMaster(runner, port, expected);
    return CauseOf(shown);
  }

  /** Moves a port whose bridge's new specification was just written; if that is not confirmed, moves it back
      and restores the directory that `snapshot` was taken of. */
  method MoveOrUndo(runner: Runner, store: IfupdownStore, port: string, plan: seq<Command>, want: Option<string>,
                    back: Command, was: Option<string>, snapshot: Snapshot, undo: Fault) returns (r: Txn)
    requires Stays(plan, {}, {port}) && Stays([back], {}, {port})
    modifies runner, store
    ensures Framed(old(runner.links), runner.links, {}, {port})
    ensures r == Done ==> store.dir == old(store.dir) && MasterIs(runner.links, port, want)
    ensures r == Done ==> runner.issued == old(runner.issued) + plan
    ensures r.Failed? ==> r.failure.ApplyFailed? || r.failure == RollbackFailed
    ensures r == Failed(ApplyFailed(CommandFailed)) ==> runner.faulty
    ensures r == Failed(ApplyFailed(NotConfirmed)) && !runner.faulty ==>
              !MasterIs(After(runner.shown, old(runner.links), plan), port, want)
    ensures r.Failed? && r.failure != RollbackFailed ==>
              store.dir == RolledBack(old(store.dir), snapshot) && MasterIs(runner.links, port, was)
    ensures store.dir == old(store.dir) || store.dir == RolledBack(old(store.dir), snapshot)
  {
    var applied := Attach(runner, port, plan, want);
    if applied == None {
      return Done;
    }
    ghost var tried := runner.links;
    var moved := Attach(runner, port, [back], was);
    FramedTwice(old(runner.links), tried, runner.links, {}, {port});
    var restored := store.Rollback(snapshot, undo);
    return Failed(if moved == None && restored then ApplyFailed(applied.value) else RollbackFailed);
  }

  /** Replaces the stored specification, moves the port from master `was` to `want`, and undoes both if
      that is not confirmed. */
  method MovePort(runner: Runner, store: IfupdownStore, s: Spec, port: string, plan: seq<Command>, want: Option<string>,
                  back: Command, was: Option<string>, write: Fault, undo: Fault) returns (r: Txn)
    requires Stays(plan, {}, {port}) && Stays([back], {}, {port}) && MasterIs(runner.links, port, was)
    requires store.f.valid(s) ==> Stored(store.f, store.dir, s) != store.dir
    modifies runner, store
    ensures r == Done ==> runner.issued == old(runner.issued) + plan
    ensures r == Failed(ApplyFailed(CommandFailed)) ==> runner.faulty
    ensures r == Failed(ApplyFailed(NotConfirmed)) && !runner.faulty ==>
              !MasterIs(After(runner.shown, old(runner.links), plan), port, want)
    ensures r.Failed? && r.failure != RollbackFailed ==>
              (store.dir == old(store.dir) <==> !(r.failure == InStore(WriteFailed) && write == AfterChange))
    ensures PortMoved(store.f, s, port, was, want, State(old(store.dir), old(runner.links)), write, r,
                      State(store.dir, runner.links))
    ensures r.Failed? && r.failure.InStore? && r.failure.error != WriteFailed ==>
              WriteRefused(store.f, store.main, old(store.dir), s, true, r.failure.error)
    ensures Evolves(store.f, store.main, old(store.dir), store.dir)
  {
    ghost var before := store.dir;
    var written := store.Write(s, true, write);
    if written.Err? {
      return Failed(InStore(written.error));
    }
    RollbackUndoesWrite(store.f, store.main, before, s, true);
    r := MoveOrUndo(runner, store, port, plan, want, back, was, written.value, undo);
  }

  /** What both commands check before they change anything: the port owns no default route, the bridge is a
      managed one that lists the port exactly if it is `attached`, and the kernel agrees. */
  method CheckPort(runner: Runner, store: IfupdownStore, bridge: string, port: string, routes: Option<set<string>>,
                   attached: bool)
    returns (refused: Option<Failure>, s: Spec)
    ensures refused == None ==> routes.Some? && port !in routes.value && LoadFrom(store.f, store.dir, bridge) == Ok(s)
    ensures refused == None ==> s.kind.Bridge? && (port in s.kind.ports <==> attached)
    ensures refused == None ==> MasterIs(runner.links, port, if attached then Some(bridge) else None)
    ensures refused == Some(RoutesUnreadable) ==> routes == None
    ensures refused == Some(Protected) ==> routes.Some? && port in routes.value
    ensures refused == Some(KindMismatch) ==> LoadFrom(store.f, store.dir, bridge) == Ok(s) && !s.kind.Bridge?
    ensures refused.Some? && refused.value.InStore? ==> LoadFrom(store.f, store.dir, bridge) == Err(refused.value.error)
    ensures refused == Some(AlreadyAttached) || refused == Some(NotAttached) ==>
              LoadFrom(store.f, store.dir, bridge) == Ok(s) && s.kind.Bridge? && (port in s.kind.ports <==> !attached)
    ensures refused == Some(InUse) || refused == Some(StateMismatch) ==>
              !MasterIs(runner.links, port, if attached then Some(bridge) else None)
    ensures refused.Some? ==> !refused.value.ApplyFailed? && refused.value != RollbackFailed
    ensures refused != Some(InStore(WriteFailed))
  {
    s := Spec("", None, Vlan("", 0));
    refused := ManagementCheck(routes, {port});
    if refused != None {
      return;
    }
    var loaded := store.Load(bridge);
    if loaded.Err? {
      return Some(InStore(loaded.error)), s;
    }
    s := loaded.value;
    if !s.kind.Bridge? {
      return Some(KindMismatch), s;
    }
    if (port in s.kind.ports) != attached {
      return Some(if attached then NotAttached else AlreadyAttached), s;
    }
    var shown := runner.ShowLink(port);
    if !shown.Present? {
      return Some(NoReadback), s;
    }
    if shown.link.master != if attached then Some(bridge) else None {
      return Some(if attached then StateMismatch else InUse), s;
    }
    return None, s;
  }

  lemma AttachesIff(shown: string -> (string, nat), links: Links, port: string, bridge: string)
    requires MasterIs(links, port, None)
    ensures MasterIs(After(shown, links, [SetMaster(port, bridge), SetUp(port)]), port, Some(bridge))
            <==> bridge in links
  {
    AfterTwo(shown, links, SetMaster(port, bridge), SetUp(port));
  }

  lemma Unplugs(shown: string -> (string, nat), links: Links, s: Spec, port: string)
    requires port in links && s.kind.Bridge? && port in s.kind.ports
    ensures MasterIs(After(shown, links, [NoMaster(port)]), port, None) && Unplugged(s, port) != s
  {
    AfterOne(shown, links, NoMaster(port));
    WithoutPort(s.kind.ports, port);
  }

  lemma StoringChanges(f: Format, dir: Dir, s: Spec, t: Spec)
    requires SoundFormat(f) && LoadFrom(f, dir, s.name) == Ok(t) && s != t
    ensures f.valid(s) ==> Stored(f, dir, s) != dir
  {
    if f.valid(s) {
      StoredLoads(f, dir, s);
    }
  }

  /** Attaches a free port to a managed bridge. */
  method PortAdd(runner: Runner, store: IfupdownStore, bridge: string, port: string, routes: Option<set<string>>,
                 write: Fault, undo: Fault)
    returns (r: Txn, s: Spec)
    requires SoundFormat(store.f)
    modifies runner, store
    ensures PortAdded(store.f, bridge, port, s, State(old(store.dir), old(runner.links)), write, r,
                      State(store.dir, runner.links))
    ensures r == Done ==> runner.issued == old(runner.issued) + [SetMaster(port, bridge), SetUp(port)]
    ensures r == Done ==>
              && s.kind.Bridge?
              && store.dir == Stored(store.f, old(store.dir), s.(kind := Bridge(s.kind.ports + [port], s.kind.stp)))
    ensures r == Done ==> routes.Some? && port !in routes.value
    ensures r == Failed(ApplyFailed(CommandFailed)) ==> runner.faulty
    ensures r == Failed(ApplyFailed(NotConfirmed)) && !runner.faulty ==> bridge !in old(runner.links)
    ensures r.Failed? && r.failure != RollbackFailed ==>
              (store.dir == old(store.dir) <==> !(r.failure == InStore(WriteFailed) && write == AfterChange))
    ensures Evolves(store.f, store.main, old(store.dir), store.dir)
  {
    var refused;
    refused, s := CheckPort(runner, store, bridge, port, routes, false);
    if refused != None {
      return Failed(refused.value), s;
    }
    AttachesIff(runner.shown, runner.links, port, bridge);
    StoringChanges(store.f, store.dir, Plugged(s, port), s);
    r := MovePort(runner, store, Plugged(s, port), port, [SetMaster(port, bridge), SetUp(port)], Some(bridge),
                  NoMaster(port), None, write, undo);
  }

  /** Detaches a port from its managed bridge. */
  method PortRemove(runner: Runner, store: IfupdownStore, bridge: string, port: string, routes: Option<set<string>>,
                    write: Fault, undo: Fault)
    returns (r: Txn, s: Spec)
    requires SoundFormat(store.f)
    modifies runner, store
    ensures PortRemoved(store.f, bridge, port, s, State(old(store.dir), old(runner.links)), write, r,
                        State(store.dir, runner.links))
    ensures r == Done ==> runner.issued == old(runner.issued) + [NoMaster(port)]
    ensures r == Done ==>
              && s.kind.Bridge?
              && store.dir
                 == Stored(store.f, old(store.dir), s.(kind := Bridge(Detached(s.kind.ports, port), s.kind.stp)))
    ensures r == Done ==> routes.Some? && port !in routes.value
    ensures r == Failed(ApplyFailed(CommandFailed)) || r == Failed(ApplyFailed(NotConfirmed)) ==> runner.faulty
    ensures r.Failed? && r.failure != RollbackFailed ==>
              (store.dir == old(store.dir) <==> !(r.failure == InStore(WriteFailed) && write == AfterChange))
    ensures Evolves(store.f, store.main, old(store.dir), store.dir)
  {
    var refused;
    refused, s := CheckPort(runner, store, bridge, port, routes, true);
    if refused != None {
      return Failed(refused.value), s;
    }
    Unplugs(runner.shown, runner.links, s, port);
    StoringChanges(store.f, store.dir, Unplugged(s, port), s);
    r := MovePort(runner, store, Unplugged(s, port), port, [NoMaster(port)], None, SetMaster(port, bridge),
                  Some(bridge),
                  write, undo);
  }
}
