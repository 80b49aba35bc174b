/** The store of managed interface files in the ifupdown configuration directory. A change is one
    rename or unlink followed by a directory sync; either can fail. */
module IfupdownStores {
  import opened Bytes
  import opened InterfaceConfigs

  /** The file format as the store uses it: names, validation, rendering, and reading. */
  datatype Format = Format(
    ifName: string -> bool,
    fileName: string -> string,
    valid: Spec -> bool,
    render: Spec -> string,
    managed: string -> bool,
    parse: (string, string) -> Parsed,
    defines: (string, string) -> bool)

  /** What the store relies on: file names identify interfaces, a rendered file loads as what was
      rendered and defines exactly its own interface. */
  ghost predicate SoundFormat(f: Format) {
    NamesFiles(f) && ParsesNamed(f) && LoadsRendered(f) && DefinesRendered(f)
  }

  ghost predicate ParsesNamed(f: Format) {
    forall c, name, s :: f.parse(c, name) == Loaded(s) ==> s.name == name && f.valid(s)
  }

  ghost predicate NamesFiles(f: Format) {
    && (forall a, b :: f.fileName(a) == f.fileName(b) ==> a == b)
    && (forall s :: f.valid(s) ==> f.ifName(s.name))
  }

  ghost predicate LoadsRendered(f: Format) {
    forall s :: f.valid(s) ==> f.managed(f.render(s)) && f.parse(f.render(s), s.name) == Loaded(s)
  }

  ghost predicate DefinesRendered(f: Format) {
    forall s, name :: f.valid(s) ==> (f.defines(f.render(s), name) <==> name == s.name)
  }

  /** A directory entry: a regular file with readable UTF-8 text of bounded size, a regular file
      without, or something that is not a regular file. */
  datatype File = Regular(content: string) | Unreadable | Other

  type Dir = map<string, File>

  datatype Snapshot = Snapshot(path: string, previous: Option<string>)

  /** How a change fails: before it happens, or in the directory sync after it happened. */
  datatype Fault = NoFault | BeforeChange | AfterChange

  datatype StoreError =
    | BadName | BadSpec | Conflict | AlreadyManaged | NotReadable | NotPmxManaged | Unparsed(error: ConfigError)
    | WriteFailed | RemoveFailed

  datatype Result<+T> = Ok(value: T) | Err(error: StoreError)

  /** No file but the interface's own one defines it, and every other file could be checked. */
  predicate NoForeign(f: Format, main: File, dir: Dir, name: string) {
    && main.Regular? && !f.defines(main.content, name)
    && forall p :: p in dir && p != f.fileName(name) && !dir[p].Other? ==>
         dir[p].Regular? && !f.defines(dir[p].content, name)
  }

  predicate HasManaged(f: Format, dir: Dir, path: string) {
    path in dir && dir[path].Regular? && f.managed(dir[path].content)
  }

  predicate Writable(f: Format, main: File, dir: Dir, s: Spec, replace: bool) {
    var path := f.fileName(s.name);
    && f.valid(s) && NoForeign(f, main, dir, s.name)
    && (path in dir ==> replace && HasManaged(f, dir, path))
  }

  predicate Removable(f: Format, dir: Dir, name: string) {
    f.ifName(name) && HasManaged(f, dir, f.fileName(name))
  }

  /** Why a write is refused, with each error's reason. */
  predicate WriteRefused(f: Format, main: File, dir: Dir, s: Spec, replace: bool, e: StoreError) {
    var path := f.fileName(s.name);
    match e
    case BadSpec => !f.valid(s)
    case Conflict => !NoForeign(f, main, dir, s.name)
    case NotReadable => path in dir && !dir[path].Regular?
    case NotPmxManaged => path in dir && dir[path].Regular? && !f.managed(dir[path].content)
    case AlreadyManaged => HasManaged(f, dir, path) && !replace
    case _ => false
  }

  predicate RemovalRefused(f: Format, dir: Dir, name: string, e: StoreError) {
    var path := f.fileName(name);
    match e
    case BadName => !f.ifName(name)
    case NotReadable => path !in dir || !dir[path].Regular?
    case NotPmxManaged => path in dir && dir[path].Regular? && !f.managed(dir[path].content)
    case _ => false
  }

  function Stored(f: Format, dir: Dir, s: Spec): Dir {
    dir[f.fileName(s.name) := Regular(f.render(s))]
  }

  function Without(f: Format, dir: Dir, name: string): Dir {
    dir - {f.fileName(name)}
  }

  function SnapshotOf(f: Format, dir: Dir, name: string): Snapshot {
    var path := f.fileName(name);
    Snapshot(path, if path in dir && dir[path].Regular? then Some(dir[path].content) else None)
  }

  function RolledBack(dir: Dir, snapshot: Snapshot): Dir {
    match snapshot.previous
    case Some(content) => dir[snapshot.path := Regular(content)]
    case None => dir - {snapshot.path}
  }

  function LoadFrom(f: Format, dir: Dir, name: string): Result<Spec> {
    var path := f.fileName(name);
    if !f.ifName(name) then Err(BadName)
    else if path !in dir || !dir[path].Regular? then Err(NotReadable)
    else match f.parse(dir[path].content, name)
      case Loaded(s) => Ok(s)
      case Rejected(NotManaged) => Err(NotPmxManaged)
      case Rejected(e) => Err(Unparsed(e))
  }

  class IfupdownStore {
    const f: Format
    const main: File
    var dir: Dir

    constructor (f: Format, main: File, dir: Dir)
      ensures this.f == f && this.main == main && this.dir == dir
    {
      this.f := f;
      this.main := main;
      this.dir := dir;
    }

    /** Scans the main file, then the directory's other regular files, in any order. */
    method NoForeignDefinition(name: string) returns (ok: bool)
      ensures ok == NoForeign(f, main, dir, name)
      ensures
        ok <==>
          && main.Regular? && !f.defines(main.content, name)
          && forall p :: p in dir && p != f.fileName(name) ==>
               dir[p] == Other || (dir[p].Regular? && !f.defines(dir[p].content, name))
    {
      if !main.Regular? || f.defines(main.content, name) {
        return false;
      }
      var todo := dir.Keys;
      while todo != {}
        invariant todo <= dir.Keys
        invariant forall p :: p in dir.Keys - todo && p != f.fileName(name) && !dir[p].Other? ==>
                    dir[p].Regular? && !f.defines(dir[p].content, name)
        decreases todo
      {
        var p :| p in todo;
        todo := todo - {p};
        if p == f.fileName(name) || dir[p].Other? {
          continue;
        }
        if !dir[p].Regular? || f.defines(dir[p].content, name) {
          return false;
        }
      }
      return true;
    }

    /** Writes a specification's file; without `replace` only a file that does not exist yet. */
    method Write(s: Spec, replace: bool, fault: Fault) returns (r: Result<Snapshot>)
      modifies this
      ensures r.Ok? <==> Writable(f, main, old(dir), s, replace) && fault == NoFault
      ensures
        var path := f.fileName(s.name);
        r.Ok? || r == Err(WriteFailed) <==>
          && f.valid(s) && NoForeign(f, main, old(dir), s.name)
          && (path in old(dir) ==> replace && old(dir)[path].Regular? && f.managed(old(dir)[path].content))
      ensures r.Ok? ==> r.value == SnapshotOf(f, old(dir), s.name)
      ensures r == Err(WriteFailed) <==> Writable(f, main, old(dir), s, replace) && fault != NoFault
      ensures r.Err? && r.error != WriteFailed ==> WriteRefused(f, main, old(dir), s, replace, r.error)
      ensures dir == if r.Ok? || (r == Err(WriteFailed) && fault == AfterChange) then Stored(f, old(dir), s)
                     else old(dir)
    {
      if !f.valid(s) {
        return Err(BadSpec);
      }
      var clear := NoForeignDefinition(s.name);
      if !clear {
        return Err(Conflict);
      }
      var path := f.fileName(s.name);
      var previous: Option<string> := None;
      if path in dir {
        if !dir[path].Regular? {
          return Err(NotReadable);
        }
        if !f.managed(dir[path].content) {
          return Err(NotPmxManaged);
        }
        if !replace {
          return Err(AlreadyManaged);
        }
        previous := Some(dir[path].content);
      }
      if fault == BeforeChange {
        return Err(WriteFailed);
      }
      dir := dir[path := Regular(f.render(s))];
      if fault == AfterChange {
        return Err(WriteFailed);
      }
      return Ok(Snapshot(path, previous));
    }

    method Remove(name: string, fault: Fault) returns (r: Result<Snapshot>)
      modifies this
      ensures r.Ok? <==> Removable(f, old(dir), name) && fault == NoFault
      ensures
        var path := f.fileName(name);
        r.Ok? || r == Err(RemoveFailed) <==>
          f.ifName(name) && path in old(dir) && old(dir)[path].Regular? && f.managed(old(dir)[path].content)
      ensures r.Ok? ==> r.value == SnapshotOf(f, old(dir), name)
      ensures r == Err(RemoveFailed) <==> Removable(f, old(dir), name) && fault != NoFault
      ensures r.Err? && r.error != RemoveFailed ==> RemovalRefused(f, old(dir), name, r.error)
      ensures dir == if r.Ok? || (r == Err(RemoveFailed) && fault == AfterChange) then Without(f, old(dir), name)
                     else old(dir)
    {
      if !f.ifName(name) {
        return Err(BadName);
      }
      var path := f.fileName(name);
      if path !in dir || !dir[path].Regular? {
        return Err(NotReadable);
      }
      var previous := dir[path].content;
      if !f.managed(previous) {
        return Err(NotPmxManaged);
      }
      if fault == BeforeChange {
        return Err(RemoveFailed);
      }
      dir := dir - {path};
      if fault == AfterChange {
        return Err(RemoveFailed);
      }
      return Ok(Snapshot(path, Some(previous)));
    }

    method Rollback(snapshot: Snapshot, fault: Fault) returns (ok: bool)
      modifies this
      ensures ok ==> dir == RolledBack(old(dir), snapshot)
      ensures !ok ==> fault != NoFault && (dir == old(dir) || dir == RolledBack(old(dir), snapshot))
    {
      if snapshot.previous == None && snapshot.path !in dir {
        return true;
      }
      if fault == BeforeChange {
        return false;
      }
      if snapshot.previous.Some? {
        dir := dir[snapshot.path := Regular(snapshot.previous.value)];
      } else {
        dir := dir - {snapshot.path};
      }
      return fault == NoFault;
    }

    method Load(name: string) returns (r: Result<Spec>)
      ensures r == LoadFrom(f, dir, name)
    {
      if !f.ifName(name) {
        return Err(BadName);
      }
      var path := f.fileName(name);
      if path !in dir || !dir[path].Regular? {
        return Err(NotReadable);
      }
      match f.parse(dir[path].content, name)
      case Loaded(s) =>
        return Ok(s);
      case Rejected(NotManaged) =>
        return Err(NotPmxManaged);
      case Rejected(e) =>
        return Err(Unparsed(e));
    }
  }

  /** Rolling back undoes a write, byte for byte. */
  lemma RollbackUndoesWrite(f: Format, main: File, dir: Dir, s: Spec, replace: bool)
    requires Writable(f, main, dir, s, replace)
    ensures RolledBack(Stored(f, dir, s), SnapshotOf(f, dir, s.name)) == dir
  {
  }

  /** Rolling back undoes a removal, byte for byte. */
  lemma RollbackUndoesRemoval(f: Format, dir: Dir, name: string)
    requires Removable(f, dir, name)
    ensures RolledBack(Without(f, dir, name), SnapshotOf(f, dir, name)) == dir
  {
  }

  /** What loading means: a specification comes out only of a readable file of its own name, valid and with
      that name; and a file rendered for a specification gives exactly that one. */
  lemma LoadMeans(f: Format, dir: Dir, name: string, s: Spec)
    requires SoundFormat(f)
    ensures
      var path := f.fileName(name);
      && (LoadFrom(f, dir, name) == Ok(s) ==>
            path in dir && dir[path].Regular? && f.ifName(name) && s.name == name && f.valid(s))
      && (f.valid(s) && s.name == name && path in dir && dir[path] == Regular(f.render(s)) ==>
            LoadFrom(f, dir, name) == Ok(s))
      && (LoadFrom(f, dir, name) == Err(BadName) <==> !f.ifName(name))
      && (LoadFrom(f, dir, name) == Err(NotReadable) <==> f.ifName(name) && (path !in dir || !dir[path].Regular?))
      && (f.ifName(name) && path in dir && dir[path].Regular? ==>
            match f.parse(dir[path].content, name)
            case Loaded(t) => LoadFrom(f, dir, name) == Ok(t)
            case Rejected(e) => LoadFrom(f, dir, name) == Err(if e == NotManaged then NotPmxManaged else Unparsed(e)))
  {
  }

  /** What was stored is loaded. */
  lemma StoredLoads(f: Format, dir: Dir, s: Spec)
    requires SoundFormat(f) && f.valid(s)
    ensures LoadFrom(f, Stored(f, dir, s), s.name) == Ok(s)
  {
  }

  // ---- Runs --------------------------------------------------------------------------------

  /** All that any sequence of writes, removals and rollbacks within one transaction can leave. */
  ghost predicate Evolves(f: Format, main: File, d: Dir, d': Dir) {
    || d' == d
    || (exists s :: f.valid(s) && NoForeign(f, main, d, s.name) && d' == Stored(f, d, s))
    || (exists name :: f.ifName(name) && d' == Without(f, d, name))
  }

  /** Every interface that has a managed file is defined by no second file. */
  ghost predicate UniquelyDefined(f: Format, main: File, d: Dir) {
    forall name :: f.ifName(name) && f.fileName(name) in d ==> NoSecond(f, main, d, name)
  }

  ghost predicate NoSecond(f: Format, main: File, d: Dir, name: string) {
    && (main.Regular? ==> !f.defines(main.content, name))
    && forall p :: p in d && p != f.fileName(name) && d[p].Regular? ==> !f.defines(d[p].content, name)
  }

  lemma StoredStaysUnique(f: Format, main: File, d: Dir, s: Spec, name: string)
    requires SoundFormat(f) && f.valid(s) && NoForeign(f, main, d, s.name) && UniquelyDefined(f, main, d)
    requires f.ifName(name) && f.fileName(name) in Stored(f, d, s)
    ensures NoSecond(f, main, Stored(f, d, s), name)
  {
    if name != s.name {
      assert f.fileName(name) != f.fileName(s.name);
      assert NoSecond(f, main, d, name);
    }
  }

  lemma EvolvesStaysUnique(f: Format, main: File, d: Dir, d': Dir)
    requires SoundFormat(f) && UniquelyDefined(f, main, d) && Evolves(f, main, d, d')
    ensures UniquelyDefined(f, main, d')
  {
    forall name | f.ifName(name) && f.fileName(name) in d' ensures NoSecond(f, main, d', name) {
      if exists s :: f.valid(s) && NoForeign(f, main, d, s.name) && d' == Stored(f, d, s) {
        var s :| f.valid(s) && NoForeign(f, main, d, s.name) && d' == Stored(f, d, s);
        StoredStaysUnique(f, main, d, s, name);
      } else {
        assert NoSecond(f, main, d, name);
      }
    }
  }

  /** Over every run of transactions no managed interface is ever defined by a second file. */
  lemma {:induction false} AlwaysUnique(f: Format, main: File, dirs: seq<Dir>, k: nat)
    requires SoundFormat(f) && k < |dirs| && UniquelyDefined(f, main, dirs[0])
    requires forall i :: 0 < i < |dirs| ==> Evolves(f, main, dirs[i - 1], dirs[i])
    ensures UniquelyDefined(f, main, dirs[k])
  {
    if k > 0 {
      AlwaysUnique(f, main, dirs, k - 1);
      EvolvesStaysUnique(f, main, dirs[k - 1], dirs[k]);
    }
  }
}

/** The concrete file format is what the store relies on. */
module ManagedFormat {
  import opened InterfaceConfigs
  import opened IfupdownStores

  function FileName(name: string): string {
    "pmx-cloud-" + name
  }

  function FormatOf(h: Host): Format {
    Format(IfName, FileName, s => Valid(h, s), s => Render(h, s), Managed, (c, name) => Parse(h, c, name), Defines)
  }

  lemma FileNameInjective(a: string, b: string)
    requires FileName(a) == FileName(b)
    ensures a == b
  {
    assert a == FileName(a)[|"pmx-cloud-"|..] && b == FileName(b)[|"pmx-cloud-"|..];
  }

  lemma FormatNamesFiles(h: Host)
    ensures NamesFiles(FormatOf(h))
  {
    forall a, b | FileName(a) == FileName(b) ensures a == b {
      FileNameInjective(a, b);
    }
  }

  lemma FormatParses(h: Host)
    ensures ParsesNamed(FormatOf(h))
  {
    forall c, name, s | Parse(h, c, name) == Loaded(s) ensures NamedAndValid(h, s, name) {
    }
  }

  lemma FormatLoads(h: Host)
    requires Sound(h)
    ensures LoadsRendered(FormatOf(h))
  {
    forall s | Valid(h, s) ensures Managed(Render(h, s)) && Parse(h, Render(h, s), s.name) == Loaded(s) {
      RenderLoads(h, s);
    }
  }

  lemma FormatDefines(h: Host)
    requires Sound(h)
    ensures DefinesRendered(FormatOf(h))
  {
    forall s, name | Valid(h, s) ensures Defines(Render(h, s), name) <==> name == s.name {
      RenderDefines(h, s, name);
    }
  }

  /** The store's guarantees hold for the concrete format. */
  lemma FormatIsSound(h: Host)
    requires Sound(h)
    ensures SoundFormat(FormatOf(h)) && FormatOf(h).fileName("vmbr0") == "pmx-cloud-vmbr0"
  {
    FormatNamesFiles(h);
    FormatParses(h);
    FormatLoads(h);
    FormatDefines(h);
  }
}
