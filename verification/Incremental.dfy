/**
 The module object cache: what one build does to the build directory, what a
 build from scratch would produce, and why the two agree after any history.
 Parsing, checking, lowering, code generation and hashing are parameters.
 */
module Incremental {
  import opened Wrappers

  // ----- Data -----

  /** The contents of a .mci file. */
  datatype Interface = Interface(
    target: string, package: string, name: string, isInternal: bool, path: string, surface: string)

  type Interfaces = map<string, Interface>

  datatype Config = Config(target: string, mode: string, env: string)

  datatype Import = Import(name: string, key: string, package: string, isInternal: bool, path: string)

  /** All that checking and code generation see of a module itself. */
  datatype Input = Input(
    name: string, package: string, isInternal: bool, path: string, wrap: bool, namespaced: bool, text: string)

  datatype Module = Module(key: string, input: Input, imports: seq<Import>)

  datatype State = State(
    target: string, package: string, mode: string, env: string,
    sourceHash: string, interfaceHash: string, wrap: bool, importHashes: map<string, string>)

  /** The build directory, by artifact key. */
  datatype Disk = Disk(objects: map<string, string>, states: map<string, State>, interfaces: Interfaces)

  datatype Compiler = Compiler(
    hashText: string -> string,
    hashInterface: Interface -> string,
    check: (Input, Interfaces) -> Option<string>,            // the import-visible surface
    lower: (Input, Interfaces) -> bool,
    emit: (Config, Input, Interfaces) -> Option<string>)

  ghost predicate Injective(c: Compiler) {
    && (forall a, b :: c.hashText(a) == c.hashText(b) ==> a == b)
    && (forall a, b :: c.hashInterface(a) == c.hashInterface(b) ==> a == b)
  }

  // ----- One module -----

  /** ValidateInterfaceArtifactMetadata: an empty expectation is not checked, an empty actual field is refused. */
  predicate Validates(a: Interface, target: string, package: string, name: string, isInternal: bool, path: string) {
    && a.target != "" && a.name != "" && a.package != "" && a.path != ""
    && target in {"", a.target} && package in {"", a.package} && name in {"", a.name}
    && isInternal == a.isInternal && path in {"", a.path}
  }

  predicate Loads(interfaces: Interfaces, cfg: Config, t: Import) {
    t.key in interfaces && Validates(interfaces[t.key], cfg.target, t.package, t.name, t.isInternal, t.path)
  }

  /** LoadImportedInterfaces. */
  function Loaded(interfaces: Interfaces, cfg: Config, imports: seq<Import>): Option<Interfaces> {
    if imports == [] then Some(map[]) else
      var t := imports[|imports| - 1];
      match Loaded(interfaces, cfg, imports[..|imports| - 1])
      case None => None
      case Some(before) =>
        if !Loads(interfaces, cfg, t) then None
        else if t.name in before then Some(before)
        else Some(before[t.name := interfaces[t.key]])
  }

  function Found(interfaces: Interfaces, key: string): Option<Interface> {
    if key in interfaces then Some(interfaces[key]) else None
  }

  // ----- What is loaded -----

  function ImportNamed(imports: seq<Import>, name: string): Option<Import>
    decreases |imports|
  {
    if imports == [] then None
    else if imports[0].name == name then Some(imports[0])
    else ImportNamed(imports[1..], name)
  }

  /** The interface at the key of the first import of that name. */
  function InterfaceNamed(interfaces: Interfaces, imports: seq<Import>, name: string): Option<Interface> {
    match ImportNamed(imports, name)
    case None => None
    case Some(t) => Found(interfaces, t.key)
  }

  /** loaded has exactly the imports' names, each with the interface of its first import. */
  ghost predicate HoldsImports(loaded: Interfaces, interfaces: Interfaces, imports: seq<Import>) {
    forall name :: Found(loaded, name) == InterfaceNamed(interfaces, imports, name)
  }

  lemma {:induction false} ImportNamedSnoc(imports: seq<Import>, t: Import, name: string)
    ensures ImportNamed(imports + [t], name) ==
            if ImportNamed(imports, name).Some? then ImportNamed(imports, name) else if t.name == name then Some(t) else None
    decreases |imports|
  {
    if imports == [] {
      assert ([] + [t])[1..] == [];
    } else {
      ImportNamedSnoc(imports[1..], t, name);
      assert (imports + [t])[1..] == imports[1..] + [t];
    }
  }

  /** Loading succeeds exactly when every import's interface validates, and then gives each imported name its interface. */
  lemma {:induction false} LoadedIff(interfaces: Interfaces, cfg: Config, imports: seq<Import>)
    ensures Loaded(interfaces, cfg, imports).Some? <==> forall i :: 0 <= i < |imports| ==> Loads(interfaces, cfg, imports[i])
    ensures Loaded(interfaces, cfg, imports).Some? ==> HoldsImports(Loaded(interfaces, cfg, imports).value, interfaces, imports)
  {
    hide Validates;
    if imports != [] {
      var n := |imports| - 1;
      var before, t := imports[..n], imports[n];
      LoadedIff(interfaces, cfg, before);
      assert imports == before + [t];
      forall i | 0 <= i < n ensures before[i] == imports[i] {
      }
      if Loaded(interfaces, cfg, imports).Some? {
        var m := Loaded(interfaces, cfg, before).value;
        forall name ensures Found(Loaded(interfaces, cfg, imports).value, name) == InterfaceNamed(interfaces, imports, name) {
          ImportNamedSnoc(before, t, name);
          assert Found(m, name) == InterfaceNamed(interfaces, before, name);
          ImportedLoads(interfaces, cfg, before, name);
        }
      }
    }
  }

  lemma {:induction false} ImportNamedIs(imports: seq<Import>, name: string) returns (i: nat)
    requires ImportNamed(imports, name).Some?
    ensures i < |imports| && imports[i] == ImportNamed(imports, name).value && imports[i].name == name
    decreases |imports|
  {
    if imports[0].name == name {
      i := 0;
    } else {
      var j := ImportNamedIs(imports[1..], name);
      i := j + 1;
    }
  }

  lemma {:induction false} ImportedLoads(interfaces: Interfaces, cfg: Config, imports: seq<Import>, name: string)
    requires forall i :: 0 <= i < |imports| ==> Loads(interfaces, cfg, imports[i])
    ensures ImportNamed(imports, name).Some? ==> Loads(interfaces, cfg, ImportNamed(imports, name).value)
  {
    hide Loads;
    if ImportNamed(imports, name).Some? {
      var i := ImportNamedIs(imports, name);
      assert Loads(interfaces, cfg, imports[i]);
    }
  }

  /** Every loaded interface was made for the target being built and for the module, package and file the import names. */
  lemma {:induction false} LoadedAreGenuine(interfaces: Interfaces, cfg: Config, imports: seq<Import>, name: string)
    requires Loaded(interfaces, cfg, imports).Some? && name in Loaded(interfaces, cfg, imports).value && name != ""
    ensures ImportNamed(imports, name).Some?
    ensures var i := Loaded(interfaces, cfg, imports).value[name]; var t := ImportNamed(imports, name).value;
            && i.name == name && i.isInternal == t.isInternal
            && (cfg.target != "" ==> i.target == cfg.target)
            && (t.package != "" ==> i.package == t.package)
            && (t.path != "" ==> i.path == t.path)
  {
    hide Loaded;
    LoadedIff(interfaces, cfg, imports);
    var loaded := Loaded(interfaces, cfg, imports).value;
    assert Found(loaded, name) == InterfaceNamed(interfaces, imports, name);
    var k := ImportNamedIs(imports, name);
    assert Loads(interfaces, cfg, imports[k]);
  }

  function Hashes(c: Compiler, imports: Interfaces): map<string, string> {
    map name | name in imports :: c.hashInterface(imports[name])
  }

  function InterfaceOf(cfg: Config, input: Input, surface: string): Interface {
    Interface(cfg.target, input.package, input.name, input.isInternal, input.path, surface)
  }

  function StateOf(c: Compiler, cfg: Config, input: Input, imports: Interfaces, surface: string): State {
    State(cfg.target, input.package, cfg.mode, cfg.env, c.hashText(input.text),
          c.hashInterface(InterfaceOf(cfg, input, surface)), input.wrap, Hashes(c, imports))
  }

  /** ShouldReuseModuleObject. */
  predicate Reusable(disk: Disk, key: string, current: State) {
    key in disk.objects && key in disk.interfaces && key in disk.states && disk.states[key] == current
  }

  function WithInterface(c: Compiler, disk: Disk, key: string, i: Interface): Disk {
    if key in disk.interfaces && c.hashInterface(disk.interfaces[key]) == c.hashInterface(i) then disk
    else disk.(interfaces := disk.interfaces[key := i])
  }

  datatype Unit = Unit(key: string, reused: bool)

  datatype Outcome<T> = Outcome(disk: Disk, result: Option<T>)

  /** No interface from an earlier build stands in the way. */
  predicate FitsLeftover(disk: Disk, cfg: Config, m: Module) {
    m.key in disk.interfaces ==>
      Validates(disk.interfaces[m.key], cfg.target, m.input.package, m.input.name, m.input.isInternal, m.input.path)
  }

  /** The body of CompileModuleGraph's loop. */
  function Compiled(c: Compiler, cfg: Config, emitObjects: bool, disk: Disk, m: Module): Outcome<Unit> {
    match Loaded(disk.interfaces, cfg, m.imports)
    case None => Outcome(disk, None)
    case Some(imports) =>
      match c.check(m.input, imports)
      case None => Outcome(disk, None)
      case Some(surface) =>
        if !FitsLeftover(disk, cfg, m) then Outcome(disk, None) else
          Finished(c, cfg, emitObjects, disk, m, imports, surface)
  }

  function Finished(c: Compiler, cfg: Config, emitObjects: bool, disk: Disk, m: Module, imports: Interfaces, surface: string): Outcome<Unit> {
    var current := StateOf(c, cfg, m.input, imports, surface);
    var written := WithInterface(c, disk, m.key, InterfaceOf(cfg, m.input, surface));
    if !c.lower(m.input, imports) then Outcome(written, None)
    else if !emitObjects then Outcome(written, Some(Unit(m.key, false)))
    else if Reusable(disk, m.key, current) then Outcome(written, Some(Unit(m.key, true)))
    else
      match c.emit(cfg, m.input, imports)
      case None => Outcome(written, None)
      case Some(object_) =>
        Outcome(Disk(written.objects[m.key := object_], written.states[m.key := current], written.interfaces),
                Some(Unit(m.key, false)))
  }

  /** A build killed between writing m's interface and its object. */
  function Interrupted(c: Compiler, cfg: Config, disk: Disk, m: Module): Disk {
    match Loaded(disk.interfaces, cfg, m.imports)
    case None => disk
    case Some(imports) =>
      match c.check(m.input, imports)
      case None => disk
      case Some(surface) =>
        if FitsLeftover(disk, cfg, m) then WithInterface(c, disk, m.key, InterfaceOf(cfg, m.input, surface)) else disk
  }

  /** The first n modules, stopping at the first failure. */
  function CompiledAll(c: Compiler, cfg: Config, emitObjects: bool, disk: Disk, nodes: seq<Module>, n: nat): (o: Outcome<seq<Unit>>)
    requires n <= |nodes|
    ensures o.result.Some? ==> |o.result.value| == n
  {
    if n == 0 then Outcome(disk, Some([])) else
      var before := CompiledAll(c, cfg, emitObjects, disk, nodes, n - 1);
      if before.result.None? then before else
        var last := Compiled(c, cfg, emitObjects, before.disk, nodes[n - 1]);
        Outcome(last.disk, if last.result.None? then None else Some(before.result.value + [last.result.value]))
  }

  // ----- A build from scratch -----

  /** Interfaces after compiling the first n modules with no cache; foreign ones belong to linked libraries. */
  function Clean(c: Compiler, cfg: Config, foreign: Interfaces, nodes: seq<Module>, n: nat): Option<Interfaces>
    requires n <= |nodes|
  {
    if n == 0 then Some(foreign) else
      match Clean(c, cfg, foreign, nodes, n - 1)
      case None => None
      case Some(before) =>
        var m := nodes[n - 1];
        match CleanModule(c, cfg, before, m)
        case None => None
        case Some(i) => Some(before[m.key := i])
  }

  function CleanModule(c: Compiler, cfg: Config, interfaces: Interfaces, m: Module): Option<Interface> {
    match Loaded(interfaces, cfg, m.imports)
    case None => None
    case Some(imports) =>
      match c.check(m.input, imports)
      case None => None
      case Some(surface) =>
        if c.lower(m.input, imports) && c.emit(cfg, m.input, imports).Some? then Some(InterfaceOf(cfg, m.input, surface)) else None
  }

  /** What module i sees of its imports in a build from scratch. */
  function CleanImports(c: Compiler, cfg: Config, foreign: Interfaces, nodes: seq<Module>, i: nat): Interfaces
    requires i < |nodes| && Clean(c, cfg, foreign, nodes, i + 1).Some?
  {
    Loaded(Clean(c, cfg, foreign, nodes, i).value, cfg, nodes[i].imports).value
  }

  function CleanObject(c: Compiler, cfg: Config, foreign: Interfaces, nodes: seq<Module>, i: nat): string
    requires i < |nodes| && Clean(c, cfg, foreign, nodes, i + 1).Some?
  {
    c.emit(cfg, nodes[i].input, CleanImports(c, cfg, foreign, nodes, i)).value
  }

  // ----- What every history keeps -----

  /** Parts of a module that its artifact key fixes but no state record mentions. */
  datatype Profile = Profile(name: string, isInternal: bool, path: string, namespaced: bool)

  function ProfileOf(input: Input): Profile {
    Profile(input.name, input.isInternal, input.path, input.namespaced)
  }

  predicate Stable(profiles: string -> Profile, nodes: seq<Module>) {
    forall i :: 0 <= i < |nodes| ==> ProfileOf(nodes[i].input) == profiles(nodes[i].key)
  }

  /** The record was made by emitting inputs that have exactly this state; kept is the object that is still there. */
  ghost predicate Record(c: Compiler, profile: Profile, state: State, kept: Option<string>) {
    exists cfg, input, imports, surface :: RecordOf(c, profile, state, kept, cfg, input, imports, surface)
  }

  ghost predicate RecordOf(c: Compiler, profile: Profile, state: State, kept: Option<string>,
                           cfg: Config, input: Input, imports: Interfaces, surface: string) {
    && ProfileOf(input) == profile
    && state == StateOf(c, cfg, input, imports, surface)
    && c.emit(cfg, input, imports).Some?
    && (kept.Some? ==> c.emit(cfg, input, imports) == kept)
  }

  /** The object a record still vouches for: entries of executables are overwritten by the merged object. */
  function Kept(entries: set<string>, disk: Disk, key: string): Option<string> {
    if key in disk.objects && key !in entries then Some(disk.objects[key]) else None
  }

  ghost predicate Faithful(c: Compiler, profiles: string -> Profile, entries: set<string>, disk: Disk) {
    forall key :: key in disk.states ==> Record(c, profiles(key), disk.states[key], Kept(entries, disk, key))
  }

  lemma {:induction false} HashesInjective(c: Compiler, a: Interfaces, b: Interfaces)
    requires Injective(c) && Hashes(c, a) == Hashes(c, b)
    ensures a == b
  {
    assert Hashes(c, a).Keys == a.Keys && Hashes(c, b).Keys == b.Keys;
    assert a.Keys == b.Keys;
    forall name | name in a ensures a[name] == b[name] {
      assert Hashes(c, a)[name] == Hashes(c, b)[name];
    }
  }

  /** A recorded state leaves one possible object. */
  lemma {:induction false} RecordDetermines(c: Compiler, profile: Profile, state: State, kept: Option<string>,
                                            cfg: Config, input: Input, imports: Interfaces, surface: string)
    requires Injective(c) && Record(c, profile, state, kept)
    requires ProfileOf(input) == profile && state == StateOf(c, cfg, input, imports, surface)
    ensures c.emit(cfg, input, imports).Some? && (kept.Some? ==> c.emit(cfg, input, imports) == kept)
  {
    var cfg', input', imports', surface' :| RecordOf(c, profile, state, kept, cfg', input', imports', surface');
    HashesInjective(c, imports, imports');
    assert input == input' && cfg == cfg';
  }

  lemma {:induction false} FinishedKeepsFaithful(c: Compiler, profiles: string -> Profile, entries: set<string>,
                                                 cfg: Config, emitObjects: bool, disk: Disk, m: Module,
                                                 imports: Interfaces, surface: string)
    requires Faithful(c, profiles, entries, disk) && ProfileOf(m.input) == profiles(m.key)
    ensures Faithful(c, profiles, entries, Finished(c, cfg, emitObjects, disk, m, imports, surface).disk)
  {
    hide Record, Hashes, StateOf;
    var after := Finished(c, cfg, emitObjects, disk, m, imports, surface).disk;
    forall key | key in after.states
      ensures Record(c, profiles(key), after.states[key], Kept(entries, after, key))
    {
      if key != m.key || (after.states == disk.states && after.objects == disk.objects) {
        assert Record(c, profiles(key), disk.states[key], Kept(entries, disk, key));
      } else {
        RecordOfEmitted(c, cfg, m.input, imports, surface, Kept(entries, after, key));
      }
    }
  }

  lemma {:induction false} RecordOfEmitted(c: Compiler, cfg: Config, input: Input, imports: Interfaces, surface: string, kept: Option<string>)
    requires c.emit(cfg, input, imports).Some? && (kept.Some? ==> c.emit(cfg, input, imports) == kept)
    ensures Record(c, ProfileOf(input), StateOf(c, cfg, input, imports, surface), kept)
  {
    hide Hashes;
    assert RecordOf(c, ProfileOf(input), StateOf(c, cfg, input, imports, surface), kept, cfg, input, imports, surface);
  }

  lemma {:induction false} CompiledKeepsFaithful(c: Compiler, profiles: string -> Profile, entries: set<string>,
                                                 cfg: Config, emitObjects: bool, disk: Disk, m: Module)
    requires Faithful(c, profiles, entries, disk) && ProfileOf(m.input) == profiles(m.key)
    ensures Faithful(c, profiles, entries, Compiled(c, cfg, emitObjects, disk, m).disk)
  {
    hide Loaded, FitsLeftover, Finished, Faithful;
    var imports := Loaded(disk.interfaces, cfg, m.imports);
    if imports.Some? && c.check(m.input, imports.value).Some? && FitsLeftover(disk, cfg, m) {
      FinishedKeepsFaithful(c, profiles, entries, cfg, emitObjects, disk, m, imports.value, c.check(m.input, imports.value).value);
    }
  }

  lemma {:induction false} CompiledAllKeepsFaithful(c: Compiler, profiles: string -> Profile, entries: set<string>,
                                                    cfg: Config, emitObjects: bool, disk: Disk, nodes: seq<Module>, n: nat)
    requires Faithful(c, profiles, entries, disk) && Stable(profiles, nodes) && n <= |nodes|
    ensures Faithful(c, profiles, entries, CompiledAll(c, cfg, emitObjects, disk, nodes, n).disk)
  {
    hide Faithful, Compiled;
    if n > 0 {
      CompiledAllKeepsFaithful(c, profiles, entries, cfg, emitObjects, disk, nodes, n - 1);
      var before := CompiledAll(c, cfg, emitObjects, disk, nodes, n - 1);
      if before.result.Some? {
        CompiledKeepsFaithful(c, profiles, entries, cfg, emitObjects, before.disk, nodes[n - 1]);
      }
    }
  }

  // ----- An incremental build agrees with a build from scratch -----

  function SurfaceOf(c: Compiler, input: Input, imports: Interfaces): string
    requires c.check(input, imports).Some?
  {
    c.check(input, imports).value
  }

  /** One module compiled with the cache gives what it gives without, whenever no leftover interface is refused. */
  lemma {:induction false} CompiledMatchesClean(c: Compiler, profiles: string -> Profile, entries: set<string>,
                                                cfg: Config, disk: Disk, m: Module)
    requires Injective(c) && Faithful(c, profiles, entries, disk) && ProfileOf(m.input) == profiles(m.key)
    ensures var o, clean := Compiled(c, cfg, true, disk, m), CleanModule(c, cfg, disk.interfaces, m);
            && (o.result.Some? <==> clean.Some? && FitsLeftover(disk, cfg, m))
            && (o.result.Some? ==> CompiledTo(c, entries, cfg, disk, m, Loaded(disk.interfaces, cfg, m.imports).value, o))
  {
    hide Loaded, FitsLeftover, Hashes, Record, StateOf;
    var imports := Loaded(disk.interfaces, cfg, m.imports);
    if imports.Some? && c.check(m.input, imports.value).Some? {
      var surface := c.check(m.input, imports.value).value;
      var current := StateOf(c, cfg, m.input, imports.value, surface);
      if Reusable(disk, m.key, current) {
        RecordDetermines(c, profiles(m.key), current, Kept(entries, disk, m.key), cfg, m.input, imports.value, surface);
      }
    }
  }

  /** What compiling m with the given imports leaves behind. */
  ghost predicate CompiledTo(c: Compiler, entries: set<string>, cfg: Config, disk: Disk, m: Module, imports: Interfaces, o: Outcome<Unit>)
  {
    && c.check(m.input, imports).Some? && c.emit(cfg, m.input, imports).Some?
    && var surface := SurfaceOf(c, m.input, imports);
    && var current := StateOf(c, cfg, m.input, imports, surface);
    && o.result == Some(Unit(m.key, Reusable(disk, m.key, current)))
    && o.disk.interfaces == disk.interfaces[m.key := InterfaceOf(cfg, m.input, surface)]
    && o.disk.states == disk.states[m.key := current]
    && m.key in o.disk.objects
    && o.disk.objects == disk.objects[m.key := o.disk.objects[m.key]]
    && (m.key !in entries ==> Some(o.disk.objects[m.key]) == c.emit(cfg, m.input, imports))
  }

  /** Imports come before their importers, as discovery leaves them; keys are distinct. */
  predicate Topological(nodes: seq<Module>) {
    && (forall i, j :: 0 <= i < j < |nodes| ==> nodes[i].key != nodes[j].key)
    && (forall i :: 0 <= i < |nodes| ==> ImportsEarlier(nodes, i))
  }

  predicate ImportsEarlier(nodes: seq<Module>, i: nat)
    requires i < |nodes|
  {
    forall t, k :: t in nodes[i].imports && 0 <= k < |nodes| && nodes[k].key == t.key ==> k < i
  }

  predicate IsNode(nodes: seq<Module>, key: string) {
    exists i :: 0 <= i < |nodes| && nodes[i].key == key
  }

  /** Interfaces of modules this graph does not build. */
  function Foreign(interfaces: Interfaces, nodes: seq<Module>): Interfaces {
    map key | key in interfaces && !IsNode(nodes, key) :: interfaces[key]
  }

  lemma {:induction false} LoadedAgree(a: Interfaces, b: Interfaces, cfg: Config, imports: seq<Import>)
    requires forall t :: t in imports ==> Found(a, t.key) == Found(b, t.key)
    ensures Loaded(a, cfg, imports) == Loaded(b, cfg, imports)
  {
    hide Validates;
    if imports != [] {
      LoadedAgree(a, b, cfg, imports[..|imports| - 1]);
      assert imports[|imports| - 1] in imports;
      assert Found(a, imports[|imports| - 1].key) == Found(b, imports[|imports| - 1].key);
    }
  }

  /** After n modules: nodes still to come have their old interfaces, everything else is as in the clean build. */
  ghost predicate Halfway(interfaces: Interfaces, old_: Interfaces, clean: Interfaces, nodes: seq<Module>, n: nat)
    requires n <= |nodes|
  {
    && (forall i :: n <= i < |nodes| ==> Found(interfaces, nodes[i].key) == Found(old_, nodes[i].key))
    && (forall key :: Settled(nodes, n, key) ==> Found(interfaces, key) == Found(clean, key))
  }

  /** key is not among the modules still to come. */
  predicate Settled(nodes: seq<Module>, n: nat, key: string)
    requires n <= |nodes|
  {
    forall i :: n <= i < |nodes| ==> nodes[i].key != key
  }

  lemma {:induction false} HalfwayLoads(interfaces: Interfaces, old_: Interfaces, clean: Interfaces, cfg: Config, nodes: seq<Module>, n: nat)
    requires n < |nodes| && Topological(nodes) && Halfway(interfaces, old_, clean, nodes, n)
    ensures Loaded(interfaces, cfg, nodes[n].imports) == Loaded(clean, cfg, nodes[n].imports)
  {
    assert ImportsEarlier(nodes, n);
    forall t | t in nodes[n].imports ensures Found(interfaces, t.key) == Found(clean, t.key) {
      assert Settled(nodes, n, t.key);
    }
    LoadedAgree(interfaces, clean, cfg, nodes[n].imports);
  }

  lemma {:induction false} HalfwayStep(interfaces: Interfaces, old_: Interfaces, clean: Interfaces, nodes: seq<Module>, n: nat, i: Interface)
    requires n < |nodes| && Topological(nodes) && Halfway(interfaces, old_, clean, nodes, n)
    ensures Halfway(interfaces[nodes[n].key := i], old_, clean[nodes[n].key := i], nodes, n + 1)
  {
    var a, b := interfaces[nodes[n].key := i], clean[nodes[n].key := i];
    forall key | Settled(nodes, n + 1, key) ensures Found(a, key) == Found(b, key) {
      if key != nodes[n].key {
        assert Settled(nodes, n, key);
        assert Found(interfaces, key) == Found(clean, key);
      }
    }
  }

  lemma {:induction false} CleanPrefix(c: Compiler, cfg: Config, foreign: Interfaces, nodes: seq<Module>, i: nat, n: nat)
    requires i <= n <= |nodes| && Clean(c, cfg, foreign, nodes, n).Some?
    ensures Clean(c, cfg, foreign, nodes, i).Some?
  {
    if i < n {
      CleanPrefix(c, cfg, foreign, nodes, i, n - 1);
    }
  }

  /** Module i's record and object are those of the clean build, and it was reused exactly if it could be. */
  ghost predicate Built(c: Compiler, entries: set<string>, cfg: Config, before: Disk, after: Disk, nodes: seq<Module>, i: nat, unit: Unit)
    requires i < |nodes|
  {
    var foreign := Foreign(before.interfaces, nodes);
    && Clean(c, cfg, foreign, nodes, i + 1).Some?
    && var m, imports := nodes[i], CleanImports(c, cfg, foreign, nodes, i);
    && c.check(m.input, imports).Some?
    && var current := StateOf(c, cfg, m.input, imports, SurfaceOf(c, m.input, imports));
    && unit == Unit(m.key, Reusable(before, m.key, current))
    && m.key in after.interfaces && after.interfaces[m.key] == InterfaceOf(cfg, m.input, SurfaceOf(c, m.input, imports))
    && m.key in after.states && after.states[m.key] == current
    && m.key in after.objects && (m.key !in entries ==> after.objects[m.key] == CleanObject(c, cfg, foreign, nodes, i))
  }

  predicate Untouched(before: Disk, after: Disk, nodes: seq<Module>, n: nat)
    requires n <= |nodes|
  {
    forall i :: n <= i < |nodes| ==>
      && Kept({}, before, nodes[i].key) == Kept({}, after, nodes[i].key)
      && (nodes[i].key in before.states <==> nodes[i].key in after.states)
      && (nodes[i].key in after.states ==> before.states[nodes[i].key] == after.states[nodes[i].key])
  }

  /** What a build of the first n modules has done when it gets that far. */
  ghost predicate Progress(c: Compiler, entries: set<string>, cfg: Config, before: Disk, nodes: seq<Module>, n: nat, o: Outcome<seq<Unit>>)
    requires n <= |nodes|
  {
    var foreign := Foreign(before.interfaces, nodes);
    && o.result.Some? && |o.result.value| == n
    && Clean(c, cfg, foreign, nodes, n).Some?
    && Halfway(o.disk.interfaces, before.interfaces, Clean(c, cfg, foreign, nodes, n).value, nodes, n)
    && Untouched(before, o.disk, nodes, n)
    && forall i :: 0 <= i < n ==> Built(c, entries, cfg, before, o.disk, nodes, i, o.result.value[i])
  }

  predicate NothingLeftOver(disk: Disk, cfg: Config, nodes: seq<Module>, n: nat)
    requires n <= |nodes|
  {
    forall i :: 0 <= i < n ==> FitsLeftover(disk, cfg, nodes[i])
  }

  lemma {:induction false} ProgressStart(c: Compiler, entries: set<string>, cfg: Config, disk: Disk, nodes: seq<Module>)
    ensures Progress(c, entries, cfg, disk, nodes, 0, CompiledAll(c, cfg, true, disk, nodes, 0))
  {
    var foreign := Foreign(disk.interfaces, nodes);
    forall key | Settled(nodes, 0, key) ensures Found(disk.interfaces, key) == Found(foreign, key) {
      assert !IsNode(nodes, key);
    }
  }

  /** One more module. */
  lemma {:induction false} ProgressStep(c: Compiler, profiles: string -> Profile, entries: set<string>, cfg: Config,
                                        disk: Disk, nodes: seq<Module>, n: nat, before: Outcome<seq<Unit>>)
    requires Injective(c) && Faithful(c, profiles, entries, before.disk) && Stable(profiles, nodes) && Topological(nodes) && n < |nodes|
    requires Progress(c, entries, cfg, disk, nodes, n, before)
    ensures var o := Compiled(c, cfg, true, before.disk, nodes[n]);
            var foreign := Foreign(disk.interfaces, nodes);
            && (o.result.Some? <==> Clean(c, cfg, foreign, nodes, n + 1).Some? && FitsLeftover(disk, cfg, nodes[n]))
            && (o.result.Some? ==>
                  Progress(c, entries, cfg, disk, nodes, n + 1, Outcome(o.disk, Some(before.result.value + [o.result.value]))))
  {
    hide Faithful, Compiled, Loaded, Validates, Reusable, StateOf, InterfaceOf, Foreign, Injective, Topological;
    var m := nodes[n];
    var foreign := Foreign(disk.interfaces, nodes);
    var clean := Clean(c, cfg, foreign, nodes, n).value;
    CompiledMatchesClean(c, profiles, entries, cfg, before.disk, m);
    HalfwayLoads(before.disk.interfaces, disk.interfaces, clean, cfg, nodes, n);
    assert CleanModule(c, cfg, before.disk.interfaces, m) == CleanModule(c, cfg, clean, m);
    assert Found(before.disk.interfaces, m.key) == Found(disk.interfaces, m.key);
    assert FitsLeftover(before.disk, cfg, m) == FitsLeftover(disk, cfg, m);
    var o := Compiled(c, cfg, true, before.disk, m);
    if o.result.Some? {
      var i := CleanModule(c, cfg, clean, m).value;
      HalfwayStep(before.disk.interfaces, disk.interfaces, clean, nodes, n, i);
      BuiltStep(c, entries, cfg, disk, nodes, n, before, o);
    }
  }

  lemma {:induction false} BuiltStep(c: Compiler, entries: set<string>, cfg: Config,
                                     disk: Disk, nodes: seq<Module>, n: nat, before: Outcome<seq<Unit>>, o: Outcome<Unit>)
    requires n < |nodes| && Topological(nodes) && Progress(c, entries, cfg, disk, nodes, n, before)
    requires Clean(c, cfg, Foreign(disk.interfaces, nodes), nodes, n + 1).Some?
    requires CompiledTo(c, entries, cfg, before.disk, nodes[n], CleanImports(c, cfg, Foreign(disk.interfaces, nodes), nodes, n), o)
    ensures Untouched(disk, o.disk, nodes, n + 1)
    ensures o.result.Some? && forall i :: 0 <= i <= n ==>
              Built(c, entries, cfg, disk, o.disk, nodes, i, (before.result.value + [o.result.value])[i])
  {
    hide Loaded, StateOf, InterfaceOf, Foreign, Halfway, Clean;
    StillPending(c, entries, cfg, disk, nodes, n, before);
    forall i | 0 <= i <= n
      ensures Built(c, entries, cfg, disk, o.disk, nodes, i, (before.result.value + [o.result.value])[i])
    {
      if i < n {
        assert Built(c, entries, cfg, disk, before.disk, nodes, i, before.result.value[i]);
      }
    }
  }

  /** What module n finds is what was there before the build. */
  lemma {:induction false} StillPending(c: Compiler, entries: set<string>, cfg: Config,
                                        disk: Disk, nodes: seq<Module>, n: nat, before: Outcome<seq<Unit>>)
    requires n < |nodes| && Progress(c, entries, cfg, disk, nodes, n, before)
    ensures forall current :: Reusable(before.disk, nodes[n].key, current) <==> Reusable(disk, nodes[n].key, current)
  {
    hide Clean, Foreign, Built;
    var key := nodes[n].key;
    assert Found(before.disk.interfaces, key) == Found(disk.interfaces, key);
    assert Kept({}, disk, key) == Kept({}, before.disk, key);
  }

  /**
   From any faithful directory, a build succeeds exactly when a build from
   scratch does and no module's leftover interface is refused; then every
   record, interface and object it ends with is that of the build from scratch.
   */
  lemma {:induction false} IncrementalMatchesClean(c: Compiler, profiles: string -> Profile, entries: set<string>, cfg: Config,
                                                   disk: Disk, nodes: seq<Module>, n: nat)
    requires Injective(c) && Faithful(c, profiles, entries, disk) && Stable(profiles, nodes) && Topological(nodes) && n <= |nodes|
    ensures var o := CompiledAll(c, cfg, true, disk, nodes, n);
            && (o.result.Some? <==> Clean(c, cfg, Foreign(disk.interfaces, nodes), nodes, n).Some? && NothingLeftOver(disk, cfg, nodes, n))
            && (o.result.Some? ==> Progress(c, entries, cfg, disk, nodes, n, o))
  {
    hide Progress, FitsLeftover, Compiled, CleanModule, Faithful, Injective, Topological, Stable, Foreign;
    if n == 0 {
      ProgressStart(c, entries, cfg, disk, nodes);
    } else {
      IncrementalMatchesClean(c, profiles, entries, cfg, disk, nodes, n - 1);
      var before := CompiledAll(c, cfg, true, disk, nodes, n - 1);
      if before.result.Some? {
        CompiledAllKeepsFaithful(c, profiles, entries, cfg, true, disk, nodes, n - 1);
        ProgressStep(c, profiles, entries, cfg, disk, nodes, n - 1, before);
      }
    }
  }

  // ----- Histories -----

  datatype Step =
    | Build(cfg: Config, nodes: seq<Module>, emitObjects: bool, stop: nat, killed: bool)
      // stop modules compiled; killed: the next one got as far as its interface
    | Merge(key: string, merged: string)   // the merged program overwrites the entry's object
    | Delete(objects: set<string>, states: set<string>, interfaces: set<string>)
    | Elsewhere(written: Interfaces)    // interfaces written for other targets

  predicate Legal(profiles: string -> Profile, entries: set<string>, step: Step) {
    match step
    case Build(_, nodes, _, stop, _) => Stable(profiles, nodes) && stop <= |nodes|
    case Merge(key, _) => key in entries
    case _ => true
  }

  function After(c: Compiler, disk: Disk, step: Step): Disk
    requires step.Build? ==> step.stop <= |step.nodes|
  {
    match step
    case Build(cfg, nodes, emitObjects, stop, killed) =>
      var o := CompiledAll(c, cfg, emitObjects, disk, nodes, stop);
      if killed && o.result.Some? && stop < |nodes| then Interrupted(c, cfg, o.disk, nodes[stop]) else o.disk
    case Merge(key, merged) => disk.(objects := disk.objects[key := merged])
    case Delete(objects, states, interfaces) =>
      Disk(disk.objects - objects, disk.states - states, disk.interfaces - interfaces)
    case Elsewhere(interfaces) => disk.(interfaces := disk.interfaces + interfaces)
  }

  function AfterAll(c: Compiler, profiles: string -> Profile, entries: set<string>, steps: seq<Step>): Disk
    requires forall i :: 0 <= i < |steps| ==> Legal(profiles, entries, steps[i])
  {
    if steps == [] then Disk(map[], map[], map[])
    else
      assert Legal(profiles, entries, steps[|steps| - 1]);
      After(c, AfterAll(c, profiles, entries, steps[..|steps| - 1]), steps[|steps| - 1])
  }

  lemma {:induction false} AfterKeepsFaithful(c: Compiler, profiles: string -> Profile, entries: set<string>, disk: Disk, step: Step)
    requires Faithful(c, profiles, entries, disk) && Legal(profiles, entries, step)
    ensures Faithful(c, profiles, entries, After(c, disk, step))
  {
    hide Record, Compiled, CompiledAll, Loaded, FitsLeftover;
    match step
    case Build(cfg, nodes, emitObjects, stop, killed) =>
      CompiledAllKeepsFaithful(c, profiles, entries, cfg, emitObjects, disk, nodes, stop);
      var o := CompiledAll(c, cfg, emitObjects, disk, nodes, stop);
      var after := After(c, disk, step);
      assert after.states == o.disk.states && after.objects == o.disk.objects;
      SameRecords(c, profiles, entries, o.disk, after);
    case Merge(key, merged) =>
      SameRecords(c, profiles, entries, disk, After(c, disk, step));
    case Delete(objects, states, interfaces) =>
      SameRecords(c, profiles, entries, disk, After(c, disk, step));
    case Elsewhere(interfaces) =>
      SameRecords(c, profiles, entries, disk, After(c, disk, step));
  }

  /** Losing things, or entries' objects, breaks no record. */
  lemma {:induction false} SameRecords(c: Compiler, profiles: string -> Profile, entries: set<string>, before: Disk, after: Disk)
    requires Faithful(c, profiles, entries, before)
    requires forall key :: key in after.states ==> key in before.states && after.states[key] == before.states[key]
    requires forall key :: key in after.objects && key !in entries ==> key in before.objects && after.objects[key] == before.objects[key]
    ensures Faithful(c, profiles, entries, after)
  {
    hide StateOf;
    forall key | key in after.states ensures Record(c, profiles(key), after.states[key], Kept(entries, after, key)) {
      assert Record(c, profiles(key), before.states[key], Kept(entries, before, key));
      var cfg, input, imports, surface :|
        RecordOf(c, profiles(key), before.states[key], Kept(entries, before, key), cfg, input, imports, surface);
      assert RecordOf(c, profiles(key), after.states[key], Kept(entries, after, key), cfg, input, imports, surface);
    }
  }

  lemma {:induction false} HistoriesStayFaithful(c: Compiler, profiles: string -> Profile, entries: set<string>, steps: seq<Step>)
    requires forall i :: 0 <= i < |steps| ==> Legal(profiles, entries, steps[i])
    ensures Faithful(c, profiles, entries, AfterAll(c, profiles, entries, steps))
  {
    hide Record, After, Legal;
    if steps != [] {
      HistoriesStayFaithful(c, profiles, entries, steps[..|steps| - 1]);
      AfterKeepsFaithful(c, profiles, entries, AfterAll(c, profiles, entries, steps[..|steps| - 1]), steps[|steps| - 1]);
    }
  }

  /**
   After every history of edits, builds (complete, failed or killed), merges
   and lost files, a successful build leaves every module but entries of
   executables with the object a build from scratch gives it.
   */
  lemma {:induction false} EveryHistoryBuildsClean(c: Compiler, profiles: string -> Profile, entries: set<string>, steps: seq<Step>,
                                                   cfg: Config, nodes: seq<Module>)
    requires Injective(c) && Stable(profiles, nodes) && Topological(nodes)
    requires forall i :: 0 <= i < |steps| ==> Legal(profiles, entries, steps[i])
    ensures var disk := AfterAll(c, profiles, entries, steps);
            var foreign := Foreign(disk.interfaces, nodes);
            var o := CompiledAll(c, cfg, true, disk, nodes, |nodes|);
            && (o.result.Some? <==> Clean(c, cfg, foreign, nodes, |nodes|).Some? && NothingLeftOver(disk, cfg, nodes, |nodes|))
            && (o.result.Some? ==>
                  forall i :: 0 <= i < |nodes| && nodes[i].key !in entries ==>
                    && Clean(c, cfg, foreign, nodes, i + 1).Some?
                    && nodes[i].key in o.disk.objects
                    && o.disk.objects[nodes[i].key] == CleanObject(c, cfg, foreign, nodes, i))
  {
    hide Clean, CompiledAll, Foreign, StateOf, Halfway, Untouched, Faithful, NothingLeftOver, Legal;
    var disk := AfterAll(c, profiles, entries, steps);
    HistoriesStayFaithful(c, profiles, entries, steps);
    IncrementalMatchesClean(c, profiles, entries, cfg, disk, nodes, |nodes|);
    var o := CompiledAll(c, cfg, true, disk, nodes, |nodes|);
    if o.result.Some? {
      forall i | 0 <= i < |nodes| && nodes[i].key !in entries
        ensures Built(c, entries, cfg, disk, o.disk, nodes, i, o.result.value[i])
      {
      }
    }
  }

  /** In an empty directory nothing is reused and the build is the build from scratch. */
  lemma {:induction false} EmptyDirectoryBuildsClean(c: Compiler, profiles: string -> Profile, cfg: Config, foreign: Interfaces, nodes: seq<Module>)
    requires Injective(c) && Stable(profiles, nodes) && Topological(nodes)
    requires forall i :: 0 <= i < |nodes| ==> nodes[i].key !in foreign
    ensures CompiledAll(c, cfg, true, Disk(map[], map[], foreign), nodes, |nodes|).result.Some? <==>
            Clean(c, cfg, foreign, nodes, |nodes|).Some?
  {
    hide Clean, CompiledAll;
    var disk := Disk(map[], map[], foreign);
    assert Faithful(c, profiles, {}, disk);
    IncrementalMatchesClean(c, profiles, {}, cfg, disk, nodes, |nodes|);
    assert Foreign(foreign, nodes) == foreign;
  }
}
