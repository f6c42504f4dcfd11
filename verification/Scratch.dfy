/**
 What a build from scratch is, said without loading, caching or a directory:
 every module checked, lowered and emitted against the interfaces its imports
 name. The cache is compared with this.
 */
module Scratch {
  import opened Wrappers
  import opened Incremental

  /** What one module was compiled against, and what came of it. */
  datatype Made = Made(imports: Interfaces, surface: string, object_: string)

  /** The interfaces of linked libraries and of the first n modules. */
  function InterfacesOf(cfg: Config, foreign: Interfaces, nodes: seq<Module>, run: seq<Made>, n: nat): Interfaces
    requires n <= |run| && n <= |nodes|
  {
    if n == 0 then foreign else
      var input := nodes[n - 1].input;
      InterfacesOf(cfg, foreign, nodes, run, n - 1)[nodes[n - 1].key :=
        Interface(cfg.target, input.package, input.name, input.isInternal, input.path, run[n - 1].surface)]
  }

  /** Module i compiles against exactly the interfaces its imports name, all of which validate. */
  ghost predicate MadeOf(c: Compiler, cfg: Config, foreign: Interfaces, nodes: seq<Module>, run: seq<Made>, i: nat)
    requires i < |run| && i < |nodes|
  {
    var before, m, made := InterfacesOf(cfg, foreign, nodes, run, i), nodes[i], run[i];
    && (forall k :: 0 <= k < |m.imports| ==> Loads(before, cfg, m.imports[k]))
    && HoldsImports(made.imports, before, m.imports)
    && c.check(m.input, made.imports) == Some(made.surface)
    && c.lower(m.input, made.imports)
    && c.emit(cfg, m.input, made.imports) == Some(made.object_)
  }

  ghost predicate FromScratch(c: Compiler, cfg: Config, foreign: Interfaces, nodes: seq<Module>, run: seq<Made>) {
    |run| <= |nodes| && forall i :: 0 <= i < |run| ==> MadeOf(c, cfg, foreign, nodes, run, i)
  }

  lemma {:induction false} InterfacesPrefix(cfg: Config, foreign: Interfaces, nodes: seq<Module>, run: seq<Made>, made: Made, n: nat)
    requires n <= |run| && n <= |nodes|
    ensures InterfacesOf(cfg, foreign, nodes, run + [made], n) == InterfacesOf(cfg, foreign, nodes, run, n)
  {
    if n > 0 {
      InterfacesPrefix(cfg, foreign, nodes, run, made, n - 1);
    }
  }

  lemma {:induction false} FromScratchSnoc(c: Compiler, cfg: Config, foreign: Interfaces, nodes: seq<Module>, run: seq<Made>, made: Made)
    requires |run| < |nodes|
    ensures FromScratch(c, cfg, foreign, nodes, run + [made]) <==>
            FromScratch(c, cfg, foreign, nodes, run) && MadeOf(c, cfg, foreign, nodes, run + [made], |run|)
  {
    var more := run + [made];
    forall i | 0 <= i < |run| ensures MadeOf(c, cfg, foreign, nodes, more, i) <==> MadeOf(c, cfg, foreign, nodes, run, i) {
      InterfacesPrefix(cfg, foreign, nodes, run, made, i);
    }
  }

  lemma {:induction false} SameHeld(a: Interfaces, b: Interfaces, interfaces: Interfaces, imports: seq<Import>)
    requires HoldsImports(a, interfaces, imports) && HoldsImports(b, interfaces, imports)
    ensures a == b
  {
    hide InterfaceNamed;
    forall name ensures name in a <==> name in b {
      assert Found(a, name) == Found(b, name);
    }
    forall name | name in a ensures a[name] == b[name] {
      assert Found(a, name) == Found(b, name);
    }
  }

  /** The cache-free build is this one: it succeeds, with the same interfaces and objects, on exactly the modules that have a run. */
  lemma {:induction false} CleanHasRun(c: Compiler, cfg: Config, foreign: Interfaces, nodes: seq<Module>, n: nat) returns (run: seq<Made>)
    requires n <= |nodes| && Clean(c, cfg, foreign, nodes, n).Some?
    ensures |run| == n && FromScratch(c, cfg, foreign, nodes, run)
    ensures Clean(c, cfg, foreign, nodes, n).value == InterfacesOf(cfg, foreign, nodes, run, n)
  {
    hide Loaded, Loads, HoldsImports;
    if n == 0 {
      run := [];
    } else {
      var before := CleanHasRun(c, cfg, foreign, nodes, n - 1);
      var m, interfaces := nodes[n - 1], Clean(c, cfg, foreign, nodes, n - 1).value;
      LoadedIff(interfaces, cfg, m.imports);
      var imports := Loaded(interfaces, cfg, m.imports).value;
      var made := Made(imports, c.check(m.input, imports).value, c.emit(cfg, m.input, imports).value);
      run := before + [made];
      InterfacesPrefix(cfg, foreign, nodes, before, made, n - 1);
      FromScratchSnoc(c, cfg, foreign, nodes, before, made);
    }
  }

  /** Module i of the cache-free build gets this object. */
  predicate CleanGives(c: Compiler, cfg: Config, foreign: Interfaces, nodes: seq<Module>, i: nat, object_: string)
    requires i < |nodes|
  {
    Clean(c, cfg, foreign, nodes, i + 1).Some? && CleanObject(c, cfg, foreign, nodes, i) == object_
  }

  lemma {:induction false} RunIsClean(c: Compiler, cfg: Config, foreign: Interfaces, nodes: seq<Module>, run: seq<Made>)
    requires FromScratch(c, cfg, foreign, nodes, run)
    ensures Clean(c, cfg, foreign, nodes, |run|).Some?
    ensures Clean(c, cfg, foreign, nodes, |run|).value == InterfacesOf(cfg, foreign, nodes, run, |run|)
    ensures forall i :: 0 <= i < |run| ==> CleanGives(c, cfg, foreign, nodes, i, run[i].object_)
  {
    hide Loaded, Loads, HoldsImports;
    if run != [] {
      var n := |run| - 1;
      var before, made := run[..n], run[n];
      assert run == before + [made];
      FromScratchSnoc(c, cfg, foreign, nodes, before, made);
      RunIsClean(c, cfg, foreign, nodes, before);
      InterfacesPrefix(cfg, foreign, nodes, before, made, n);
      var m, interfaces := nodes[n], Clean(c, cfg, foreign, nodes, n).value;
      LoadedIff(interfaces, cfg, m.imports);
      SameHeld(Loaded(interfaces, cfg, m.imports).value, made.imports, interfaces, m.imports);
      assert CleanGives(c, cfg, foreign, nodes, n, run[n].object_);
      forall i | 0 <= i < n ensures CleanGives(c, cfg, foreign, nodes, i, run[i].object_) {
        assert CleanGives(c, cfg, foreign, nodes, i, before[i].object_);
      }
    }
  }

  /**
   After every history of edits, builds (complete, failed or killed), merges
   and lost files, a build succeeds exactly when the modules compile from
   scratch and no leftover interface is refused; then it leaves every module,
   entries of executables aside, with the object it gets from scratch.
   */
  lemma {:induction false} EveryHistoryBuildsFromScratch(c: Compiler, profiles: string -> Profile, entries: set<string>, steps: seq<Step>,
                                                         cfg: Config, nodes: seq<Module>)
    requires Injective(c) && Stable(profiles, nodes) && Topological(nodes)
    requires forall i :: 0 <= i < |steps| ==> Legal(profiles, entries, steps[i])
    ensures var disk := AfterAll(c, profiles, entries, steps);
            var foreign := Foreign(disk.interfaces, nodes);
            var o := CompiledAll(c, cfg, true, disk, nodes, |nodes|);
            && (o.result.Some? <==>
                  && (exists run: seq<Made> :: |run| == |nodes| && FromScratch(c, cfg, foreign, nodes, run))
                  && NothingLeftOver(disk, cfg, nodes, |nodes|))
            && (o.result.Some? ==>
                  forall run: seq<Made>, i :: |run| == |nodes| && FromScratch(c, cfg, foreign, nodes, run) && 0 <= i < |nodes| && nodes[i].key !in entries ==>
                    nodes[i].key in o.disk.objects && o.disk.objects[nodes[i].key] == run[i].object_)
  {
    hide Clean, CompiledAll, CleanObject, Foreign, FromScratch, NothingLeftOver, Legal, AfterAll, Injective, Stable, Topological;
    EveryHistoryBuildsClean(c, profiles, entries, steps, cfg, nodes);
    var disk := AfterAll(c, profiles, entries, steps);
    var foreign := Foreign(disk.interfaces, nodes);
    if Clean(c, cfg, foreign, nodes, |nodes|).Some? {
      var made := CleanHasRun(c, cfg, foreign, nodes, |nodes|);
    }
    forall run: seq<Made> | |run| == |nodes| && FromScratch(c, cfg, foreign, nodes, run)
      ensures Clean(c, cfg, foreign, nodes, |nodes|).Some?
      ensures forall i :: 0 <= i < |nodes| ==> CleanGives(c, cfg, foreign, nodes, i, run[i].object_)
    {
      RunIsClean(c, cfg, foreign, nodes, run);
    }
  }

  // ----- What one compilation leaves behind -----

  ghost predicate Checks(c: Compiler, cfg: Config, disk: Disk, m: Module, imports: Interfaces) {
    && (forall k :: 0 <= k < |m.imports| ==> Loads(disk.interfaces, cfg, m.imports[k]))
    && HoldsImports(imports, disk.interfaces, m.imports)
    && c.check(m.input, imports).Some? && FitsLeftover(disk, cfg, m)
  }

  /**
   A module that checks has its interface in the directory even if lowering or
   emission then fails; one that does not leaves everything as it was. Objects
   and records change only when an object is emitted, and then together.
   */
  lemma {:induction false} CompiledLeaves(c: Compiler, cfg: Config, emitObjects: bool, disk: Disk, m: Module)
    requires Injective(c)
    ensures var o := Compiled(c, cfg, emitObjects, disk, m);
            && ((forall imports :: !Checks(c, cfg, disk, m, imports)) ==> o == Outcome(disk, None))
            && (forall imports :: Checks(c, cfg, disk, m, imports) ==>
                  && o.disk.interfaces == disk.interfaces[m.key := InterfaceOf(cfg, m.input, c.check(m.input, imports).value)]
                  && (o.result.Some? ==> c.lower(m.input, imports))
                  && (!emitObjects ==>
                        && o.disk.objects == disk.objects && o.disk.states == disk.states
                        && o.result == if c.lower(m.input, imports) then Some(Unit(m.key, false)) else None)
                  && (o.result.None? ==> o.disk.objects == disk.objects && o.disk.states == disk.states))
  {
    hide Loaded, Loads, HoldsImports, FitsLeftover, StateOf, Reusable;
    LoadedIff(disk.interfaces, cfg, m.imports);
    if Loaded(disk.interfaces, cfg, m.imports).Some? {
      var loaded := Loaded(disk.interfaces, cfg, m.imports).value;
      forall imports | HoldsImports(imports, disk.interfaces, m.imports) ensures imports == loaded {
        SameHeld(imports, loaded, disk.interfaces, m.imports);
      }
      if c.check(m.input, loaded).Some? && FitsLeftover(disk, cfg, m) {
        assert Checks(c, cfg, disk, m, loaded);
      }
    }
  }

  // ----- What a record holds -----

  /** The record tells every setting, the text, and the interfaces of the module and of each name it imports. */
  ghost predicate Tells(c: Compiler, cfg: Config, input: Input, imports: Interfaces, surface: string, record: State) {
    && record.target == cfg.target && record.mode == cfg.mode && record.env == cfg.env
    && record.package == input.package && record.wrap == input.wrap
    && record.sourceHash == c.hashText(input.text)
    && record.interfaceHash == c.hashInterface(Interface(cfg.target, input.package, input.name, input.isInternal, input.path, surface))
    && (forall name :: name in record.importHashes <==> name in imports)
    && (forall name :: name in imports && name in record.importHashes ==> record.importHashes[name] == c.hashInterface(imports[name]))
  }

  lemma {:induction false} TellsIff(c: Compiler, cfg: Config, input: Input, imports: Interfaces, surface: string, record: State)
    ensures Tells(c, cfg, input, imports, surface, record) <==> record == StateOf(c, cfg, input, imports, surface)
  {
    if Tells(c, cfg, input, imports, surface, record) {
      assert record.importHashes == Hashes(c, imports);
    }
  }

  /**
   A module that checks and lowers keeps its object exactly when object,
   interface and record are all there and the record tells its inputs;
   otherwise what is emitted is stored with a record that does.
   */
  lemma {:induction false} ReusedIff(c: Compiler, cfg: Config, disk: Disk, m: Module, imports: Interfaces)
    requires Checks(c, cfg, disk, m, imports) && c.lower(m.input, imports)
    ensures var o := Compiled(c, cfg, true, disk, m); var surface := c.check(m.input, imports).value;
            && (o.result == Some(Unit(m.key, true)) <==>
                  && m.key in disk.objects && m.key in disk.interfaces && m.key in disk.states
                  && Tells(c, cfg, m.input, imports, surface, disk.states[m.key]))
            && (o.result == Some(Unit(m.key, true)) ==> o.disk.objects == disk.objects && o.disk.states == disk.states)
            && (o.result == Some(Unit(m.key, false)) ==>
                  && c.emit(cfg, m.input, imports).Some?
                  && o.disk.objects == disk.objects[m.key := c.emit(cfg, m.input, imports).value]
                  && m.key in o.disk.states && Tells(c, cfg, m.input, imports, surface, o.disk.states[m.key])
                  && o.disk.states == disk.states[m.key := o.disk.states[m.key]])
  {
    hide Loaded, Loads, HoldsImports, FitsLeftover, StateOf, Tells;
    LoadedIff(disk.interfaces, cfg, m.imports);
    SameHeld(imports, Loaded(disk.interfaces, cfg, m.imports).value, disk.interfaces, m.imports);
    var surface := c.check(m.input, imports).value;
    TellsIff(c, cfg, m.input, imports, surface, StateOf(c, cfg, m.input, imports, surface));
    if m.key in disk.states {
      TellsIff(c, cfg, m.input, imports, surface, disk.states[m.key]);
    }
  }

  // ----- What validation refuses -----

  /** i lacks metadata, or was made for another target, package, module or file than expected; empty expectations expect nothing. */
  predicate Mismatched(i: Interface, target: string, package: string, name: string, isInternal: bool, path: string) {
    || i.target == "" || i.package == "" || i.name == "" || i.path == "" || i.isInternal != isInternal
    || (target != "" && i.target != target) || (package != "" && i.package != package)
    || (name != "" && i.name != name) || (path != "" && i.path != path)
  }

  /** A module whose import or own leftover interface is missing or mismatched is refused, and nothing is written. */
  lemma {:induction false} MismatchIsRefused(c: Compiler, cfg: Config, emitObjects: bool, disk: Disk, m: Module, k: nat)
    requires k <= |m.imports|
    requires if k < |m.imports| then
               var t := m.imports[k];
               t.key !in disk.interfaces || Mismatched(disk.interfaces[t.key], cfg.target, t.package, t.name, t.isInternal, t.path)
             else
               && m.key in disk.interfaces
               && Mismatched(disk.interfaces[m.key], cfg.target, m.input.package, m.input.name, m.input.isInternal, m.input.path)
    ensures Compiled(c, cfg, emitObjects, disk, m) == Outcome(disk, None)
  {
    hide Loaded, StateOf, Reusable;
    LoadedIff(disk.interfaces, cfg, m.imports);
    if k < |m.imports| {
      assert !Loads(disk.interfaces, cfg, m.imports[k]);
    }
  }

  // ----- Validation accepts what the build itself wrote -----

  /** The modules have all the metadata an interface must carry, and imports within the graph describe the modules they name. */
  predicate Described(cfg: Config, nodes: seq<Module>) {
    && cfg.target != ""
    && (forall i :: 0 <= i < |nodes| ==> HasMetadata(nodes[i].input))
    && (forall i, j, k :: 0 <= i < |nodes| && 0 <= j < |nodes| && 0 <= k < |nodes[i].imports| && nodes[i].imports[k].key == nodes[j].key ==>
          Describes(nodes[i].imports[k], nodes[j].input))
  }

  predicate HasMetadata(input: Input) {
    input.name != "" && input.package != "" && input.path != ""
  }

  predicate Describes(t: Import, input: Input) {
    t.name == input.name && t.package == input.package && t.isInternal == input.isInternal && t.path == input.path
  }

  lemma {:induction false} InterfaceOfNode(cfg: Config, foreign: Interfaces, nodes: seq<Module>, run: seq<Made>, n: nat, j: nat)
    requires j < n <= |run| && n <= |nodes| && Topological(nodes)
    ensures var input := nodes[j].input; var interfaces := InterfacesOf(cfg, foreign, nodes, run, n);
            nodes[j].key in interfaces && interfaces[nodes[j].key]
            == Interface(cfg.target, input.package, input.name, input.isInternal, input.path, run[j].surface)
  {
    hide ImportsEarlier;
    if j < n - 1 {
      InterfaceOfNode(cfg, foreign, nodes, run, n - 1, j);
    }
  }

  /** An import of an earlier module of the graph is never refused. */
  lemma {:induction false} OwnInterfacesLoad(cfg: Config, foreign: Interfaces, nodes: seq<Module>, run: seq<Made>, i: nat, k: nat, j: nat)
    requires Described(cfg, nodes) && Topological(nodes) && i <= |run| && i < |nodes|
    requires k < |nodes[i].imports| && j < |nodes| && nodes[i].imports[k].key == nodes[j].key
    ensures Loads(InterfacesOf(cfg, foreign, nodes, run, i), cfg, nodes[i].imports[k])
  {
    assert ImportsEarlier(nodes, i) && nodes[i].imports[k] in nodes[i].imports;
    InterfaceOfNode(cfg, foreign, nodes, run, i, j);
    assert Describes(nodes[i].imports[k], nodes[j].input) && HasMetadata(nodes[j].input);
  }

  /** After a successful build the next one, with any texts, finds no leftover in its way. */
  lemma {:induction false} RebuildIsNotRefused(c: Compiler, profiles: string -> Profile, entries: set<string>, cfg: Config,
                                               disk: Disk, old_: seq<Module>, nodes: seq<Module>)
    requires Injective(c) && Faithful(c, profiles, entries, disk) && Stable(profiles, old_) && Topological(old_)
    requires CompiledAll(c, cfg, true, disk, old_, |old_|).result.Some?
    requires Described(cfg, old_) && |nodes| == |old_|
    requires forall i :: 0 <= i < |nodes| ==>
               nodes[i].key == old_[i].key && ProfileOf(nodes[i].input) == ProfileOf(old_[i].input)
               && nodes[i].input.package == old_[i].input.package
    ensures NothingLeftOver(CompiledAll(c, cfg, true, disk, old_, |old_|).disk, cfg, nodes, |nodes|)
  {
    hide Clean, CompiledAll, Foreign, Faithful, Halfway, Untouched, StateOf, CleanImports, CleanObject, Injective, Stable, Topological, NothingLeftOver;
    IncrementalMatchesClean(c, profiles, entries, cfg, disk, old_, |old_|);
    var o := CompiledAll(c, cfg, true, disk, old_, |old_|);
    forall i | 0 <= i < |nodes| ensures FitsLeftover(o.disk, cfg, nodes[i]) {
      assert Built(c, entries, cfg, disk, o.disk, old_, i, o.result.value[i]);
      assert HasMetadata(old_[i].input);
    }
    assert NothingLeftOver(o.disk, cfg, nodes, |nodes|) by { AllFit(o.disk, cfg, nodes); }
  }

  lemma {:induction false} AllFit(disk: Disk, cfg: Config, nodes: seq<Module>)
    requires forall i :: 0 <= i < |nodes| ==> FitsLeftover(disk, cfg, nodes[i])
    ensures NothingLeftOver(disk, cfg, nodes, |nodes|)
  {
  }
}
