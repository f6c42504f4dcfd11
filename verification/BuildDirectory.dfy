/** CompileModuleGraph as the driver runs it: artifacts rewritten in place, module by module. */
module BuildDirectory {
  import opened Wrappers
  import opened Incremental
  import opened Scratch

  class Builder {
    const c: Compiler
    var objects: map<string, string>
    var states: map<string, State>
    var interfaces: Interfaces

    constructor (c: Compiler)
      ensures this.c == c && Contents() == Disk(map[], map[], map[])
    {
      this.c := c;
      objects, states, interfaces := map[], map[], map[];
    }

    function Contents(): Disk
      reads this
    {
      Disk(objects, states, interfaces)
    }

    method LoadImportedInterfaces(cfg: Config, imports: seq<Import>) returns (loaded: Option<Interfaces>)
      ensures loaded == Loaded(interfaces, cfg, imports)
      ensures loaded.Some? <==> forall i :: 0 <= i < |imports| ==> Loads(interfaces, cfg, imports[i])
      ensures loaded.Some? ==> HoldsImports(loaded.value, interfaces, imports)
    {
      LoadedIff(interfaces, cfg, imports);
      var modules: Interfaces := map[];
      for index := 0 to |imports|
        invariant Loaded(interfaces, cfg, imports[..index]) == Some(modules)
      {
        var t := imports[index];
        assert imports[..index + 1][..index] == imports[..index];
        if !Loads(interfaces, cfg, t) {
          LoadFails(interfaces, cfg, imports, index + 1);
          return None;
        }
        if t.name !in modules {
          modules := modules[t.name := interfaces[t.key]];
        }
      }
      assert imports[..|imports|] == imports;
      loaded := Some(modules);
    }

    method CompileModule(cfg: Config, emitObjects: bool, m: Module) returns (result: Option<Unit>)
      modifies this
      ensures Outcome(Contents(), result) == Compiled(c, cfg, emitObjects, old(Contents()), m)
    {
      hide Loaded, Validates, Hashes;
      var imports := LoadImportedInterfaces(cfg, m.imports);
      if imports.None? {
        return None;
      }
      var surface := c.check(m.input, imports.value);
      if surface.None? {
        return None;
      }
      var i := InterfaceOf(cfg, m.input, surface.value);
      var current := StateOf(c, cfg, m.input, imports.value, surface.value);
      var reuse := emitObjects && Reusable(Contents(), m.key, current);
      if m.key in interfaces {
        if !Validates(interfaces[m.key], cfg.target, m.input.package, m.input.name, m.input.isInternal, m.input.path) {
          return None;
        }
      }
      if m.key !in interfaces || c.hashInterface(interfaces[m.key]) != c.hashInterface(i) {
        interfaces := interfaces[m.key := i];
      }
      if !c.lower(m.input, imports.value) {
        return None;
      }
      if emitObjects && !reuse {
        var object_ := c.emit(cfg, m.input, imports.value);
        if object_.None? {
          return None;
        }
        objects := objects[m.key := object_.value];
        states := states[m.key := current];
      }
      result := Some(Unit(m.key, reuse));
    }

    /** Compiles modules in order and stops at the first failure. */
    method CompileModuleGraph(cfg: Config, emitObjects: bool, nodes: seq<Module>) returns (units: Option<seq<Unit>>)
      modifies this
      ensures Outcome(Contents(), units) == CompiledAll(c, cfg, emitObjects, old(Contents()), nodes, |nodes|)
    {
      hide Compiled;
      var done: seq<Unit> := [];
      for index := 0 to |nodes|
        invariant Outcome(Contents(), Some(done)) == CompiledAll(c, cfg, emitObjects, old(Contents()), nodes, index)
      {
        var unit := CompileModule(cfg, emitObjects, nodes[index]);
        if unit.None? {
          StopsAtFailure(c, cfg, emitObjects, old(Contents()), nodes, index + 1, |nodes|);
          return None;
        }
        done := done + [unit.value];
      }
      units := Some(done);
    }

    /** A build of a whole target on a directory that any history may have left behind. */
    method BuildTarget(cfg: Config, nodes: seq<Module>, ghost profiles: string -> Profile, ghost entries: set<string>)
      returns (units: Option<seq<Unit>>)
      requires Injective(c) && Faithful(c, profiles, entries, Contents()) && Stable(profiles, nodes) && Topological(nodes)
      modifies this
      ensures Faithful(c, profiles, entries, Contents())
      ensures units.Some? <==>
              && Clean(c, cfg, Foreign(old(interfaces), nodes), nodes, |nodes|).Some?
              && NothingLeftOver(old(Contents()), cfg, nodes, |nodes|)
      ensures units.Some? ==>
                |units.value| == |nodes| &&
                forall i :: 0 <= i < |nodes| ==> Built(c, entries, cfg, old(Contents()), Contents(), nodes, i, units.value[i])
      ensures units.Some? ==>
                exists run: seq<Made> :: |run| == |nodes| && FromScratch(c, cfg, Foreign(old(interfaces), nodes), nodes, run)
                                         && ObjectsFrom(Contents(), nodes, entries, run)
    {
      hide CompiledAll, Clean, Faithful, Topological, Stable, Built, NothingLeftOver, Halfway, Untouched;
      CompiledAllKeepsFaithful(c, profiles, entries, cfg, true, Contents(), nodes, |nodes|);
      IncrementalMatchesClean(c, profiles, entries, cfg, Contents(), nodes, |nodes|);
      units := CompileModuleGraph(cfg, true, nodes);
      if units.Some? {
        BuiltFromScratch(c, cfg, entries, old(Contents()), Contents(), nodes, units.value);
      }
    }
  }

  /** Every module but entries of executables has the object of the run. */
  predicate ObjectsFrom(disk: Disk, nodes: seq<Module>, entries: set<string>, run: seq<Made>)
    requires |run| == |nodes|
  {
    forall i :: 0 <= i < |nodes| && nodes[i].key !in entries ==> nodes[i].key in disk.objects && disk.objects[nodes[i].key] == run[i].object_
  }

  lemma {:induction false} BuiltFromScratch(c: Compiler, cfg: Config, entries: set<string>, before: Disk, after: Disk,
                                            nodes: seq<Module>, units: seq<Unit>)
    requires |units| == |nodes| && Clean(c, cfg, Foreign(before.interfaces, nodes), nodes, |nodes|).Some?
    requires forall i :: 0 <= i < |nodes| ==> Built(c, entries, cfg, before, after, nodes, i, units[i])
    ensures exists run: seq<Made> :: |run| == |nodes| && FromScratch(c, cfg, Foreign(before.interfaces, nodes), nodes, run)
                                     && ObjectsFrom(after, nodes, entries, run)
  {
    hide Clean, FromScratch, Foreign, StateOf, CleanObject, CleanImports;
    var foreign := Foreign(before.interfaces, nodes);
    var run := CleanHasRun(c, cfg, foreign, nodes, |nodes|);
    RunIsClean(c, cfg, foreign, nodes, run);
    forall i | 0 <= i < |nodes| && nodes[i].key !in entries
      ensures nodes[i].key in after.objects && after.objects[nodes[i].key] == run[i].object_
    {
      assert Built(c, entries, cfg, before, after, nodes, i, units[i]);
      assert CleanGives(c, cfg, foreign, nodes, i, run[i].object_);
    }
  }

  lemma {:induction false} LoadFails(interfaces: Interfaces, cfg: Config, imports: seq<Import>, n: nat)
    requires n <= |imports| && Loaded(interfaces, cfg, imports[..n]).None?
    ensures Loaded(interfaces, cfg, imports).None?
    decreases |imports|
  {
    if n == |imports| {
      assert imports[..n] == imports;
    } else {
      var shorter := imports[..|imports| - 1];
      assert shorter[..n] == imports[..n];
      LoadFails(interfaces, cfg, shorter, n);
    }
  }

  lemma {:induction false} StopsAtFailure(c: Compiler, cfg: Config, emitObjects: bool, disk: Disk, nodes: seq<Module>, i: nat, n: nat)
    requires i <= n <= |nodes| && CompiledAll(c, cfg, emitObjects, disk, nodes, i).result.None?
    ensures CompiledAll(c, cfg, emitObjects, disk, nodes, n) == CompiledAll(c, cfg, emitObjects, disk, nodes, i)
  {
    if i < n {
      StopsAtFailure(c, cfg, emitObjects, disk, nodes, i, n - 1);
    }
  }
}
