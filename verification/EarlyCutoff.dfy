/**
 Which modules a build recompiles, and two ways the cache can serve a stale
 object when its assumptions are broken.
 */
module EarlyCutoff {
  import opened Wrappers
  import opened Incremental

  // ----- Exactly what changed is recompiled -----

  function Whole(c: Compiler, cfg: Config, disk: Disk, nodes: seq<Module>): Outcome<seq<Unit>> {
    CompiledAll(c, cfg, true, disk, nodes, |nodes|)
  }

  /** The interfaces module i could load in a build from scratch: those of linked libraries and of the modules before it. */
  function Available(c: Compiler, cfg: Config, disk: Disk, nodes: seq<Module>, i: nat): Interfaces
    requires i < |nodes| && Clean(c, cfg, Foreign(disk.interfaces, nodes), nodes, i + 1).Some?
  {
    Clean(c, cfg, Foreign(disk.interfaces, nodes), nodes, i).value
  }

  /** The hypotheses of every build here. */
  ghost predicate Sound(c: Compiler, profiles: string -> Profile, entries: set<string>, disk: Disk, nodes: seq<Module>) {
    Injective(c) && Faithful(c, profiles, entries, disk) && Stable(profiles, nodes) && Topological(nodes)
  }

  /**
   In a build right after a complete one, a module is recompiled exactly when
   its own text or settings changed, or some name it imports got another
   interface, was added or was dropped.
   */
  lemma {:induction false} RecompiledIff(c: Compiler, profiles: string -> Profile, entries: set<string>, cfg: Config,
                                         disk: Disk, old_: seq<Module>, nodes: seq<Module>, i: nat, j: nat)
    requires Sound(c, profiles, entries, disk, old_) && Whole(c, cfg, disk, old_).result.Some?
    requires Sound(c, profiles, entries, Whole(c, cfg, disk, old_).disk, nodes)
    requires Whole(c, cfg, Whole(c, cfg, disk, old_).disk, nodes).result.Some?
    requires i < |old_| && j < |nodes| && old_[i].key == nodes[j].key
    ensures var first := Whole(c, cfg, disk, old_).disk;
            && Clean(c, cfg, Foreign(disk.interfaces, old_), old_, i + 1).Some?
            && Clean(c, cfg, Foreign(first.interfaces, nodes), nodes, j + 1).Some?
            && (!Whole(c, cfg, first, nodes).result.value[j].reused <==>
                  || nodes[j].input != old_[i].input
                  || exists name :: InterfaceNamed(Available(c, cfg, first, nodes, j), nodes[j].imports, name)
                                    != InterfaceNamed(Available(c, cfg, disk, old_, i), old_[i].imports, name))
  {
    hide Clean, CompiledAll, Foreign, Faithful, NothingLeftOver, Halfway, Untouched, CleanImports, Hashes, InterfaceNamed, Available, StateOf;
    var first := Whole(c, cfg, disk, old_);
    var second := Whole(c, cfg, first.disk, nodes);
    IncrementalMatchesClean(c, profiles, entries, cfg, disk, old_, |old_|);
    IncrementalMatchesClean(c, profiles, entries, cfg, first.disk, nodes, |nodes|);
    assert Built(c, entries, cfg, disk, first.disk, old_, i, first.result.value[i]);
    assert Built(c, entries, cfg, first.disk, second.disk, nodes, j, second.result.value[j]);
    var a := CleanImports(c, cfg, Foreign(disk.interfaces, old_), old_, i);
    var b := CleanImports(c, cfg, Foreign(first.disk.interfaces, nodes), nodes, j);
    StatesEqual(c, cfg, old_[i].input, nodes[j].input, a, b);
    assert ProfileOf(old_[i].input) == profiles(old_[i].key) && ProfileOf(nodes[j].input) == profiles(nodes[j].key);
    CleanImportsAre(c, cfg, disk, old_, i);
    CleanImportsAre(c, cfg, first.disk, nodes, j);
    SameInterfaces(a, b);
  }

  lemma {:induction false} CleanImportsAre(c: Compiler, cfg: Config, disk: Disk, nodes: seq<Module>, i: nat)
    requires i < |nodes| && Clean(c, cfg, Foreign(disk.interfaces, nodes), nodes, i + 1).Some?
    ensures HoldsImports(CleanImports(c, cfg, Foreign(disk.interfaces, nodes), nodes, i), Available(c, cfg, disk, nodes, i), nodes[i].imports)
  {
    hide Loaded, Foreign, InterfaceNamed;
    LoadedIff(Available(c, cfg, disk, nodes, i), cfg, nodes[i].imports);
  }

  lemma {:induction false} SameInterfaces(a: Interfaces, b: Interfaces)
    ensures a == b <==> forall name :: Found(a, name) == Found(b, name)
  {
    if forall name :: Found(a, name) == Found(b, name) {
      forall name ensures name in a <==> name in b {
        assert Found(a, name) == Found(b, name);
      }
      forall name | name in a ensures a[name] == b[name] {
        assert Found(a, name) == Found(b, name);
      }
    }
  }

  /** With the same, differently named imports as before, it is the interfaces at the imports' keys that count. */
  lemma {:induction false} DirectImportsDecide(c: Compiler, profiles: string -> Profile, entries: set<string>, cfg: Config,
                                               disk: Disk, old_: seq<Module>, nodes: seq<Module>, i: nat, j: nat)
    requires Sound(c, profiles, entries, disk, old_) && Whole(c, cfg, disk, old_).result.Some?
    requires Sound(c, profiles, entries, Whole(c, cfg, disk, old_).disk, nodes)
    requires Whole(c, cfg, Whole(c, cfg, disk, old_).disk, nodes).result.Some?
    requires i < |old_| && j < |nodes| && old_[i].key == nodes[j].key && nodes[j].imports == old_[i].imports
    requires forall a, b :: 0 <= a < b < |nodes[j].imports| ==> nodes[j].imports[a].name != nodes[j].imports[b].name
    ensures var first := Whole(c, cfg, disk, old_).disk;
            && Clean(c, cfg, Foreign(disk.interfaces, old_), old_, i + 1).Some?
            && Clean(c, cfg, Foreign(first.interfaces, nodes), nodes, j + 1).Some?
            && (!Whole(c, cfg, first, nodes).result.value[j].reused <==>
                  || nodes[j].input != old_[i].input
                  || exists t :: t in nodes[j].imports && Found(Available(c, cfg, first, nodes, j), t.key)
                                                         != Found(Available(c, cfg, disk, old_, i), t.key))
  {
    hide Clean, CompiledAll, Foreign, Sound, Available, Found;
    RecompiledIff(c, profiles, entries, cfg, disk, old_, nodes, i, j);
    var first := Whole(c, cfg, disk, old_).disk;
    var a, b, imports := Available(c, cfg, first, nodes, j), Available(c, cfg, disk, old_, i), nodes[j].imports;
    if name :| InterfaceNamed(a, imports, name) != InterfaceNamed(b, imports, name) {
      var k := ImportNamedIs(imports, name);
      assert imports[k] in imports;
    }
    if t :| t in imports && Found(a, t.key) != Found(b, t.key) {
      var k :| 0 <= k < |imports| && imports[k] == t;
      OnlyOneNamed(imports, k);
      assert InterfaceNamed(a, imports, t.name) != InterfaceNamed(b, imports, t.name);
    }
  }

  lemma {:induction false} OnlyOneNamed(imports: seq<Import>, k: nat)
    requires k < |imports| && forall a, b :: 0 <= a < b < |imports| ==> imports[a].name != imports[b].name
    ensures ImportNamed(imports, imports[k].name) == Some(imports[k])
    decreases |imports|
  {
    if k > 0 {
      OnlyOneNamed(imports[1..], k - 1);
    }
  }

  lemma {:induction false} StatesEqual(c: Compiler, cfg: Config, a: Input, b: Input, imports: Interfaces, imports': Interfaces)
    requires Injective(c) && c.check(a, imports).Some? && c.check(b, imports').Some?
    ensures (StateOf(c, cfg, a, imports, SurfaceOf(c, a, imports)) == StateOf(c, cfg, b, imports', SurfaceOf(c, b, imports'))
             && ProfileOf(a) == ProfileOf(b)) <==> (a == b && imports == imports')
  {
    hide Hashes;
    if Hashes(c, imports) == Hashes(c, imports') {
      HashesInjective(c, imports, imports');
    }
  }

  /** nodes is old_ with another text for module e. */
  predicate EditOf(old_: seq<Module>, nodes: seq<Module>, e: nat) {
    && e < |old_| == |nodes|
    && (forall i :: 0 <= i < |nodes| ==> nodes[i].key == old_[i].key)
    && (forall i :: 0 <= i < |nodes| && i != e ==> nodes[i] == old_[i])
    && nodes[e].imports == old_[e].imports
  }

  lemma {:induction false} CleanAfterEdit(c: Compiler, cfg: Config, foreign: Interfaces, old_: seq<Module>, nodes: seq<Module>, e: nat, n: nat)
    requires EditOf(old_, nodes, e) && n <= |nodes| && Clean(c, cfg, foreign, old_, n).Some?
    requires e < n ==>
               Clean(c, cfg, foreign, old_, e).Some? &&
               CleanModule(c, cfg, Clean(c, cfg, foreign, old_, e).value, nodes[e]) ==
               CleanModule(c, cfg, Clean(c, cfg, foreign, old_, e).value, old_[e])
    ensures Clean(c, cfg, foreign, nodes, n) == Clean(c, cfg, foreign, old_, n)
  {
    hide CleanModule;
    if n > 0 {
      CleanAfterEdit(c, cfg, foreign, old_, nodes, e, n - 1);
    }
  }

  lemma {:induction false} CleanKeepsForeign(c: Compiler, cfg: Config, foreign: Interfaces, nodes: seq<Module>, n: nat, key: string)
    requires n <= |nodes| && Clean(c, cfg, foreign, nodes, n).Some? && !IsNode(nodes, key)
    ensures Found(Clean(c, cfg, foreign, nodes, n).value, key) == Found(foreign, key)
  {
    hide CleanModule;
    if n > 0 {
      CleanKeepsForeign(c, cfg, foreign, nodes, n - 1, key);
      assert nodes[n - 1].key != key;
    }
  }

  /** A build does not touch interfaces of modules it does not own. */
  lemma {:induction false} ForeignKept(c: Compiler, profiles: string -> Profile, entries: set<string>, cfg: Config,
                                       disk: Disk, old_: seq<Module>, nodes: seq<Module>)
    requires Sound(c, profiles, entries, disk, old_) && Whole(c, cfg, disk, old_).result.Some?
    requires |old_| == |nodes| && forall i :: 0 <= i < |nodes| ==> nodes[i].key == old_[i].key
    ensures Foreign(Whole(c, cfg, disk, old_).disk.interfaces, nodes) == Foreign(disk.interfaces, old_)
  {
    hide Clean, CompiledAll, Faithful, NothingLeftOver, Untouched, Built;
    var foreign := Foreign(disk.interfaces, old_);
    var after := Whole(c, cfg, disk, old_).disk.interfaces;
    IncrementalMatchesClean(c, profiles, entries, cfg, disk, old_, |old_|);
    var clean := Clean(c, cfg, foreign, old_, |old_|).value;
    forall key ensures IsNode(nodes, key) == IsNode(old_, key) {
      if i :| 0 <= i < |nodes| && nodes[i].key == key {
        assert old_[i].key == key;
      }
      if i :| 0 <= i < |nodes| && old_[i].key == key {
        assert nodes[i].key == key;
      }
    }
    forall key | !IsNode(old_, key) ensures Found(after, key) == Found(disk.interfaces, key) {
      CleanKeepsForeign(c, cfg, foreign, old_, |old_|, key);
      assert Settled(old_, |old_|, key);
      assert Found(after, key) == Found(clean, key);
      assert Found(foreign, key) == Found(disk.interfaces, key);
    }
    SameForeign(after, disk.interfaces, nodes, old_);
  }

  lemma {:induction false} SameForeign(a: Interfaces, b: Interfaces, nodes: seq<Module>, old_: seq<Module>)
    requires forall key :: IsNode(nodes, key) == IsNode(old_, key)
    requires forall key :: !IsNode(old_, key) ==> Found(a, key) == Found(b, key)
    ensures Foreign(a, nodes) == Foreign(b, old_)
  {
    hide IsNode;
    forall key ensures key in Foreign(a, nodes) <==> key in Foreign(b, old_) {
      assert !IsNode(old_, key) ==> Found(a, key) == Found(b, key);
    }
    forall key | key in Foreign(a, nodes) ensures Foreign(a, nodes)[key] == Foreign(b, old_)[key] {
      assert Found(a, key) == Found(b, key);
    }
  }

  /** Early cutoff: an edit that leaves its module's interface as it was recompiles that module and no other. */
  lemma {:induction false} EditRecompilesOnlyItself(c: Compiler, profiles: string -> Profile, entries: set<string>, cfg: Config,
                                                    disk: Disk, old_: seq<Module>, nodes: seq<Module>, e: nat, j: nat)
    requires Sound(c, profiles, entries, disk, old_) && Whole(c, cfg, disk, old_).result.Some?
    requires Sound(c, profiles, entries, Whole(c, cfg, disk, old_).disk, nodes)
    requires Whole(c, cfg, Whole(c, cfg, disk, old_).disk, nodes).result.Some?
    requires EditOf(old_, nodes, e) && nodes[e] != old_[e] && j < |nodes|
    requires var foreign := Foreign(disk.interfaces, old_);
             && Clean(c, cfg, foreign, old_, e).Some?
             && CleanModule(c, cfg, Clean(c, cfg, foreign, old_, e).value, nodes[e]) ==
                CleanModule(c, cfg, Clean(c, cfg, foreign, old_, e).value, old_[e])
    ensures Whole(c, cfg, Whole(c, cfg, disk, old_).disk, nodes).result.value[j].reused <==> j != e
  {
    hide CompiledAll, Faithful, NothingLeftOver, Halfway, Untouched, CleanModule, Built, Foreign, Loaded, Stable, Topological, Injective;
    var foreign := Foreign(disk.interfaces, old_);
    var first := Whole(c, cfg, disk, old_).disk;
    RecompiledIff(c, profiles, entries, cfg, disk, old_, nodes, j, j);
    ForeignKept(c, profiles, entries, cfg, disk, old_, nodes);
    CleanBefore(c, cfg, foreign, old_, j);
    CleanAfterEdit(c, cfg, foreign, old_, nodes, e, j);
    assert nodes[j].imports == old_[j].imports;
    assert Available(c, cfg, first, nodes, j) == Available(c, cfg, disk, old_, j);
  }

  lemma {:induction false} CleanBefore(c: Compiler, cfg: Config, foreign: Interfaces, nodes: seq<Module>, i: nat)
    requires i < |nodes| && Clean(c, cfg, foreign, nodes, i + 1).Some?
    ensures Clean(c, cfg, foreign, nodes, i).Some?
  {
  }

  // ----- Where the assumptions matter -----

  /** A compilation that wrote the object and died before the state record. */
  function Torn(c: Compiler, cfg: Config, disk: Disk, m: Module, object_: string): Disk {
    var written := Interrupted(c, cfg, disk, m);
    written.(objects := written.objects[m.key := object_])
  }

  /** m compiles on its own, to the given object. */
  ghost predicate CompilesAlone(c: Compiler, cfg: Config, m: Module, object_: string) {
    && m.imports == [] && c.check(m.input, map[]).Some? && c.lower(m.input, map[])
    && c.emit(cfg, m.input, map[]) == Some(object_)
    && cfg.target != "" && m.input.name != "" && m.input.package != "" && m.input.path != ""
  }

  /**
   Why object and record must be written together: build m, edit it, lose
   power between its object and its record, undo the edit, build again. The
   build succeeds, reuses, and serves the object of the undone edit.
   */
  lemma {:induction false} TornWriteServesStaleObject(c: Compiler, cfg: Config, m: Module, edited: Module, right: string, wrong: string)
    requires Injective(c) && m.key == edited.key && ProfileOf(m.input) == ProfileOf(edited.input) && m.input.package == edited.input.package
    requires CompilesAlone(c, cfg, m, right) && CompilesAlone(c, cfg, edited, wrong)
    ensures var built := Compiled(c, cfg, true, Disk(map[], map[], map[]), m).disk;
            var o := Compiled(c, cfg, true, Torn(c, cfg, built, edited, wrong), m);
            && o.result == Some(Unit(m.key, true))
            && m.key in o.disk.objects && o.disk.objects[m.key] == wrong
            && CleanModule(c, cfg, map[], m).Some? && c.emit(cfg, m.input, map[]) == Some(right)
  {
    hide Hashes;
    assert forall interfaces :: Loaded(interfaces, cfg, []) == Some(map[]);
  }

  /**
   Why a key must fix whether a module's symbols are namespaced: no record
   says so, and a directory shared by two targets that disagree reuses the
   first one's object for the second.
   */
  lemma {:induction false} NamespacingIsNotRecorded(c: Compiler, cfg: Config, m: Module, other: Module, first: string, second: string)
    requires CompilesAlone(c, cfg, m, first) && CompilesAlone(c, cfg, other, second)
    requires other == m.(input := m.input.(namespaced := !m.input.namespaced))
    requires c.check(other.input, map[]) == c.check(m.input, map[])
    ensures var o := Compiled(c, cfg, true, Compiled(c, cfg, true, Disk(map[], map[], map[]), m).disk, other);
            && o.result == Some(Unit(m.key, true))
            && m.key in o.disk.objects && o.disk.objects[m.key] == first
            && c.emit(cfg, other.input, map[]) == Some(second)
  {
    hide Hashes;
    assert forall interfaces :: Loaded(interfaces, cfg, []) == Some(map[]);
  }
}
