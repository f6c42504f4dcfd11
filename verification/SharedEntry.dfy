/**
 A project on which the order assertion fires: target app takes as its entry a
 file that library lib, which it links, owns too. The two list the file under
 different packages, so its import of the package's internal module finds a
 different file for each, and app's internal module imports the entry back.
 */
module SharedEntry {
  import opened Wrappers
  import D = Discovery
  import opened Targets

  const LIB_ENTRY := D.Source("shared/shapes.mc", "shared/shapes.mc", false, None)
  const LIB_INTERNAL := D.Source("lib/internal.mc", "lib/internal.mc", true, Some("core"))
  const APP_ENTRY := D.Source("tools::shapes", "shared/shapes.mc", false, Some("tools"))
  const APP_INTERNAL := D.Source("app/internal.mc", "app/internal.mc", true, Some("tools"))

  /** A target's view: sources without a package of their own get the given one, and internal.mc is found from the target's package only. */
  function World(entry: D.Source, internal: D.Source, package: string, given: Option<string>): D.World {
    D.World(
      {entry, internal},
      (s: D.Source) =>
        if s.path == "shared/shapes.mc" then Some(["internal"])
        else if s.path == "app/internal.mc" then Some(["shapes"])
        else Some([]),
      (s: D.Source) => given,
      (importer: D.Source, identity: Option<string>, name: string) =>
        if name == "internal" && identity == Some(package) then Some(internal) else if name == "shapes" then Some(entry) else None,
      {})
  }

  function TheProject(): Project {
    Project(
      map["lib" := Target([], true, true), "app" := Target(["lib"], false, true)],
      (name: string, linked: seq<Graph>) =>
        if name == "lib" then World(LIB_ENTRY, LIB_INTERNAL, "core", Some("core")) else World(APP_ENTRY, APP_INTERNAL, "tools", None),
      (name: string, linked: seq<Graph>) => if name == "lib" then LIB_ENTRY else APP_ENTRY)
  }

  lemma {:induction false} ProjectKnown()
    ensures Known(TheProject())
  {
    WorldConsistent(LIB_ENTRY, LIB_INTERNAL, "core", Some("core"));
    WorldConsistent(APP_ENTRY, APP_INTERNAL, "tools", None);
  }

  lemma {:induction false} WorldConsistent(entry: D.Source, internal: D.Source, package: string, given: Option<string>)
    requires entry.key != internal.key
    ensures D.Consistent(World(entry, internal, package, given))
  {
  }

  // ----- Each target's own modules -----

  /** Nodes for an entry that imports one module, which imports nothing but modules of linked libraries. */
  function Pair(w: D.World, entry: D.Source, internal: D.Source): seq<D.Node>
    requires D.Readable(w, entry) && D.Readable(w, internal)
  {
    [D.Node(internal, D.IdentityOf(w, internal), D.Imports(w, internal)), D.Node(entry, D.IdentityOf(w, entry), D.Imports(w, entry))]
  }

  ghost predicate IsPair(w: D.World, entry: D.Source, internal: D.Source) {
    && D.Consistent(w) && entry in w.sources && internal in w.sources && entry.key != internal.key
    && D.Readable(w, entry) && D.Readable(w, internal)
    && D.Imports(w, entry) == [internal] && internal.path !in w.external
    && forall t :: t in D.Imports(w, internal) ==> t.path in w.external
  }

  lemma {:induction false} PairComplete(w: D.World, entry: D.Source, internal: D.Source)
    requires IsPair(w, entry, internal)
    ensures D.Complete(w, entry, Pair(w, entry, internal)) && D.Sane(w, entry)
  {
    hide D.Consistent;
    var nodes := Pair(w, entry, internal);
    assert D.NodeOk(w, nodes, 0);
    assert nodes[0].source == internal;
    assert D.NodeOk(w, nodes, 1);
    assert D.Edge(w, entry, internal) by {
      assert D.Target(w, entry, w.parse(entry).value[0]) == Some(D.Imports(w, entry)[0]);
    }
    D.ReachesHere(w, internal);
    D.ReachesBefore(w, entry, internal, internal);
    D.ReachesHere(w, entry);
    D.NodesProveSane(w, nodes, entry);
    D.SaneIffNoBadWalk(w, entry);
  }

  function LibWorld(): D.World {
    WorldOf(TheProject(), "lib", [])
  }

  function AppWorld(lib: Graph): D.World {
    WorldOf(TheProject(), "app", [lib])
  }

  lemma {:induction false} LibIsPair()
    ensures IsPair(LibWorld(), LIB_ENTRY, LIB_INTERNAL)
  {
    WorldConsistent(LIB_ENTRY, LIB_INTERNAL, "core", Some("core"));
  }

  ghost predicate ResolvesLib(lib: Graph) {
    lib.target == "lib" && lib.linked == [] && Discovered(TheProject(), lib)
  }

  lemma {:induction false} LibOwns(lib: Graph)
    requires ResolvesLib(lib)
    ensures APP_ENTRY.path in PathsOf([lib]) && APP_INTERNAL.path !in PathsOf([lib])
  {
    hide D.NodeOk;
    var w, nodes := LibWorld(), lib.nodes;
    assert nodes[|nodes| - 1].source.path == APP_ENTRY.path;
    forall i | 0 <= i < |nodes| ensures nodes[i].source.path != APP_INTERNAL.path {
      assert D.NodeOk(w, nodes, i);
      SourceKnown(w, nodes, i);
    }
    assert [lib][..0] == [];
  }

  lemma {:induction false} SourceKnown(w: D.World, nodes: seq<D.Node>, i: nat)
    requires i < |nodes| && D.NodeOk(w, nodes, i)
    ensures nodes[i].source in w.sources
  {
  }

  lemma {:induction false} AppIsPair(lib: Graph)
    requires ResolvesLib(lib)
    ensures IsPair(AppWorld(lib), APP_ENTRY, APP_INTERNAL) && D.Imports(AppWorld(lib), APP_INTERNAL) == [APP_ENTRY]
  {
    hide PathsOf, ResolvesLib;
    LibOwns(lib);
    WorldConsistent(APP_ENTRY, APP_INTERNAL, "tools", None);
  }

  // ----- The assertion fires -----

  /** However app is resolved, its nodes break the assertion. */
  lemma {:induction false} ResolvedOutOfOrder(g: Graph)
    requires g.target == "app" && Unfolds(TheProject(), g) && Discovered(TheProject(), g)
    ensures !D.InOrder(g.nodes)
  {
    hide D.InOrder, D.NodeOk, PathsOf;
    var lib := g.linked[0];
    assert Unfolds(TheProject(), lib);
    assert g.linked == [lib] && lib.linked == [];
    assert ResolvesLib(lib);
    AppIsPair(lib);
    LibOwns(lib);
    var w := AppWorld(lib);
    PairComplete(w, APP_ENTRY, APP_INTERNAL);
    assert Pair(w, APP_ENTRY, APP_INTERNAL)[0].source == APP_INTERNAL;
    assert D.Has(g.nodes, |g.nodes|, APP_INTERNAL);
    var i :| 0 <= i < |g.nodes| && g.nodes[i].source == APP_INTERNAL;
    assert D.NodeOk(w, g.nodes, i);
    NodeImports(w, g.nodes, i);
    D.AssertionFiresIff(w, APP_ENTRY, g.nodes);
  }

  lemma {:induction false} NodeImports(w: D.World, nodes: seq<D.Node>, i: nat)
    requires i < |nodes| && D.NodeOk(w, nodes, i)
    ensures D.Readable(w, nodes[i].source) && nodes[i].imports == D.Imports(w, nodes[i].source)
  {
  }

  lemma {:induction false} AppSane(linked: seq<Graph>)
    requires Resolved(TheProject(), "app", linked)
    ensures Apart(linked) && D.Sane(WorldOf(TheProject(), "app", linked), TheProject().entry("app", linked))
  {
    hide D.Complete, IsPair;
    var lib := linked[0];
    assert linked == [lib] && lib.linked == [] && ResolvesLib(lib);
    AppIsPair(lib);
    PairComplete(AppWorld(lib), APP_ENTRY, APP_INTERNAL);
  }

  lemma {:induction false} NothingClashes(name: string)
    requires name in TheProject().targets
    ensures !Clashes(TheProject(), name)
  {
    var p := TheProject();
    forall linked | Resolved(p, name, linked) ensures Apart(linked) && D.Sane(WorldOf(p, name, linked), p.entry(name, linked)) {
      if name == "lib" {
        assert linked == [];
        LibIsPair();
        PairComplete(LibWorld(), LIB_ENTRY, LIB_INTERNAL);
      } else {
        AppSane(linked);
      }
    }
  }

  lemma {:induction false} LinkAt(p: Project, walk: seq<string>, i: nat)
    requires LinkWalk(p, walk) && i + 1 < |walk|
    ensures Links(p, walk[i], walk[i + 1])
  {
    var next := i + 1;
    assert Links(p, walk[i], walk[next]);
  }

  lemma {:induction false} WalksFromApp(walk: seq<string>)
    requires LinkWalk(TheProject(), walk) && walk != [] && walk[0] == "app"
    ensures walk == ["app"] || walk == ["app", "lib"]
  {
    if |walk| > 1 {
      LinkAt(TheProject(), walk, 0);
      if |walk| > 2 {
        LinkAt(TheProject(), walk, 1);
      }
    }
  }

  /** No target of the project is refused. */
  lemma {:induction false} NothingRefused(q: seq<string>)
    ensures !Refusal(TheProject(), ["app"] + q)
  {
    hide Clashes;
    var p, walk := TheProject(), ["app"] + q;
    NothingClashes("app");
    NothingClashes("lib");
    assert GoodLink(p, "lib");
    if LinkWalk(p, walk) {
      WalksFromApp(walk);
    }
  }

  /** Target resolution succeeds on the project, and the assertion that follows it fails. */
  method ResolveApp() returns (graph: Option<Graph>, holds: bool)
    ensures graph.Some? && graph.value.target == "app" && Sound(graph.value)
    ensures !holds && holds == D.InOrder(graph.value.nodes)
  {
    var p := TheProject();
    ProjectKnown();
    var resolver := new Resolver(p);
    assert [] + ["app"] == ["app"];
    graph := resolver.Resolve("app", []);
    forall q ensures !Refusal(p, ["app"] + q) {
      NothingRefused(q);
    }
    ResolvedOutOfOrder(graph.value);
    holds := D.TopologicalOrderHolds(graph.value.nodes);
  }
}
