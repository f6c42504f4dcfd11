/**
 Resolving a target together with the static libraries it links: cycles of
 link declarations are refused, and every module belongs to one owner.
 */
module Targets {
  import opened Wrappers
  import D = Discovery

  datatype Target = Target(links: seq<string>, isStaticLibrary: bool, supported: bool)

  /** A resolved target: its own modules, entry last, and the libraries it links. */
  datatype Graph = Graph(target: string, nodes: seq<D.Node>, linked: seq<Graph>)

  /** The project, and what each target's discovery sees given the libraries already resolved. */
  datatype Project = Project(
    targets: map<string, Target>,
    world: (string, seq<Graph>) -> D.World,
    entry: (string, seq<Graph>) -> D.Source)

  ghost predicate Known(p: Project) {
    forall name, linked :: D.Consistent(p.world(name, linked)) && p.entry(name, linked) in p.world(name, linked).sources
  }

  // ----- Ownership -----

  function Paths(nodes: seq<D.Node>): set<string> {
    set i | 0 <= i < |nodes| :: nodes[i].source.path
  }

  /** Module paths of a graph and of everything it links. */
  function AllPaths(g: Graph): set<string>
    decreases g, 1
  {
    Paths(g.nodes) + PathsOf(g.linked)
  }

  function PathsOf(gs: seq<Graph>): set<string>
    decreases gs, 0
  {
    if gs == [] then {} else PathsOf(gs[..|gs| - 1]) + AllPaths(gs[|gs| - 1])
  }

  /** Different libraries linked together share no module. */
  predicate Apart(gs: seq<Graph>) {
    forall i, j :: 0 <= i < j < |gs| && gs[i].target != gs[j].target ==> AllPaths(gs[i]) !! AllPaths(gs[j])
  }

  /** Only the entry of a target may also belong to a library it links. */
  predicate OwnModules(g: Graph) {
    forall i :: 0 <= i < |g.nodes| - 1 ==> g.nodes[i].source.path !in PathsOf(g.linked)
  }

  /** At every level of the target tree. */
  predicate Sound(g: Graph) {
    Apart(g.linked) && OwnModules(g) && forall i :: 0 <= i < |g.linked| ==> Sound(g.linked[i])
  }

  // ----- Link declarations -----

  /** The target may be built, and everything it links is a static library of the project. */
  predicate GoodTarget(p: Project, name: string)
    requires name in p.targets
  {
    && p.targets[name].supported
    && forall k :: 0 <= k < |p.targets[name].links| ==> GoodLink(p, p.targets[name].links[k])
  }

  predicate GoodLink(p: Project, link: string) {
    link in p.targets && p.targets[link].isStaticLibrary
  }

  /** g is the tree of the link declarations below its target. */
  predicate Unfolds(p: Project, g: Graph) {
    && g.target in p.targets && GoodTarget(p, g.target)
    && |g.linked| == |p.targets[g.target].links|
    && forall i :: 0 <= i < |g.linked| ==> g.linked[i].target == p.targets[g.target].links[i] && Unfolds(p, g.linked[i])
  }

  function WorldOf(p: Project, name: string, linked: seq<Graph>): D.World {
    p.world(name, linked).(external := PathsOf(linked))
  }

  /** At every level the nodes are what discovery finds there. */
  ghost predicate Discovered(p: Project, g: Graph) {
    && D.Complete(WorldOf(p, g.target, g.linked), p.entry(g.target, g.linked), g.nodes)
    && forall i :: 0 <= i < |g.linked| ==> Discovered(p, g.linked[i])
  }

  /** linked are sound resolutions of everything a target links. */
  ghost predicate Resolved(p: Project, name: string, linked: seq<Graph>)
    requires name in p.targets
  {
    && |linked| == |p.targets[name].links|
    && forall k :: 0 <= k < |linked| ==>
         linked[k].target == p.targets[name].links[k] && Unfolds(p, linked[k]) && Sound(linked[k]) && Discovered(p, linked[k])
  }

  /** The libraries resolve but share modules, or the target's own modules cannot be discovered. */
  ghost predicate Clashes(p: Project, name: string)
    requires name in p.targets
  {
    exists linked :: Resolved(p, name, linked)
                     && !(Apart(linked) && D.Sane(WorldOf(p, name, linked), p.entry(name, linked)))
  }

  /** A walk along link declarations to the reason a target is refused. */
  ghost predicate Refusal(p: Project, walk: seq<string>) {
    && walk != [] && LinkWalk(p, walk)
    && var last := walk[|walk| - 1];
    && last in p.targets
    && (last in walk[..|walk| - 1] || !GoodTarget(p, last) || Clashes(p, last))
  }

  predicate Links(p: Project, a: string, b: string) {
    a in p.targets && b in p.targets[a].links
  }

  predicate LinkWalk(p: Project, walk: seq<string>) {
    forall i, next :: 0 <= i && next == i + 1 < |walk| ==> Links(p, walk[i], walk[next])
  }

  function Height(g: Graph): nat
    decreases g, 1
  {
    1 + Heights(g.linked)
  }

  function Heights(gs: seq<Graph>): nat
    decreases gs, 0
  {
    if gs == [] then 0 else
      var a, b := Heights(gs[..|gs| - 1]), Height(gs[|gs| - 1]);
      if a < b then b else a
  }

  lemma {:induction false} HeightsBound(gs: seq<Graph>, i: nat)
    requires i < |gs|
    ensures Height(gs[i]) <= Heights(gs)
  {
    if i < |gs| - 1 {
      HeightsBound(gs[..|gs| - 1], i);
    }
  }

  /** A resolved target bounds every walk along link declarations, so there is no cycle below it. */
  lemma {:induction false} WalksEnd(p: Project, g: Graph, walk: seq<string>)
    requires Unfolds(p, g) && LinkWalk(p, walk) && walk != [] && walk[0] == g.target
    ensures |walk| <= Height(g)
    decreases g
  {
    if |walk| > 1 {
      var zero, one := 0, 1;
      assert Links(p, walk[zero], walk[one]);
      var i :| 0 <= i < |g.linked| && g.linked[i].target == walk[1];
      var rest := walk[1..];
      forall k, next | 0 <= k && next == k + 1 < |rest| ensures Links(p, rest[k], rest[next]) {
        var a, b := k + 1, next + 1;
        assert walk[a] == rest[k] && walk[b] == rest[next];
        assert Links(p, walk[a], walk[b]);
      }
      WalksEnd(p, g.linked[i], rest);
      HeightsBound(g.linked, i);
    }
  }

  /** The walk that goes round a cycle n times. */
  function Round(cycle: seq<string>, n: nat): (walk: seq<string>)
    ensures |walk| == n * |cycle|
  {
    if n == 0 then [] else Round(cycle, n - 1) + cycle
  }

  lemma {:induction false} RoundWalks(p: Project, cycle: seq<string>, n: nat)
    requires cycle != [] && LinkWalk(p, cycle + [cycle[0]])
    ensures LinkWalk(p, Round(cycle, n))
    ensures n > 0 ==> Round(cycle, n)[0] == cycle[0] && Round(cycle, n)[|Round(cycle, n)| - 1] == cycle[|cycle| - 1]
  {
    hide Links;
    if n > 0 {
      RoundWalks(p, cycle, n - 1);
      var before, closed := Round(cycle, n - 1), cycle + [cycle[0]];
      var walk := before + cycle;
      forall i, next | 0 <= i && next == i + 1 < |walk| ensures Links(p, walk[i], walk[next]) {
        if next < |before| {
          assert Links(p, before[i], before[next]);
        } else if i < |before| {
          var last, end := |cycle| - 1, |cycle|;
          assert Links(p, closed[last], closed[end]);
        } else {
          var a, b := i - |before|, next - |before|;
          assert Links(p, closed[a], closed[b]);
        }
      }
    }
  }

  /** Cyclic declarations are never resolved. */
  lemma {:induction false} CyclesAreRefused(p: Project, g: Graph, cycle: seq<string>)
    requires cycle != [] && cycle[0] == g.target && LinkWalk(p, cycle + [cycle[0]])
    ensures !Unfolds(p, g)
  {
    if Unfolds(p, g) {
      var n := Height(g) + 1;
      RoundWalks(p, cycle, n);
      WalksEnd(p, g, Round(cycle, n));
      LongEnough(n, |cycle|);
    }
  }

  lemma {:induction false} LongEnough(n: nat, k: nat)
    requires k > 0
    ensures n * k >= n
  {
  }

  // ----- Collecting owners -----

  /** owners maps the paths seen so far to the library that owns them. */
  ghost predicate Owned(owners: map<string, string>, gs: seq<Graph>) {
    && owners.Keys == PathsOf(gs)
    && forall i, path :: 0 <= i < |gs| && path in AllPaths(gs[i]) ==> path in owners && owners[path] == gs[i].target
  }

  /** One of these paths has an owner other than owner. */
  predicate Disputed(owners: map<string, string>, owner: string, paths: set<string>) {
    exists path :: path in paths && path in owners && owners[path] != owner
  }

  /** later is owners with more paths, all owned by owner. */
  ghost predicate Adds(owners: map<string, string>, owner: string, later: map<string, string>) {
    && (forall path :: path in owners ==> path in later && later[path] == owners[path])
    && (forall path :: path in later && path !in owners ==> later[path] == owner)
  }

  // ----- Resolution -----

  class Resolver {
    const p: Project
    var visiting: set<string>
    var errors: bool

    constructor (p: Project)
      ensures this.p == p && visiting == {} && !errors
    {
      this.p, visiting, errors := p, {}, false;
    }

    /** The loop over one graph's own nodes in CollectOwnedSourcePathsForLink. */
    method CollectNodes(nodes: seq<D.Node>, owner: string, owned: set<string>, owners: map<string, string>)
      returns (owned': set<string>, owners': map<string, string>)
      requires owned == owners.Keys && !errors
      modifies this`errors
      ensures errors <==> Disputed(owners, owner, Paths(nodes))
      ensures !errors ==> owned' == owners'.Keys == owners.Keys + Paths(nodes) && Adds(owners, owner, owners')
    {
      hide Disputed, Paths;
      owned', owners' := owned, owners;
      NothingDisputed(owners, owner);
      assert nodes[..0] == [];
      for i := 0 to |nodes|
        invariant owned' <= owners'.Keys && owners'.Keys == owners.Keys + Paths(nodes[..i])
        invariant errors <==> Disputed(owners, owner, Paths(nodes[..i]))
        invariant !errors ==> owned' == owners'.Keys
        invariant Adds(owners, owner, owners')
      {
        var path := nodes[i].source.path;
        PathsSnoc(nodes, i);
        DisputedUnion(owners, owner, Paths(nodes[..i]), {path});
        DisputedOne(owners, owner, path);
        if path in owners' && owners'[path] != owner {
          errors := true;
        } else {
          owners' := owners'[path := owner];
          owned' := owned' + {path};
        }
      }
      assert nodes[..|nodes|] == nodes;
    }

    /** CollectOwnedSourcePathsForLink. */
    method CollectOwned(g: Graph, owner: string, owned: set<string>, owners: map<string, string>)
      returns (owned': set<string>, owners': map<string, string>)
      requires owned == owners.Keys && !errors
      modifies this`errors
      ensures errors <==> Disputed(owners, owner, AllPaths(g))
      ensures !errors ==> owned' == owners'.Keys == owners.Keys + AllPaths(g) && Adds(owners, owner, owners')
      decreases g
    {
      hide Disputed, Adds, Paths, AllPaths, PathsOf;
      owned', owners' := CollectNodes(g.nodes, owner, owned, owners);
      ghost var seen := Paths(g.nodes);
      CollectedNone(g);
      for i := 0 to |g.linked|
        invariant seen == Collected(g, i)
        invariant errors <==> Disputed(owners, owner, seen)
        invariant !errors ==> owned' == owners'.Keys == owners.Keys + seen && Adds(owners, owner, owners')
      {
        ghost var more := AllPaths(g.linked[i]);
        CollectedStep(g, i);
        DisputedUnion(owners, owner, seen, more);
        if !errors {
          DisputedLater(owners, owner, owners', more);
          ghost var before := owners';
          owned', owners' := CollectOwned(g.linked[i], owner, owned', owners');
          if !errors {
            AddsTransitive(owners, owner, before, owners');
          }
        }
        seen := seen + more;
      }
      CollectedAll(g);
    }

    /**
     BuildResolvedTargetGraph; path is the targets being visited, outermost
     first. What is resolved is sound at every level, and what is refused has a
     reason.
     */
    method Resolve(name: string, ghost path: seq<string>) returns (graph: Option<Graph>)
      requires Known(p) && name in p.targets && LinkWalk(p, path + [name]) && visiting == Elements(path)
      modifies this
      ensures visiting == old(visiting) && (old(errors) ==> errors)
      ensures graph.Some? ==> !errors && graph.value.target == name && Unfolds(p, graph.value) && Sound(graph.value)
      ensures graph.Some? ==> Discovered(p, graph.value)
      ensures graph.None? ==> old(errors) || exists q :: Refusal(p, path + [name] + q)
      decreases p.targets.Keys - visiting
    {
      hide LinkWalk, Unfolds, Sound, Clashes, Discovered;
      var target := p.targets[name];
      if !target.supported {
        errors := true;
        RefusedHere(p, path, name);
        return None;
      }
      if name in visiting {
        errors := true;
        RefusedHere(p, path, name);
        return None;
      }
      visiting := visiting + {name};
      ElementsGrow(path, name);
      var linked: seq<Graph> := [];
      for i := 0 to |target.links|
        invariant visiting == old(visiting) + {name} && (old(errors) ==> errors)
        invariant errors ==> old(errors) || !GoodTarget(p, name)
        invariant !errors ==> |linked| == i && forall k :: 0 <= k < i ==> GoodLink(p, target.links[k])
        invariant forall k :: 0 <= k < |linked| ==> Unfolds(p, linked[k]) && Sound(linked[k]) && Discovered(p, linked[k])
        invariant !errors ==> forall k :: 0 <= k < i ==> linked[k].target == target.links[k]
      {
        var link := target.links[i];
        if link !in p.targets || !p.targets[link].isStaticLibrary {
          assert !GoodLink(p, target.links[i]);
          errors := true;
        } else {
          LinkWalkGrows(p, path, name, link);
          ghost var before := errors;
          var sub := Resolve(link, path + [name]);
          if sub.None? {
            visiting := visiting - {name};
            if before {
              RefusedUnlessErrors(p, path, name, old(errors));
            } else {
              RefusedBelow(p, path, name, link);
            }
            return None;
          }
          linked := linked + [sub.value];
        }
      }
      visiting := visiting - {name};
      if errors {
        RefusedUnlessErrors(p, path, name, old(errors));
        return None;
      }
      var owned := CollectAll(linked);
      if errors {
        ClashFound(p, path, name, linked);
        return None;
      }
      graph := DiscoverOwn(name, linked, owned);
      if graph.None? {
        ClashFound(p, path, name, linked);
      }
    }

    /** The loop over the linked libraries. */
    method CollectAll(linked: seq<Graph>) returns (owned: set<string>)
      requires !errors
      modifies this`errors
      ensures errors <==> !Apart(linked)
      ensures !errors ==> owned == PathsOf(linked)
    {
      var owners: map<string, string>;
      owned, owners := {}, map[];
      for i := 0 to |linked|
        invariant errors <==> !Apart(linked[..i])
        invariant !errors ==> owned == owners.Keys && Owned(owners, linked[..i])
      {
        assert linked[..i + 1][..i] == linked[..i];
        if errors {
          NotApartLater(linked[..i + 1], i);
        } else {
          ApartStep(linked[..i + 1], owners);
          ghost var before := owners;
          owned, owners := CollectOwned(linked[i], linked[i].target, owned, owners);
          if !errors {
            OwnedStep(linked[..i + 1], before, owners);
          }
        }
      }
      assert linked[..|linked|] == linked;
    }

    method DiscoverOwn(name: string, linked: seq<Graph>, owned: set<string>) returns (graph: Option<Graph>)
      requires Known(p) && name in p.targets && GoodTarget(p, name) && !errors
      requires owned == PathsOf(linked) && Apart(linked) && Resolved(p, name, linked)
      modifies this`errors
      ensures graph.Some? ==> !errors && graph.value.target == name && Unfolds(p, graph.value) && Sound(graph.value)
      ensures graph.Some? ==> Discovered(p, graph.value)
      ensures graph.None? ==> !D.Sane(WorldOf(p, name, linked), p.entry(name, linked))
    {
      var w := p.world(name, linked).(external := owned);
      var entry := p.entry(name, linked);
      assert D.Consistent(w) by {
        assert D.Consistent(p.world(name, linked));
      }
      var search := new D.Search(w);
      var ok := search.Discover(entry);
      if !ok {
        errors := true;
        return None;
      }
      OwnModulesFound(w, entry, search.nodes);
      graph := Some(Graph(name, search.nodes, linked));
    }
  }

  // ----- Reasons for refusal -----

  function Elements(path: seq<string>): set<string> {
    set i | 0 <= i < |path| :: path[i]
  }

  lemma {:induction false} ElementsGrow(path: seq<string>, name: string)
    ensures Elements(path + [name]) == Elements(path) + {name}
  {
    var more := path + [name];
    assert more[|path|] == name;
    forall x | x in Elements(path) ensures x in Elements(more) {
      var i :| 0 <= i < |path| && path[i] == x;
      assert more[i] == x;
    }
  }

  lemma {:induction false} LinkWalkGrows(p: Project, path: seq<string>, name: string, link: string)
    requires LinkWalk(p, path + [name]) && Links(p, name, link)
    ensures LinkWalk(p, path + [name] + [link])
  {
    var before, walk := path + [name], path + [name] + [link];
    forall i, next | 0 <= i && next == i + 1 < |walk| ensures Links(p, walk[i], walk[next]) {
      if next < |before| {
        assert Links(p, before[i], before[next]);
      }
    }
  }

  lemma {:induction false} RefusedHere(p: Project, path: seq<string>, name: string)
    requires name in p.targets && LinkWalk(p, path + [name])
    requires !GoodTarget(p, name) || Clashes(p, name) || name in Elements(path)
    ensures Refusal(p, path + [name] + [])
  {
    var walk := path + [name];
    assert walk + [] == walk && walk[..|walk| - 1] == path;
  }

  lemma {:induction false} RefusedUnlessErrors(p: Project, path: seq<string>, name: string, errors: bool)
    requires name in p.targets && LinkWalk(p, path + [name]) && (errors || !GoodTarget(p, name))
    ensures errors || Refusal(p, path + [name] + [])
  {
    if !errors {
      RefusedHere(p, path, name);
    }
  }

  lemma {:induction false} RefusedBelow(p: Project, path: seq<string>, name: string, link: string)
    requires exists q :: Refusal(p, path + [name] + [link] + q)
    ensures exists q :: Refusal(p, path + [name] + q)
  {
    hide Refusal;
    var q :| Refusal(p, path + [name] + [link] + q);
    assert path + [name] + [link] + q == path + [name] + ([link] + q);
  }

  lemma {:induction false} ClashFound(p: Project, path: seq<string>, name: string, linked: seq<Graph>)
    requires name in p.targets && LinkWalk(p, path + [name]) && Resolved(p, name, linked)
    requires !(Apart(linked) && D.Sane(WorldOf(p, name, linked), p.entry(name, linked)))
    ensures Refusal(p, path + [name] + [])
  {
    assert Clashes(p, name);
    RefusedHere(p, path, name);
  }

  // ----- Steps -----

  lemma {:induction false} PathsSnoc(nodes: seq<D.Node>, i: nat)
    requires i < |nodes|
    ensures Paths(nodes[..i + 1]) == Paths(nodes[..i]) + {nodes[i].source.path}
  {
    forall path | path in Paths(nodes[..i]) + {nodes[i].source.path} ensures path in Paths(nodes[..i + 1]) {
      if path in Paths(nodes[..i]) {
        var k :| 0 <= k < i && nodes[..i][k].source.path == path;
        assert nodes[..i + 1][k].source.path == path;
      } else {
        assert nodes[..i + 1][i].source.path == path;
      }
    }
    forall path | path in Paths(nodes[..i + 1]) ensures path in Paths(nodes[..i]) + {nodes[i].source.path} {
      var k :| 0 <= k < i + 1 && nodes[..i + 1][k].source.path == path;
      if k < i {
        assert nodes[..i][k].source.path == path;
      }
    }
  }

  /** Paths of g's own modules and of the first i libraries it links. */
  function Collected(g: Graph, i: nat): set<string>
    requires i <= |g.linked|
  {
    Paths(g.nodes) + PathsOf(g.linked[..i])
  }

  lemma {:induction false} CollectedNone(g: Graph)
    ensures Collected(g, 0) == Paths(g.nodes)
  {
  }

  lemma {:induction false} CollectedStep(g: Graph, i: nat)
    requires i < |g.linked|
    ensures Collected(g, i + 1) == Collected(g, i) + AllPaths(g.linked[i])
  {
    hide Paths, AllPaths;
    assert g.linked[..i + 1][..i] == g.linked[..i];
  }

  lemma {:induction false} CollectedAll(g: Graph)
    ensures Collected(g, |g.linked|) == AllPaths(g)
  {
    hide Paths;
    assert g.linked[..|g.linked|] == g.linked;
  }

  lemma {:induction false} AddsTransitive(a: map<string, string>, owner: string, b: map<string, string>, c: map<string, string>)
    requires Adds(a, owner, b) && Adds(b, owner, c)
    ensures Adds(a, owner, c)
  {
  }

  lemma {:induction false} NotApartLater(gs: seq<Graph>, i: nat)
    requires |gs| == i + 1 && !Apart(gs[..i])
    ensures !Apart(gs)
  {
    var a, b :| 0 <= a < b < i && gs[..i][a].target != gs[..i][b].target && !(AllPaths(gs[..i][a]) !! AllPaths(gs[..i][b]));
    assert gs[a] == gs[..i][a] && gs[b] == gs[..i][b];
  }

  lemma {:induction false} NothingDisputed(owners: map<string, string>, owner: string)
    ensures !Disputed(owners, owner, Paths([])) && Paths([]) == {}
  {
  }

  lemma {:induction false} DisputedUnion(owners: map<string, string>, owner: string, a: set<string>, b: set<string>)
    ensures Disputed(owners, owner, a + b) <==> Disputed(owners, owner, a) || Disputed(owners, owner, b)
  {
  }

  lemma {:induction false} DisputedOne(owners: map<string, string>, owner: string, path: string)
    ensures Disputed(owners, owner, {path}) <==> path in owners && owners[path] != owner
  {
  }

  /** What owner has added itself is not disputed. */
  lemma {:induction false} DisputedLater(owners: map<string, string>, owner: string, later: map<string, string>, paths: set<string>)
    requires Adds(owners, owner, later)
    ensures Disputed(later, owner, paths) <==> Disputed(owners, owner, paths)
  {
    if path :| path in paths && path in later && later[path] != owner {
      assert path in owners && owners[path] != owner;
    }
    if path :| path in paths && path in owners && owners[path] != owner {
      assert path in later && later[path] != owner;
    }
  }

  /** The next library clashes exactly when one of its paths has another owner. */
  lemma {:induction false} ApartStep(gs: seq<Graph>, owners: map<string, string>)
    requires gs != []
    requires var n := |gs| - 1; Apart(gs[..n]) && Owned(owners, gs[..n])
    ensures var last := gs[|gs| - 1];
            Apart(gs) <==> !Disputed(owners, last.target, AllPaths(last))
  {
    hide AllPaths;
    var n := |gs| - 1;
    var last := gs[n];
    if path :| path in AllPaths(last) && path in owners && owners[path] != last.target {
      var i := OwnerOf(gs[..n], path);
      assert gs[i] == gs[..n][i];
      assert !(AllPaths(gs[i]) !! AllPaths(last));
    } else {
      forall i, j | 0 <= i < j < |gs| && gs[i].target != gs[j].target ensures AllPaths(gs[i]) !! AllPaths(gs[j]) {
        assert gs[..n][i] == gs[i];
        if j < n {
          assert gs[..n][j] == gs[j];
        } else {
          forall path | path in AllPaths(gs[i]) ensures path !in AllPaths(last) {
            assert owners[path] == gs[i].target;
          }
        }
      }
    }
  }

  lemma {:induction false} OwnerOf(gs: seq<Graph>, path: string) returns (i: nat)
    requires path in PathsOf(gs)
    ensures i < |gs| && path in AllPaths(gs[i])
  {
    hide AllPaths;
    var n := |gs| - 1;
    if path in AllPaths(gs[n]) {
      i := n;
    } else {
      i := OwnerOf(gs[..n], path);
    }
  }

  lemma {:induction false} OwnedStep(gs: seq<Graph>, before: map<string, string>, owners: map<string, string>)
    requires gs != [] && Owned(before, gs[..|gs| - 1])
    requires var last := gs[|gs| - 1];
             owners.Keys == before.Keys + AllPaths(last) && Adds(before, last.target, owners) && !Disputed(before, last.target, AllPaths(last))
    ensures Owned(owners, gs)
  {
    hide AllPaths;
    var n := |gs| - 1;
    forall i, path | 0 <= i < |gs| && path in AllPaths(gs[i]) ensures path in owners && owners[path] == gs[i].target {
      if i < n {
        assert gs[..n][i] == gs[i];
      }
    }
  }

  lemma {:induction false} OwnModulesFound(w: D.World, entry: D.Source, nodes: seq<D.Node>)
    requires D.Consistent(w) && D.Complete(w, entry, nodes)
    ensures forall i :: 0 <= i < |nodes| - 1 ==> nodes[i].source.path !in w.external
  {
    hide D.NodeOk;
    forall i | 0 <= i < |nodes| - 1 ensures nodes[i].source.path !in w.external {
      assert D.Has(nodes, |nodes|, nodes[i].source);
      assert nodes[i].source.key != nodes[|nodes| - 1].source.key;
      D.ReachedNotExternal(w, entry, nodes[i].source);
    }
  }
}
