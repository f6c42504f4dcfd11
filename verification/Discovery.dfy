/**
 Module discovery: a depth-first search along imports that orders modules for
 compilation and refuses cycles and modules it cannot read.
 */
module Discovery {
  import opened Wrappers

  /** A module found on disk or in the project; its artifact key is what the search remembers it by. */
  datatype Source = Source(key: string, path: string, isInternal: bool, identity: Option<string>)

  /** The files and the project's import rules, as discovery sees them. */
  datatype World = World(
    sources: set<Source>,
    parse: Source -> Option<seq<string>>,                        // the names a module imports
    identityFor: Source -> Option<string>,
    resolve: (Source, Option<string>, string) -> Option<Source>, // importer, its package, imported name
    external: set<string>)                                       // paths owned by linked libraries

  datatype Node = Node(source: Source, identity: Option<string>, imports: seq<Source>)

  // ----- The import graph -----

  /** Resolution stays within the known sources, and an artifact key names one of them. */
  ghost predicate Consistent(w: World) {
    && (forall s, t :: s in w.sources && t in w.sources && s.key == t.key ==> s == t)
    && (forall s, identity, name :: s in w.sources && w.resolve(s, identity, name).Some? ==>
          w.resolve(s, identity, name).value in w.sources)
  }

  function IdentityOf(w: World, s: Source): Option<string> {
    if s.identity.Some? then s.identity else w.identityFor(s)
  }

  function Target(w: World, s: Source, name: string): Option<Source> {
    w.resolve(s, IdentityOf(w, s), name)
  }

  /** s parses, may be compiled where it is, and all its imports resolve. */
  predicate Readable(w: World, s: Source) {
    && w.parse(s).Some?
    && (s.isInternal ==> IdentityOf(w, s).Some?)
    && forall j :: 0 <= j < |w.parse(s).value| ==> Target(w, s, w.parse(s).value[j]).Some?
  }

  function Imports(w: World, s: Source): (imports: seq<Source>)
    requires Readable(w, s)
    ensures |imports| == |w.parse(s).value|
    ensures forall j :: 0 <= j < |imports| ==> Target(w, s, w.parse(s).value[j]) == Some(imports[j])
  {
    seq(|w.parse(s).value|, j requires 0 <= j < |w.parse(s).value| => Target(w, s, w.parse(s).value[j]).value)
  }

  /** Modules of linked libraries are not followed. */
  predicate Edge(w: World, s: Source, t: Source) {
    && w.parse(s).Some?
    && t.path !in w.external
    && exists j :: 0 <= j < |w.parse(s).value| && Target(w, s, w.parse(s).value[j]) == Some(t)
  }

  predicate Walk(w: World, p: seq<Source>) {
    && |p| > 0
    && p[0] in w.sources
    && forall i, next :: 0 <= i && next == i + 1 < |p| ==> Edge(w, p[i], p[next])
  }

  ghost predicate Reaches(w: World, s: Source, t: Source) {
    exists p :: WalkFrom(w, p, s, t)
  }

  predicate WalkFrom(w: World, p: seq<Source>, s: Source, t: Source) {
    Walk(w, p) && p[0] == s && p[|p| - 1] == t
  }

  /** A walk into a module that cannot be read, or back to a module on it. */
  predicate BadWalk(w: World, p: seq<Source>) {
    && Walk(w, p)
    && (!Readable(w, p[|p| - 1]) || p[|p| - 1] in p[..|p| - 1])
  }

  ghost predicate Cyclic(w: World, t: Source) {
    exists u :: Edge(w, t, u) && Reaches(w, u, t)
  }

  /** The graph below entry has no cycle and nothing unreadable. */
  ghost predicate Sane(w: World, entry: Source) {
    forall t :: Reaches(w, entry, t) ==> Readable(w, t) && !Cyclic(w, t)
  }

  // ----- Walks -----

  lemma {:induction false} WalkStays(w: World, p: seq<Source>, i: nat)
    requires Consistent(w) && Walk(w, p) && i < |p|
    ensures p[i] in w.sources
  {
    if i > 0 {
      WalkStays(w, p, i - 1);
      var before := i - 1;
      assert Edge(w, p[before], p[i]);
    }
  }

  lemma {:induction false} WalkPiece(w: World, p: seq<Source>, a: nat, b: nat)
    requires Consistent(w) && Walk(w, p) && a < b <= |p|
    ensures WalkFrom(w, p[a..b], p[a], p[b - 1])
  {
    WalkStays(w, p, a);
    forall i, next | 0 <= i && next == i + 1 < b - a ensures Edge(w, p[a..b][i], p[a..b][next]) {
      assert Edge(w, p[a + i], p[a + next]);
    }
  }

  lemma {:induction false} WalkExtends(w: World, p: seq<Source>, t: Source)
    requires Walk(w, p) && Edge(w, p[|p| - 1], t)
    ensures Walk(w, p + [t])
  {
    var q := p + [t];
    forall i, next | 0 <= i && next == i + 1 < |q| ensures Edge(w, q[i], q[next]) {
      if next < |p| {
        assert Edge(w, p[i], p[next]);
      }
    }
  }

  lemma {:induction false} ReachesHere(w: World, s: Source)
    requires s in w.sources
    ensures Reaches(w, s, s)
  {
    assert WalkFrom(w, [s], s, s);
  }

  lemma {:induction false} ReachesBefore(w: World, s: Source, t: Source, u: Source)
    requires s in w.sources && Edge(w, s, t) && Reaches(w, t, u)
    ensures Reaches(w, s, u)
  {
    var p :| WalkFrom(w, p, t, u);
    var q := [s] + p;
    forall i, next | 0 <= i && next == i + 1 < |q| ensures Edge(w, q[i], q[next]) {
      if i > 0 {
        var before := i - 1;
        assert Edge(w, p[before], p[i]);
      }
    }
    assert WalkFrom(w, q, s, u);
  }

  lemma {:induction false} WalksCompose(w: World, p: seq<Source>, q: seq<Source>)
    requires Walk(w, p) && Walk(w, q) && p[|p| - 1] == q[0]
    ensures Walk(w, p + q[1..])
  {
    var r := p + q[1..];
    forall i, next | 0 <= i && next == i + 1 < |r| ensures Edge(w, r[i], r[next]) {
      if next < |p| {
        assert Edge(w, p[i], p[next]);
      } else {
        var a, b := i + 1 - |p|, next + 1 - |p|;
        assert r[i] == q[a] && r[next] == q[b];
        assert Edge(w, q[a], q[b]);
      }
    }
  }

  lemma {:induction false} BadWalkReachesTrouble(w: World, p: seq<Source>)
    requires Consistent(w) && BadWalk(w, p)
    ensures Reaches(w, p[0], p[|p| - 1])
    ensures !Readable(w, p[|p| - 1]) || Cyclic(w, p[|p| - 1])
  {
    var last := |p| - 1;
    assert WalkFrom(w, p, p[0], p[last]);
    if Readable(w, p[last]) {
      var i :| 0 <= i < last && p[i] == p[last];
      var next := i + 1;
      assert Edge(w, p[i], p[next]);
      WalkPiece(w, p, next, |p|);
      assert Reaches(w, p[next], p[last]);
    }
  }

  lemma {:induction false} CycleGivesBadWalk(w: World, p: seq<Source>, t: Source)
    requires Walk(w, p) && p[|p| - 1] == t && Cyclic(w, t)
    ensures exists r :: BadWalk(w, r) && r[0] == p[0]
  {
    var u :| Edge(w, t, u) && Reaches(w, u, t);
    var q :| WalkFrom(w, q, u, t);
    WalkExtends(w, p, u);
    WalksCompose(w, p + [u], q);
    var r := p + [u] + q[1..];
    assert r[|r| - 1] == t && r[..|r| - 1][|p| - 1] == t;
    assert BadWalk(w, r) && r[0] == p[0];
  }

  /** A bad walk is exactly a reachable module that is unreadable or on a cycle. */
  lemma {:induction false} SaneIffNoBadWalk(w: World, entry: Source)
    requires Consistent(w) && entry in w.sources
    ensures Sane(w, entry) <==> !exists p :: BadWalk(w, p) && p[0] == entry
  {
    hide Readable, Cyclic;
    if p :| BadWalk(w, p) && p[0] == entry {
      BadWalkReachesTrouble(w, p);
    }
    if t :| Reaches(w, entry, t) && !(Readable(w, t) && !Cyclic(w, t)) {
      var p :| WalkFrom(w, p, entry, t);
      if Readable(w, t) {
        CycleGivesBadWalk(w, p, t);
      } else {
        assert BadWalk(w, p) && p[0] == entry;
      }
    }
  }

  /**
   What a discovery is refused for at its entry: it cannot be parsed, it is
   internal and neither carries nor is given a package, or it imports itself.
   */
  lemma {:induction false} RefusedAtEntry(w: World, entry: Source)
    requires entry in w.sources
    requires || w.parse(entry).None?
             || (entry.isInternal && entry.identity.None? && w.identityFor(entry).None?)
             || Edge(w, entry, entry)
    ensures !Sane(w, entry)
  {
    ReachesHere(w, entry);
  }

  // ----- What the search keeps -----

  predicate Has(nodes: seq<Node>, end: nat, t: Source)
    requires end <= |nodes|
  {
    exists k :: 0 <= k < end && nodes[k].source == t
  }

  /** Node i is complete, and everything it imports here comes before it. */
  predicate NodeOk(w: World, nodes: seq<Node>, i: nat)
    requires i < |nodes|
  {
    var node := nodes[i];
    && node.source in w.sources
    && Readable(w, node.source)
    && node.identity == IdentityOf(w, node.source)
    && node.imports == Imports(w, node.source)
    && forall t :: t in node.imports && t.path !in w.external ==> Has(nodes, i, t)
  }

  predicate Ordered(w: World, nodes: seq<Node>) {
    && (forall i :: 0 <= i < |nodes| ==> NodeOk(w, nodes, i))
    && (forall i, j :: 0 <= i < j < |nodes| ==> nodes[i].source.key != nodes[j].source.key)
  }

  function Keys(nodes: seq<Node>): set<string> {
    set i | 0 <= i < |nodes| :: nodes[i].source.key
  }

  function SourceKeys(p: seq<Source>): set<string> {
    set i | 0 <= i < |p| :: p[i].key
  }

  function AllKeys(w: World): set<string> {
    set s | s in w.sources :: s.key
  }

  lemma {:induction false} OrderedAppend(w: World, nodes: seq<Node>, node: Node)
    requires Ordered(w, nodes) && node.source.key !in Keys(nodes)
    requires NodeOk(w, nodes + [node], |nodes|)
    ensures Ordered(w, nodes + [node]) && Keys(nodes + [node]) == Keys(nodes) + {node.source.key}
  {
    var more := nodes + [node];
    forall i | 0 <= i < |more| ensures NodeOk(w, more, i) {
      if i < |nodes| {
        assert NodeOk(w, nodes, i);
        forall t | t in more[i].imports && t.path !in w.external ensures Has(more, i, t) {
          var k :| 0 <= k < i && nodes[k].source == t;
          assert more[k].source == t;
        }
      }
    }
    forall k | k in Keys(more) ensures k in Keys(nodes) + {node.source.key} {
      var i :| 0 <= i < |more| && more[i].source.key == k;
      if i < |nodes| {
        assert nodes[i].source.key == k;
      }
    }
    forall k | k in Keys(nodes) + {node.source.key} ensures k in Keys(more) {
      if k in Keys(nodes) {
        var i :| 0 <= i < |nodes| && nodes[i].source.key == k;
        assert more[i].source.key == k;
      } else {
        assert more[|nodes|].source.key == k;
      }
    }
  }

  /** Walks from a module that has a node stay among nodes no later than it. */
  lemma {:induction false} WalkDescends(w: World, nodes: seq<Node>, p: seq<Source>, i: nat, k: nat) returns (j: nat)
    requires Ordered(w, nodes) && Walk(w, p) && k < |p|
    requires i < |nodes| && nodes[i].source == p[0]
    ensures j < |nodes| && nodes[j].source == p[k] && j <= i && (k > 0 ==> j < i)
  {
    if k == 0 {
      j := i;
    } else {
      var before := WalkDescends(w, nodes, p, i, k - 1);
      var prior := k - 1;
      assert Edge(w, p[prior], p[k]);
      assert NodeOk(w, nodes, before);
      var name :| 0 <= name < |w.parse(p[prior]).value| && Target(w, p[prior], w.parse(p[prior]).value[name]) == Some(p[k]);
      assert nodes[before].imports[name] == p[k];
      j :| 0 <= j < before && nodes[j].source == p[k];
    }
  }

  /** Ordered nodes prove there is nothing wrong below any of them. */
  lemma {:induction false} OrderedNoBadWalk(w: World, nodes: seq<Node>, p: seq<Source>, i: nat)
    requires Consistent(w) && Ordered(w, nodes) && i < |nodes| && Walk(w, p) && p[0] == nodes[i].source
    ensures !BadWalk(w, p)
  {
    var last := |p| - 1;
    var j := WalkDescends(w, nodes, p, i, last);
    assert NodeOk(w, nodes, j);
    if p[last] in p[..last] {
      var a :| 0 <= a < last && p[a] == p[last];
      var ja := WalkDescends(w, nodes, p, i, a);
      var piece := p[a..];
      assert p[a..|p|] == piece;
      WalkPiece(w, p, a, |p|);
      var jb := WalkDescends(w, nodes, piece, ja, |piece| - 1);
      assert false;
    }
  }

  // ----- The search -----

  class Search {
    const w: World
    var visiting: set<string>
    var visited: set<string>
    var nodes: seq<Node>

    constructor (w: World)
      ensures this.w == w && visiting == {} && visited == {} && nodes == []
    {
      this.w := w;
      visiting, visited, nodes := {}, {}, [];
    }

    ghost predicate Valid()
      reads this
    {
      Consistent(w) && Ordered(w, nodes) && visited == Keys(nodes) && visiting !! visited
    }

    /** DiscoverModuleGraphRecursive; path is the modules being visited, outermost first. */
    method Visit(s: Source, ghost path: seq<Source>) returns (ok: bool)
      requires Valid() && visiting == SourceKeys(path) && Walk(w, path + [s])
      modifies this`visiting, this`visited, this`nodes
      ensures Valid() && visiting == old(visiting)
      ensures old(nodes) <= nodes
      ensures forall i :: |old(nodes)| <= i < |nodes| ==> Reaches(w, s, nodes[i].source)
      ensures ok ==> Has(nodes, |nodes|, s)
      ensures ok && s.key !in old(visited) ==> |nodes| > 0 && nodes[|nodes| - 1].source == s
      ensures !ok ==> exists q :: BadWalk(w, path + [s] + q)
      decreases AllKeys(w) - visiting
    {
      hide BadWalk, Reaches, Ordered, NodeOk, SourceKeys, Walk;
      WalkStays(w, path + [s], |path|);
      if s.key in visited {
        HasByKey(w, nodes, s);
        return true;
      }
      if s.key in visiting {
        BackOnPath(w, path, s);
        return false;
      }
      visiting := visiting + {s.key};
      var parsed := w.parse(s);
      if parsed.None? {
        visiting := visiting - {s.key};
        UnreadableHere(w, path, s);
        return false;
      }
      var identity := IdentityOf(w, s);
      if s.isInternal && identity.None? {
        visiting := visiting - {s.key};
        UnreadableHere(w, path, s);
        return false;
      }
      ok := true;
      var imports: seq<Source> := [];
      PathGrows(path, s);
      while |imports| < |parsed.value|
        invariant Valid() && visiting == old(visiting) + {s.key} && s.key !in visited
        invariant old(nodes) <= nodes
        invariant |imports| <= |parsed.value|
        invariant forall j :: 0 <= j < |imports| ==> Target(w, s, parsed.value[j]) == Some(imports[j])
        invariant forall t :: t in imports && t.path !in w.external ==> Has(nodes, |nodes|, t)
        invariant forall i :: |old(nodes)| <= i < |nodes| ==> Reaches(w, s, nodes[i].source)
        decreases |parsed.value| - |imports|
      {
        var target := Target(w, s, parsed.value[|imports|]);
        if target.None? {
          visiting := visiting - {s.key};
          UnreadableHere(w, path, s);
          return false;
        }
        var t := target.value;
        if t.path !in w.external {
          assert Edge(w, s, t);
          WalkExtends(w, path + [s], t);
          ghost var before := nodes;
          ok := Visit(t, path + [s]);
          NewNodesReached(w, s, t, old(nodes), before, nodes);
          if !ok {
            visiting := visiting - {s.key};
            BadBelow(w, path, s, t);
            return false;
          }
          HasStill(before, nodes, imports, w.external);
        }
        imports := imports + [t];
      }
      var node := Node(s, identity, imports);
      assert imports == Imports(w, s);
      LastNodeOk(w, nodes, node);
      OrderedAppend(w, nodes, node);
      ReachesHere(w, s);
      visited := visited + {s.key};
      visiting := visiting - {s.key};
      nodes := nodes + [node];
      assert nodes[|nodes| - 1].source == s;
    }

    /**
     DiscoverModuleGraph: succeeds exactly when nothing below the entry is
     unreadable or on a cycle; then the nodes are exactly the reachable
     modules, each once, after everything they import, the entry last.
     */
    method Discover(entry: Source) returns (ok: bool)
      requires Consistent(w) && entry in w.sources && visiting == {} && visited == {} && nodes == []
      modifies this`visiting, this`visited, this`nodes
      ensures ok <==> Sane(w, entry)
      ensures ok ==> Complete(w, entry, nodes)
      ensures Ordered(w, nodes) && visiting == {}
    {
      assert [] + [entry] == [entry];
      ok := Visit(entry, []);
      SaneIffNoBadWalk(w, entry);
      if ok {
        NodesProveSane(w, nodes, entry);
      } else {
        ghost var q :| BadWalk(w, [] + [entry] + q);
        assert ([] + [entry] + q)[0] == entry;
      }
    }
  }

  /** The nodes a successful discovery leaves. */
  ghost predicate Complete(w: World, entry: Source, nodes: seq<Node>) {
    && Ordered(w, nodes)
    && (forall t :: Has(nodes, |nodes|, t) <==> Reaches(w, entry, t))
    && |nodes| > 0 && nodes[|nodes| - 1].source == entry
  }

  // ----- Steps of the search -----

  lemma {:induction false} HasByKey(w: World, nodes: seq<Node>, s: Source)
    requires Consistent(w) && Ordered(w, nodes) && s in w.sources && s.key in Keys(nodes)
    ensures Has(nodes, |nodes|, s)
  {
    var i :| 0 <= i < |nodes| && nodes[i].source.key == s.key;
    assert NodeOk(w, nodes, i);
  }

  lemma {:induction false} PathGrows(path: seq<Source>, s: Source)
    ensures SourceKeys(path + [s]) == SourceKeys(path) + {s.key}
  {
    var more := path + [s];
    forall k | k in SourceKeys(path) + {s.key} ensures k in SourceKeys(more) {
      if k in SourceKeys(path) {
        var i :| 0 <= i < |path| && path[i].key == k;
        assert more[i].key == k;
      } else {
        assert more[|path|].key == k;
      }
    }
  }

  lemma {:induction false} BackOnPath(w: World, path: seq<Source>, s: Source)
    requires Consistent(w) && Walk(w, path + [s]) && s.key in SourceKeys(path)
    ensures BadWalk(w, path + [s] + [])
  {
    var p := path + [s];
    var i :| 0 <= i < |path| && path[i].key == s.key;
    WalkStays(w, p, i);
    WalkStays(w, p, |path|);
    assert p[..|p| - 1] == path && p + [] == p;
    assert path[i] == s;
  }

  lemma {:induction false} UnreadableHere(w: World, path: seq<Source>, s: Source)
    requires Walk(w, path + [s]) && !Readable(w, s)
    ensures BadWalk(w, path + [s] + [])
  {
    assert path + [s] + [] == path + [s];
  }

  lemma {:induction false} BadBelow(w: World, path: seq<Source>, s: Source, t: Source)
    requires exists q :: BadWalk(w, path + [s] + [t] + q)
    ensures exists q :: BadWalk(w, path + [s] + q)
  {
    var q :| BadWalk(w, path + [s] + [t] + q);
    assert path + [s] + [t] + q == path + [s] + ([t] + q);
  }

  lemma {:induction false} NewNodesReached(w: World, s: Source, t: Source, start: seq<Node>, before: seq<Node>, after: seq<Node>)
    requires s in w.sources && Edge(w, s, t) && start <= before <= after
    requires forall i :: |start| <= i < |before| ==> Reaches(w, s, before[i].source)
    requires forall i :: |before| <= i < |after| ==> Reaches(w, t, after[i].source)
    ensures forall i :: |start| <= i < |after| ==> Reaches(w, s, after[i].source)
  {
    forall i | |start| <= i < |after| ensures Reaches(w, s, after[i].source) {
      if i < |before| {
        assert after[i] == before[i];
      } else {
        ReachesBefore(w, s, t, after[i].source);
      }
    }
  }

  lemma {:induction false} HasStill(before: seq<Node>, after: seq<Node>, imports: seq<Source>, external: set<string>)
    requires before <= after
    requires forall t :: t in imports && t.path !in external ==> Has(before, |before|, t)
    ensures forall t :: t in imports && t.path !in external ==> Has(after, |after|, t)
  {
    forall t | t in imports && t.path !in external ensures Has(after, |after|, t) {
      var k :| 0 <= k < |before| && before[k].source == t;
      assert after[k].source == t;
    }
  }

  lemma {:induction false} LastNodeOk(w: World, nodes: seq<Node>, node: Node)
    requires node.source in w.sources && Readable(w, node.source)
    requires node.identity == IdentityOf(w, node.source) && node.imports == Imports(w, node.source)
    requires forall t :: t in node.imports && t.path !in w.external ==> Has(nodes, |nodes|, t)
    ensures NodeOk(w, nodes + [node], |nodes|)
  {
    forall t | t in node.imports && t.path !in w.external ensures Has(nodes + [node], |nodes|, t) {
      var k :| 0 <= k < |nodes| && nodes[k].source == t;
      assert (nodes + [node])[k].source == t;
    }
  }

  lemma {:induction false} NodesProveSane(w: World, nodes: seq<Node>, entry: Source)
    requires Consistent(w) && Ordered(w, nodes) && entry in w.sources
    requires |nodes| > 0 && nodes[|nodes| - 1].source == entry
    requires forall i :: 0 <= i < |nodes| ==> Reaches(w, entry, nodes[i].source)
    ensures !(exists p :: BadWalk(w, p) && p[0] == entry) && Complete(w, entry, nodes)
  {
    forall p | BadWalk(w, p) && p[0] == entry ensures false {
      OrderedNoBadWalk(w, nodes, p, |nodes| - 1);
    }
    forall t | Reaches(w, entry, t) ensures Has(nodes, |nodes|, t) {
      var p :| WalkFrom(w, p, entry, t);
      var j := WalkDescends(w, nodes, p, |nodes| - 1, |p| - 1);
    }
  }

  // ----- The order assertion -----

  predicate FirstAt(nodes: seq<Node>, k: nat, key: string)
    requires k < |nodes|
  {
    nodes[k].source.key == key && forall h :: 0 <= h < k ==> nodes[h].source.key != key
  }

  /** What the debug assertion demands of node i. */
  predicate ImportsBefore(nodes: seq<Node>, i: nat)
    requires i < |nodes|
  {
    forall m, k :: 0 <= m < |nodes[i].imports| && 0 <= k < |nodes| && FirstAt(nodes, k, nodes[i].imports[m].key) ==> k < i
  }

  predicate InOrder(nodes: seq<Node>) {
    forall i :: 0 <= i < |nodes| ==> ImportsBefore(nodes, i)
  }

  ghost predicate Indexes(nodes: seq<Node>, end: nat, indices: map<string, nat>)
    requires end <= |nodes|
  {
    && (forall key :: key in indices ==> indices[key] < end && FirstAt(nodes, indices[key], key))
    && (forall k :: 0 <= k < end ==> nodes[k].source.key in indices)
  }

  /** AssertCompileGraphTopologicalOrder, returning what it would assert. */
  method TopologicalOrderHolds(nodes: seq<Node>) returns (holds: bool)
    ensures holds <==> InOrder(nodes)
  {
    var indices: map<string, nat> := map[];
    for index := 0 to |nodes|
      invariant Indexes(nodes, index, indices)
    {
      if nodes[index].source.key !in indices {
        indices := indices[nodes[index].source.key := index];
      }
    }
    for index := 0 to |nodes|
      invariant forall i :: 0 <= i < index ==> ImportsBefore(nodes, i)
    {
      var imports := nodes[index].imports;
      for m := 0 to |imports|
        invariant forall l, k :: 0 <= l < m && 0 <= k < |nodes| && FirstAt(nodes, k, imports[l].key) ==> k < index
      {
        if imports[m].key in indices {
          FirstUnique(nodes, imports[m].key);
          if indices[imports[m].key] >= index {
            assert !ImportsBefore(nodes, index);
            return false;
          }
        }
      }
    }
    holds := true;
  }

  lemma {:induction false} FirstUnique(nodes: seq<Node>, key: string)
    ensures forall j, k :: 0 <= j < |nodes| && 0 <= k < |nodes| && FirstAt(nodes, j, key) && FirstAt(nodes, k, key) ==> j == k
  {
  }

  /** Only the entry itself can be both external and a node. */
  lemma {:induction false} ReachedNotExternal(w: World, entry: Source, t: Source)
    requires Consistent(w) && Reaches(w, entry, t) && t != entry
    ensures t.path !in w.external
  {
    var p :| WalkFrom(w, p, entry, t);
    var before, last := |p| - 2, |p| - 1;
    assert Edge(w, p[before], p[last]);
  }

  /**
   The debug assertion never fires after a successful discovery, with one
   exception: an entry that a linked library also owns and that some module
   imports back.
   */
  lemma {:induction false} AssertionFiresIff(w: World, entry: Source, nodes: seq<Node>)
    requires Consistent(w) && Complete(w, entry, nodes)
    ensures !InOrder(nodes) <==> entry.path in w.external && exists i :: 0 <= i < |nodes| && entry in nodes[i].imports
  {
    var last := |nodes| - 1;
    if entry.path in w.external {
      if i :| 0 <= i < |nodes| && entry in nodes[i].imports {
        var m :| 0 <= m < |nodes[i].imports| && nodes[i].imports[m] == entry;
        assert FirstAt(nodes, last, nodes[i].imports[m].key);
        assert !ImportsBefore(nodes, i);
      }
    }
    if i :| 0 <= i < |nodes| && !ImportsBefore(nodes, i) {
      var m, k :| 0 <= m < |nodes[i].imports| && 0 <= k < |nodes| && FirstAt(nodes, k, nodes[i].imports[m].key) && k >= i;
      LateImportIsEntry(w, entry, nodes, i, m, k);
    }
  }

  lemma {:induction false} LateImportIsEntry(w: World, entry: Source, nodes: seq<Node>, i: nat, m: nat, k: nat)
    requires Consistent(w) && Complete(w, entry, nodes)
    requires i < |nodes| && m < |nodes[i].imports| && i <= k < |nodes| && nodes[k].source.key == nodes[i].imports[m].key
    ensures entry.path in w.external && nodes[i].imports[m] == entry
  {
    var t := nodes[i].imports[m];
    assert NodeOk(w, nodes, i) && NodeOk(w, nodes, k);
    assert Target(w, nodes[i].source, w.parse(nodes[i].source).value[m]) == Some(t);
    assert t == nodes[k].source;
    if t.path !in w.external {
      assert false;
    } else if t != entry {
      assert Has(nodes, |nodes|, t);
      ReachedNotExternal(w, entry, t);
      assert false;
    }
  }
}
