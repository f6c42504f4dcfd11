/**
 When the order assertion can fire in a resolved tree of targets: never while
 the targets read the modules they share alike, and on a project where a
 target and a library it links give one file different packages.
 */
module TargetOrder {
  import opened Wrappers
  import D = Discovery
  import opened Targets

  // ----- Targets that agree -----

  /** h is g or linked, directly or not, by g. */
  ghost predicate Below(g: Graph, h: Graph)
    decreases g
  {
    h == g || exists i :: 0 <= i < |g.linked| && Below(g.linked[i], h)
  }

  function Sees(p: Project, g: Graph): D.World {
    WorldOf(p, g.target, g.linked)
  }

  ghost predicate PathsIdentify(w: D.World) {
    forall s, t :: s in w.sources && t in w.sources && s.path == t.path ==> s == t
  }

  /** s in v and t in w parse alike, and what both resolve is the same file. */
  predicate SameImports(v: D.World, s: D.Source, w: D.World, t: D.Source) {
    && v.parse(s) == w.parse(t)
    && (v.parse(s).Some? ==> forall j :: 0 <= j < |v.parse(s).value| ==>
          var name := v.parse(s).value[j];
          D.Target(v, s, name).Some? && D.Target(w, t, name).Some? ==>
            D.Target(v, s, name).value.path == D.Target(w, t, name).value.path)
  }

  ghost predicate AgreeOnShared(v: D.World, w: D.World) {
    forall s, t :: s in v.sources && t in w.sources && s.path == t.path ==> SameImports(v, s, w, t)
  }

  /** All targets of the tree read the modules they share alike. */
  ghost predicate Agree(p: Project, g: Graph) {
    forall a, b :: Below(g, a) && Below(g, b) ==> PathsIdentify(Sees(p, a)) && AgreeOnShared(Sees(p, a), Sees(p, b))
  }

  lemma {:induction false} BelowTransitive(g: Graph, h: Graph, o: Graph)
    requires Below(g, h) && Below(h, o)
    ensures Below(g, o)
    decreases g
  {
    if h != g {
      var i :| 0 <= i < |g.linked| && Below(g.linked[i], h);
      BelowTransitive(g.linked[i], h, o);
    }
  }

  lemma {:induction false} BelowDiscovered(p: Project, g: Graph, h: Graph)
    requires Discovered(p, g) && Below(g, h)
    ensures Discovered(p, h)
    decreases g
  {
    if h != g {
      var i :| 0 <= i < |g.linked| && Below(g.linked[i], h);
      BelowDiscovered(p, g.linked[i], h);
    }
  }

  lemma {:induction false} PathsOfOne(gs: seq<Graph>, i: nat)
    requires i < |gs|
    ensures AllPaths(gs[i]) <= PathsOf(gs)
  {
    hide AllPaths;
    if i < |gs| - 1 {
      PathsOfOne(gs[..|gs| - 1], i);
    }
  }

  lemma {:induction false} BelowPaths(g: Graph, h: Graph)
    requires Below(g, h)
    ensures AllPaths(h) <= AllPaths(g)
    decreases g
  {
    hide Paths;
    if h != g {
      var i :| 0 <= i < |g.linked| && Below(g.linked[i], h);
      BelowPaths(g.linked[i], h);
      PathsOfOne(g.linked, i);
    }
  }

  /** The graph that discovered a path and links no other that did. */
  lemma {:induction false} FirstOwner(g: Graph, path: string) returns (o: Graph, k: nat)
    requires path in AllPaths(g)
    ensures Below(g, o) && k < |o.nodes| && o.nodes[k].source.path == path && path !in PathsOf(o.linked)
    decreases g
  {
    hide PathsOf;
    if path in PathsOf(g.linked) {
      var i := OwnerOf(g.linked, path);
      o, k := FirstOwner(g.linked[i], path);
    } else {
      o := g;
      k :| 0 <= k < |g.nodes| && g.nodes[k].source.path == path;
    }
  }

  // ----- Agreement keeps the order -----

  /** What an owner of the entry's file imports is owned too, and is not that file. */
  lemma {:induction false} OwnerHasImports(p: Project, o: Graph, k: nat, j: nat)
    requires Known(p) && Discovered(p, o) && PathsIdentify(Sees(p, o))
    requires k < |o.nodes| && o.nodes[k].source.path !in PathsOf(o.linked)
    requires D.Readable(Sees(p, o), o.nodes[k].source) && j < |Sees(p, o).parse(o.nodes[k].source).value|
    ensures var w := Sees(p, o); var s := o.nodes[k].source;
            && D.Target(w, s, w.parse(s).value[j]).Some?
            && D.Target(w, s, w.parse(s).value[j]).value.path in AllPaths(o)
            && D.Target(w, s, w.parse(s).value[j]).value.path != s.path
  {
    hide PathsOf, D.Consistent;
    var w, node := Sees(p, o), o.nodes[k];
    assert D.NodeOk(w, o.nodes, k);
    var t := node.imports[j];
    assert D.Target(w, node.source, w.parse(node.source).value[j]) == Some(t);
    if t.path !in w.external {
      var b :| 0 <= b < k && o.nodes[b].source == t;
      assert o.nodes[b].source.key != node.source.key;
      assert D.NodeOk(w, o.nodes, b);
    }
  }

  lemma {:induction false} EntryReadable(p: Project, g: Graph)
    requires Known(p) && Discovered(p, g)
    ensures var w := Sees(p, g); var entry := p.entry(g.target, g.linked);
            && D.Consistent(w) && D.Complete(w, entry, g.nodes) && entry in w.sources && D.Readable(w, entry)
            && D.NodeOk(w, g.nodes, |g.nodes| - 1)
  {
    hide D.Readable, D.NodeOk;
    var w := Sees(p, g);
    assert D.Consistent(p.world(g.target, g.linked));
    assert D.NodeOk(w, g.nodes, |g.nodes| - 1);
    assert D.Readable(w, g.nodes[|g.nodes| - 1].source) by { NodeReadable(w, g.nodes, |g.nodes| - 1); }
  }

  lemma {:induction false} NodeReadable(w: D.World, nodes: seq<D.Node>, i: nat)
    requires i < |nodes| && D.NodeOk(w, nodes, i)
    ensures D.Readable(w, nodes[i].source) && nodes[i].source in w.sources && nodes[i].imports == D.Imports(w, nodes[i].source)
  {
  }

  /** Whatever an entry owned by o imports is owned by o as well, and is not the entry. */
  lemma {:induction false} OwnedEntryImports(p: Project, h: Graph, o: Graph, k: nat, j: nat)
    requires Known(p) && Discovered(p, h) && Discovered(p, o)
    requires PathsIdentify(Sees(p, o)) && AgreeOnShared(Sees(p, h), Sees(p, o))
    requires k < |o.nodes| && o.nodes[k].source.path == p.entry(h.target, h.linked).path
    requires o.nodes[k].source.path !in PathsOf(o.linked)
    requires var w := Sees(p, h); var entry := p.entry(h.target, h.linked);
             D.Readable(w, entry) && j < |D.Imports(w, entry)|
    ensures var t := D.Imports(Sees(p, h), p.entry(h.target, h.linked))[j];
            t.path in AllPaths(o) && t != p.entry(h.target, h.linked)
  {
    hide PathsOf, AllPaths, Discovered, D.NodeOk, PathsIdentify, D.Consistent;
    var w, v := Sees(p, h), Sees(p, o);
    var entry, s := p.entry(h.target, h.linked), o.nodes[k].source;
    EntryReadable(p, h);
    EntryReadable(p, o);
    assert D.NodeOk(v, o.nodes, k);
    NodeReadable(v, o.nodes, k);
    assert SameImports(w, entry, v, s);
    OwnerHasImports(p, o, k, j);
    assert D.Target(w, entry, w.parse(entry).value[j]) == Some(D.Imports(w, entry)[j]);
  }

  /** An entry that imports nothing but modules of linked libraries is its target's only node. */
  lemma {:induction false} LoneEntry(w: D.World, entry: D.Source, nodes: seq<D.Node>)
    requires D.Complete(w, entry, nodes) && D.Readable(w, entry)
    requires forall j :: 0 <= j < |D.Imports(w, entry)| ==> D.Imports(w, entry)[j].path in w.external
    ensures |nodes| == 1
  {
    hide D.Readable, D.Edge, D.NodeOk;
    if |nodes| > 1 {
      var first := nodes[0].source;
      assert D.Has(nodes, |nodes|, first);
      var walk :| D.WalkFrom(w, walk, entry, first);
      assert nodes[0].source.key != nodes[|nodes| - 1].source.key;
      assert walk[0] == entry && walk[|walk| - 1] == first != entry;
      assert |walk| > 1;
      FirstStep(w, walk);
    }
  }

  /** A walk of more than one module leaves its start along an import that is not external. */
  lemma {:induction false} FirstStep(w: D.World, walk: seq<D.Source>)
    requires D.Walk(w, walk) && |walk| > 1 && D.Readable(w, walk[0])
    ensures exists j :: 0 <= j < |D.Imports(w, walk[0])| && D.Imports(w, walk[0])[j].path !in w.external
  {
    var zero, one := 0, 1;
    assert D.Edge(w, walk[zero], walk[one]);
    var j :| 0 <= j < |w.parse(walk[0]).value| && D.Target(w, walk[0], w.parse(walk[0]).value[j]) == Some(walk[1]);
    assert D.Imports(w, walk[0])[j] == walk[1];
  }

  lemma {:induction false} OneInOrder(p: Project, g: Graph, h: Graph)
    requires Known(p) && Discovered(p, g) && Below(g, h) && Agree(p, g)
    ensures D.InOrder(h.nodes)
  {
    hide D.InOrder, D.Readable, PathsOf, AllPaths, Discovered, D.Complete, D.NodeOk, PathsIdentify, AgreeOnShared;
    var w, entry := Sees(p, h), p.entry(h.target, h.linked);
    BelowDiscovered(p, g, h);
    EntryReadable(p, h);
    D.AssertionFiresIff(w, entry, h.nodes);
    if entry.path in w.external {
      var m := OwnerOf(h.linked, entry.path);
      var o, k := FirstOwner(h.linked[m], entry.path);
      OwnerBelow(p, g, h, m, o);
      forall j | 0 <= j < |D.Imports(w, entry)|
        ensures D.Imports(w, entry)[j].path in w.external && D.Imports(w, entry)[j] != entry
      {
        OwnedEntryImports(p, h, o, k, j);
      }
      LoneEntry(w, entry, h.nodes);
      OnlyEntry(w, entry, h.nodes);
    }
  }

  lemma {:induction false} OnlyEntry(w: D.World, entry: D.Source, nodes: seq<D.Node>)
    requires D.Complete(w, entry, nodes) && |nodes| == 1
    ensures D.Readable(w, entry) && nodes[0].imports == D.Imports(w, entry)
  {
    assert D.NodeOk(w, nodes, 0);
  }

  lemma {:induction false} OwnerBelow(p: Project, g: Graph, h: Graph, m: nat, o: Graph)
    requires Discovered(p, g) && Below(g, h) && m < |h.linked| && Below(h.linked[m], o) && Agree(p, g)
    ensures Below(g, o) && Discovered(p, o) && AllPaths(o) <= PathsOf(h.linked)
    ensures PathsIdentify(Sees(p, o)) && AgreeOnShared(Sees(p, h), Sees(p, o))
  {
    hide PathsOf, AllPaths, Discovered, PathsIdentify, AgreeOnShared;
    assert Below(h, o);
    BelowTransitive(g, h, o);
    BelowDiscovered(p, g, o);
    BelowPaths(h.linked[m], o);
    PathsOfOne(h.linked, m);
  }

  /** While the targets of a tree read the modules they share alike, the assertion holds for every one of them. */
  lemma {:induction false} AgreementKeepsOrder(p: Project, g: Graph)
    requires Known(p) && Discovered(p, g) && Agree(p, g)
    ensures forall h :: Below(g, h) ==> D.InOrder(h.nodes)
  {
    hide D.InOrder, Discovered, Agree, Known;
    forall h | Below(g, h) ensures D.InOrder(h.nodes) {
      OneInOrder(p, g, h);
    }
  }
}
