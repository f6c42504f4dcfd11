/** What discovery hands on: the order that incremental compilation and merging rely on. */
module Pipeline {
  import D = Discovery
  import I = Incremental
  import N = Namespacing
  import O = MergeOrder

  /** modules are the discovered nodes, as compilation sees them. */
  predicate Matches(nodes: seq<D.Node>, modules: seq<I.Module>) {
    && |modules| == |nodes|
    && forall i :: 0 <= i < |nodes| ==>
         && modules[i].key == nodes[i].source.key
         && |modules[i].imports| == |nodes[i].imports|
         && forall m :: 0 <= m < |nodes[i].imports| ==> modules[i].imports[m].key == nodes[i].imports[m].key
  }

  /** No module imports back an entry that a linked library owns too. */
  predicate EntryNotImported(w: D.World, entry: D.Source, nodes: seq<D.Node>) {
    entry.path in w.external ==> forall i :: 0 <= i < |nodes| ==> entry !in nodes[i].imports
  }

  lemma {:induction false} DiscoveredIsTopological(w: D.World, entry: D.Source, nodes: seq<D.Node>, modules: seq<I.Module>)
    requires D.Consistent(w) && D.Complete(w, entry, nodes) && EntryNotImported(w, entry, nodes) && Matches(nodes, modules)
    ensures I.Topological(modules)
  {
    hide D.Consistent, D.NodeOk;
    D.AssertionFiresIff(w, entry, nodes);
    forall i | 0 <= i < |modules| ensures I.ImportsEarlier(modules, i) {
      assert D.ImportsBefore(nodes, i);
      forall t, k | t in modules[i].imports && 0 <= k < |modules| && modules[k].key == t.key ensures k < i {
        var m :| 0 <= m < |modules[i].imports| && modules[i].imports[m] == t;
        assert D.FirstAt(nodes, k, nodes[i].imports[m].key);
      }
    }
  }

  /** sources are the discovered nodes, as merging sees them; names maps a module to the name it is imported by. */
  predicate MatchesNames(names: D.Source -> string, nodes: seq<D.Node>, sources: seq<O.Source>) {
    && |sources| == |nodes|
    && forall i :: 0 <= i < |nodes| ==>
         && sources[i].name == names(nodes[i].source)
         && |sources[i].imports| == |nodes[i].imports|
         && forall m :: 0 <= m < |nodes[i].imports| ==> sources[i].imports[m].moduleName == names(nodes[i].imports[m])
  }

  /** Qualifiers are dot-free, and different for different modules of the program and its libraries. */
  ghost predicate DistinctQualifiers(names: D.Source -> string, nodes: seq<D.Node>) {
    && (forall i :: 0 <= i < |nodes| ==> N.DotFree(N.Qualifier(names(nodes[i].source))))
    && (forall i, t :: 0 <= i < |nodes| && t in nodes[i].imports ==> N.DotFree(N.Qualifier(names(t))))
    && (forall i, t :: 0 <= i < |nodes| && IsImported(nodes, t) && t != nodes[i].source ==>
          N.Qualifier(names(t)) != N.Qualifier(names(nodes[i].source)))
  }

  predicate IsImported(nodes: seq<D.Node>, t: D.Source) {
    exists i :: 0 <= i < |nodes| && t in nodes[i].imports
  }

  lemma {:induction false} BeforeImporter(w: D.World, nodes: seq<D.Node>, i: nat, m: nat, j: nat)
    requires D.Ordered(w, nodes) && D.InOrder(nodes)
    requires i < |nodes| && m < |nodes[i].imports| && j < |nodes| && nodes[j].source == nodes[i].imports[m]
    ensures j < i
  {
    hide D.NodeOk;
    assert D.ImportsBefore(nodes, i) && D.FirstAt(nodes, j, nodes[i].imports[m].key);
  }

  lemma {:induction false} DiscoveredImportsEarlier(w: D.World, entry: D.Source, nodes: seq<D.Node>,
                                                    names: D.Source -> string, sources: seq<O.Source>)
    requires D.Consistent(w) && D.Complete(w, entry, nodes) && EntryNotImported(w, entry, nodes)
    requires MatchesNames(names, nodes, sources) && DistinctQualifiers(names, nodes)
    ensures forall i :: 0 <= i < |sources| ==> O.ImportsEarlier(sources, i)
  {
    hide D.Consistent, D.NodeOk, N.Qualifier, N.DotFree;
    D.AssertionFiresIff(w, entry, nodes);
    forall i, m, j | 0 <= i < |sources| && 0 <= m < |sources[i].imports| && i <= j < |sources|
      ensures N.Qualifier(sources[j].name) != N.Qualifier(sources[i].imports[m].moduleName)
    {
      var t := nodes[i].imports[m];
      assert D.ImportsBefore(nodes, i) && IsImported(nodes, t);
      if t == nodes[j].source {
        BeforeImporter(w, nodes, i, m, j);
      }
    }
    forall i, m | 0 <= i < |sources| && 0 <= m < |sources[i].imports| ensures O.ImportEarlier(sources, i, sources[i].imports[m]) {
      assert nodes[i].imports[m] in nodes[i].imports;
    }
  }
}
