/**
 Why merging a discovered program never fails and never duplicates: modules
 get externs for what they import, are namespaced, and come after everything
 they import.
 */
module MergeOrder {
  import opened Namespacing
  import opened Merge
  import opened Externs

  /** A module before externs and namespacing; imported surfaces name modules of the program or of linked libraries. */
  datatype Source = Source(name: string, functions: seq<Fn>, imports: seq<Surface>)

  /** Function names after NamespaceImportedBuildUnit. */
  function NamespacedFns(moduleName: string, fns: seq<Fn>): (more: seq<Fn>)
    ensures |more| == |fns|
  {
    seq(|fns|, i requires 0 <= i < |fns| => if fns[i].isExtern then fns[i] else fns[i].(name := Qualify(moduleName, fns[i].name)))
  }

  /** What CompileModuleGraph makes of module i; the last one is the entry and keeps its names. */
  function Prepared(sources: seq<Source>, i: nat): seq<Fn>
    requires i < |sources|
  {
    var fns := WithExterns(sources[i].functions, sources[i].imports);
    if i == |sources| - 1 then fns else NamespacedFns(sources[i].name, fns)
  }

  function Program(sources: seq<Source>, n: nat): seq<Module>
    requires n <= |sources|
  {
    if n == 0 then [] else Program(sources, n - 1) + [Module([], [], [], Prepared(sources, n - 1))]
  }

  // ----- Hypotheses -----

  predicate DistinctDefinitions(fns: seq<Fn>) {
    forall i, j :: 0 <= i < j < |fns| && !fns[i].isExtern && !fns[j].isExtern ==> fns[i].name != fns[j].name
  }

  /** Symbols have no dots and are defined once. */
  predicate PlainSymbols(s: Source) {
    && (forall k :: 0 <= k < |s.functions| ==> DotFree(s.functions[k].name))
    && DistinctDefinitions(s.functions)
  }

  /** The imported module comes earlier, or belongs to a library and shares no qualifier with the program. */
  predicate ImportEarlier(sources: seq<Source>, i: nat, imported: Surface)
    requires i < |sources|
  {
    && DotFree(Qualifier(imported.moduleName))
    && forall j :: i <= j < |sources| ==> Qualifier(sources[j].name) != Qualifier(imported.moduleName)
  }

  predicate ImportsEarlier(sources: seq<Source>, i: nat)
    requires i < |sources|
  {
    forall k :: 0 <= k < |sources[i].imports| ==> ImportEarlier(sources, i, sources[i].imports[k])
  }

  predicate Discovered(sources: seq<Source>) {
    && |sources| > 0
    && (forall i :: 0 <= i < |sources| ==> PlainSymbols(sources[i]) && DotFree(Qualifier(sources[i].name)) && ImportsEarlier(sources, i))
    && (forall i, j :: 0 <= i < j < |sources| ==> Qualifier(sources[i].name) != Qualifier(sources[j].name))
  }

  /** No foreign function anywhere has the name of one of the entry's own definitions. */
  predicate ForeignApart(sources: seq<Source>)
    requires |sources| > 0
  {
    var entry := sources[|sources| - 1];
    forall i, k :: 0 <= i < |sources| && 0 <= k < |sources[i].functions| && sources[i].functions[k].isExtern ==>
      !Defines(entry.functions, sources[i].functions[k].name)
  }

  // ----- Shapes of names -----

  /** An extern of module i: declared in its source, or offered by an import. */
  ghost predicate ExternShape(sources: seq<Source>, i: nat, name: string)
    requires i < |sources|
  {
    || Declares(sources[i], name)
    || exists k, symbol :: 0 <= k < |sources[i].imports| && name == Qualify(sources[i].imports[k].moduleName, symbol)
  }

  predicate Declares(s: Source, name: string) {
    exists k :: 0 <= k < |s.functions| && s.functions[k].isExtern && s.functions[k].name == name
  }

  ghost predicate DefinitionShape(sources: seq<Source>, i: nat, name: string)
    requires i < |sources|
  {
    if i == |sources| - 1 then Defines(sources[i].functions, name)
    else exists symbol :: name == Qualify(sources[i].name, symbol) && Defines(sources[i].functions, symbol)
  }

  /** Appending offered externs leaves the definitions alone. */
  lemma {:induction false} DeclaredShape(fns: seq<Fn>, offered: seq<Fn>, p: nat)
    requires forall k :: 0 <= k < |offered| ==> offered[k].isExtern
    requires p < |Declared(fns, offered)|
    ensures fns <= Declared(fns, offered)
    ensures p >= |fns| ==> Declared(fns, offered)[p] in offered
  {
    hide Mentions;
    if offered != [] {
      var before := offered[..|offered| - 1];
      if p < |Declared(fns, before)| {
        DeclaredShape(fns, before, p);
      } else {
        assert Declared(fns, offered)[p] == offered[|offered| - 1];
        DeclaredKeeps(fns, before);
      }
    }
  }

  lemma {:induction false} DeclaredKeeps(fns: seq<Fn>, offered: seq<Fn>)
    ensures fns <= Declared(fns, offered)
  {
    hide Mentions;
    if offered != [] {
      DeclaredKeeps(fns, offered[..|offered| - 1]);
    }
  }

  /** Position p is one of the source's own functions, or an extern offered by some import. */
  ghost predicate FromSource(fns: seq<Fn>, imports: seq<Surface>, f: Fn, p: nat) {
    if p < |fns| then f == fns[p]
    else f.isExtern && exists k, symbol :: 0 <= k < |imports| && f.name == Qualify(imports[k].moduleName, symbol)
  }

  lemma {:induction false} WithExternsShape(fns: seq<Fn>, imports: seq<Surface>, p: nat)
    requires p < |WithExterns(fns, imports)|
    ensures fns <= WithExterns(fns, imports)
    ensures FromSource(fns, imports, WithExterns(fns, imports)[p], p)
  {
    hide Declared, Offered, Qualify;
    if imports != [] {
      var last := |imports| - 1;
      var before := WithExterns(fns, imports[..last]);
      WithExternsKeeps(fns, imports[..last]);
      OfferedShape(imports[last]);
      DeclaredShape(before, Offered(imports[last]), p);
      var f := WithExterns(fns, imports)[p];
      if p < |before| {
        WithExternsShape(fns, imports[..last], p);
        if p >= |fns| {
          var k, symbol :| 0 <= k < last && f.name == Qualify(imports[..last][k].moduleName, symbol);
          assert imports[k] == imports[..last][k];
        }
      } else {
        var m :| 0 <= m < |Offered(imports[last])| && Offered(imports[last])[m] == f;
        assert f.name == Qualify(imports[last].moduleName, imports[last].functions[m].name);
      }
    }
  }

  lemma {:induction false} OfferedShape(s: Surface)
    ensures forall m :: 0 <= m < |Offered(s)| ==>
              Offered(s)[m].isExtern && Offered(s)[m].name == Qualify(s.moduleName, s.functions[m].name)
  {
  }

  lemma {:induction false} WithExternsKeeps(fns: seq<Fn>, imports: seq<Surface>)
    ensures fns <= WithExterns(fns, imports)
  {
    hide Declared, Offered;
    if imports != [] {
      WithExternsKeeps(fns, imports[..|imports| - 1]);
      DeclaredKeeps(WithExterns(fns, imports[..|imports| - 1]), Offered(imports[|imports| - 1]));
    }
  }

  lemma {:induction false} PreparedShape(sources: seq<Source>, i: nat, p: nat)
    requires i < |sources| && p < |Prepared(sources, i)|
    ensures var f := Prepared(sources, i)[p];
            && (f.isExtern ==> ExternShape(sources, i, f.name))
            && (!f.isExtern ==> DefinitionShape(sources, i, f.name))
    ensures var f := Prepared(sources, i)[p];
            !f.isExtern ==> p < |sources[i].functions| && !sources[i].functions[p].isExtern
                            && f.name == (if i == |sources| - 1 then sources[i].functions[p].name
                                          else Qualify(sources[i].name, sources[i].functions[p].name))
  {
    hide WithExterns, Qualify;
    WithExternsShape(sources[i].functions, sources[i].imports, p);
    var fns := WithExterns(sources[i].functions, sources[i].imports);
    if !fns[p].isExtern {
      assert Defines(sources[i].functions, sources[i].functions[p].name);
    }
  }

  // ----- Names of different modules -----

  lemma {:induction false} QualifyParts(a: string, x: string, b: string, y: string)
    requires Qualify(a, x) == Qualify(b, y) && DotFree(Qualifier(a)) && DotFree(Qualifier(b))
    ensures Qualifier(a) == Qualifier(b) && x == y
  {
    hide Qualifier;
    var n := Qualify(a, x);
    assert Qualifier(a) + "." <= n && Qualifier(b) + "." <= n;
    DotFreePrefixesEqual(Qualifier(a), Qualifier(b), n);
    QualifyInjective(a, x, y);
  }

  lemma {:induction false} DefinedNamesPlain(sources: seq<Source>, i: nat, name: string)
    requires i < |sources| && PlainSymbols(sources[i]) && (Defines(sources[i].functions, name) || Declares(sources[i], name))
    ensures DotFree(name)
  {
  }

  /** Definitions of two modules never share a name. */
  lemma {:induction false} DefinitionsApart(sources: seq<Source>, i: nat, j: nat, name: string)
    requires Discovered(sources) && i < j < |sources|
    requires DefinitionShape(sources, i, name)
    ensures !DefinitionShape(sources, j, name)
  {
    hide Qualify, Qualifier, DotFree, ImportsEarlier, PlainSymbols, Defines;
    var symbol :| name == Qualify(sources[i].name, symbol);
    QualifiedIsOwn(sources[i].name, symbol);
    if DefinitionShape(sources, j, name) {
      if j == |sources| - 1 {
        DefinedNamesPlain(sources, j, name);
      } else {
        var other :| name == Qualify(sources[j].name, other);
        QualifyParts(sources[i].name, symbol, sources[j].name, other);
      }
    }
  }

  /** An extern never has the name of something its own or a later module defines. */
  lemma {:induction false} ExternsBehind(sources: seq<Source>, i: nat, j: nat, name: string)
    requires Discovered(sources) && ForeignApart(sources) && i <= j < |sources|
    requires ExternShape(sources, i, name)
    ensures !DefinitionShape(sources, j, name)
  {
    hide Qualify, Qualifier, DotFree, PlainSymbols;
    if DefinitionShape(sources, j, name) {
      if Declares(sources[i], name) {
        DefinedNamesPlain(sources, i, name);
        if j < |sources| - 1 {
          var other :| name == Qualify(sources[j].name, other);
          QualifiedIsOwn(sources[j].name, other);
        }
      } else {
        var k, symbol :| 0 <= k < |sources[i].imports| && name == Qualify(sources[i].imports[k].moduleName, symbol);
        assert ImportEarlier(sources, i, sources[i].imports[k]);
        QualifiedIsOwn(sources[i].imports[k].moduleName, symbol);
        if j == |sources| - 1 {
          DefinedNamesPlain(sources, j, name);
        } else {
          var other :| name == Qualify(sources[j].name, other);
          QualifyParts(sources[i].imports[k].moduleName, symbol, sources[j].name, other);
        }
      }
    }
  }

  // ----- Positions in the whole program -----

  lemma {:induction false} Located(sources: seq<Source>, n: nat, p: nat) returns (i: nat, k: nat)
    requires n <= |sources| && p < |AllFns(Program(sources, n))|
    ensures i < n && k < |Prepared(sources, i)| && AllFns(Program(sources, n))[p] == Prepared(sources, i)[k]
    ensures p == |AllFns(Program(sources, i))| + k
  {
    hide Prepared, AllFns, Program;
    ProgramSnoc(sources, n);
    var before := AllFns(Program(sources, n - 1));
    if p < |before| {
      i, k := Located(sources, n - 1, p);
    } else {
      i, k := n - 1, p - |before|;
    }
  }

  lemma {:induction false} ProgramSnoc(sources: seq<Source>, n: nat)
    requires n <= |sources|
    ensures n > 0 ==> AllFns(Program(sources, n)) == AllFns(Program(sources, n - 1)) + Prepared(sources, n - 1)
    ensures n == 0 ==> AllFns(Program(sources, n)) == []
  {
    hide Prepared;
    if n > 0 {
      var before := Program(sources, n - 1);
      assert Program(sources, n)[..|Program(sources, n)| - 1] == before;
    }
  }

  lemma {:induction false} ProgramGrows(sources: seq<Source>, i: nat, j: nat)
    requires i < j <= |sources|
    ensures |AllFns(Program(sources, i))| + |Prepared(sources, i)| <= |AllFns(Program(sources, j))|
  {
    hide Prepared, AllFns, Program;
    ProgramSnoc(sources, j);
    if i < j - 1 {
      ProgramGrows(sources, i, j - 1);
    }
  }

  /** Earlier positions lie in earlier modules, or earlier in the same one. */
  lemma {:induction false} LocatedInOrder(sources: seq<Source>, p: nat, d: nat) returns (i: nat, k: nat, j: nat, l: nat)
    requires p < d < |AllFns(Program(sources, |sources|))|
    ensures i <= j < |sources| && k < |Prepared(sources, i)| && l < |Prepared(sources, j)|
    ensures i == j ==> k < l
    ensures AllFns(Program(sources, |sources|))[p] == Prepared(sources, i)[k]
    ensures AllFns(Program(sources, |sources|))[d] == Prepared(sources, j)[l]
  {
    hide Prepared, AllFns, Program;
    i, k := Located(sources, |sources|, p);
    j, l := Located(sources, |sources|, d);
    if j < i {
      ProgramGrows(sources, j, i);
    }
  }

  /**
   The merge of a discovered program succeeds, and every function name ends up
   in it exactly once, as the definition if any module defines it.
   */
  lemma {:induction false} DiscoveryOrderMergesOnce(sources: seq<Source>)
    requires Discovered(sources) && ForeignApart(sources)
    ensures var fns := AllFns(Program(sources, |sources|));
            && !Clashes(fns)
            && EachOnce(fns, MergedFns(fns))
            && (forall name :: Definitions(MergedFns(fns), name) == if Defines(fns, name) then 1 else 0)
  {
    hide Discovered, ForeignApart, Prepared, AllFns, Program, MergedFns, ExternShape, DefinitionShape, Defines, Definitions, EachOnce;
    var fns := AllFns(Program(sources, |sources|));
    forall p, d | 0 <= p < d < |fns| && !fns[d].isExtern ensures fns[p].name != fns[d].name {
      var i, k, j, l := LocatedInOrder(sources, p, d);
      PreparedShape(sources, i, k);
      PreparedShape(sources, j, l);
      NamesDiffer(sources, i, k, j, l);
    }
    OnceIffDefinitionsFirst(fns);
  }

  lemma {:induction false} NamesDiffer(sources: seq<Source>, i: nat, k: nat, j: nat, l: nat)
    requires Discovered(sources) && ForeignApart(sources) && i <= j < |sources| && (i == j ==> k < l)
    requires k < |Prepared(sources, i)| && l < |Prepared(sources, j)| && !Prepared(sources, j)[l].isExtern
    ensures Prepared(sources, i)[k].name != Prepared(sources, j)[l].name
  {
    hide ForeignApart, Prepared, ExternShape, DefinitionShape, Defines, Qualify, DotFree, ImportsEarlier;
    PreparedShape(sources, i, k);
    PreparedShape(sources, j, l);
    var a, b := Prepared(sources, i)[k], Prepared(sources, j)[l];
    if a.isExtern {
      ExternsBehind(sources, i, j, a.name);
    } else if i < j {
      DefinitionsApart(sources, i, j, a.name);
    } else {
      assert sources[i].functions[k].name != sources[i].functions[l].name;
      if Qualify(sources[i].name, sources[i].functions[k].name) == Qualify(sources[i].name, sources[i].functions[l].name) {
        QualifyInjective(sources[i].name, sources[i].functions[k].name, sources[i].functions[l].name);
      }
    }
  }
}
