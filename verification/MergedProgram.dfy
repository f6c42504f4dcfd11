/**
 Merging a whole program as the driver does, from the compiled units of its
 modules in discovery order: what ends up in the one module that is emitted.
 */
module MergedProgram {
  import opened Wrappers
  import opened Namespacing
  import opened MergeOrder
  import M = Merge
  import Merger

  // ----- The units of a program -----

  /** One unit for each module, in order, at paths of their own, the entry's last. */
  predicate InOrder(units: seq<M.Unit>, entryPath: string) {
    && |units| > 0 && units[|units| - 1].path == entryPath
    && forall i, j :: 0 <= i < j < |units| ==> units[i].path != units[j].path
  }

  /** Each unit's functions are those of its module, after externs and namespacing. */
  predicate UnitsOf(units: seq<M.Unit>, sources: seq<Source>) {
    |units| == |sources| && forall i :: 0 <= i < |units| ==> units[i].module_.functions == Prepared(sources, i)
  }

  function Modules(units: seq<M.Unit>): (ms: seq<M.Module>)
    ensures |ms| == |units| && forall i :: 0 <= i < |units| ==> ms[i] == units[i].module_
  {
    seq(|units|, i requires 0 <= i < |units| => units[i].module_)
  }

  lemma {:induction false} OthersAre(units: seq<M.Unit>, entryPath: string)
    requires forall i :: 0 <= i < |units| ==> units[i].path != entryPath
    ensures M.Others(units, entryPath) == Modules(units)
  {
    if units != [] {
      var n := |units| - 1;
      OthersAre(units[..n], entryPath);
      assert Modules(units) == Modules(units[..n]) + [units[n].module_];
    }
  }

  /** The other units in order, the entry after them. */
  lemma {:induction false} SequenceIsOrder(units: seq<M.Unit>, entryPath: string)
    requires InOrder(units, entryPath)
    ensures M.Sequence(units, units[|units| - 1].module_, entryPath) == Modules(units)
  {
    var n := |units| - 1;
    OthersAre(units[..n], entryPath);
    assert Modules(units) == Modules(units[..n]) + [units[n].module_];
    assert M.Others(units, entryPath) == M.Others(units[..n], entryPath);
  }

  lemma {:induction false} FunctionsAre(units: seq<M.Unit>, sources: seq<Source>, n: nat)
    requires UnitsOf(units, sources) && n <= |units|
    ensures M.AllFns(Modules(units)[..n]) == M.AllFns(Program(sources, n))
  {
    hide Prepared;
    if n > 0 {
      FunctionsAre(units, sources, n - 1);
      var ms, ps := Modules(units)[..n], Program(sources, n);
      assert ms[..n - 1] == Modules(units)[..n - 1] && ms[n - 1] == units[n - 1].module_;
      assert ps[..|ps| - 1] == Program(sources, n - 1);
    }
  }

  // ----- Where the merged functions come from -----

  predicate HasFunction(units: seq<M.Unit>, f: M.Fn) {
    exists i :: 0 <= i < |units| && f in units[i].module_.functions
  }

  /** Some module defines, declares or refers to a function of that name. */
  predicate Named(units: seq<M.Unit>, name: string) {
    exists i :: 0 <= i < |units| && M.Mentions(units[i].module_.functions, name)
  }

  lemma {:induction false} InSomeModule(ms: seq<M.Module>, f: M.Fn)
    ensures f in M.AllFns(ms) <==> exists i :: 0 <= i < |ms| && f in ms[i].functions
  {
    if ms != [] {
      var n := |ms| - 1;
      InSomeModule(ms[..n], f);
      if i :| 0 <= i < n && f in ms[..n][i].functions {
        assert f in ms[i].functions;
      }
      if i :| 0 <= i < |ms| && f in ms[i].functions {
        if i < n {
          assert f in ms[..n][i].functions;
        }
      }
    }
  }

  lemma {:induction false} InSomeUnit(units: seq<M.Unit>, f: M.Fn)
    ensures f in M.AllFns(Modules(units)) <==> HasFunction(units, f)
  {
    hide M.AllFns;
    InSomeModule(Modules(units), f);
    if i :| 0 <= i < |units| && f in units[i].module_.functions {
      assert f in Modules(units)[i].functions;
    }
  }

  lemma {:induction false} NamedIffMentioned(units: seq<M.Unit>, name: string)
    ensures Named(units, name) <==> M.Mentions(M.AllFns(Modules(units)), name)
  {
    hide M.AllFns;
    var fns := M.AllFns(Modules(units));
    if i :| 0 <= i < |units| && M.Mentions(units[i].module_.functions, name) {
      var k :| 0 <= k < |units[i].module_.functions| && units[i].module_.functions[k].name == name;
      var f := units[i].module_.functions[k];
      InSomeUnit(units, f);
      var p :| 0 <= p < |fns| && fns[p] == f;
      assert fns[p].name == name;
    }
    if p :| 0 <= p < |fns| && fns[p].name == name {
      InSomeUnit(units, fns[p]);
      var i :| 0 <= i < |units| && fns[p] in units[i].module_.functions;
      var k :| 0 <= k < |units[i].module_.functions| && units[i].module_.functions[k] == fns[p];
      assert M.Mentions(units[i].module_.functions, name);
    }
  }

  // ----- The merge of a program -----

  /** Everything the program's functions should be after the merge. */
  ghost predicate FunctionsMerged(units: seq<M.Unit>, merged: seq<M.Fn>) {
    && (forall name :: M.Count(merged, name) == if Named(units, name) then 1 else 0)
    && (forall f :: HasFunction(units, f) && !f.isExtern ==> f in merged)
    && (forall f :: f in merged ==> HasFunction(units, f))
  }

  lemma {:induction false} MergedOnce(units: seq<M.Unit>, sources: seq<Source>)
    requires UnitsOf(units, sources) && Discovered(sources) && ForeignApart(sources)
    ensures !M.Clashes(M.AllFns(Modules(units))) && FunctionsMerged(units, M.MergedFns(M.AllFns(Modules(units))))
  {
    hide UnitsOf, Discovered, ForeignApart, M.AllFns, Program, M.MergedFns, M.Count, M.Definitions, M.Defines, M.Clashes, HasFunction, Named, M.Keeps;
    var fns := M.AllFns(Modules(units));
    var merged := M.MergedFns(fns);
    FunctionsAre(units, sources, |units|) by { assert |units| == |sources| by { SameLength(units, sources); } }
    SameLength(units, sources);
    assert Modules(units)[..|units|] == Modules(units);
    DiscoveryOrderMergesOnce(sources);
    M.MergedFnsAre(fns);
    forall name ensures M.Count(merged, name) == if Named(units, name) then 1 else 0 {
      NamedIffMentioned(units, name);
      CountedOnce(fns, name);
    }
    forall f | HasFunction(units, f) && !f.isExtern ensures f in merged {
      InSomeUnit(units, f);
      var p :| 0 <= p < |fns| && fns[p] == f;
      assert M.Keeps(fns, p) by { DefinitionKept(fns, p); }
    }
    forall f | f in merged ensures HasFunction(units, f) {
      InSomeUnit(units, f);
    }
  }

  lemma {:induction false} SameLength(units: seq<M.Unit>, sources: seq<Source>)
    requires UnitsOf(units, sources)
    ensures |units| == |sources|
  {
  }

  lemma {:induction false} DefinitionKept(fns: seq<M.Fn>, p: nat)
    requires p < |fns| && !fns[p].isExtern
    ensures M.Keeps(fns, p)
  {
  }

  lemma {:induction false} CountedOnce(fns: seq<M.Fn>, name: string)
    requires M.EachOnce(fns, M.MergedFns(fns))
    ensures M.Count(M.MergedFns(fns), name) == if M.Mentions(fns, name) then 1 else 0
  {
    hide M.MergedFns, M.Count;
    if M.Mentions(fns, name) {
      var p :| 0 <= p < |fns| && fns[p].name == name;
    } else {
      M.CountMerged(fns, name);
      M.DefinitionsCounted(fns, name);
      M.ExternFirstMentioned(fns, name);
      assert !M.Defines(fns, name);
    }
  }

  // ----- Imports, types and globals -----

  function FirstType(types: seq<M.TypeDef>, name: string): Option<M.TypeDef>
    decreases |types|
  {
    if types == [] then None else if types[0].name == name then Some(types[0]) else FirstType(types[1..], name)
  }

  function FirstCode(globals: seq<M.Glob>, name: string): Option<string>
    decreases |globals|
  {
    if globals == [] then None else if name in globals[0].names then Some(globals[0].code) else FirstCode(globals[1..], name)
  }

  /** The type of that name in the first module that has one. */
  function TypeIn(ms: seq<M.Module>, name: string): Option<M.TypeDef>
    decreases |ms|
  {
    if ms == [] then None
    else
      var first := FirstType(ms[0].types, name);
      if first.Some? then first else TypeIn(ms[1..], name)
  }

  /** The contents of the global of that name in the first module that has one. */
  function CodeIn(ms: seq<M.Module>, name: string): Option<string>
    decreases |ms|
  {
    if ms == [] then None
    else
      var first := FirstCode(ms[0].globals, name);
      if first.Some? then first else CodeIn(ms[1..], name)
  }

  ghost predicate ImportsGathered(ms: seq<M.Module>, imports: seq<string>) {
    M.Distinct(imports) && forall x :: x in imports <==> exists i :: 0 <= i < |ms| && x in ms[i].imports
  }

  ghost predicate TypesGathered(ms: seq<M.Module>, types: seq<M.TypeDef>) {
    M.Distinct(M.TypeNames(types)) && forall t :: t in types <==> TypeIn(ms, t.name) == Some(t)
  }

  ghost predicate GlobalsGathered(ms: seq<M.Module>, globals: seq<M.Glob>) {
    M.Distinct(M.GlobalNames(globals)) && forall name, code :: M.DeclaredWith(globals, name, code) <==> CodeIn(ms, name) == Some(code)
  }

  lemma {:induction false} FirstAppend(a: seq<M.TypeDef>, b: seq<M.TypeDef>, c: seq<M.Glob>, d: seq<M.Glob>, name: string)
    ensures FirstType(a + b, name) == if FirstType(a, name).Some? then FirstType(a, name) else FirstType(b, name)
    ensures FirstCode(c + d, name) == if FirstCode(c, name).Some? then FirstCode(c, name) else FirstCode(d, name)
    decreases |a| + |c|
  {
    if a != [] {
      FirstAppend(a[1..], b, c, d, name);
      assert (a + b)[1..] == a[1..] + b;
    } else if c != [] {
      FirstAppend(a, b, c[1..], d, name);
      assert (c + d)[1..] == c[1..] + d && a + b == b;
    } else {
      assert a + b == b && c + d == d;
    }
  }

  lemma {:induction false} FirstSnoc(types: seq<M.TypeDef>, t: M.TypeDef, globals: seq<M.Glob>, g: M.Glob, name: string)
    ensures FirstType(types + [t], name) ==
            if FirstType(types, name).Some? then FirstType(types, name) else if t.name == name then Some(t) else None
    ensures FirstCode(globals + [g], name) ==
            if FirstCode(globals, name).Some? then FirstCode(globals, name) else if name in g.names then Some(g.code) else None
  {
    FirstAppend(types, [t], globals, [g], name);
    assert [t][1..] == [] && [g][1..] == [];
  }

  lemma {:induction false} InSnoc(ms: seq<M.Module>, m: M.Module, name: string)
    ensures TypeIn(ms + [m], name) == if TypeIn(ms, name).Some? then TypeIn(ms, name) else FirstType(m.types, name)
    ensures CodeIn(ms + [m], name) == if CodeIn(ms, name).Some? then CodeIn(ms, name) else FirstCode(m.globals, name)
    decreases |ms|
  {
    hide FirstType, FirstCode;
    if ms == [] {
      assert ([] + [m])[1..] == [];
    } else {
      InSnoc(ms[1..], m, name);
      assert (ms + [m])[1..] == ms[1..] + [m];
    }
  }

  lemma {:induction false} FirstOfAll(ms: seq<M.Module>, name: string)
    ensures TypeIn(ms, name) == FirstType(M.AllTypes(ms), name)
    ensures CodeIn(ms, name) == FirstCode(M.AllGlobals(ms), name)
  {
    if ms != [] {
      hide FirstType, FirstCode;
      var n := |ms| - 1;
      FirstOfAll(ms[..n], name);
      assert ms == ms[..n] + [ms[n]];
      InSnoc(ms[..n], ms[n], name);
      FirstAppend(M.AllTypes(ms[..n]), ms[n].types, M.AllGlobals(ms[..n]), ms[n].globals, name);
    }
  }

  /** Types are kept unchanged, the first of each name. */
  lemma {:induction false} MergedTypesFirst(types: seq<M.TypeDef>)
    ensures M.Distinct(M.TypeNames(M.MergedTypes(types)))
    ensures forall t :: t in M.MergedTypes(types) <==> FirstType(types, t.name) == Some(t)
    ensures forall name :: name in M.TypeNames(types) <==> FirstType(types, name).Some?
  {
    if types != [] {
      hide FirstType, M.TypeNames;
      var n := |types| - 1;
      var before, last := types[..n], types[n];
      MergedTypesFirst(before);
      assert types == before + [last];
      NamesSnoc(before, last);
      NamesSnoc(M.MergedTypes(before), last);
      forall name ensures FirstType(types, name) ==
                          if FirstType(before, name).Some? then FirstType(before, name) else if last.name == name then Some(last) else None {
        FirstSnoc(before, last, [], M.Glob([], ""), name);
      }
      if last.name !in M.TypeNames(before) {
        assert last.name !in M.TypeNames(M.MergedTypes(before)) by { NameOfType(M.MergedTypes(before), last.name); }
      }
    }
  }

  lemma {:induction false} NamesSnoc(types: seq<M.TypeDef>, t: M.TypeDef)
    ensures M.TypeNames(types + [t]) == M.TypeNames(types) + [t.name]
  {
  }

  lemma {:induction false} NameOfType(types: seq<M.TypeDef>, name: string)
    ensures name in M.TypeNames(types) <==> exists t :: t in types && t.name == name
  {
    if name in M.TypeNames(types) {
      var i :| 0 <= i < |types| && M.TypeNames(types)[i] == name;
      assert types[i] in types && types[i].name == name;
    }
    if t :| t in types && t.name == name {
      var i :| 0 <= i < |types| && types[i] == t;
      assert M.TypeNames(types)[i] == name;
    }
  }

  /** A global's name keeps what it was first declared with. */
  lemma {:induction false} MergedGlobalsFirst(globals: seq<M.Glob>)
    ensures forall name, code :: M.DeclaredWith(M.MergedGlobals(globals), name, code) <==> FirstCode(globals, name) == Some(code)
    ensures forall name :: name in M.GlobalNames(globals) <==> FirstCode(globals, name).Some?
  {
    if globals != [] {
      hide FirstCode, M.NewNames, M.DeclaredWith;
      var n := |globals| - 1;
      var before, last := globals[..n], globals[n];
      MergedGlobalsFirst(before);
      assert globals == before + [last];
      var names := M.NewNames(M.GlobalNames(before), last.names);
      M.NewNamesAre(M.GlobalNames(before), last.names);
      forall name ensures FirstCode(globals, name) ==
                          if FirstCode(before, name).Some? then FirstCode(before, name) else if name in last.names then Some(last.code) else None {
        FirstSnoc([], M.TypeDef("", ""), before, last, name);
      }
      var kept := last.(names := names);
      forall name, code ensures M.DeclaredWith(M.MergedGlobals(globals), name, code) <==> FirstCode(globals, name) == Some(code) {
        M.DeclaredSnoc(M.MergedGlobals(before), kept, name);
      }
    } else {
      forall name, code ensures !M.DeclaredWith([], name, code) {
      }
    }
  }

  lemma {:induction false} ImportedBySome(ms: seq<M.Module>, x: string)
    ensures x in M.AllImports(ms) <==> exists i :: 0 <= i < |ms| && x in ms[i].imports
  {
    if ms != [] {
      var n := |ms| - 1;
      ImportedBySome(ms[..n], x);
      if i :| 0 <= i < n && x in ms[..n][i].imports {
        assert x in ms[i].imports;
      }
      if i :| 0 <= i < |ms| && x in ms[i].imports {
        if i < n {
          assert x in ms[..n][i].imports;
        }
      }
    }
  }

  /** The merge gathers what the modules have: each import, type name and global name once, from the first module that has it. */
  lemma {:induction false} MergeGathers(ms: seq<M.Module>)
    ensures var merged := M.MergedModule(ms);
            ImportsGathered(ms, merged.imports) && TypesGathered(ms, merged.types) && GlobalsGathered(ms, merged.globals)
  {
    hide M.AllImports, M.AllTypes, M.AllGlobals, M.FirstOnly, M.MergedTypes, M.MergedGlobals, M.Distinct, TypeIn, CodeIn, FirstType, FirstCode,
         M.DeclaredWith;
    M.FirstOnlyOnce(M.AllImports(ms));
    forall x ensures x in M.AllImports(ms) <==> exists i :: 0 <= i < |ms| && x in ms[i].imports {
      ImportedBySome(ms, x);
    }
    MergedTypesFirst(M.AllTypes(ms));
    M.GlobalsOnce(M.AllGlobals(ms));
    MergedGlobalsFirst(M.AllGlobals(ms));
    forall name ensures TypeIn(ms, name) == FirstType(M.AllTypes(ms), name) && CodeIn(ms, name) == FirstCode(M.AllGlobals(ms), name) {
      FirstOfAll(ms, name);
    }
  }

  /** What the modules have follows in their order. */
  lemma {:induction false} AllInOrder(ms: seq<M.Module>, i: nat)
    requires i < |ms|
    ensures M.AllImports(ms[..i]) + ms[i].imports <= M.AllImports(ms)
    ensures M.AllTypes(ms[..i]) + ms[i].types <= M.AllTypes(ms)
    ensures M.AllGlobals(ms[..i]) + ms[i].globals <= M.AllGlobals(ms)
    ensures M.AllFns(ms[..i]) + ms[i].functions <= M.AllFns(ms)
    decreases |ms|
  {
    var n := |ms| - 1;
    if i < n {
      AllInOrder(ms[..n], i);
      assert ms[..n][..i] == ms[..i];
    }
  }

  /**
   MergeBuildUnits on a discovered program never fails. It merges the modules in
   discovery order; every function name of the program occurs exactly once, as
   the definition where a module has one, and nothing else occurs. Imports,
   types and globals come from the first module that has them.
   */
  method MergeProgram(units: seq<M.Unit>, entryPath: string, ghost sources: seq<Source>) returns (merged: M.Module)
    requires InOrder(units, entryPath) && UnitsOf(units, sources) && Discovered(sources) && ForeignApart(sources)
    ensures FunctionsMerged(units, merged.functions)
    ensures ImportsGathered(Modules(units), merged.imports)
    ensures TypesGathered(Modules(units), merged.types) && GlobalsGathered(Modules(units), merged.globals)
    ensures merged == M.MergedModule(Modules(units))
  {
    hide Discovered, ForeignApart, UnitsOf, M.Clashes, M.AllFns, FunctionsMerged, M.Sequence, ImportsGathered, TypesGathered, GlobalsGathered;
    MergeGathers(Modules(units));
    SequenceIsOrder(units, entryPath);
    MergedOnce(units, sources);
    var result := Merger.MergeBuildUnits(units, units[|units| - 1].module_, entryPath);
    merged := result.value;
  }

  // ----- The renaming that prepares a module -----

  /** Names and linkage of m's functions are those of fns. */
  predicate SameFunctions(m: Mir<string>, fns: seq<M.Fn>)
    requires WellFormed(m)
  {
    |fns| == |m.functions| && forall i :: 0 <= i < |fns| ==> fns[i].name == m.functionNames[i] && fns[i].isExtern == m.functions[i].isExtern
  }

  /** What merging takes a namespaced module's functions to be is what namespacing makes of them. */
  lemma {:induction false} NamespacedAlike(p: Printer, moduleName: string, m: Mir<string>, fns: seq<M.Fn>)
    requires WellFormed(m) && SameFunctions(m, fns)
    ensures SameFunctions(Namespaced(p, moduleName, m), NamespacedFns(moduleName, fns))
  {
    hide Qualify, RenameDecl, RenameGlobal, RenameBlocks, RenameTys;
  }
}
