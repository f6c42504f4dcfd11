/** MergeBuildUnits as the driver runs it: lists grown and seen-sets filled in loops. */
module Merger {
  import opened Wrappers
  import M = Merge

  // ----- What the merger keeps -----

  /** The functions kept, mentioned and defined after merging list. */
  ghost predicate FnsMerged(functions: seq<M.Fn>, seen: set<string>, defined: set<string>, list: seq<M.Fn>) {
    && functions == M.MergedFns(list) && !M.Clashes(list)
    && (forall x :: x in seen <==> M.Mentions(list, x))
    && (forall x :: x in defined <==> M.Defines(list, x))
  }

  /** One more function: dropped, kept, or a clash. */
  lemma {:induction false} FnsMergedStep(functions: seq<M.Fn>, seen: set<string>, defined: set<string>, list: seq<M.Fn>, f: M.Fn)
    requires FnsMerged(functions, seen, defined, list)
    ensures M.Clashes(list + [f]) <==> !f.isExtern && f.name in defined
    ensures f.isExtern && f.name in seen ==> FnsMerged(functions, seen, defined, list + [f])
    ensures f.isExtern && f.name !in seen ==> FnsMerged(functions + [f], seen + {f.name}, defined, list + [f])
    ensures !f.isExtern && f.name !in defined ==> FnsMerged(functions + [f], seen + {f.name}, defined + {f.name}, list + [f])
  {
    hide M.Mentions, M.Defines, M.Clashes;
    forall x ensures (M.Mentions(list + [f], x) <==> M.Mentions(list, x) || f.name == x)
                  && (M.Defines(list + [f], x) <==> M.Defines(list, x) || (!f.isExtern && f.name == x)) {
      M.MentionsSnoc(list, f, x);
    }
    ClashSnoc(list, f);
    MergedSnoc(list, f);
  }

  lemma {:induction false} MergedSnoc(list: seq<M.Fn>, f: M.Fn)
    ensures M.MergedFns(list + [f]) == if f.isExtern && M.Mentions(list, f.name) then M.MergedFns(list) else M.MergedFns(list) + [f]
  {
    hide M.Mentions;
    assert (list + [f])[..|list|] == list;
  }

  // ----- The merger -----

  class Merging {
    var imports: seq<string>
    var types: seq<M.TypeDef>
    var globals: seq<M.Glob>
    var functions: seq<M.Fn>
    var seenImports: set<string>
    var seenTypes: set<string>
    var seenGlobals: set<string>
    var seenFunctions: set<string>
    var definedFunctions: map<string, string>

    constructor ()
      ensures Merged([])
    {
      imports, types, globals, functions := [], [], [], [];
      seenImports, seenTypes, seenGlobals, seenFunctions, definedFunctions := {}, {}, {}, {}, map[];
    }

    /** The merge of the first modules ms, none of whose definitions clash. */
    ghost predicate Merged(ms: seq<M.Module>)
      reads this
    {
      && ImportsMerged(M.AllImports(ms)) && TypesMerged(M.AllTypes(ms))
      && GlobalsMerged(M.AllGlobals(ms)) && FunctionsMerged(M.AllFns(ms))
    }

    ghost predicate ImportsMerged(list: seq<string>)
      reads this`imports, this`seenImports
    {
      imports == M.FirstOnly(list) && forall x :: x in seenImports <==> x in list
    }

    ghost predicate TypesMerged(list: seq<M.TypeDef>)
      reads this`types, this`seenTypes
    {
      types == M.MergedTypes(list) && forall x :: x in seenTypes <==> x in M.TypeNames(list)
    }

    ghost predicate GlobalsMerged(list: seq<M.Glob>)
      reads this`globals, this`seenGlobals
    {
      globals == M.MergedGlobals(list) && forall x :: x in seenGlobals <==> x in M.GlobalNames(list)
    }

    ghost predicate FunctionsMerged(list: seq<M.Fn>)
      reads this`functions, this`seenFunctions, this`definedFunctions
    {
      FnsMerged(functions, seenFunctions, definedFunctions.Keys, list) && !M.Clashes(list)
    }

    method AppendFunction(f: M.Fn, path: string, ghost list: seq<M.Fn>) returns (ok: bool)
      requires FunctionsMerged(list)
      modifies this`functions, this`seenFunctions, this`definedFunctions
      ensures ok <==> !M.Clashes(list + [f])
      ensures ok ==> FunctionsMerged(list + [f])
    {
      hide FnsMerged, M.Clashes;
      FnsMergedStep(functions, seenFunctions, definedFunctions.Keys, list, f);
      if f.isExtern {
        if f.name in seenFunctions {
          return true;
        }
        seenFunctions := seenFunctions + {f.name};
        functions := functions + [f];
        return true;
      }
      if f.name in definedFunctions {
        return false;
      }
      definedFunctions := definedFunctions[f.name := path];
      assert definedFunctions.Keys == old(definedFunctions).Keys + {f.name};
      seenFunctions := seenFunctions + {f.name};
      functions := functions + [f];
      ok := true;
    }

    method AppendFunctions(fns: seq<M.Fn>, path: string, ghost list: seq<M.Fn>) returns (ok: bool)
      requires FunctionsMerged(list)
      modifies this`functions, this`seenFunctions, this`definedFunctions
      ensures ok <==> !M.Clashes(list + fns)
      ensures ok ==> FunctionsMerged(list + fns)
    {
      hide M.Clashes, FnsMerged;
      assert list + fns[..0] == list;
      for i := 0 to |fns|
        invariant FunctionsMerged(list + fns[..i])
      {
        assert list + fns[..i + 1] == list + fns[..i] + [fns[i]];
        ok := AppendFunction(fns[i], path, list + fns[..i]);
        if !ok {
          ClashPrefix(list + fns[..i + 1], list + fns);
          return;
        }
      }
      assert fns[..|fns|] == fns;
      ok := true;
    }

    method AppendImport(name: string, ghost list: seq<string>)
      requires ImportsMerged(list)
      modifies this`imports, this`seenImports
      ensures ImportsMerged(list + [name])
    {
      assert (list + [name])[..|list|] == list;
      if name !in seenImports {
        seenImports := seenImports + {name};
        imports := imports + [name];
      }
    }

    method AppendImports(names: seq<string>, ghost list: seq<string>)
      requires ImportsMerged(list)
      modifies this`imports, this`seenImports
      ensures ImportsMerged(list + names)
    {
      hide ImportsMerged;
      assert list + names[..0] == list;
      for i := 0 to |names|
        invariant ImportsMerged(list + names[..i])
      {
        assert list + names[..i + 1] == list + names[..i] + [names[i]];
        AppendImport(names[i], list + names[..i]);
      }
      assert names[..|names|] == names;
    }

    method AppendType(def: M.TypeDef, ghost list: seq<M.TypeDef>)
      requires TypesMerged(list)
      modifies this`types, this`seenTypes
      ensures TypesMerged(list + [def])
    {
      assert (list + [def])[..|list|] == list;
      assert M.TypeNames(list + [def]) == M.TypeNames(list) + [def.name];
      if def.name !in seenTypes {
        seenTypes := seenTypes + {def.name};
        types := types + [def];
      }
    }

    method AppendTypes(defs: seq<M.TypeDef>, ghost list: seq<M.TypeDef>)
      requires TypesMerged(list)
      modifies this`types, this`seenTypes
      ensures TypesMerged(list + defs)
    {
      hide TypesMerged;
      assert list + defs[..0] == list;
      for i := 0 to |defs|
        invariant TypesMerged(list + defs[..i])
      {
        assert list + defs[..i + 1] == list + defs[..i] + [defs[i]];
        AppendType(defs[i], list + defs[..i]);
      }
      assert defs[..|defs|] == defs;
    }

    method AppendGlobal(decl: M.Glob, ghost list: seq<M.Glob>)
      requires GlobalsMerged(list)
      modifies this`globals, this`seenGlobals
      ensures GlobalsMerged(list + [decl])
    {
      assert (list + [decl])[..|list|] == list;
      var names := UnseenNames(decl.names, M.GlobalNames(list));
      if names != [] {
        globals := globals + [decl.(names := names)];
      }
    }

    method AppendGlobals(decls: seq<M.Glob>, ghost list: seq<M.Glob>)
      requires GlobalsMerged(list)
      modifies this`globals, this`seenGlobals
      ensures GlobalsMerged(list + decls)
    {
      hide GlobalsMerged;
      assert list + decls[..0] == list;
      for i := 0 to |decls|
        invariant GlobalsMerged(list + decls[..i])
      {
        assert list + decls[..i + 1] == list + decls[..i] + [decls[i]];
        AppendGlobal(decls[i], list + decls[..i]);
      }
      assert decls[..|decls|] == decls;
    }

    method UnseenNames(names: seq<string>, ghost earlier: seq<string>) returns (fresh_: seq<string>)
      requires forall x :: x in seenGlobals <==> x in earlier
      modifies this`seenGlobals
      ensures fresh_ == M.NewNames(earlier, names)
      ensures forall x :: x in seenGlobals <==> x in earlier + names
    {
      fresh_ := [];
      for i := 0 to |names|
        invariant fresh_ == M.NewNames(earlier, names[..i])
        invariant forall x :: x in seenGlobals <==> x in earlier + names[..i]
      {
        assert names[..i + 1][..i] == names[..i];
        if names[i] !in seenGlobals {
          seenGlobals := seenGlobals + {names[i]};
          fresh_ := fresh_ + [names[i]];
        }
      }
      assert names[..|names|] == names;
    }

    method AppendModule(m: M.Module, path: string, ghost ms: seq<M.Module>) returns (ok: bool)
      requires Merged(ms)
      modifies this
      ensures ok <==> !M.Clashes(M.AllFns(ms + [m]))
      ensures ok ==> Merged(ms + [m])
    {
      hide M.Clashes, ImportsMerged, TypesMerged, GlobalsMerged, FunctionsMerged, M.AllImports, M.AllTypes, M.AllGlobals, M.AllFns;
      AllSnoc(ms, m);
      AppendImports(m.imports, M.AllImports(ms));
      AppendTypes(m.types, M.AllTypes(ms));
      AppendGlobals(m.globals, M.AllGlobals(ms));
      ok := AppendFunctions(m.functions, path, M.AllFns(ms));
    }
  }

  /** MergeBuildUnits: fails exactly on clashing definitions. */
  method MergeBuildUnits(units: seq<M.Unit>, entry: M.Module, entryPath: string) returns (merged: Option<M.Module>)
    ensures var ms := M.Sequence(units, entry, entryPath);
            && (merged.None? <==> M.Clashes(M.AllFns(ms)))
            && (merged.Some? ==> merged.value == M.MergedModule(ms))
  {
    hide M.Clashes, M.AllFns, M.FirstOnly, M.MergedTypes, M.MergedGlobals, M.MergedFns, M.AllImports, M.AllTypes, M.AllGlobals;
    var merging := new Merging();
    for i := 0 to |units|
      invariant fresh(merging)
      invariant merging.Merged(M.Others(units[..i], entryPath))
    {
      var unit := units[i];
      assert units[..i + 1][..i] == units[..i];
      if unit.path != entryPath {
        ghost var ms := M.Others(units[..i], entryPath);
        var ok := merging.AppendModule(unit.module_, unit.path, ms);
        if !ok {
          OthersGrow(units, entryPath, i + 1);
          ClashStays(M.Others(units[..i + 1], entryPath), M.Sequence(units, entry, entryPath));
          return None;
        }
      }
    }
    assert units[..|units|] == units;
    var ok := merging.AppendModule(entry, entryPath, M.Others(units, entryPath));
    if !ok {
      return None;
    }
    merged := Some(M.Module(merging.imports, merging.types, merging.globals, merging.functions));
  }

  // ----- Steps of the merge -----

  lemma {:induction false} AllSnoc(ms: seq<M.Module>, m: M.Module)
    ensures M.AllImports(ms + [m]) == M.AllImports(ms) + m.imports
    ensures M.AllTypes(ms + [m]) == M.AllTypes(ms) + m.types
    ensures M.AllGlobals(ms + [m]) == M.AllGlobals(ms) + m.globals
    ensures M.AllFns(ms + [m]) == M.AllFns(ms) + m.functions
  {
    assert (ms + [m])[..|ms|] == ms;
  }

  lemma {:induction false} ClashSnoc(list: seq<M.Fn>, f: M.Fn)
    ensures M.Clashes(list + [f]) <==> M.Clashes(list) || (!f.isExtern && M.Defines(list, f.name))
  {
    var more := list + [f];
    assert more[|list|] == f;
    if M.Clashes(list) {
      assert more[..|more| - 1] == list;
      M.ClashesGrow(more);
    }
    if !f.isExtern && M.Defines(list, f.name) {
      var i :| 0 <= i < |list| && !list[i].isExtern && list[i].name == f.name;
      assert !more[i].isExtern && !more[|list|].isExtern && more[i].name == more[|list|].name;
    }
    if i, j :| 0 <= i < j < |more| && !more[i].isExtern && !more[j].isExtern && more[i].name == more[j].name {
      assert list[i] == more[i];
      if j < |list| {
        assert list[j] == more[j];
      }
    }
  }

  lemma {:induction false} ClashPrefix(a: seq<M.Fn>, b: seq<M.Fn>)
    requires a <= b && M.Clashes(a)
    ensures M.Clashes(b)
  {
    var i, j :| 0 <= i < j < |a| && !a[i].isExtern && !a[j].isExtern && a[i].name == a[j].name;
    assert b[i] == a[i] && b[j] == a[j];
  }

  lemma {:induction false} AllFnsPrefix(ms: seq<M.Module>, n: nat)
    requires n <= |ms|
    ensures M.AllFns(ms[..n]) <= M.AllFns(ms)
    decreases |ms|
  {
    if n == |ms| {
      assert ms[..n] == ms;
    } else {
      var before := ms[..|ms| - 1];
      AllFnsPrefix(before, n);
      assert before[..n] == ms[..n];
    }
  }

  lemma {:induction false} ClashStays(a: seq<M.Module>, b: seq<M.Module>)
    requires a <= b && M.Clashes(M.AllFns(a))
    ensures M.Clashes(M.AllFns(b))
  {
    assert b[..|a|] == a;
    AllFnsPrefix(b, |a|);
    ClashPrefix(M.AllFns(a), M.AllFns(b));
  }

  lemma {:induction false} OthersGrow(units: seq<M.Unit>, entryPath: string, n: nat)
    requires n <= |units|
    ensures M.Others(units[..n], entryPath) <= M.Others(units, entryPath)
    decreases |units|
  {
    if n == |units| {
      assert units[..n] == units;
    } else {
      var before := units[..|units| - 1];
      OthersGrow(before, entryPath, n);
      assert before[..n] == units[..n];
    }
  }
}
