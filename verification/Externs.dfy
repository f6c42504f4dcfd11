/**
 AddImportedExternDeclarations: a module gets declarations of everything its
 imports export, under qualified names, except what it already has.
 */
module Externs {
  import opened Namespacing
  import M = Merge

  /** What a module exports to its importers. */
  datatype Surface = Surface(moduleName: string, types: seq<M.TypeDef>, functions: seq<M.Fn>, globals: seq<M.Glob>)

  // ----- Functions -----

  function Offered(s: Surface): (fns: seq<M.Fn>)
    ensures |fns| == |s.functions|
  {
    seq(|s.functions|, i requires 0 <= i < |s.functions| => M.Fn(Qualify(s.moduleName, s.functions[i].name), true, s.functions[i].code))
  }

  /** offered appended to fns, except names already there. */
  function Declared(fns: seq<M.Fn>, offered: seq<M.Fn>): seq<M.Fn> {
    if offered == [] then fns else
      var before, last := Declared(fns, offered[..|offered| - 1]), offered[|offered| - 1];
      if M.Mentions(before, last.name) then before else before + [last]
  }

  function WithExterns(fns: seq<M.Fn>, imports: seq<Surface>): seq<M.Fn> {
    if imports == [] then fns else Declared(WithExterns(fns, imports[..|imports| - 1]), Offered(imports[|imports| - 1]))
  }

  // ----- Types, which keep their names -----

  function DeclaredTypes(types: seq<M.TypeDef>, offered: seq<M.TypeDef>): seq<M.TypeDef> {
    if offered == [] then types else
      var before, last := DeclaredTypes(types, offered[..|offered| - 1]), offered[|offered| - 1];
      if last.name in M.TypeNames(before) then before else before + [last]
  }

  function WithTypes(types: seq<M.TypeDef>, imports: seq<Surface>): seq<M.TypeDef> {
    if imports == [] then types else DeclaredTypes(WithTypes(types, imports[..|imports| - 1]), imports[|imports| - 1].types)
  }

  // ----- Globals: a declaration keeps those of its names that are new -----

  function Qualified(moduleName: string, names: seq<string>): (more: seq<string>)
    ensures |more| == |names| && forall i :: 0 <= i < |names| ==> more[i] == Qualify(moduleName, names[i])
  {
    seq(|names|, i requires 0 <= i < |names| => Qualify(moduleName, names[i]))
  }

  function OfferedGlobal(moduleName: string, g: M.Glob): M.Glob {
    g.(names := Qualified(moduleName, g.names))
  }

  function DeclaredGlobals(globals: seq<M.Glob>, moduleName: string, offered: seq<M.Glob>): seq<M.Glob> {
    if offered == [] then globals else
      var before := DeclaredGlobals(globals, moduleName, offered[..|offered| - 1]);
      var last := OfferedGlobal(moduleName, offered[|offered| - 1]);
      var names := M.NewNames(M.GlobalNames(before), last.names);
      if names == [] then before else before + [last.(names := names)]
  }

  function WithGlobals(globals: seq<M.Glob>, imports: seq<Surface>): seq<M.Glob> {
    if imports == [] then globals else
      var last := imports[|imports| - 1];
      DeclaredGlobals(WithGlobals(globals, imports[..|imports| - 1]), last.moduleName, last.globals)
  }

  lemma {:induction false} NoGlobalsDeclared(globals: seq<M.Glob>, moduleName: string)
    ensures DeclaredGlobals(globals, moduleName, []) == globals
  {
  }

  lemma {:induction false} DeclaredGlobalsSnoc(globals: seq<M.Glob>, moduleName: string, offered: seq<M.Glob>, g: M.Glob)
    ensures var before := DeclaredGlobals(globals, moduleName, offered);
            var names := M.NewNames(M.GlobalNames(before), Qualified(moduleName, g.names));
            DeclaredGlobals(globals, moduleName, offered + [g]) == if names == [] then before else before + [g.(names := names)]
  {
    hide M.NewNames, M.GlobalNames, Qualify;
    assert (offered + [g])[..|offered|] == offered;
  }

  lemma {:induction false} GlobalNamesSnoc(globals: seq<M.Glob>, g: M.Glob)
    ensures M.GlobalNames(globals + [g]) == M.GlobalNames(globals) + g.names
  {
    assert (globals + [g])[..|globals|] == globals;
  }

  // ----- The module being extended -----

  class Extended {
    var types: seq<M.TypeDef>
    var functions: seq<M.Fn>
    var globals: seq<M.Glob>
    var existingTypes: set<string>
    var existingFunctions: set<string>
    var existingGlobals: set<string>

    ghost predicate Valid()
      reads this
    {
      && (forall x :: x in existingTypes <==> x in M.TypeNames(types))
      && (forall x :: x in existingFunctions <==> M.Mentions(functions, x))
      && (forall x :: x in existingGlobals <==> x in M.GlobalNames(globals))
    }

    constructor (m: M.Module)
      ensures Valid() && types == m.types && functions == m.functions && globals == m.globals
    {
      types, functions, globals := m.types, m.functions, m.globals;
      existingTypes := set i | 0 <= i < |m.types| :: m.types[i].name;
      existingFunctions := set i | 0 <= i < |m.functions| :: m.functions[i].name;
      var names := M.GlobalNames(m.globals);
      existingGlobals := set i | 0 <= i < |names| :: names[i];
      new;
      assert forall x :: x in M.TypeNames(types) <==> exists i :: 0 <= i < |types| && types[i].name == x;
    }

    /** The loops over the imports, which come sorted by name, and over what each exports. */
    method AddImportedExternDeclarations(imports: seq<Surface>)
      requires Valid()
      modifies this
      ensures Valid()
      ensures types == WithTypes(old(types), imports)
      ensures functions == WithExterns(old(functions), imports)
      ensures globals == WithGlobals(old(globals), imports)
    {
      hide Valid, DeclaredTypes, Declared, DeclaredGlobals;
      for i := 0 to |imports|
        invariant Valid()
        invariant types == WithTypes(old(types), imports[..i])
        invariant functions == WithExterns(old(functions), imports[..i])
        invariant globals == WithGlobals(old(globals), imports[..i])
      {
        assert imports[..i + 1][..i] == imports[..i];
        AddTypes(imports[i].types);
        AddFunctions(imports[i]);
        AddGlobals(imports[i]);
      }
      assert imports[..|imports|] == imports;
    }

    method AddTypes(offered: seq<M.TypeDef>)
      requires Valid()
      modifies this`types, this`existingTypes
      ensures Valid() && types == DeclaredTypes(old(types), offered)
    {
      hide M.Mentions, M.GlobalNames;
      for i := 0 to |offered|
        invariant Valid() && types == DeclaredTypes(old(types), offered[..i])
      {
        assert offered[..i + 1][..i] == offered[..i];
        if offered[i].name !in existingTypes {
          assert M.TypeNames(types + [offered[i]]) == M.TypeNames(types) + [offered[i].name];
          existingTypes := existingTypes + {offered[i].name};
          types := types + [offered[i]];
        }
      }
      assert offered[..|offered|] == offered;
    }

    method AddFunctions(s: Surface)
      requires Valid()
      modifies this`functions, this`existingFunctions
      ensures Valid() && functions == Declared(old(functions), Offered(s))
    {
      hide M.Mentions, M.GlobalNames, M.TypeNames, Qualify;
      ghost var offered := Offered(s);
      for i := 0 to |s.functions|
        invariant Valid() && functions == Declared(old(functions), offered[..i])
      {
        var qualified := Qualify(s.moduleName, s.functions[i].name);
        var f := M.Fn(qualified, true, s.functions[i].code);
        assert offered[..i + 1][..i] == offered[..i] && offered[i] == f;
        if qualified !in existingFunctions {
          forall x ensures M.Mentions(functions + [f], x) <==> M.Mentions(functions, x) || x == qualified {
            M.MentionsSnoc(functions, f, x);
          }
          existingFunctions := existingFunctions + {qualified};
          functions := functions + [f];
        }
      }
      assert offered[..|s.functions|] == offered;
    }

    method AddGlobals(s: Surface)
      requires Valid()
      modifies this`globals, this`existingGlobals
      ensures Valid() && globals == DeclaredGlobals(old(globals), s.moduleName, s.globals)
    {
      hide M.Mentions, M.TypeNames, Qualify, DeclaredGlobals, M.GlobalNames, M.NewNames, Qualified;
      NoGlobalsDeclared(globals, s.moduleName);
      assert s.globals[..0] == [];
      for i := 0 to |s.globals|
        invariant Valid() && globals == DeclaredGlobals(old(globals), s.moduleName, s.globals[..i])
      {
        assert s.globals[..i + 1] == s.globals[..i] + [s.globals[i]];
        DeclaredGlobalsSnoc(old(globals), s.moduleName, s.globals[..i], s.globals[i]);
        var names := NewGlobalNames(s.moduleName, s.globals[i].names);
        if names != [] {
          GlobalNamesSnoc(globals, s.globals[i].(names := names));
          globals := globals + [s.globals[i].(names := names)];
        }
      }
      assert s.globals[..|s.globals|] == s.globals;
    }

    method NewGlobalNames(moduleName: string, names: seq<string>) returns (more: seq<string>)
      requires Valid()
      modifies this`existingGlobals
      ensures more == M.NewNames(M.GlobalNames(globals), Qualified(moduleName, names))
      ensures forall x :: x in existingGlobals <==> x in old(existingGlobals) || x in more
    {
      hide M.Mentions, M.TypeNames, M.GlobalNames, Qualify;
      more := [];
      ghost var all := Qualified(moduleName, names);
      ghost var earlier := M.GlobalNames(globals);
      for i := 0 to |names|
        invariant more == M.NewNames(earlier, all[..i])
        invariant forall x :: x in existingGlobals <==> x in earlier + all[..i]
      {
        assert all[..i + 1][..i] == all[..i];
        var qualified := Qualify(moduleName, names[i]);
        if qualified !in existingGlobals {
          existingGlobals := existingGlobals + {qualified};
          more := more + [qualified];
        }
      }
      assert all[..|names|] == all;
      NewNamesOnce(earlier, all);
    }
  }

  // ----- What the module then declares -----

  /** Some import exports a type of that name. */
  predicate OffersType(imports: seq<Surface>, x: string) {
    exists i :: 0 <= i < |imports| && x in M.TypeNames(imports[i].types)
  }

  predicate OffersFunction(imports: seq<Surface>, x: string) {
    exists i, k :: 0 <= i < |imports| && 0 <= k < |imports[i].functions|
                   && x == Qualify(imports[i].moduleName, imports[i].functions[k].name)
  }

  /** One of the qualified global names of some import. */
  predicate OffersGlobal(imports: seq<Surface>, x: string) {
    exists i :: 0 <= i < |imports| && x in Qualified(imports[i].moduleName, M.GlobalNames(imports[i].globals))
  }

  lemma {:induction false} DeclaredTypesOnce(types: seq<M.TypeDef>, offered: seq<M.TypeDef>)
    ensures types <= DeclaredTypes(types, offered)
    ensures forall x :: x in M.TypeNames(DeclaredTypes(types, offered)) <==> x in M.TypeNames(types) || x in M.TypeNames(offered)
    ensures M.Distinct(M.TypeNames(types)) ==> M.Distinct(M.TypeNames(DeclaredTypes(types, offered)))
  {
    if offered != [] {
      var before, last := offered[..|offered| - 1], offered[|offered| - 1];
      DeclaredTypesOnce(types, before);
      var some := DeclaredTypes(types, before);
      assert M.TypeNames(some + [last]) == M.TypeNames(some) + [last.name];
      assert M.TypeNames(offered) == M.TypeNames(before) + [last.name];
    }
  }

  /** Imported types are declared next to the module's own, nothing else is, and no name twice. */
  lemma {:induction false} TypesDeclaredOnce(types: seq<M.TypeDef>, imports: seq<Surface>)
    ensures types <= WithTypes(types, imports)
    ensures forall x :: x in M.TypeNames(WithTypes(types, imports)) <==> x in M.TypeNames(types) || OffersType(imports, x)
    ensures M.Distinct(M.TypeNames(types)) ==> M.Distinct(M.TypeNames(WithTypes(types, imports)))
  {
    hide M.Distinct, M.TypeNames, DeclaredTypes;
    if imports != [] {
      var last := |imports| - 1;
      TypesDeclaredOnce(types, imports[..last]);
      DeclaredTypesOnce(WithTypes(types, imports[..last]), imports[last].types);
      forall x ensures OffersType(imports, x) <==> OffersType(imports[..last], x) || x in M.TypeNames(imports[last].types) {
        if i :| 0 <= i < last && x in M.TypeNames(imports[..last][i].types) {
          assert x in M.TypeNames(imports[i].types);
        }
        if i :| 0 <= i < |imports| && x in M.TypeNames(imports[i].types) {
          assert i < last ==> x in M.TypeNames(imports[..last][i].types);
        }
      }
    }
  }

  lemma {:induction false} MentionedIffCounted(fns: seq<M.Fn>, x: string)
    ensures M.Mentions(fns, x) <==> M.Count(fns, x) > 0
  {
    if fns != [] {
      var before, last := fns[..|fns| - 1], fns[|fns| - 1];
      MentionedIffCounted(before, x);
      M.MentionsSnoc(before, last, x);
      assert fns == before + [last];
    }
  }

  lemma {:induction false} CountSnoc(fns: seq<M.Fn>, f: M.Fn, x: string)
    ensures M.Count(fns + [f], x) == M.Count(fns, x) + if f.name == x then 1 else 0
  {
    assert (fns + [f])[..|fns|] == fns;
  }

  lemma {:induction false} DeclaredOnce(fns: seq<M.Fn>, offered: seq<M.Fn>, x: string)
    ensures fns <= Declared(fns, offered)
    ensures M.Count(Declared(fns, offered), x) ==
            if M.Mentions(fns, x) then M.Count(fns, x) else if M.Mentions(offered, x) then 1 else 0
  {
    hide M.Mentions, M.Count;
    if offered == [] {
      MentionedIffCounted(fns, x);
      assert !M.Mentions([], x) by { M.NothingDefined(x); }
    } else {
      var before, last := offered[..|offered| - 1], offered[|offered| - 1];
      var some := Declared(fns, before);
      DeclaredOnce(fns, before, x);
      MentionedIffCounted(fns, x);
      MentionedIffCounted(some, x);
      M.MentionsSnoc(before, last, x);
      assert offered == before + [last];
      CountSnoc(some, last, x);
    }
  }

  /** The same for functions: every name the module had stays as it was, and an imported one is declared once. */
  lemma {:induction false} FunctionsDeclaredOnce(fns: seq<M.Fn>, imports: seq<Surface>, x: string)
    ensures fns <= WithExterns(fns, imports)
    ensures M.Count(WithExterns(fns, imports), x) ==
            if M.Mentions(fns, x) then M.Count(fns, x) else if OffersFunction(imports, x) then 1 else 0
  {
    hide M.Mentions, M.Count, Declared, OffersFunction, Offered;
    MentionedIffCounted(fns, x);
    if imports == [] {
      assert !OffersFunction([], x) by { NothingOffered(x); }
    } else {
      var last := |imports| - 1;
      var some := WithExterns(fns, imports[..last]);
      FunctionsDeclaredOnce(fns, imports[..last], x);
      DeclaredOnce(some, Offered(imports[last]), x);
      MentionedIffCounted(some, x);
      OfferedLast(imports, x);
    }
  }

  lemma {:induction false} NothingOffered(x: string)
    ensures !OffersFunction([], x)
  {
  }

  lemma {:induction false} OfferedLast(imports: seq<Surface>, x: string)
    requires imports != []
    ensures var last := |imports| - 1;
            OffersFunction(imports, x) <==> OffersFunction(imports[..last], x) || M.Mentions(Offered(imports[last]), x)
  {
    hide Qualify;
    var last := |imports| - 1;
    if i, k :| 0 <= i < last && 0 <= k < |imports[..last][i].functions|
               && x == Qualify(imports[..last][i].moduleName, imports[..last][i].functions[k].name) {
      assert imports[i] == imports[..last][i];
      assert x == Qualify(imports[i].moduleName, imports[i].functions[k].name);
    }
    if i, k :| 0 <= i < |imports| && 0 <= k < |imports[i].functions| && x == Qualify(imports[i].moduleName, imports[i].functions[k].name) {
      if i < last {
        assert imports[..last][i] == imports[i];
        assert x == Qualify(imports[..last][i].moduleName, imports[..last][i].functions[k].name);
      } else {
        assert Offered(imports[last])[k].name == x;
      }
    }
  }

  lemma {:induction false} NewNamesOnce(earlier: seq<string>, names: seq<string>)
    ensures forall x :: x in M.NewNames(earlier, names) <==> x in names && x !in earlier
    ensures M.Distinct(M.NewNames(earlier, names))
  {
    hide M.Distinct;
    M.NewNamesAre(earlier, names);
    if names == [] {
      SmallDistinct("");
    } else {
      var before, last := names[..|names| - 1], names[|names| - 1];
      NewNamesOnce(earlier, before);
      if last in earlier + before {
        assert M.NewNames(earlier, names) == M.NewNames(earlier, before);
      } else {
        SmallDistinct(last);
        DistinctAppend(M.NewNames(earlier, before), [last]);
        assert M.NewNames(earlier, names) == M.NewNames(earlier, before) + [last];
      }
    }
  }

  lemma {:induction false} SmallDistinct(x: string)
    ensures M.Distinct([]) && M.Distinct([x])
  {
  }

  lemma {:induction false} DistinctAppend(a: seq<string>, b: seq<string>)
    requires M.Distinct(a) && M.Distinct(b) && forall x :: x in b ==> x !in a
    ensures M.Distinct(a + b)
  {
    var c := a + b;
    forall i, j | 0 <= i < j < |c| ensures c[i] != c[j] {
      if i < |a| <= j {
        assert b[j - |a|] in b;
      }
    }
  }

  lemma {:induction false} QualifiedAppend(moduleName: string, a: seq<string>, b: seq<string>)
    ensures Qualified(moduleName, a + b) == Qualified(moduleName, a) + Qualified(moduleName, b)
  {
    hide Qualify;
  }

  lemma {:induction false} DeclaredGlobalsOnce(globals: seq<M.Glob>, moduleName: string, offered: seq<M.Glob>)
    ensures globals <= DeclaredGlobals(globals, moduleName, offered)
    ensures forall x :: x in M.GlobalNames(DeclaredGlobals(globals, moduleName, offered)) <==>
                        x in M.GlobalNames(globals) || x in Qualified(moduleName, M.GlobalNames(offered))
    ensures M.Distinct(M.GlobalNames(globals)) ==> M.Distinct(M.GlobalNames(DeclaredGlobals(globals, moduleName, offered)))
  {
    hide M.Distinct, Qualify, M.NewNames;
    if offered != [] {
      var before, last := offered[..|offered| - 1], OfferedGlobal(moduleName, offered[|offered| - 1]);
      DeclaredGlobalsOnce(globals, moduleName, before);
      var some := DeclaredGlobals(globals, moduleName, before);
      var names := M.NewNames(M.GlobalNames(some), last.names);
      NewNamesOnce(M.GlobalNames(some), last.names);
      QualifiedAppend(moduleName, M.GlobalNames(before), offered[|offered| - 1].names);
      assert (some + [last.(names := names)])[..|some|] == some;
      if M.Distinct(M.GlobalNames(globals)) {
        DistinctAppend(M.GlobalNames(some), names);
      }
    }
  }

  lemma {:induction false} GlobalsDeclaredOnce(globals: seq<M.Glob>, imports: seq<Surface>)
    ensures globals <= WithGlobals(globals, imports)
    ensures forall x :: x in M.GlobalNames(WithGlobals(globals, imports)) <==> x in M.GlobalNames(globals) || OffersGlobal(imports, x)
    ensures M.Distinct(M.GlobalNames(globals)) ==> M.Distinct(M.GlobalNames(WithGlobals(globals, imports)))
  {
    hide M.Distinct, DeclaredGlobals, Qualified, M.GlobalNames;
    if imports != [] {
      var last := |imports| - 1;
      GlobalsDeclaredOnce(globals, imports[..last]);
      DeclaredGlobalsOnce(WithGlobals(globals, imports[..last]), imports[last].moduleName, imports[last].globals);
      forall x ensures OffersGlobal(imports, x) <==>
                       OffersGlobal(imports[..last], x) || x in Qualified(imports[last].moduleName, M.GlobalNames(imports[last].globals))
      {
        if i :| 0 <= i < last && x in Qualified(imports[..last][i].moduleName, M.GlobalNames(imports[..last][i].globals)) {
          assert imports[i] == imports[..last][i];
        }
        if i :| 0 <= i < |imports| && x in Qualified(imports[i].moduleName, M.GlobalNames(imports[i].globals)) {
          assert i < last ==> imports[..last][i] == imports[i];
        }
      }
    }
  }

  // ----- In the order of the imports -----

  /** What a later import adds comes behind everything before it. */
  lemma {:induction false} ExternsGrow(m: M.Module, imports: seq<Surface>, n: nat)
    requires n <= |imports|
    ensures WithTypes(m.types, imports[..n]) <= WithTypes(m.types, imports)
    ensures WithExterns(m.functions, imports[..n]) <= WithExterns(m.functions, imports)
    ensures WithGlobals(m.globals, imports[..n]) <= WithGlobals(m.globals, imports)
    decreases |imports|
  {
    hide DeclaredTypes, Declared, DeclaredGlobals;
    if n == |imports| {
      assert imports[..n] == imports;
    } else {
      var last := |imports| - 1;
      ExternsGrow(m, imports[..last], n);
      assert imports[..last][..n] == imports[..n];
      DeclaredTypesOnce(WithTypes(m.types, imports[..last]), imports[last].types);
      DeclaredOnce(WithExterns(m.functions, imports[..last]), Offered(imports[last]), "");
      DeclaredGlobalsOnce(WithGlobals(m.globals, imports[..last]), imports[last].moduleName, imports[last].globals);
    }
  }

  // ----- What is added is what was exported -----

  /** f declares the exported function k of import i, by its qualified name and as an extern. */
  predicate Declares(imports: seq<Surface>, i: nat, k: nat, f: M.Fn)
    requires i < |imports| && k < |imports[i].functions|
  {
    f == M.Fn(Qualify(imports[i].moduleName, imports[i].functions[k].name), true, imports[i].functions[k].code)
  }

  lemma {:induction false} DeclaredFrom(fns: seq<M.Fn>, offered: seq<M.Fn>, f: M.Fn)
    requires f in Declared(fns, offered)
    ensures f in fns || f in offered
  {
    hide M.Mentions;
    if offered != [] {
      var before := offered[..|offered| - 1];
      if f in Declared(fns, before) {
        DeclaredFrom(fns, before, f);
      }
    }
  }

  /** Every function is one the module had, or declares an exported function of an import with that function's signature. */
  lemma {:induction false} FunctionsDeclaredFrom(fns: seq<M.Fn>, imports: seq<Surface>, f: M.Fn)
    requires f in WithExterns(fns, imports)
    ensures f in fns || exists i, k :: 0 <= i < |imports| && 0 <= k < |imports[i].functions| && Declares(imports, i, k, f)
  {
    hide Declared, Qualify;
    if imports != [] {
      var last := |imports| - 1;
      DeclaredFrom(WithExterns(fns, imports[..last]), Offered(imports[last]), f);
      if f in WithExterns(fns, imports[..last]) {
        FunctionsDeclaredFrom(fns, imports[..last], f);
        if f !in fns {
          var i, k :| 0 <= i < last && 0 <= k < |imports[..last][i].functions| && Declares(imports[..last], i, k, f);
          assert imports[..last][i] == imports[i];
          assert Declares(imports, i, k, f);
        }
      } else {
        var k :| 0 <= k < |imports[last].functions| && Offered(imports[last])[k] == f;
        assert Declares(imports, last, k, f);
      }
    }
  }

  lemma {:induction false} TypesFrom(types: seq<M.TypeDef>, offered: seq<M.TypeDef>, t: M.TypeDef)
    requires t in DeclaredTypes(types, offered)
    ensures t in types || t in offered
  {
    hide M.TypeNames;
    if offered != [] {
      var before := offered[..|offered| - 1];
      if t in DeclaredTypes(types, before) {
        TypesFrom(types, before, t);
      }
    }
  }

  /** Every type is one the module had or an import exports. */
  lemma {:induction false} TypesDeclaredFrom(types: seq<M.TypeDef>, imports: seq<Surface>, t: M.TypeDef)
    requires t in WithTypes(types, imports)
    ensures t in types || exists i :: 0 <= i < |imports| && t in imports[i].types
  {
    hide DeclaredTypes;
    if imports != [] {
      var last := |imports| - 1;
      TypesFrom(WithTypes(types, imports[..last]), imports[last].types, t);
      if t in WithTypes(types, imports[..last]) {
        TypesDeclaredFrom(types, imports[..last], t);
        if i :| 0 <= i < last && t in imports[..last][i].types {
          assert t in imports[i].types;
        }
      }
    }
  }

  /** g declares some of exported global k's names, qualified, with its type. */
  predicate DeclaresGlobal(moduleName: string, offered: seq<M.Glob>, k: nat, g: M.Glob)
    requires k < |offered|
  {
    g.code == offered[k].code && g.names != [] && forall x :: x in g.names ==> x in Qualified(moduleName, offered[k].names)
  }

  lemma {:induction false} GlobalsFrom(globals: seq<M.Glob>, moduleName: string, offered: seq<M.Glob>, g: M.Glob)
    requires g in DeclaredGlobals(globals, moduleName, offered)
    ensures g in globals || exists k :: 0 <= k < |offered| && DeclaresGlobal(moduleName, offered, k, g)
  {
    hide M.NewNames, M.GlobalNames, Qualified;
    if offered != [] {
      var n := |offered| - 1;
      var before := offered[..n];
      if g in DeclaredGlobals(globals, moduleName, before) {
        GlobalsFrom(globals, moduleName, before, g);
        if k :| 0 <= k < n && DeclaresGlobal(moduleName, before, k, g) {
          assert DeclaresGlobal(moduleName, offered, k, g);
        }
      } else {
        NewNamesOnce(M.GlobalNames(DeclaredGlobals(globals, moduleName, before)), OfferedGlobal(moduleName, offered[n]).names);
        assert DeclaresGlobal(moduleName, offered, n, g);
      }
    }
  }

  /** Every global is one the module had, or declares names of an exported global with that global's type. */
  lemma {:induction false} GlobalsDeclaredFrom(globals: seq<M.Glob>, imports: seq<Surface>, g: M.Glob)
    requires g in WithGlobals(globals, imports)
    ensures g in globals || exists i, k ::
              0 <= i < |imports| && 0 <= k < |imports[i].globals| && DeclaresGlobal(imports[i].moduleName, imports[i].globals, k, g)
  {
    hide DeclaredGlobals, DeclaresGlobal;
    if imports != [] {
      var last := |imports| - 1;
      GlobalsFrom(WithGlobals(globals, imports[..last]), imports[last].moduleName, imports[last].globals, g);
      if g in WithGlobals(globals, imports[..last]) {
        GlobalsDeclaredFrom(globals, imports[..last], g);
        if i, k :| 0 <= i < last && 0 <= k < |imports[..last][i].globals|
                   && DeclaresGlobal(imports[..last][i].moduleName, imports[..last][i].globals, k, g) {
          assert imports[..last][i] == imports[i];
          assert DeclaresGlobal(imports[i].moduleName, imports[i].globals, k, g);
        }
      }
    }
  }
}
