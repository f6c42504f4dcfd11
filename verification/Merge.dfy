/**
 Merging the modules of a program into one: later copies of what has been seen
 are dropped, two definitions of one function are an error. Discovery order is
 what keeps the result free of duplicates.
 */
module Merge {
  import opened Wrappers

  // ----- Modules, as far as merging looks -----

  /** code stands for everything about a declaration but its names. */
  datatype Fn = Fn(name: string, isExtern: bool, code: string)

  datatype TypeDef = TypeDef(name: string, code: string)

  datatype Glob = Glob(names: seq<string>, code: string)

  datatype Module = Module(imports: seq<string>, types: seq<TypeDef>, globals: seq<Glob>, functions: seq<Fn>)

  datatype Unit = Unit(path: string, module_: Module)

  // ----- What a merge should contain -----

  /** Names in order of first occurrence. */
  function FirstOnly(names: seq<string>): seq<string> {
    if names == [] then [] else
      var before, last := names[..|names| - 1], names[|names| - 1];
      if last in before then FirstOnly(before) else FirstOnly(before) + [last]
  }

  function TypeNames(types: seq<TypeDef>): (names: seq<string>)
    ensures |names| == |types| && forall i :: 0 <= i < |types| ==> names[i] == types[i].name
  {
    seq(|types|, i requires 0 <= i < |types| => types[i].name)
  }

  function MergedTypes(types: seq<TypeDef>): seq<TypeDef> {
    if types == [] then [] else
      var before, last := types[..|types| - 1], types[|types| - 1];
      if last.name in TypeNames(before) then MergedTypes(before) else MergedTypes(before) + [last]
  }

  function GlobalNames(globals: seq<Glob>): seq<string> {
    if globals == [] then [] else GlobalNames(globals[..|globals| - 1]) + globals[|globals| - 1].names
  }

  /** Those of names that are in none of earlier, each once. */
  function NewNames(earlier: seq<string>, names: seq<string>): seq<string> {
    if names == [] then [] else
      var before, last := names[..|names| - 1], names[|names| - 1];
      if last in earlier + before then NewNames(earlier, before) else NewNames(earlier, before) + [last]
  }

  function MergedGlobals(globals: seq<Glob>): seq<Glob> {
    if globals == [] then [] else
      var before, last := globals[..|globals| - 1], globals[|globals| - 1];
      var names := NewNames(GlobalNames(before), last.names);
      if names == [] then MergedGlobals(before) else MergedGlobals(before) + [last.(names := names)]
  }

  predicate Mentions(fns: seq<Fn>, name: string) {
    exists i :: 0 <= i < |fns| && fns[i].name == name
  }

  predicate Defines(fns: seq<Fn>, name: string) {
    exists i :: 0 <= i < |fns| && !fns[i].isExtern && fns[i].name == name
  }

  /** Two definitions of one name. */
  predicate Clashes(fns: seq<Fn>) {
    exists i, j :: 0 <= i < j < |fns| && !fns[i].isExtern && !fns[j].isExtern && fns[i].name == fns[j].name
  }

  /** Every definition, and externs nothing of that name precedes. */
  function MergedFns(fns: seq<Fn>): seq<Fn> {
    if fns == [] then [] else
      var before, last := fns[..|fns| - 1], fns[|fns| - 1];
      if last.isExtern && Mentions(before, last.name) then MergedFns(before) else MergedFns(before) + [last]
  }

  function AllImports(ms: seq<Module>): seq<string> {
    if ms == [] then [] else AllImports(ms[..|ms| - 1]) + ms[|ms| - 1].imports
  }

  function AllTypes(ms: seq<Module>): seq<TypeDef> {
    if ms == [] then [] else AllTypes(ms[..|ms| - 1]) + ms[|ms| - 1].types
  }

  function AllGlobals(ms: seq<Module>): seq<Glob> {
    if ms == [] then [] else AllGlobals(ms[..|ms| - 1]) + ms[|ms| - 1].globals
  }

  function AllFns(ms: seq<Module>): seq<Fn> {
    if ms == [] then [] else AllFns(ms[..|ms| - 1]) + ms[|ms| - 1].functions
  }

  function MergedModule(ms: seq<Module>): Module {
    Module(FirstOnly(AllImports(ms)), MergedTypes(AllTypes(ms)), MergedGlobals(AllGlobals(ms)), MergedFns(AllFns(ms)))
  }

  /** Units other than the entry's, in order, then the entry. */
  function Sequence(units: seq<Unit>, entry: Module, entryPath: string): seq<Module> {
    Others(units, entryPath) + [entry]
  }

  function Others(units: seq<Unit>, entryPath: string): seq<Module> {
    if units == [] then [] else
      var before, last := Others(units[..|units| - 1], entryPath), units[|units| - 1];
      if last.path == entryPath then before else before + [last.module_]
  }

  // ----- Each name once -----

  function Count(fns: seq<Fn>, name: string): nat {
    if fns == [] then 0 else Count(fns[..|fns| - 1], name) + (if fns[|fns| - 1].name == name then 1 else 0)
  }

  function Definitions(fns: seq<Fn>, name: string): nat {
    if fns == [] then 0 else
      var last := fns[|fns| - 1];
      Definitions(fns[..|fns| - 1], name) + (if last.name == name && !last.isExtern then 1 else 0)
  }

  /** The first thing of that name is an extern. */
  predicate ExternFirst(fns: seq<Fn>, name: string) {
    exists p :: 0 <= p < |fns| && fns[p].isExtern && fns[p].name == name && !Mentions(fns[..p], name)
  }

  lemma {:induction false} MentionsSnoc(fns: seq<Fn>, f: Fn, name: string)
    ensures Mentions(fns + [f], name) <==> Mentions(fns, name) || f.name == name
    ensures Defines(fns + [f], name) <==> Defines(fns, name) || (!f.isExtern && f.name == name)
  {
    var more := fns + [f];
    assert more[|fns|] == f;
    if i :| 0 <= i < |fns| && fns[i].name == name {
      assert more[i].name == name;
    }
    if i :| 0 <= i < |fns| && !fns[i].isExtern && fns[i].name == name {
      assert more[i].name == name && !more[i].isExtern;
    }
  }

  lemma {:induction false} ExternFirstSnoc(fns: seq<Fn>, f: Fn, name: string)
    ensures ExternFirst(fns + [f], name) <==> ExternFirst(fns, name) || (f.isExtern && f.name == name && !Mentions(fns, name))
  {
    hide Mentions;
    var more := fns + [f];
    assert more[|fns|] == f && more[..|fns|] == fns;
    forall p | 0 <= p < |fns| ensures more[p] == fns[p] && more[..p] == fns[..p] {
    }
  }

  lemma {:induction false} CountMerged(fns: seq<Fn>, name: string)
    ensures Count(MergedFns(fns), name) == Definitions(fns, name) + (if ExternFirst(fns, name) then 1 else 0)
    ensures Definitions(MergedFns(fns), name) == Definitions(fns, name)
  {
    hide Mentions, ExternFirst, Defines;
    if fns == [] {
      NothingFirst(name);
    } else {
      var before, last := fns[..|fns| - 1], fns[|fns| - 1];
      CountMerged(before, name);
      assert fns == before + [last];
      ExternFirstSnoc(before, last, name);
      ExternFirstMentioned(before, name);
      assert (MergedFns(before) + [last])[..|MergedFns(before)|] == MergedFns(before);
    }
  }

  lemma {:induction false} NothingFirst(name: string)
    ensures !ExternFirst([], name)
  {
  }

  lemma {:induction false} ExternFirstMentioned(fns: seq<Fn>, name: string)
    ensures ExternFirst(fns, name) ==> Mentions(fns, name)
  {
  }

  lemma {:induction false} DefinitionsCounted(fns: seq<Fn>, name: string)
    ensures Definitions(fns, name) > 0 <==> Defines(fns, name)
  {
    hide Defines;
    if fns == [] {
      assert !Defines([], name) by { NothingDefined(name); }
    } else {
      var before, last := fns[..|fns| - 1], fns[|fns| - 1];
      assert fns == before + [last];
      DefinitionsCounted(before, name);
      MentionsSnoc(before, last, name);
    }
  }

  lemma {:induction false} NothingDefined(name: string)
    ensures !Defines([], name) && !Mentions([], name)
  {
  }

  lemma {:induction false} NoClashOneDefinition(fns: seq<Fn>, name: string)
    requires !Clashes(fns)
    ensures Definitions(fns, name) <= 1
  {
    hide Defines;
    if fns != [] {
      var before, last := fns[..|fns| - 1], fns[|fns| - 1];
      if Clashes(before) {
        ClashesGrow(fns);
      }
      NoClashOneDefinition(before, name);
      DefinitionsCounted(before, name);
      if !last.isExtern && last.name == name {
        LastIsNew(fns);
      }
    }
  }

  lemma {:induction false} ClashesGrow(fns: seq<Fn>)
    requires fns != [] && Clashes(fns[..|fns| - 1])
    ensures Clashes(fns)
  {
    var before := fns[..|fns| - 1];
    var i, j :| 0 <= i < j < |before| && !before[i].isExtern && !before[j].isExtern && before[i].name == before[j].name;
    assert !fns[i].isExtern && !fns[j].isExtern && fns[i].name == fns[j].name;
  }

  lemma {:induction false} LastIsNew(fns: seq<Fn>)
    requires fns != [] && !fns[|fns| - 1].isExtern && !Clashes(fns)
    ensures !Defines(fns[..|fns| - 1], fns[|fns| - 1].name)
  {
    var before, last := fns[..|fns| - 1], fns[|fns| - 1];
    if i :| 0 <= i < |before| && !before[i].isExtern && before[i].name == last.name {
      assert !fns[i].isExtern && fns[i].name == fns[|fns| - 1].name;
    }
  }

  /** Some extern comes before the definition of the same name. */
  predicate ExternBeforeDefinition(fns: seq<Fn>) {
    exists p, d :: 0 <= p < d < |fns| && fns[p].isExtern && !fns[d].isExtern && fns[p].name == fns[d].name
  }

  predicate EachOnce(fns: seq<Fn>, merged: seq<Fn>) {
    forall i :: 0 <= i < |fns| ==> Count(merged, fns[i].name) == 1
  }

  /**
   Without clashing definitions, every name ends up exactly once if and only if
   no extern comes before the definition of its name; and then what is kept is
   the definition wherever there is one.
   */
  lemma {:induction false} OnceIffDefinitionsFirst(fns: seq<Fn>)
    requires !Clashes(fns)
    ensures EachOnce(fns, MergedFns(fns)) <==> !ExternBeforeDefinition(fns)
    ensures forall name :: Definitions(MergedFns(fns), name) == if Defines(fns, name) then 1 else 0
  {
    hide MergedFns, Count, Definitions, Defines, ExternFirst;
    forall name ensures Definitions(MergedFns(fns), name) == if Defines(fns, name) then 1 else 0 {
      CountMerged(fns, name);
      NoClashOneDefinition(fns, name);
      DefinitionsCounted(fns, name);
    }
    if p, d :| 0 <= p < d < |fns| && fns[p].isExtern && !fns[d].isExtern && fns[p].name == fns[d].name {
      EarlyExternIsFirst(fns, p, d);
      CountMerged(fns, fns[d].name);
      DefinitionsCounted(fns, fns[d].name);
    }
    if !ExternBeforeDefinition(fns) {
      forall i | 0 <= i < |fns| ensures Count(MergedFns(fns), fns[i].name) == 1 {
        CountMerged(fns, fns[i].name);
        NoClashOneDefinition(fns, fns[i].name);
        DefinitionsCounted(fns, fns[i].name);
        FirstOrDefined(fns, i);
      }
    }
  }

  lemma {:induction false} EarlyExternIsFirst(fns: seq<Fn>, p: nat, d: nat)
    requires !Clashes(fns) && p < d < |fns| && fns[p].isExtern && !fns[d].isExtern && fns[p].name == fns[d].name
    ensures ExternFirst(fns, fns[d].name) && Defines(fns, fns[d].name)
  {
    var first := FirstMention(fns, fns[d].name, p);
    if !fns[first].isExtern {
      assert false;
    }
  }

  lemma {:induction false} FirstMention(fns: seq<Fn>, name: string, p: nat) returns (first: nat)
    requires p < |fns| && fns[p].name == name
    ensures first <= p && fns[first].name == name && !Mentions(fns[..first], name)
  {
    if i :| 0 <= i < p && fns[i].name == name {
      first := FirstMention(fns, name, i);
    } else {
      first := p;
    }
  }

  lemma {:induction false} FirstOrDefined(fns: seq<Fn>, i: nat)
    requires i < |fns| && !ExternBeforeDefinition(fns)
    ensures ExternFirst(fns, fns[i].name) <==> !Defines(fns, fns[i].name)
  {
    var name := fns[i].name;
    var first := FirstMention(fns, name, i);
    if Defines(fns, name) {
      var d :| 0 <= d < |fns| && !fns[d].isExtern && fns[d].name == name;
      forall p | 0 <= p < |fns| && fns[p].isExtern && fns[p].name == name ensures Mentions(fns[..p], name) {
        if p < d {
          assert false;
        } else {
          assert fns[..p][d].name == name;
        }
      }
    } else {
      assert fns[first].isExtern;
    }
  }

  // ----- The order of what is kept -----

  /** What follows in the list is appended to what was kept before. */
  lemma {:induction false} MergesGrow(fns: seq<Fn>, types: seq<TypeDef>, names: seq<string>, i: nat, j: nat, k: nat)
    requires i <= |fns| && j <= |types| && k <= |names|
    ensures MergedFns(fns[..i]) <= MergedFns(fns)
    ensures MergedTypes(types[..j]) <= MergedTypes(types)
    ensures FirstOnly(names[..k]) <= FirstOnly(names)
    decreases |fns| + |types| + |names|
  {
    hide Mentions;
    if i < |fns| {
      MergesGrow(fns[..|fns| - 1], types, names, i, j, k);
      assert fns[..|fns| - 1][..i] == fns[..i];
    } else if j < |types| {
      MergesGrow(fns, types[..|types| - 1], names, i, j, k);
      assert types[..|types| - 1][..j] == types[..j];
    } else if k < |names| {
      MergesGrow(fns, types, names[..|names| - 1], i, j, k);
      assert names[..|names| - 1][..k] == names[..k];
    } else {
      assert fns[..i] == fns && types[..j] == types && names[..k] == names;
    }
  }

  // ----- What is kept is what was there -----

  /** Definition or not, p is what a merge must keep for its name. */
  predicate Keeps(fns: seq<Fn>, p: nat)
    requires p < |fns|
  {
    !fns[p].isExtern || !Mentions(fns[..p], fns[p].name)
  }

  /** Functions are kept unchanged: every definition, every extern nothing precedes, and nothing else. */
  lemma {:induction false} MergedFnsAre(fns: seq<Fn>)
    ensures forall f :: f in MergedFns(fns) <==> exists p :: 0 <= p < |fns| && Keeps(fns, p) && fns[p] == f
  {
    hide Mentions;
    if fns != [] {
      var n := |fns| - 1;
      var before, last := fns[..n], fns[n];
      MergedFnsAre(before);
      forall p | 0 <= p < n ensures Keeps(before, p) <==> Keeps(fns, p) {
        assert before[..p] == fns[..p];
      }
      forall f ensures f in MergedFns(fns) <==> exists p :: 0 <= p < |fns| && Keeps(fns, p) && fns[p] == f {
        if p :| 0 <= p < |fns| && Keeps(fns, p) && fns[p] == f {
          if p < n {
            assert Keeps(before, p) && before[p] == f;
          }
        }
        if p :| 0 <= p < n && Keeps(before, p) && before[p] == f {
          assert Keeps(fns, p) && fns[p] == f;
        }
        if Keeps(fns, n) && f == last {
          assert f in MergedFns(fns);
        }
      }
    }
  }

  predicate NamedBefore(types: seq<TypeDef>, p: nat)
    requires p < |types|
  {
    types[p].name in TypeNames(types[..p])
  }

  /** Types are kept unchanged, the first of each name and nothing else. */
  lemma {:induction false} MergedTypesAre(types: seq<TypeDef>)
    ensures forall t :: t in MergedTypes(types) <==> exists p :: 0 <= p < |types| && !NamedBefore(types, p) && types[p] == t
  {
    hide TypeNames;
    if types != [] {
      var n := |types| - 1;
      var before, last := types[..n], types[n];
      MergedTypesAre(before);
      forall p | 0 <= p < n ensures NamedBefore(before, p) <==> NamedBefore(types, p) {
        assert before[..p] == types[..p];
      }
      forall t ensures t in MergedTypes(types) <==> exists p :: 0 <= p < |types| && !NamedBefore(types, p) && types[p] == t {
        if p :| 0 <= p < |types| && !NamedBefore(types, p) && types[p] == t {
          if p < n {
            assert !NamedBefore(before, p) && before[p] == t;
          }
        }
        if p :| 0 <= p < n && !NamedBefore(before, p) && before[p] == t {
          assert !NamedBefore(types, p) && types[p] == t;
        }
        if !NamedBefore(types, n) && t == last {
          assert t in MergedTypes(types);
        }
      }
    }
  }

  /** Some declaration of the list has this name and stands for this code. */
  predicate DeclaredWith(globals: seq<Glob>, name: string, code: string) {
    exists p :: 0 <= p < |globals| && name in globals[p].names && globals[p].code == code
  }

  /** A merged global's name keeps the declaration that first declared it. */
  lemma {:induction false} MergedGlobalsAre(globals: seq<Glob>, p: nat, name: string)
    requires p < |globals| && name in globals[p].names && name !in GlobalNames(globals[..p])
    ensures forall code :: DeclaredWith(MergedGlobals(globals), name, code) <==> code == globals[p].code
  {
    hide NewNames, GlobalNames;
    var n := |globals| - 1;
    var before, last := globals[..n], globals[n];
    var names := NewNames(GlobalNames(before), last.names);
    NewNamesAre(GlobalNames(before), last.names);
    var kept := MergedGlobals(before);
    if p < n {
      assert before[..p] == globals[..p];
      MergedGlobalsAre(before, p, name);
      NamedByOne(before, p, name);
    } else {
      GlobalsOnce(before);
      FirstOnlyOnce(GlobalNames(before));
      forall q | 0 <= q < |kept| ensures name !in kept[q].names {
        if name in kept[q].names {
          NamedByOne(kept, q, name);
          assert false;
        }
      }
    }
    if names != [] {
      DeclaredSnoc(kept, last.(names := names), name);
    }
  }

  lemma {:induction false} NewNamesAre(earlier: seq<string>, names: seq<string>)
    ensures forall x :: x in NewNames(earlier, names) <==> x in names && x !in earlier
  {
    if names != [] {
      NewNamesAre(earlier, names[..|names| - 1]);
    }
  }

  lemma {:induction false} NamedByOne(globals: seq<Glob>, p: nat, name: string)
    requires p < |globals| && name in globals[p].names
    ensures name in GlobalNames(globals)
  {
    if p < |globals| - 1 {
      NamedByOne(globals[..|globals| - 1], p, name);
    }
  }

  lemma {:induction false} DeclaredSnoc(globals: seq<Glob>, g: Glob, name: string)
    ensures forall code :: DeclaredWith(globals + [g], name, code) <==>
                           DeclaredWith(globals, name, code) || (name in g.names && g.code == code)
  {
    var more := globals + [g];
    forall code ensures DeclaredWith(more, name, code) <==> DeclaredWith(globals, name, code) || (name in g.names && g.code == code) {
      assert more[|globals|] == g;
      if p :| 0 <= p < |globals| && name in globals[p].names && globals[p].code == code {
        assert name in more[p].names && more[p].code == code;
      }
    }
  }

  // ----- Globals and imports -----

  predicate Distinct(names: seq<string>) {
    forall i, j :: 0 <= i < j < |names| ==> names[i] != names[j]
  }

  lemma {:induction false} FirstOnlyOnce(names: seq<string>)
    ensures Distinct(FirstOnly(names))
    ensures forall x :: x in FirstOnly(names) <==> x in names
  {
    if names != [] {
      FirstOnlyOnce(names[..|names| - 1]);
    }
  }

  lemma {:induction false} FirstOnlyAppend(a: seq<string>, b: seq<string>)
    ensures FirstOnly(a + b) == FirstOnly(a) + NewNames(a, b)
  {
    if b == [] {
      assert a + b == a;
    } else {
      var before, last := b[..|b| - 1], b[|b| - 1];
      FirstOnlyAppend(a, before);
      assert (a + b)[..|a + b| - 1] == a + before;
    }
  }

  /** Merged globals declare exactly the names declared before, each once, in order of first declaration. */
  lemma {:induction false} GlobalsOnce(globals: seq<Glob>)
    ensures GlobalNames(MergedGlobals(globals)) == FirstOnly(GlobalNames(globals))
    ensures Distinct(GlobalNames(MergedGlobals(globals)))
  {
    FirstOnlyOnce(GlobalNames(globals));
    if globals != [] {
      var before, last := globals[..|globals| - 1], globals[|globals| - 1];
      GlobalsOnce(before);
      FirstOnlyAppend(GlobalNames(before), last.names);
      var names := NewNames(GlobalNames(before), last.names);
      if names != [] {
        assert (MergedGlobals(before) + [last.(names := names)])[..|MergedGlobals(before)|] == MergedGlobals(before);
      }
    }
  }
}
