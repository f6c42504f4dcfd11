/**
 What a namespaced module looks like: the names it declares, and the texts of
 its instructions that are printed from types instead of looked up.
 */
module NamespacedTexts {
  import opened Wrappers
  import opened Namespacing

  // ----- Qualifiers -----

  /** The two characters that become the same one in a qualifier. */
  predicate Alike(a: char, b: char) {
    a == b || (a in {'/', '_'} && b in {'/', '_'})
  }

  /** Module names share a qualifier exactly when they differ in slashes and underscores only; no slash is left in one. */
  lemma {:induction false} QualifiersCollideIff(a: string, b: string)
    ensures Qualifier(a) == Qualifier(b) <==> |a| == |b| && forall i :: 0 <= i < |a| ==> Alike(a[i], b[i])
    ensures '/' !in Qualifier(a)
    ensures '/' !in a ==> Qualifier(a) == a
  {
    if Qualifier(a) == Qualifier(b) {
      forall i | 0 <= i < |a| ensures Alike(a[i], b[i]) {
        assert Qualifier(a)[i] == Qualifier(b)[i];
      }
    }
  }

  // ----- Declared names -----

  /** after is before under the module's qualifier, with a dot between. */
  predicate QualifiedFrom(moduleName: string, before: string, after: string) {
    && |after| == |moduleName| + 1 + |before|
    && after[..|moduleName|] == Qualifier(moduleName)
    && after[|moduleName|] == '.'
    && after[|moduleName| + 1..] == before
  }

  lemma {:induction false} QualifyIs(moduleName: string, x: string, after: string)
    ensures after == Qualify(moduleName, x) <==> QualifiedFrom(moduleName, x, after)
  {
    hide Qualifier;
    var q := Qualifier(moduleName);
    if QualifiedFrom(moduleName, x, after) {
      assert after == after[..|q|] + [after[|q|]] + after[|q| + 1..];
    }
  }

  /** Definitions, undotted types and undotted globals are declared under their qualified names, everything else as before. */
  lemma {:induction false} DeclaredNamesQualified(p: Printer, moduleName: string, m: Mir<string>)
    requires WellFormed(m)
    ensures var n := Namespaced(p, moduleName, m);
            && |n.functions| == |m.functions| && |n.types| == |m.types| && |n.globals| == |m.globals|
            && (forall i :: 0 <= i < |m.functions| ==>
                  if m.functions[i].isExtern then n.functionNames[i] == m.functionNames[i]
                  else QualifiedFrom(moduleName, m.functionNames[i], n.functionNames[i]))
            && (forall i :: 0 <= i < |m.types| ==>
                  if '.' in m.typeNames[i] then n.typeNames[i] == m.typeNames[i]
                  else QualifiedFrom(moduleName, m.typeNames[i], n.typeNames[i]))
            && (forall i :: 0 <= i < |m.globals| ==>
                  |n.globalNames[i]| == |m.globalNames[i]| &&
                  forall k :: 0 <= k < |m.globalNames[i]| ==>
                    if '.' in m.globalNames[i][k] then n.globalNames[i][k] == m.globalNames[i][k]
                    else QualifiedFrom(moduleName, m.globalNames[i][k], n.globalNames[i][k]))
  {
    hide Qualify, RenameDecl, RenameFunction, RenameGlobal, QualifiedFrom;
    forall x ensures QualifiedFrom(moduleName, x, Qualify(moduleName, x)) {
      QualifyIs(moduleName, x, Qualify(moduleName, x));
    }
  }

  /** Definitions of modules with different dot-free qualifiers are declared under different names. */
  lemma {:induction false} DefinitionsOfModulesApart(p: Printer, a: string, m: Mir<string>, b: string, n: Mir<string>, i: nat, j: nat)
    requires WellFormed(m) && WellFormed(n) && i < |m.functions| && j < |n.functions|
    requires !m.functions[i].isExtern && !n.functions[j].isExtern
    requires DotFree(Qualifier(a)) && DotFree(Qualifier(b)) && Qualifier(a) != Qualifier(b)
    ensures Namespaced(p, a, m).functionNames[i] != Namespaced(p, b, n).functionNames[j]
  {
    hide Qualifier, RenameDecl, RenameFunction, RenameGlobal, DotFree;
    var x := Namespaced(p, a, m).functionNames[i];
    if x == Namespaced(p, b, n).functionNames[j] {
      assert Qualifier(a) + "." <= x && Qualifier(b) + "." <= x;
      DotFreePrefixesEqual(Qualifier(a), Qualifier(b), x);
    }
  }

  // ----- Texts printed from types -----

  /** The text of a variant: the enum's name, a dot, the variant's, as far as both are there. */
  predicate VariantTextIs(base: Ty<string>, variant: string, text: string) {
    if variant == "" then text == ""
    else if base.Other? || base.name == "" then text == variant
    else |text| == |base.name| + 1 + |variant| && text[..|base.name|] == base.name && text[|base.name|] == '.' && text[|base.name| + 1..] == variant
  }

  /** The texts of an instruction without a looked-up symbol agree with its types. */
  predicate TextsAgree(p: Printer, i: Instr<string>) {
    match i.form
    case TypeForm => i.target == i.display == p.formatType(i.ty)
    case VariantForm => i.target == i.display && VariantTextIs(i.baseType, i.targetName, i.target)
    case PlainForm => true
  }

  lemma {:induction false} RenamedTextsAgree(p: Printer, types: Renames, functions: Renames, globals: Renames, i: Instr<string>)
    requires i.targetKind.OtherTarget?
    ensures TextsAgree(p, RenameInstr(p, types, functions, globals, i))
  {
    hide RenameTy, RenameTys;
    var r := RenameInstr(p, types, functions, globals, i);
    if i.form.VariantForm? && i.targetName != "" && r.baseType.Named? && r.baseType.name != "" {
      var name, text := r.baseType.name, r.target;
      assert text == name + "." + i.targetName;
      assert text[..|name|] == name && text[|name|] == '.' && text[|name| + 1..] == i.targetName;
    }
  }

  /**
   In the namespaced module, an instruction that looks nothing up shows its
   types as they are now called: a type instruction prints its renamed type, a
   variant instruction the renamed enum and the variant. Other texts, and which
   variant is meant, stay as they were.
   */
  lemma {:induction false} NamespacedTextsAgree(p: Printer, moduleName: string, m: Mir<string>, f: nat, b: nat, k: nat)
    requires WellFormed(m) && f < |m.functions| && b < |m.functions[f].blocks| && k < |m.functions[f].blocks[b]|
    ensures var n := Namespaced(p, moduleName, m);
            && |n.functions| == |m.functions| && |n.functions[f].blocks| == |m.functions[f].blocks|
            && |n.functions[f].blocks[b]| == |m.functions[f].blocks[b]|
            && var i, was := n.functions[f].blocks[b][k], m.functions[f].blocks[b][k];
            && i.form == was.form && i.targetKind == was.targetKind
            && (was.targetKind.OtherTarget? ==>
                  && TextsAgree(p, i) && i.targetName == was.targetName
                  && (was.form.PlainForm? ==> i.target == was.target && i.display == was.display))
  {
    hide RenameTys, RenameDecl, RenameGlobal, TextsAgree, RenameTy, Qualify;
    var r := RenamesOf(moduleName, m);
    var was := m.functions[f].blocks[b][k];
    assert Namespaced(p, moduleName, m).functions[f] == RenameFunction(p, r.types, r.functions, r.globals, m.functions[f]);
    if was.targetKind.OtherTarget? {
      RenamedTextsAgree(p, r.types, r.functions, r.globals, was);
    }
  }

  /** The enum of a variant instruction is named by its new name: variant Red of enum Color of module shapes reads shapes.Color.Red. */
  lemma {:induction false} VariantOfOwnEnum(p: Printer, moduleName: string, m: Mir<string>, t: nat, f: nat, b: nat, k: nat)
    requires WellFormed(m) && f < |m.functions| && b < |m.functions[f].blocks| && k < |m.functions[f].blocks[b]|
    requires t < |m.typeNames| && DotFree(m.typeNames[t]) && m.typeNames[t] != ""
    requires var was := m.functions[f].blocks[b][k];
             was.form.VariantForm? && was.targetKind.OtherTarget? && was.targetName != "" && was.baseType.Named? && was.baseType.name == m.typeNames[t]
    ensures var n := Namespaced(p, moduleName, m);
            && |n.functions| == |m.functions| && |n.functions[f].blocks| == |m.functions[f].blocks|
            && |n.functions[f].blocks[b]| == |m.functions[f].blocks[b]|
            && n.functions[f].blocks[b][k].target == Qualifier(moduleName) + "." + m.typeNames[t] + "." + m.functions[f].blocks[b][k].targetName
  {
    hide RenameTys, RenameDecl, RenameGlobal, DotFree, Qualifier, TextsAgree;
    NamespacedTextsAgree(p, moduleName, m, f, b, k);
    var r := RenamesOf(moduleName, m);
    assert Namespaced(p, moduleName, m).functions[f] == RenameFunction(p, r.types, r.functions, r.globals, m.functions[f]);
    assert m.typeNames[t] in r.types;
  }
}
