/**
 Renaming an imported module's symbols to module.symbol, and why every
 reference in it still means what it meant: replacing each name by the
 declaration it resolves to gives the same module before and after.
 */
module Namespacing {
  import opened Wrappers

  // ----- Modules, with names of type N -----

  /** A type; N is how named types are referred to. */
  datatype Ty<N> = Named(name: N, subtypes: seq<Ty<N>>) | Other(kind: string, subtypes: seq<Ty<N>>)

  datatype Const<N> =
    | Procedure(procedure: N, elements: seq<Const<N>>)
    | EnumConst(enumType: Ty<N>, elements: seq<Const<N>>)
    | OtherConst(elements: seq<Const<N>>)

  datatype TargetKind = FunctionTarget | GlobalTarget | OtherTarget

  /** Where an instruction's target text comes from. */
  datatype Form = PlainForm | TypeForm | VariantForm

  datatype Instr<N> = Instr(
    form: Form, targetKind: TargetKind, ty: Ty<N>, baseType: Ty<N>, auxTypes: seq<Ty<N>>,
    target: N, targetName: N, display: N)

  datatype TypeDecl<N> = TypeDecl(aliased: Ty<N>, fields: seq<Ty<N>>, payloads: seq<seq<Ty<N>>>)

  datatype Function<N> = Function(isExtern: bool, locals: seq<Ty<N>>, results: seq<Ty<N>>, blocks: seq<seq<Instr<N>>>)

  datatype Global<N> = Global(ty: Ty<N>, values: seq<Option<Const<N>>>)

  /** Declarations with the names they are declared under. */
  datatype Mir<N> = Mir(
    typeNames: seq<string>, types: seq<TypeDecl<N>>,
    functionNames: seq<string>, functions: seq<Function<N>>,
    globalNames: seq<seq<string>>, globals: seq<Global<N>>)

  predicate WellFormed<N>(m: Mir<N>) {
    |m.typeNames| == |m.types| && |m.functionNames| == |m.functions| && |m.globalNames| == |m.globals|
  }

  // ----- Qualified names -----

  predicate DotFree(s: string) {
    '.' !in s
  }

  function Qualifier(moduleName: string): (q: string)
    ensures |q| == |moduleName|
  {
    seq(|moduleName|, i requires 0 <= i < |moduleName| => if moduleName[i] == '/' then '_' else moduleName[i])
  }

  /** QualifyImportedSymbol. */
  function Qualify(moduleName: string, symbol: string): string {
    Qualifier(moduleName) + "." + symbol
  }

  lemma {:induction false} QualifyInjective(moduleName: string, a: string, b: string)
    requires Qualify(moduleName, a) == Qualify(moduleName, b)
    ensures a == b
  {
    var q := Qualifier(moduleName) + ".";
    assert a == (q + a)[|q|..] && b == (q + b)[|q|..];
  }

  /** x is not a symbol of the module itself under its qualified name. */
  predicate NotOwn(moduleName: string, x: string) {
    !(Qualifier(moduleName) + "." <= x)
  }

  lemma {:induction false} QualifiedIsOwn(moduleName: string, symbol: string)
    ensures !NotOwn(moduleName, Qualify(moduleName, symbol)) && !DotFree(Qualify(moduleName, symbol))
  {
    var q := Qualifier(moduleName);
    assert (q + ".")[|q|] == '.' && (q + "." + symbol)[|q|] == '.';
  }

  lemma {:induction false} ShorterPrefixHasDot(q: string, o: string, x: string)
    requires q + "." <= x && o + "." <= x && |o| < |q|
    ensures !DotFree(q)
  {
    assert q[|o|] == x[|o|] == (o + ".")[|o|];
  }

  lemma {:induction false} PrefixHasDot(q: string, x: string)
    requires q + "." <= x
    ensures !DotFree(x)
  {
    assert x[|q|] == (q + ".")[|q|];
  }

  lemma {:induction false} DotFreePrefixesEqual(q: string, o: string, x: string)
    requires q + "." <= x && o + "." <= x && DotFree(q) && DotFree(o)
    ensures q == o
  {
    if |o| < |q| {
      ShorterPrefixHasDot(q, o, x);
    } else if |q| < |o| {
      ShorterPrefixHasDot(o, q, x);
    } else {
      assert q == x[..|q|] && o == x[..|o|];
    }
  }

  /** Dot-free names, and other modules' qualified symbols, are never own qualified names. */
  lemma {:induction false} OthersNotOwn(moduleName: string, x: string)
    requires DotFree(Qualifier(moduleName))
    requires DotFree(x) || exists other, symbol :: OtherSymbol(moduleName, other, symbol, x)
    ensures NotOwn(moduleName, x)
  {
    var q := Qualifier(moduleName);
    if DotFree(x) {
      if q + "." <= x {
        PrefixHasDot(q, x);
      }
    } else {
      var other, symbol :| OtherSymbol(moduleName, other, symbol, x);
      if q + "." <= x {
        DotFreePrefixesEqual(q, Qualifier(other), x);
      }
    }
  }

  predicate OtherSymbol(moduleName: string, other: string, symbol: string, x: string) {
    x == Qualify(other, symbol) && DotFree(Qualifier(other)) && Qualifier(other) != Qualifier(moduleName)
  }

  // ----- Renaming -----

  type Renames = map<string, string>

  function Renamed(r: Renames, x: string): string {
    if x in r then r[x] else x
  }

  /** RewriteImportedTypeNames. */
  function RenameTy(r: Renames, t: Ty<string>): Ty<string>
    decreases t, 1
  {
    match t
    case Named(name, subtypes) => Named(Renamed(r, name), RenameTys(r, subtypes))
    case Other(kind, subtypes) => Other(kind, RenameTys(r, subtypes))
  }

  function RenameTys(r: Renames, ts: seq<Ty<string>>): (us: seq<Ty<string>>)
    ensures |us| == |ts| && forall i :: 0 <= i < |ts| ==> us[i] == RenameTy(r, ts[i])
    decreases ts, 0
  {
    seq(|ts|, i requires 0 <= i < |ts| => RenameTy(r, ts[i]))
  }

  /** RewriteImportedConstValue. */
  function RenameConst(types: Renames, functions: Renames, c: Const<string>): Const<string>
    decreases c, 1
  {
    match c
    case Procedure(name, elements) => Procedure(Renamed(functions, name), RenameConsts(types, functions, elements))
    case EnumConst(ty, elements) => EnumConst(RenameTy(types, ty), RenameConsts(types, functions, elements))
    case OtherConst(elements) => OtherConst(RenameConsts(types, functions, elements))
  }

  function RenameConsts(types: Renames, functions: Renames, cs: seq<Const<string>>): (ds: seq<Const<string>>)
    ensures |ds| == |cs| && forall i :: 0 <= i < |cs| ==> ds[i] == RenameConst(types, functions, cs[i])
    decreases cs, 0
  {
    seq(|cs|, i requires 0 <= i < |cs| => RenameConst(types, functions, cs[i]))
  }

  /** RewriteImportedSymbolReference. */
  function RenameSymbol(functions: Renames, globals: Renames, kind: TargetKind, x: string): string {
    if x == "" then x
    else
      match kind
      case FunctionTarget => Renamed(functions, x)
      case GlobalTarget => Renamed(globals, x)
      case OtherTarget => x
  }

  /** Texts the compiler derives from types rather than looks up. */
  datatype Printer = Printer(formatType: Ty<string> -> string)

  function VariantText(base: Ty<string>, variant: string): string {
    if variant == "" then ""
    else if base.Named? && base.name != "" then base.name + "." + variant
    else variant
  }

  function RenameInstr(p: Printer, types: Renames, functions: Renames, globals: Renames, i: Instr<string>): Instr<string> {
    var ty, baseType := RenameTy(types, i.ty), RenameTy(types, i.baseType);
    var derived := match i.form
      case PlainForm => (i.target, i.display)
      case TypeForm => (p.formatType(ty), p.formatType(ty))
      case VariantForm => (VariantText(baseType, i.targetName), VariantText(baseType, i.targetName));
    Instr(i.form, i.targetKind, ty, baseType, RenameTys(types, i.auxTypes),
          RenameSymbol(functions, globals, i.targetKind, derived.0),
          RenameSymbol(functions, globals, i.targetKind, i.targetName),
          RenameSymbol(functions, globals, i.targetKind, derived.1))
  }

  function RenameDecl(r: Renames, d: TypeDecl<string>): TypeDecl<string> {
    TypeDecl(RenameTy(r, d.aliased), RenameTys(r, d.fields),
             seq(|d.payloads|, i requires 0 <= i < |d.payloads| => RenameTys(r, d.payloads[i])))
  }

  function RenameBlock(p: Printer, types: Renames, functions: Renames, globals: Renames, b: seq<Instr<string>>): (c: seq<Instr<string>>)
    ensures |c| == |b|
  {
    seq(|b|, i requires 0 <= i < |b| => RenameInstr(p, types, functions, globals, b[i]))
  }

  function RenameSignature(types: Renames, f: Function<string>): Function<string> {
    f.(locals := RenameTys(types, f.locals), results := RenameTys(types, f.results))
  }

  function RenameBlocks(p: Printer, types: Renames, functions: Renames, globals: Renames, bs: seq<seq<Instr<string>>>)
    : (cs: seq<seq<Instr<string>>>)
    ensures |cs| == |bs| && forall i :: 0 <= i < |bs| ==> cs[i] == RenameBlock(p, types, functions, globals, bs[i])
  {
    seq(|bs|, i requires 0 <= i < |bs| => RenameBlock(p, types, functions, globals, bs[i]))
  }

  function RenameFunction(p: Printer, types: Renames, functions: Renames, globals: Renames, f: Function<string>): Function<string> {
    RenameSignature(types, f).(blocks := RenameBlocks(p, types, functions, globals, f.blocks))
  }

  function RenameValue(types: Renames, functions: Renames, v: Option<Const<string>>): Option<Const<string>> {
    match v
    case None => None
    case Some(c) => Some(RenameConst(types, functions, c))
  }

  function RenameGlobal(types: Renames, functions: Renames, g: Global<string>): Global<string> {
    Global(RenameTy(types, g.ty), seq(|g.values|, i requires 0 <= i < |g.values| => RenameValue(types, functions, g.values[i])))
  }

  // ----- The whole module -----

  /** New name of a type or global: already qualified names stay. */
  function NewName(moduleName: string, x: string): string {
    if DotFree(x) then Qualify(moduleName, x) else x
  }

  function TypeRenames(moduleName: string, names: seq<string>): Renames {
    map x | x in names && DotFree(x) :: Qualify(moduleName, x)
  }

  function FunctionRenames(moduleName: string, names: seq<string>, functions: seq<Function<string>>): Renames
    requires |names| == |functions|
  {
    map i | 0 <= i < |names| && !functions[i].isExtern :: names[i] := Qualify(moduleName, names[i])
  }

  function Flatten(names: seq<seq<string>>): seq<string> {
    if names == [] then [] else Flatten(names[..|names| - 1]) + names[|names| - 1]
  }

  function NewNames(moduleName: string, names: seq<string>): (more: seq<string>)
    ensures |more| == |names| && forall i :: 0 <= i < |names| ==> more[i] == NewName(moduleName, names[i])
  {
    seq(|names|, i requires 0 <= i < |names| => NewName(moduleName, names[i]))
  }

  function NewNameLists(q: string, names: seq<seq<string>>): (more: seq<seq<string>>)
    ensures |more| == |names| && forall i :: 0 <= i < |names| ==> more[i] == NewNames(q, names[i])
  {
    seq(|names|, i requires 0 <= i < |names| => NewNames(q, names[i]))
  }

  function NewFunctionNames(moduleName: string, names: seq<string>, functions: seq<Function<string>>): (more: seq<string>)
    requires |names| == |functions|
    ensures |more| == |names|
  {
    seq(|names|, i requires 0 <= i < |names| => if functions[i].isExtern then names[i] else Qualify(moduleName, names[i]))
  }

  /** NamespaceImportedBuildUnit. */
  function Namespaced(p: Printer, moduleName: string, m: Mir<string>): (n: Mir<string>)
    requires WellFormed(m)
    ensures WellFormed(n)
  {
    var types := TypeRenames(moduleName, m.typeNames);
    var functions := FunctionRenames(moduleName, m.functionNames, m.functions);
    var globals := TypeRenames(moduleName, Flatten(m.globalNames));
    Mir(
      NewNames(moduleName, m.typeNames),
      seq(|m.types|, i requires 0 <= i < |m.types| => RenameDecl(types, m.types[i])),
      NewFunctionNames(moduleName, m.functionNames, m.functions),
      seq(|m.functions|, i requires 0 <= i < |m.functions| => RenameFunction(p, types, functions, globals, m.functions[i])),
      NewNameLists(moduleName, m.globalNames),
      seq(|m.globals|, i requires 0 <= i < |m.globals| => RenameGlobal(types, functions, m.globals[i])))
  }

  // ----- Resolution -----

  /** The declaration a name resolves to, or the name itself if it is declared elsewhere. */
  datatype Ref = Here(index: nat) | Elsewhere(name: string)

  function Lookup(names: seq<string>, x: string): (r: Ref)
    ensures r.Here? ==> r.index < |names| && names[r.index] == x && x !in names[..r.index]
    ensures r.Elsewhere? ==> r.name == x && x !in names
  {
    if names == [] then Elsewhere(x)
    else
      var before := names[..|names| - 1];
      var r := Lookup(before, x);
      if r.Here? then assert names[..r.index] == before[..r.index]; r
      else if names[|names| - 1] == x then Here(|names| - 1)
      else r
  }

  datatype Scope = Scope(types: seq<string>, functions: seq<string>, globals: seq<string>)

  function ScopeOf<N>(m: Mir<N>): Scope {
    Scope(m.typeNames, m.functionNames, Flatten(m.globalNames))
  }

  function BindTy(s: Scope, t: Ty<string>): Ty<Ref>
    decreases t, 1
  {
    match t
    case Named(name, subtypes) => Named(Lookup(s.types, name), BindTys(s, subtypes))
    case Other(kind, subtypes) => Other(kind, BindTys(s, subtypes))
  }

  function BindTys(s: Scope, ts: seq<Ty<string>>): (us: seq<Ty<Ref>>)
    ensures |us| == |ts| && forall i :: 0 <= i < |ts| ==> us[i] == BindTy(s, ts[i])
    decreases ts, 0
  {
    seq(|ts|, i requires 0 <= i < |ts| => BindTy(s, ts[i]))
  }

  function BindConst(s: Scope, c: Const<string>): Const<Ref>
    decreases c, 1
  {
    match c
    case Procedure(name, elements) => Procedure(Lookup(s.functions, name), BindConsts(s, elements))
    case EnumConst(ty, elements) => EnumConst(BindTy(s, ty), BindConsts(s, elements))
    case OtherConst(elements) => OtherConst(BindConsts(s, elements))
  }

  function BindConsts(s: Scope, cs: seq<Const<string>>): (ds: seq<Const<Ref>>)
    ensures |ds| == |cs| && forall i :: 0 <= i < |cs| ==> ds[i] == BindConst(s, cs[i])
    decreases cs, 0
  {
    seq(|cs|, i requires 0 <= i < |cs| => BindConst(s, cs[i]))
  }

  function BindSymbol(s: Scope, kind: TargetKind, x: string): Ref {
    if x == "" then Elsewhere(x)
    else
      match kind
      case FunctionTarget => Lookup(s.functions, x)
      case GlobalTarget => Lookup(s.globals, x)
      case OtherTarget => Elsewhere(x)
  }

  /** Derived target texts refer to nothing of their own. */
  function BindInstr(s: Scope, i: Instr<string>): Instr<Ref> {
    Instr(i.form, i.targetKind, BindTy(s, i.ty), BindTy(s, i.baseType), BindTys(s, i.auxTypes),
          if i.form.PlainForm? then BindSymbol(s, i.targetKind, i.target) else Elsewhere(""),
          BindSymbol(s, i.targetKind, i.targetName),
          if i.form.PlainForm? then BindSymbol(s, i.targetKind, i.display) else Elsewhere(""))
  }

  function BindDecl(s: Scope, d: TypeDecl<string>): TypeDecl<Ref> {
    TypeDecl(BindTy(s, d.aliased), BindTys(s, d.fields),
             seq(|d.payloads|, i requires 0 <= i < |d.payloads| => BindTys(s, d.payloads[i])))
  }

  function BindBlock(s: Scope, b: seq<Instr<string>>): (c: seq<Instr<Ref>>)
    ensures |c| == |b|
  {
    seq(|b|, i requires 0 <= i < |b| => BindInstr(s, b[i]))
  }

  function BindFunction(s: Scope, f: Function<string>): Function<Ref> {
    Function(f.isExtern, BindTys(s, f.locals), BindTys(s, f.results),
             seq(|f.blocks|, i requires 0 <= i < |f.blocks| => BindBlock(s, f.blocks[i])))
  }

  function BindValue(s: Scope, v: Option<Const<string>>): Option<Const<Ref>> {
    match v
    case None => None
    case Some(c) => Some(BindConst(s, c))
  }

  function BindGlobal(s: Scope, g: Global<string>): Global<Ref> {
    Global(BindTy(s, g.ty), seq(|g.values|, i requires 0 <= i < |g.values| => BindValue(s, g.values[i])))
  }

  datatype Meaning = Meaning(types: seq<TypeDecl<Ref>>, functions: seq<Function<Ref>>, globals: seq<Global<Ref>>)

  /** The module with every reference replaced by what it resolves to. */
  function Bind(m: Mir<string>): Meaning {
    var s := ScopeOf(m);
    Meaning(
      seq(|m.types|, i requires 0 <= i < |m.types| => BindDecl(s, m.types[i])),
      seq(|m.functions|, i requires 0 <= i < |m.functions| => BindFunction(s, m.functions[i])),
      seq(|m.globals|, i requires 0 <= i < |m.globals| => BindGlobal(s, m.globals[i])))
  }

  // ----- Names a module mentions -----

  predicate TyClear(q: string, t: Ty<string>)
    decreases t, 1
  {
    (t.Named? ==> NotOwn(q, t.name)) && TysClear(q, t.subtypes)
  }

  predicate TysClear(q: string, ts: seq<Ty<string>>)
    decreases ts, 0
  {
    forall i :: 0 <= i < |ts| ==> TyClear(q, ts[i])
  }

  predicate ConstClear(q: string, c: Const<string>)
    decreases c, 1
  {
    && (c.Procedure? ==> NotOwn(q, c.procedure))
    && (c.EnumConst? ==> TyClear(q, c.enumType))
    && ConstsClear(q, c.elements)
  }

  predicate ConstsClear(q: string, cs: seq<Const<string>>)
    decreases cs, 0
  {
    forall i :: 0 <= i < |cs| ==> ConstClear(q, cs[i])
  }

  /** Only texts that are looked up count: not derived ones, and none of an instruction without a symbol. */
  predicate InstrClear(q: string, i: Instr<string>) {
    && TyClear(q, i.ty) && TyClear(q, i.baseType) && TysClear(q, i.auxTypes)
    && AllNotOwn(q, Symbols(i))
  }

  function Symbols(i: Instr<string>): set<string> {
    if i.targetKind.OtherTarget? then {}
    else if i.form.PlainForm? then {i.target, i.targetName, i.display}
    else {i.targetName}
  }

  predicate AllNotOwn(q: string, names: set<string>) {
    forall x :: x in names ==> NotOwn(q, x)
  }

  predicate DeclClear(q: string, d: TypeDecl<string>) {
    TyClear(q, d.aliased) && TysClear(q, d.fields) && forall i :: 0 <= i < |d.payloads| ==> TysClear(q, d.payloads[i])
  }

  predicate BlockClear(q: string, b: seq<Instr<string>>) {
    forall i :: 0 <= i < |b| ==> InstrClear(q, b[i])
  }

  predicate FunctionClear(q: string, f: Function<string>) {
    TysClear(q, f.locals) && TysClear(q, f.results) && forall i :: 0 <= i < |f.blocks| ==> BlockClear(q, f.blocks[i])
  }

  predicate GlobalClear(q: string, g: Global<string>) {
    TyClear(q, g.ty) && forall i :: 0 <= i < |g.values| && g.values[i].Some? ==> ConstClear(q, g.values[i].value)
  }

  predicate NamesClear(q: string, names: seq<string>) {
    forall i :: 0 <= i < |names| ==> NotOwn(q, names[i])
  }

  /** No extern shares its name with a definition. */
  predicate ExternsApart(m: Mir<string>)
    requires WellFormed(m)
  {
    forall i, j :: 0 <= i < |m.functions| && 0 <= j < |m.functions| && m.functions[i].isExtern && !m.functions[j].isExtern ==>
      m.functionNames[i] != m.functionNames[j]
  }

  /** The module never mentions its own symbols by qualified name, and its externs are apart from its definitions. */
  predicate Clear(q: string, m: Mir<string>)
    requires WellFormed(m)
  {
    && NamesClear(q, m.typeNames) && NamesClear(q, m.functionNames) && NamesClear(q, Flatten(m.globalNames))
    && ExternsApart(m)
    && (forall i :: 0 <= i < |m.types| ==> DeclClear(q, m.types[i]))
    && (forall i :: 0 <= i < |m.functions| ==> FunctionClear(q, m.functions[i]))
    && (forall i :: 0 <= i < |m.globals| ==> GlobalClear(q, m.globals[i]))
  }

  // ----- The names as a set -----

  function Union(sets: seq<set<string>>): set<string> {
    set i, x | 0 <= i < |sets| && x in sets[i] :: x
  }

  function Each<T>(names: T -> set<string>, ts: seq<T>): (sets: seq<set<string>>)
    ensures |sets| == |ts| && forall i :: 0 <= i < |ts| ==> sets[i] == names(ts[i])
  {
    seq(|ts|, i requires 0 <= i < |ts| => names(ts[i]))
  }

  lemma {:induction false} UnionNotOwn(q: string, sets: seq<set<string>>)
    ensures AllNotOwn(q, Union(sets)) <==> forall i :: 0 <= i < |sets| ==> AllNotOwn(q, sets[i])
  {
    hide NotOwn;
    forall i, x | 0 <= i < |sets| && x in sets[i] ensures x in Union(sets) {
    }
  }

  function TyNames(t: Ty<string>): set<string>
    decreases t, 1
  {
    (if t.Named? then {t.name} else {}) + TysNames(t.subtypes)
  }

  function TySets(ts: seq<Ty<string>>): (sets: seq<set<string>>)
    ensures |sets| == |ts| && forall i :: 0 <= i < |ts| ==> sets[i] == TyNames(ts[i])
    decreases ts, 0, 0
  {
    seq(|ts|, i requires 0 <= i < |ts| => TyNames(ts[i]))
  }

  function TysNames(ts: seq<Ty<string>>): set<string>
    decreases ts, 0, 1
  {
    Union(TySets(ts))
  }

  function ConstNames(c: Const<string>): set<string>
    decreases c, 1
  {
    (if c.Procedure? then {c.procedure} else if c.EnumConst? then TyNames(c.enumType) else {}) + ConstsNames(c.elements)
  }

  function ConstSets(cs: seq<Const<string>>): (sets: seq<set<string>>)
    ensures |sets| == |cs| && forall i :: 0 <= i < |cs| ==> sets[i] == ConstNames(cs[i])
    decreases cs, 0, 0
  {
    seq(|cs|, i requires 0 <= i < |cs| => ConstNames(cs[i]))
  }

  function ConstsNames(cs: seq<Const<string>>): set<string>
    decreases cs, 0, 1
  {
    Union(ConstSets(cs))
  }

  function InstrNames(i: Instr<string>): set<string> {
    TyNames(i.ty) + TyNames(i.baseType) + TysNames(i.auxTypes) + Symbols(i)
  }

  function DeclNames(d: TypeDecl<string>): set<string> {
    TyNames(d.aliased) + TysNames(d.fields) + Union(Each(TysNames, d.payloads))
  }

  function BlockNames(b: seq<Instr<string>>): set<string> {
    Union(Each(InstrNames, b))
  }

  function FunctionNames(f: Function<string>): set<string> {
    TysNames(f.locals) + TysNames(f.results) + Union(Each(BlockNames, f.blocks))
  }

  function ValueNames(v: Option<Const<string>>): set<string> {
    if v.Some? then ConstNames(v.value) else {}
  }

  function GlobalNames(g: Global<string>): set<string> {
    TyNames(g.ty) + Union(Each(ValueNames, g.values))
  }

  /** Every name a module declares, refers to by type, or has an instruction or constant look up. */
  function MentionedNames(m: Mir<string>): set<string> {
    (set x | x in m.typeNames) + (set x | x in m.functionNames) + (set x | x in Flatten(m.globalNames))
    + Union(Each(DeclNames, m.types))
    + Union(Each(FunctionNames, m.functions))
    + Union(Each(GlobalNames, m.globals))
  }

  lemma {:induction false} TyClearIff(q: string, t: Ty<string>)
    ensures TyClear(q, t) <==> AllNotOwn(q, TyNames(t))
    decreases t, 1
  {
    hide NotOwn, Union;
    TysClearIff(q, t.subtypes);
  }

  lemma {:induction false} TysClearIff(q: string, ts: seq<Ty<string>>)
    ensures TysClear(q, ts) <==> AllNotOwn(q, TysNames(ts))
    decreases ts, 0
  {
    hide NotOwn, Union, AllNotOwn, TyNames, TyClear;
    forall i | 0 <= i < |ts| ensures TyClear(q, ts[i]) <==> AllNotOwn(q, TyNames(ts[i])) {
      TyClearIff(q, ts[i]);
    }
    UnionNotOwn(q, TySets(ts));
  }

  lemma {:induction false} ConstClearIff(q: string, c: Const<string>)
    ensures ConstClear(q, c) <==> AllNotOwn(q, ConstNames(c))
    decreases c, 1
  {
    hide NotOwn, Union, TyClear, TyNames;
    ConstsClearIff(q, c.elements);
    if c.EnumConst? {
      TyClearIff(q, c.enumType);
    }
  }

  lemma {:induction false} ConstsClearIff(q: string, cs: seq<Const<string>>)
    ensures ConstsClear(q, cs) <==> AllNotOwn(q, ConstsNames(cs))
    decreases cs, 0
  {
    hide NotOwn, Union, AllNotOwn, ConstNames, ConstClear;
    forall i | 0 <= i < |cs| ensures ConstClear(q, cs[i]) <==> AllNotOwn(q, ConstNames(cs[i])) {
      ConstClearIff(q, cs[i]);
    }
    UnionNotOwn(q, ConstSets(cs));
  }

  lemma {:induction false} InstrClearIff(q: string, i: Instr<string>)
    ensures InstrClear(q, i) <==> AllNotOwn(q, InstrNames(i))
  {
    hide NotOwn, TyClear, TyNames, TysClear, TysNames, Symbols;
    TyClearIff(q, i.ty);
    TyClearIff(q, i.baseType);
    TysClearIff(q, i.auxTypes);
  }

  lemma {:induction false} DeclClearIff(q: string, d: TypeDecl<string>)
    ensures DeclClear(q, d) <==> AllNotOwn(q, DeclNames(d))
  {
    hide NotOwn, TyClear, TyNames, TysClear, TysNames, Union;
    TyClearIff(q, d.aliased);
    TysClearIff(q, d.fields);
    forall i | 0 <= i < |d.payloads| ensures TysClear(q, d.payloads[i]) <==> AllNotOwn(q, TysNames(d.payloads[i])) {
      TysClearIff(q, d.payloads[i]);
    }
    UnionNotOwn(q, Each(TysNames, d.payloads));
  }

  lemma {:induction false} BlockClearIff(q: string, b: seq<Instr<string>>)
    ensures BlockClear(q, b) <==> AllNotOwn(q, BlockNames(b))
  {
    hide NotOwn, InstrClear, InstrNames, Union, AllNotOwn;
    forall i | 0 <= i < |b| ensures InstrClear(q, b[i]) <==> AllNotOwn(q, InstrNames(b[i])) {
      InstrClearIff(q, b[i]);
    }
    UnionNotOwn(q, Each(InstrNames, b));
  }

  lemma {:induction false} FunctionClearIff(q: string, f: Function<string>)
    ensures FunctionClear(q, f) <==> AllNotOwn(q, FunctionNames(f))
  {
    hide NotOwn, TysClear, TysNames, BlockClear, BlockNames, Union;
    TysClearIff(q, f.locals);
    TysClearIff(q, f.results);
    forall i | 0 <= i < |f.blocks| ensures BlockClear(q, f.blocks[i]) <==> AllNotOwn(q, BlockNames(f.blocks[i])) {
      BlockClearIff(q, f.blocks[i]);
    }
    UnionNotOwn(q, Each(BlockNames, f.blocks));
  }

  lemma {:induction false} GlobalClearIff(q: string, g: Global<string>)
    ensures GlobalClear(q, g) <==> AllNotOwn(q, GlobalNames(g))
  {
    hide NotOwn, TyClear, TyNames, ConstClear, ConstNames, Union;
    TyClearIff(q, g.ty);
    forall i | 0 <= i < |g.values|
      ensures (g.values[i].Some? ==> ConstClear(q, g.values[i].value)) <==> AllNotOwn(q, ValueNames(g.values[i]))
    {
      if g.values[i].Some? {
        ConstClearIff(q, g.values[i].value);
      }
    }
    UnionNotOwn(q, Each(ValueNames, g.values));
  }

  lemma {:induction false} NamesClearIff(q: string, names: seq<string>)
    ensures NamesClear(q, names) <==> AllNotOwn(q, set x | x in names)
  {
    hide NotOwn;
    if AllNotOwn(q, set x | x in names) {
      forall i | 0 <= i < |names| ensures NotOwn(q, names[i]) {
        assert names[i] in (set x | x in names);
      }
    }
  }

  /** A module is clear exactly when none of the names it mentions is one of its own symbols, qualified. */
  lemma {:induction false} ClearIffMentions(q: string, m: Mir<string>)
    requires WellFormed(m)
    ensures Clear(q, m) <==> ExternsApart(m) && AllNotOwn(q, MentionedNames(m))
  {
    hide NotOwn, NamesClear, DeclClear, DeclNames, FunctionClear, FunctionNames, GlobalClear, GlobalNames, Union, ExternsApart;
    NamesClearIff(q, m.typeNames);
    NamesClearIff(q, m.functionNames);
    NamesClearIff(q, Flatten(m.globalNames));
    forall i | 0 <= i < |m.types| ensures DeclClear(q, m.types[i]) <==> AllNotOwn(q, DeclNames(m.types[i])) {
      DeclClearIff(q, m.types[i]);
    }
    forall i | 0 <= i < |m.functions| ensures FunctionClear(q, m.functions[i]) <==> AllNotOwn(q, FunctionNames(m.functions[i])) {
      FunctionClearIff(q, m.functions[i]);
    }
    forall i | 0 <= i < |m.globals| ensures GlobalClear(q, m.globals[i]) <==> AllNotOwn(q, GlobalNames(m.globals[i])) {
      GlobalClearIff(q, m.globals[i]);
    }
    UnionNotOwn(q, Each(DeclNames, m.types));
    UnionNotOwn(q, Each(FunctionNames, m.functions));
    UnionNotOwn(q, Each(GlobalNames, m.globals));
  }

  // ----- Renaming preserves lookup -----

  /** after holds before's names renamed by r, and r renames exactly the names it should. */
  ghost predicate Tracks(q: string, r: Renames, before: seq<string>, after: seq<string>) {
    && |before| == |after|
    && forall i, x :: 0 <= i < |before| && NotOwn(q, x) ==> (after[i] == Renamed(r, x) <==> before[i] == x)
  }

  ghost predicate KeepsOthers(r: Renames, before: seq<string>) {
    forall x :: x in r ==> x in before && r[x] != ""
  }

  lemma {:induction false} LookupFirst(names: seq<string>, x: string, i: nat)
    requires i < |names| && names[i] == x && x !in names[..i]
    ensures Lookup(names, x) == Here(i)
  {
    var last := |names| - 1;
    if i < last {
      assert names[..last][..i] == names[..i];
      LookupFirst(names[..last], x, i);
    }
  }

  lemma {:induction false} LookupRenamed(q: string, r: Renames, before: seq<string>, after: seq<string>, x: string)
    requires Tracks(q, r, before, after) && KeepsOthers(r, before) && NotOwn(q, x)
    ensures Lookup(after, Renamed(r, x)) == Lookup(before, x)
  {
    var b := Lookup(before, x);
    forall i | 0 <= i < |before| ensures after[i] == Renamed(r, x) <==> before[i] == x {
    }
    if b.Here? {
      forall i | 0 <= i < b.index ensures after[i] != Renamed(r, x) {
        assert before[..b.index][i] != x;
      }
      LookupFirst(after, Renamed(r, x), b.index);
    } else {
      assert Renamed(r, x) == x;
      assert x !in after;
    }
  }

  lemma {:induction false} TypeRenamesTrack(q: string, names: seq<string>)
    requires NamesClear(q, names)
    ensures Tracks(q, TypeRenames(q, names), names, NewNames(q, names)) && KeepsOthers(TypeRenames(q, names), names)
  {
    var r := TypeRenames(q, names);
    forall i, x | 0 <= i < |names| && NotOwn(q, x) ensures NewNames(q, names)[i] == Renamed(r, x) <==> names[i] == x {
      RenameOne(q, r, names[i], DotFree(names[i]), x);
    }
  }

  /** One declaration against one reference. */
  lemma {:induction false} RenameOne(q: string, r: Renames, declared: string, renames: bool, x: string)
    requires NotOwn(q, x) && NotOwn(q, declared)
    requires forall y :: y in r ==> r[y] == Qualify(q, y)
    requires renames <==> declared in r
    ensures (if renames then Qualify(q, declared) else declared) == Renamed(r, x) <==> declared == x
  {
    QualifiedIsOwn(q, x);
    QualifiedIsOwn(q, declared);
    if Qualify(q, declared) == Qualify(q, x) {
      QualifyInjective(q, declared, x);
    }
  }

  lemma {:induction false} FunctionRenamesTrack(q: string, m: Mir<string>)
    requires WellFormed(m) && NamesClear(q, m.functionNames) && ExternsApart(m)
    ensures var r := FunctionRenames(q, m.functionNames, m.functions);
            Tracks(q, r, m.functionNames, NewFunctionNames(q, m.functionNames, m.functions)) && KeepsOthers(r, m.functionNames)
  {
    var names := m.functionNames;
    var r := FunctionRenames(q, names, m.functions);
    forall i, x | 0 <= i < |names| && NotOwn(q, x)
      ensures NewFunctionNames(q, names, m.functions)[i] == Renamed(r, x) <==> names[i] == x
    {
      RenameOne(q, r, names[i], !m.functions[i].isExtern, x);
    }
  }

  // ----- Renaming preserves meaning -----

  datatype AllRenames = AllRenames(types: Renames, functions: Renames, globals: Renames)

  ghost predicate Aligned(q: string, r: AllRenames, s: Scope, t: Scope) {
    && Tracks(q, r.types, s.types, t.types) && KeepsOthers(r.types, s.types)
    && Tracks(q, r.functions, s.functions, t.functions) && KeepsOthers(r.functions, s.functions)
    && Tracks(q, r.globals, s.globals, t.globals) && KeepsOthers(r.globals, s.globals)
  }

  lemma {:induction false} TyKeeps(q: string, r: AllRenames, s: Scope, t: Scope, ty: Ty<string>)
    requires Aligned(q, r, s, t) && TyClear(q, ty)
    ensures BindTy(t, RenameTy(r.types, ty)) == BindTy(s, ty)
    decreases ty, 1
  {
    hide Tracks, KeepsOthers, NotOwn;
    TysKeep(q, r, s, t, ty.subtypes);
    if ty.Named? {
      LookupRenamed(q, r.types, s.types, t.types, ty.name);
    }
  }

  lemma {:induction false} TysKeep(q: string, r: AllRenames, s: Scope, t: Scope, ts: seq<Ty<string>>)
    requires Aligned(q, r, s, t) && TysClear(q, ts)
    ensures BindTys(t, RenameTys(r.types, ts)) == BindTys(s, ts)
    decreases ts, 0
  {
    hide Aligned, BindTy, RenameTy;
    forall i | 0 <= i < |ts| ensures BindTy(t, RenameTy(r.types, ts[i])) == BindTy(s, ts[i]) {
      TyKeeps(q, r, s, t, ts[i]);
    }
  }

  lemma {:induction false} ConstKeeps(q: string, r: AllRenames, s: Scope, t: Scope, c: Const<string>)
    requires Aligned(q, r, s, t) && ConstClear(q, c)
    ensures BindConst(t, RenameConst(r.types, r.functions, c)) == BindConst(s, c)
    decreases c, 1
  {
    hide Tracks, KeepsOthers, NotOwn, BindTy, RenameTy;
    ConstsKeep(q, r, s, t, c.elements);
    if c.Procedure? {
      LookupRenamed(q, r.functions, s.functions, t.functions, c.procedure);
    } else if c.EnumConst? {
      TyKeeps(q, r, s, t, c.enumType);
    }
  }

  lemma {:induction false} ConstsKeep(q: string, r: AllRenames, s: Scope, t: Scope, cs: seq<Const<string>>)
    requires Aligned(q, r, s, t) && ConstsClear(q, cs)
    ensures BindConsts(t, RenameConsts(r.types, r.functions, cs)) == BindConsts(s, cs)
    decreases cs, 0
  {
    hide Aligned, BindConst, RenameConst;
    forall i | 0 <= i < |cs| ensures BindConst(t, RenameConst(r.types, r.functions, cs[i])) == BindConst(s, cs[i]) {
      ConstKeeps(q, r, s, t, cs[i]);
    }
  }

  lemma {:induction false} SymbolKeeps(q: string, r: AllRenames, s: Scope, t: Scope, kind: TargetKind, x: string)
    requires Aligned(q, r, s, t) && (kind.OtherTarget? || NotOwn(q, x))
    ensures BindSymbol(t, kind, RenameSymbol(r.functions, r.globals, kind, x)) == BindSymbol(s, kind, x)
  {
    hide Tracks, NotOwn;
    if x != "" {
      match kind
      case FunctionTarget => LookupRenamed(q, r.functions, s.functions, t.functions, x);
      case GlobalTarget => LookupRenamed(q, r.globals, s.globals, t.globals, x);
      case OtherTarget =>
    }
  }

  lemma {:induction false} InstrKeeps(q: string, p: Printer, r: AllRenames, s: Scope, t: Scope, i: Instr<string>)
    requires Aligned(q, r, s, t) && InstrClear(q, i)
    ensures BindInstr(t, RenameInstr(p, r.types, r.functions, r.globals, i)) == BindInstr(s, i)
  {
    hide Aligned, NotOwn, TyClear, TysClear, BindTy, RenameTy, BindSymbol, RenameSymbol, VariantText;
    assert AllNotOwn(q, Symbols(i));
    TyKeeps(q, r, s, t, i.ty);
    TyKeeps(q, r, s, t, i.baseType);
    TysKeep(q, r, s, t, i.auxTypes);
    SymbolKeeps(q, r, s, t, i.targetKind, i.targetName);
    if i.form.PlainForm? {
      SymbolKeeps(q, r, s, t, i.targetKind, i.target);
      SymbolKeeps(q, r, s, t, i.targetKind, i.display);
    }
  }

  lemma {:induction false} DeclKeeps(q: string, r: AllRenames, s: Scope, t: Scope, d: TypeDecl<string>)
    requires Aligned(q, r, s, t) && DeclClear(q, d)
    ensures BindDecl(t, RenameDecl(r.types, d)) == BindDecl(s, d)
  {
    hide Aligned, TyClear, TysClear, BindTy, RenameTy;
    TyKeeps(q, r, s, t, d.aliased);
    TysKeep(q, r, s, t, d.fields);
    forall i | 0 <= i < |d.payloads| ensures BindTys(t, RenameTys(r.types, d.payloads[i])) == BindTys(s, d.payloads[i]) {
      TysKeep(q, r, s, t, d.payloads[i]);
    }
    assert BindDecl(t, RenameDecl(r.types, d)).payloads == BindDecl(s, d).payloads;
  }

  lemma {:induction false} BlockKeeps(q: string, p: Printer, r: AllRenames, s: Scope, t: Scope, b: seq<Instr<string>>)
    requires Aligned(q, r, s, t) && BlockClear(q, b)
    ensures BindBlock(t, RenameBlock(p, r.types, r.functions, r.globals, b)) == BindBlock(s, b)
  {
    hide Aligned, InstrClear, BindInstr, RenameInstr;
    forall i | 0 <= i < |b|
      ensures BindInstr(t, RenameInstr(p, r.types, r.functions, r.globals, b[i])) == BindInstr(s, b[i])
    {
      InstrKeeps(q, p, r, s, t, b[i]);
    }
  }

  lemma {:induction false} FunctionKeeps(q: string, p: Printer, r: AllRenames, s: Scope, t: Scope, f: Function<string>)
    requires Aligned(q, r, s, t) && FunctionClear(q, f)
    ensures BindFunction(t, RenameFunction(p, r.types, r.functions, r.globals, f)) == BindFunction(s, f)
  {
    hide Aligned, TysClear, BlockClear, BindTy, RenameTy, BindBlock, RenameBlock;
    TysKeep(q, r, s, t, f.locals);
    TysKeep(q, r, s, t, f.results);
    forall i | 0 <= i < |f.blocks|
      ensures BindBlock(t, RenameBlock(p, r.types, r.functions, r.globals, f.blocks[i])) == BindBlock(s, f.blocks[i])
    {
      BlockKeeps(q, p, r, s, t, f.blocks[i]);
    }
    assert BindFunction(t, RenameFunction(p, r.types, r.functions, r.globals, f)).blocks == BindFunction(s, f).blocks;
  }

  lemma {:induction false} GlobalKeeps(q: string, r: AllRenames, s: Scope, t: Scope, g: Global<string>)
    requires Aligned(q, r, s, t) && GlobalClear(q, g)
    ensures BindGlobal(t, RenameGlobal(r.types, r.functions, g)) == BindGlobal(s, g)
  {
    hide Aligned, TyClear, ConstClear, BindTy, RenameTy, BindConst, RenameConst;
    TyKeeps(q, r, s, t, g.ty);
    forall i | 0 <= i < |g.values|
      ensures BindValue(t, RenameValue(r.types, r.functions, g.values[i])) == BindValue(s, g.values[i])
    {
      if g.values[i].Some? {
        ConstKeeps(q, r, s, t, g.values[i].value);
      }
    }
    assert BindGlobal(t, RenameGlobal(r.types, r.functions, g)).values == BindGlobal(s, g).values;
  }

  lemma {:induction false} FlattenNewNames(q: string, names: seq<seq<string>>)
    ensures Flatten(NewNameLists(q, names)) == NewNames(q, Flatten(names))
  {
    hide NewName;
    if names != [] {
      var n := |names| - 1;
      FlattenNewNames(q, names[..n]);
      assert NewNameLists(q, names)[..n] == NewNameLists(q, names[..n]);
      assert NewNames(q, Flatten(names[..n]) + names[n]) == NewNames(q, Flatten(names[..n])) + NewNames(q, names[n]);
    }
  }

  function RenamesOf(q: string, m: Mir<string>): AllRenames
    requires WellFormed(m)
  {
    AllRenames(TypeRenames(q, m.typeNames), FunctionRenames(q, m.functionNames, m.functions), TypeRenames(q, Flatten(m.globalNames)))
  }

  lemma {:induction false} NamespacedAligned(p: Printer, q: string, m: Mir<string>)
    requires WellFormed(m) && Clear(q, m)
    ensures Aligned(q, RenamesOf(q, m), ScopeOf(m), ScopeOf(Namespaced(p, q, m)))
  {
    hide Tracks, KeepsOthers, NotOwn, DeclClear, FunctionClear, GlobalClear, ExternsApart, NamesClear;
    TypeRenamesTrack(q, m.typeNames);
    FunctionRenamesTrack(q, m);
    TypeRenamesTrack(q, Flatten(m.globalNames));
    FlattenNewNames(q, m.globalNames);
  }

  /** Namespacing changes no reference's meaning: same declarations, same types, same constants, same externals. */
  lemma {:induction false} NamespacingPreservesMeaning(p: Printer, moduleName: string, m: Mir<string>)
    requires WellFormed(m) && Clear(moduleName, m)
    ensures Bind(Namespaced(p, moduleName, m)) == Bind(m)
  {
    var n := Namespaced(p, moduleName, m);
    var r, s, t := RenamesOf(moduleName, m), ScopeOf(m), ScopeOf(n);
    NamespacedAligned(p, moduleName, m);
    hide Aligned, DeclClear, FunctionClear, GlobalClear, BindDecl, RenameDecl, BindFunction, RenameFunction, BindGlobal, RenameGlobal;
    forall i | 0 <= i < |m.types| ensures BindDecl(t, RenameDecl(r.types, m.types[i])) == BindDecl(s, m.types[i]) {
      DeclKeeps(moduleName, r, s, t, m.types[i]);
    }
    forall i | 0 <= i < |m.functions|
      ensures BindFunction(t, RenameFunction(p, r.types, r.functions, r.globals, m.functions[i])) == BindFunction(s, m.functions[i])
    {
      FunctionKeeps(moduleName, p, r, s, t, m.functions[i]);
    }
    forall i | 0 <= i < |m.globals|
      ensures BindGlobal(t, RenameGlobal(r.types, r.functions, m.globals[i])) == BindGlobal(s, m.globals[i])
    {
      GlobalKeeps(moduleName, r, s, t, m.globals[i]);
    }
    assert Bind(n).types == Bind(m).types && Bind(n).functions == Bind(m).functions && Bind(n).globals == Bind(m).globals;
  }

  /**
   Namespacing is harmless for a module with a dot-free qualifier that mentions
   nothing but undotted names and symbols qualified by other modules' dot-free,
   different qualifiers, and whose externs are named apart from its definitions.
   */
  lemma {:induction false} DistinctQualifiersKeepMeaning(p: Printer, moduleName: string, m: Mir<string>)
    requires WellFormed(m) && ExternsApart(m) && DotFree(Qualifier(moduleName))
    requires forall x :: x in MentionedNames(m) ==> DotFree(x) || exists other, symbol :: OtherSymbol(moduleName, other, symbol, x)
    ensures Bind(Namespaced(p, moduleName, m)) == Bind(m)
  {
    hide MentionedNames, Clear, ExternsApart, NotOwn, DotFree, Qualifier, OtherSymbol, Bind, Namespaced;
    forall x | x in MentionedNames(m) ensures NotOwn(moduleName, x) {
      OthersNotOwn(moduleName, x);
    }
    ClearIffMentions(moduleName, m);
    NamespacingPreservesMeaning(p, moduleName, m);
  }

  /** References to externs, and to types and globals under already qualified names, stay as they are. */
  lemma {:induction false} ExternalsStayFixed(moduleName: string, m: Mir<string>)
    requires WellFormed(m) && ExternsApart(m)
    ensures forall i :: 0 <= i < |m.functions| && m.functions[i].isExtern ==>
              Renamed(RenamesOf(moduleName, m).functions, m.functionNames[i]) == m.functionNames[i]
    ensures forall x :: !DotFree(x) ==>
              Renamed(RenamesOf(moduleName, m).types, x) == x && Renamed(RenamesOf(moduleName, m).globals, x) == x
  {
    hide DotFree, Qualify;
    forall i | 0 <= i < |m.functions| && m.functions[i].isExtern
      ensures m.functionNames[i] !in RenamesOf(moduleName, m).functions
    {
      assert forall j :: 0 <= j < |m.functions| && !m.functions[j].isExtern ==> m.functionNames[j] != m.functionNames[i];
    }
  }
}
