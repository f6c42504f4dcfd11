/** NamespaceImportedBuildUnit as the driver runs it: five passes over a module, in place. */
module Namespacer {
  import opened Wrappers
  import opened Namespacing

  /** The first i elements replaced by those of after. */
  predicate Upto<T(==)>(now: seq<T>, before: seq<T>, after: seq<T>, i: nat) {
    && |now| == |before| == |after| && i <= |now|
    && (forall k :: 0 <= k < i ==> now[k] == after[k])
    && (forall k :: i <= k < |now| ==> now[k] == before[k])
  }

  class Unit {
    const printer: Printer
    const moduleName: string
    var typeNames: seq<string>
    var types: seq<TypeDecl<string>>
    var functionNames: seq<string>
    var functions: seq<Function<string>>
    var globalNames: seq<seq<string>>
    var globals: seq<Global<string>>

    constructor (printer: Printer, moduleName: string, m: Mir<string>)
      ensures this.printer == printer && this.moduleName == moduleName && Contents() == m
    {
      this.printer, this.moduleName := printer, moduleName;
      typeNames, types, functionNames, functions, globalNames, globals :=
        m.typeNames, m.types, m.functionNames, m.functions, m.globalNames, m.globals;
    }

    function Contents(): Mir<string>
      reads this
    {
      Mir(typeNames, types, functionNames, functions, globalNames, globals)
    }

    method Namespace()
      requires WellFormed(Contents())
      modifies this
      ensures Contents() == Namespaced(printer, moduleName, old(Contents()))
    {
      hide RenameDecl, RenameGlobal, RenameTys, RenameBlocks, NewName, DotFree, Qualify;
      var renamedTypes := NameTypes();
      RewriteTypeDecls(renamedTypes);
      var renamedFunctions := NameFunctions(renamedTypes);
      var renamedGlobals := NameGlobals(renamedTypes, renamedFunctions);
      RewriteBodies(renamedTypes, renamedFunctions, renamedGlobals);
      assert types == Namespaced(printer, moduleName, old(Contents())).types;
      assert globals == Namespaced(printer, moduleName, old(Contents())).globals;
      assert functions == Namespaced(printer, moduleName, old(Contents())).functions;
    }

    method NameTypes() returns (renamed: Renames)
      modifies this`typeNames
      ensures typeNames == NewNames(moduleName, old(typeNames))
      ensures renamed == TypeRenames(moduleName, old(typeNames))
    {
      hide DotFree, Qualify;
      renamed := map[];
      for i := 0 to |typeNames|
        invariant Upto(typeNames, old(typeNames), NewNames(moduleName, old(typeNames)), i)
        invariant renamed == TypeRenames(moduleName, old(typeNames)[..i])
      {
        var name := typeNames[i];
        TypeRenamesStep(moduleName, old(typeNames), i);
        if DotFree(name) {
          renamed := renamed[name := Qualify(moduleName, name)];
          typeNames := typeNames[i := Qualify(moduleName, name)];
        }
      }
      assert old(typeNames)[..|typeNames|] == old(typeNames);
    }

    method RewriteTypeDecls(renamed: Renames)
      modifies this`types
      ensures |types| == |old(types)|
      ensures forall i :: 0 <= i < |types| ==> types[i] == RenameDecl(renamed, old(types)[i])
    {
      hide RenameDecl;
      for i := 0 to |types|
        invariant |types| == |old(types)|
        invariant forall k :: 0 <= k < i ==> types[k] == RenameDecl(renamed, old(types)[k])
        invariant forall k :: i <= k < |types| ==> types[k] == old(types)[k]
      {
        types := types[i := RenameDecl(renamed, types[i])];
      }
    }

    /** Names and signatures; bodies wait until the globals are named too. */
    method NameFunctions(types: Renames) returns (renamed: Renames)
      requires |functionNames| == |functions|
      modifies this`functionNames, this`functions
      ensures |functions| == |old(functions)|
      ensures functionNames == NewFunctionNames(moduleName, old(functionNames), old(functions))
      ensures renamed == FunctionRenames(moduleName, old(functionNames), old(functions))
      ensures forall i :: 0 <= i < |functions| ==> functions[i] == RenameSignature(types, old(functions)[i])
    {
      hide RenameTys, Qualify;
      renamed := map[];
      for i := 0 to |functions|
        invariant |functions| == |old(functions)|
        invariant Upto(functionNames, old(functionNames), NewFunctionNames(moduleName, old(functionNames), old(functions)), i)
        invariant renamed == FunctionRenames(moduleName, old(functionNames)[..i], old(functions)[..i])
        invariant forall k :: 0 <= k < i ==> functions[k] == RenameSignature(types, old(functions)[k])
        invariant forall k :: i <= k < |functions| ==> functions[k] == old(functions)[k]
      {
        var f := functions[i];
        var name := functionNames[i];
        FunctionRenamesStep(moduleName, old(functionNames), old(functions), i);
        if !f.isExtern {
          renamed := renamed[name := Qualify(moduleName, name)];
          functionNames := functionNames[i := Qualify(moduleName, name)];
        }
        functions := functions[i := RenameSignature(types, f)];
      }
      assert old(functionNames)[..|functions|] == old(functionNames) && old(functions)[..|functions|] == old(functions);
    }

    method NameGlobals(types: Renames, functions: Renames) returns (renamed: Renames)
      requires |globalNames| == |globals|
      modifies this`globalNames, this`globals
      ensures |globals| == |old(globals)|
      ensures globalNames == NewNameLists(moduleName, old(globalNames))
      ensures renamed == TypeRenames(moduleName, Flatten(old(globalNames)))
      ensures forall i :: 0 <= i < |globals| ==> globals[i] == RenameGlobal(types, functions, old(globals)[i])
    {
      hide RenameGlobal, DotFree, Qualify, NewName;
      renamed := map[];
      for i := 0 to |globals|
        invariant |globals| == |old(globals)|
        invariant Upto(globalNames, old(globalNames), NewNameLists(moduleName, old(globalNames)), i)
        invariant renamed == TypeRenames(moduleName, Flatten(old(globalNames)[..i]))
        invariant forall k :: 0 <= k < i ==> globals[k] == RenameGlobal(types, functions, old(globals)[k])
        invariant forall k :: i <= k < |globals| ==> globals[k] == old(globals)[k]
      {
        var names, more := NameList(globalNames[i], Flatten(old(globalNames)[..i]), renamed);
        assert old(globalNames)[..i + 1][..i] == old(globalNames)[..i];
        renamed := more;
        globalNames := globalNames[i := names];
        globals := globals[i := RenameGlobal(types, functions, globals[i])];
      }
      assert old(globalNames)[..|globals|] == old(globalNames);
    }

    /** The names of one declaration; earlier are all names before them. */
    method NameList(names: seq<string>, ghost earlier: seq<string>, before: Renames) returns (more: seq<string>, renamed: Renames)
      requires before == TypeRenames(moduleName, earlier)
      ensures more == NewNames(moduleName, names)
      ensures renamed == TypeRenames(moduleName, earlier + names)
    {
      hide DotFree, Qualify, TypeRenames, NewName;
      more, renamed := [], before;
      assert earlier + names[..0] == earlier;
      for i := 0 to |names|
        invariant |more| == i && forall k :: 0 <= k < i ==> more[k] == NewName(moduleName, names[k])
        invariant renamed == TypeRenames(moduleName, earlier + names[..i])
      {
        assert earlier + names[..i + 1] == earlier + names[..i] + [names[i]];
        TypeRenamesSnoc(moduleName, earlier + names[..i], names[i]);
        if DotFree(names[i]) {
          renamed := renamed[names[i] := Qualify(moduleName, names[i])];
        }
        more := more + [NewName(moduleName, names[i])];
      }
      assert names[..|names|] == names;
    }

    method RewriteBodies(types: Renames, functions: Renames, globals: Renames)
      modifies this`functions
      ensures |this.functions| == |old(this.functions)|
      ensures forall i :: 0 <= i < |this.functions| ==>
                this.functions[i] == old(this.functions)[i].(blocks := RenameBlocks(printer, types, functions, globals, old(this.functions)[i].blocks))
    {
      hide RenameBlocks;
      for i := 0 to |this.functions|
        invariant |this.functions| == |old(this.functions)|
        invariant forall k :: 0 <= k < i ==>
                    this.functions[k] == old(this.functions)[k].(blocks := RenameBlocks(printer, types, functions, globals, old(this.functions)[k].blocks))
        invariant forall k :: i <= k < |this.functions| ==> this.functions[k] == old(this.functions)[k]
      {
        var f := this.functions[i];
        this.functions := this.functions[i := f.(blocks := RenameBlocks(printer, types, functions, globals, f.blocks))];
      }
    }
  }

  lemma {:induction false} TypeRenamesSnoc(q: string, names: seq<string>, name: string)
    ensures TypeRenames(q, names + [name]) ==
            if DotFree(name) then TypeRenames(q, names)[name := Qualify(q, name)] else TypeRenames(q, names)
  {
    hide DotFree, Qualify;
  }

  lemma {:induction false} TypeRenamesStep(q: string, names: seq<string>, i: nat)
    requires i < |names|
    ensures TypeRenames(q, names[..i + 1]) ==
            if DotFree(names[i]) then TypeRenames(q, names[..i])[names[i] := Qualify(q, names[i])] else TypeRenames(q, names[..i])
  {
    hide TypeRenames;
    assert names[..i + 1] == names[..i] + [names[i]];
    TypeRenamesSnoc(q, names[..i], names[i]);
  }

  lemma {:induction false} FunctionRenamesSnoc(q: string, names: seq<string>, functions: seq<Function<string>>, name: string, f: Function<string>)
    requires |names| == |functions|
    ensures FunctionRenames(q, names + [name], functions + [f]) ==
            if f.isExtern then FunctionRenames(q, names, functions) else FunctionRenames(q, names, functions)[name := Qualify(q, name)]
  {
    hide Qualify;
    var ns, fs, n := names + [name], functions + [f], |names|;
    forall k | 0 <= k < n ensures ns[k] == names[k] && fs[k] == functions[k] {
    }
    assert ns[n] == name && fs[n] == f;
    var a, b := FunctionRenames(q, ns, fs), FunctionRenames(q, names, functions);
    forall x | x in b ensures x in a {
      var k :| 0 <= k < n && !functions[k].isExtern && names[k] == x;
      assert !fs[k].isExtern && ns[k] == x;
    }
    forall x | x in a ensures x in b || (!f.isExtern && x == name) {
      var k :| 0 <= k < |ns| && !fs[k].isExtern && ns[k] == x;
      if k < n {
        assert !functions[k].isExtern && names[k] == x;
      }
    }
    RenamesQualify(q, ns, fs);
    RenamesQualify(q, names, functions);
  }

  lemma {:induction false} RenamesQualify(q: string, names: seq<string>, functions: seq<Function<string>>)
    requires |names| == |functions|
    ensures var r := FunctionRenames(q, names, functions); forall x :: x in r ==> r[x] == Qualify(q, x)
  {
    hide Qualify;
  }

  lemma {:induction false} FunctionRenamesStep(q: string, names: seq<string>, functions: seq<Function<string>>, i: nat)
    requires |names| == |functions| && i < |names|
    ensures FunctionRenames(q, names[..i + 1], functions[..i + 1]) ==
            if functions[i].isExtern then FunctionRenames(q, names[..i], functions[..i])
            else FunctionRenames(q, names[..i], functions[..i])[names[i] := Qualify(q, names[i])]
  {
    hide FunctionRenames, Qualify;
    assert names[..i + 1] == names[..i] + [names[i]] && functions[..i + 1] == functions[..i] + [functions[i]];
    FunctionRenamesSnoc(q, names[..i], functions[..i], names[i], functions[i]);
  }
}
