/**
 Running the pieces that move an enum's bytes: spilling an operand to the
 stack, addressing a payload field, loading it as some variant's field. None
 of them gets stuck, whatever the bytes are.
 */
module EnumLoads {
  import opened Wrappers
  import opened Arith
  import opened Layout
  import opened Ir
  import opened EnumCode
  import opened EnumMeaning
  import opened Frames

  // ----- Stack slots and field addresses -----

  /** slot is a stack slot of an enum of the given variants, holding image. */
  predicate SlotHolds(s: State, slot: Name, variants: seq<Variant>, image: Image) {
    && slot in s.env && s.env[slot] == Ptr(slot, 0)
    && slot in s.mem && s.mem[slot].alignment == 8
    && |image| <= |s.mem[slot].bytes| == Lowered(Enum(variants), false).size
    && s.mem[slot].bytes[..|image|] == image
  }

  lemma {:induction false} SlotKept(s: State, t: State, slot: Name, variants: seq<Variant>, image: Image)
    requires Keeps(s, t) && SlotHolds(s, slot, variants, image)
    ensures SlotHolds(t, slot, variants, image)
  {
    hide Lowered;
  }

  lemma {:induction false} StackSlotRuns(odd: OddBool, variants: seq<Variant>, value: Operand, slot: Name, s: State, image: Image, r: Region)
    returns (t: State)
    requires |image| == 8 + PayloadSize(variants)
    requires Holds(s, value, Agg(image)) && slot !in s.Names() && In(r, slot)
    ensures Runs(odd, StackSlotCode(Enum(variants), value, slot), s, t)
    ensures Extends(s, t, r) && SlotHolds(t, slot, variants, image) && t.Names() == s.Names() + {slot}
  {
    EnumAlignment(variants);
    hide PayloadSize, In, Lowered, Run, Extends, Rem;
    var size := Lowered(Enum(variants), false).size;
    t := SlotRuns(odd, |image|, size, value, slot, s, image, r);
  }

  lemma {:induction false} SlotRuns(odd: OddBool, valueBytes: nat, size: nat, value: Operand, slot: Name, s: State, image: Image, r: Region)
    returns (t: State)
    requires |image| == valueBytes <= size
    requires Holds(s, value, Agg(image)) && slot !in s.Names() && In(r, slot)
    ensures Runs(odd, [Def(slot, Alloca(size, 8))] + [Store(AggTy(valueBytes, size), value, Temp(slot), 8)], s, t)
    ensures Extends(s, t, r) && slot in t.env && t.env[slot] == Ptr(slot, 0) && slot in t.mem
    ensures t.mem[slot] == Block(image + Undefs(size - valueBytes), 8) && t.Names() == s.Names() + {slot}
  {
    hide In, Run, Extends;
    assert Rem(8, 8) == 0;
    t := SlotFillRuns(odd, AggTy(valueBytes, size), 8, value, slot, s, Agg(image));
    SlotExtends(s, slot, image + Undefs(size - valueBytes), r);
  }

  /** alloca then store of a value of a memory type at the given alignment. */
  lemma {:induction false} SlotFillRuns(odd: OddBool, ty: MemTy, alignment: nat, value: Operand, slot: Name, s: State, v: Val)
    returns (t: State)
    requires Fits(ty, v) && alignment > 0 && Rem(alignment, alignment) == 0
    requires Holds(s, value, v) && slot !in s.Names()
    ensures Runs(odd, [Def(slot, Alloca(MemSize(ty), alignment))] + [Store(ty, value, Temp(slot), alignment)], s, t)
    ensures t == WithSlot(s, slot, WriteVal(ty, v), alignment)
  {
    hide Rem, StepLine, Run, WriteVal, Fits;
    var alloca := Def(slot, Alloca(MemSize(ty), alignment));
    var store := Store(ty, value, Temp(slot), alignment);
    var u := WithSlot(s, slot, Undefs(MemSize(ty)), alignment);
    t := WithSlot(s, slot, WriteVal(ty, v), alignment);
    AllocaSteps(odd, MemSize(ty), alignment, slot, s);
    StoreSteps(odd, ty, alignment, value, slot, u, v);
    assert u.(mem := u.mem[slot := Block(WriteVal(ty, v), alignment)]) == t;
    RunsOne(odd, s, alloca, u);
    RunsOne(odd, u, store, t);
    RunsSeq(odd, [alloca], [store], s, u, t);
  }

  function WithSlot(s: State, slot: Name, bytes: seq<Byte>, alignment: nat): State {
    s.Bind(slot, Ptr(slot, 0)).(mem := s.mem[slot := Block(bytes, alignment)])
  }

  lemma {:induction false} SlotExtends(s: State, slot: Name, bytes: seq<Byte>, r: Region)
    requires slot !in s.Names() && In(r, slot)
    ensures Extends(s, WithSlot(s, slot, bytes, 8), r)
  {
    hide In;
    assert WithSlot(s, slot, bytes, 8).Names() == s.Names() + {slot};
  }

  lemma {:induction false} AllocaSteps(odd: OddBool, size: nat, alignment: nat, slot: Name, s: State)
    requires slot !in s.Names()
    ensures StepLine(odd, s, Def(slot, Alloca(size, alignment))) == Some(WithSlot(s, slot, Undefs(size), alignment))
  {
  }

  lemma {:induction false} StoreSteps(odd: OddBool, ty: MemTy, alignment: nat, value: Operand, slot: Name, u: State, v: Val)
    requires Fits(ty, v) && alignment > 0 && Rem(alignment, alignment) == 0
    requires Holds(u, value, v)
    requires slot in u.env && u.env[slot] == Ptr(slot, 0) && slot in u.mem && u.mem[slot] == Block(Undefs(MemSize(ty)), alignment)
    ensures StepLine(odd, u, Store(ty, value, Temp(slot), alignment)) ==
            Some(u.(mem := u.mem[slot := Block(WriteVal(ty, v), alignment)]))
  {
    hide WriteVal, Fits;
    var written := WriteVal(ty, v);
    assert Rem(0, alignment) == 0;
    assert Overwrite(Undefs(MemSize(ty)), 0, written) == written;
  }

  lemma {:induction false} PointerRuns(odd: OddBool, members: nat, slot: Name, offset: nat, name: Name, s: State, r: Region)
    returns (t: State)
    requires members > 1 && HasRoom(s, slot, offset)
    requires name + [Payload] !in s.Names() && name + [Field] !in s.Names()
    requires In(r, name + [Payload]) && In(r, name + [Field])
    ensures Runs(odd, PointerCode(members, slot, offset, name), s, t)
    ensures Extends(s, t, r) && t.mem == s.mem && Holds(t, PointerOut(offset, name), Ptr(slot, 8 + offset))
    ensures forall n :: n in t.Names() ==> n in s.Names() || n == name + [Payload] || n == name + [Field]
  {
    hide In;
    var base := name + [Payload];
    assert Eval(odd, s, GepMember(Temp(slot), members, 1)) == Some(Ptr(slot, 8));
    var u := RunsDef(odd, s, base, GepMember(Temp(slot), members, 1), Ptr(slot, 8), r);
    if offset == 0 {
      t := u;
      assert PointerCode(members, slot, offset, name) == [Def(base, GepMember(Temp(slot), members, 1))];
    } else {
      assert (name + [Payload])[|name|] != (name + [Field])[|name|];
      assert Eval(odd, u, GepByte(Temp(base), offset)) == Some(Ptr(slot, 8 + offset));
      t := RunsDef(odd, u, name + [Field], GepByte(Temp(base), offset), Ptr(slot, 8 + offset), r);
      ExtendsTransitive(s, u, t, r);
      RunsSeq(odd, [Def(base, GepMember(Temp(slot), members, 1))], [Def(name + [Field], GepByte(Temp(base), offset))], s, u, t);
    }
  }

  // ----- Loading a field -----

  lemma {:induction false} LoadRuns(odd: OddBool, variants: seq<Variant>, i: nat, j: nat, slot: Name, pointer: Operand, target: Name,
                 s: State, image: Image, r: Region) returns (t: State)
    requires OrderableVariants(variants) && |image| == 8 + PayloadSize(variants)
    requires i < |variants| && j < |variants[i].fields|
    requires SlotHolds(s, slot, variants, image) && Holds(s, pointer, Ptr(slot, 8 + FieldOffset(variants, i, j)))
    requires target !in s.Names() && In(r, target)
    ensures Runs(odd, LoadCode(variants[i].fields[j], pointer, target), s, t)
    ensures Extends(s, t, r) && t.mem == s.mem && t.Names() == s.Names() + {target}
    ensures Holds(t, Temp(target), ValueOf(odd, variants[i].fields[j], FieldImage(variants, i, j, image)))
  {
    var ty := variants[i].fields[j];
    var v := ValueOf(odd, ty, FieldImage(variants, i, j, image));
    LoadEvaluates(odd, variants, i, j, slot, pointer, s, image);
    hide In, Eval, ValueOf, FieldImage, PayloadSize;
    t := RunsDef(odd, s, target, Load(MemOf(ty), pointer, Lowered(ty, false).alignment), v, r);
  }

  lemma {:induction false} LoadEvaluates(odd: OddBool, variants: seq<Variant>, i: nat, j: nat, slot: Name, pointer: Operand, s: State, image: Image)
    requires OrderableVariants(variants) && |image| == 8 + PayloadSize(variants)
    requires i < |variants| && j < |variants[i].fields|
    requires SlotHolds(s, slot, variants, image) && Holds(s, pointer, Ptr(slot, 8 + FieldOffset(variants, i, j)))
    ensures var ty := variants[i].fields[j];
            Eval(odd, s, Load(MemOf(ty), pointer, Lowered(ty, false).alignment)) ==
            Some(ValueOf(odd, ty, FieldImage(variants, i, j, image)))
  {
    hide PayloadSize, ValueOf, Lowered, FieldImage, Rem, IsAlignment, MemOf, ValueBytes, MemSize, ReadVal, VariantPlacement;
    var ty := variants[i].fields[j];
    var info := Lowered(ty, false);
    var offset := FieldOffset(variants, i, j);
    PayloadFieldFits(variants, i, j);
    ValueBytesFit(ty);
    AlignedAccess(offset, info.alignment);
    var window := s.mem[slot].bytes[8 + offset..8 + offset + info.size];
    assert window == image[8 + offset..8 + offset + info.size] by {
      assert s.mem[slot].bytes[..|image|][8 + offset..8 + offset + info.size] == window;
    }
    WindowIsField(variants, i, j, image);
    ReadIsValue(odd, ty, window);
  }

  lemma {:induction false} WindowIsField(variants: seq<Variant>, i: nat, j: nat, image: Image)
    requires OrderableVariants(variants) && |image| == 8 + PayloadSize(variants)
    requires i < |variants| && j < |variants[i].fields|
    ensures var ty := variants[i].fields[j];
            var offset := FieldOffset(variants, i, j);
            && 8 + offset + Lowered(ty, false).size <= |image|
            && ValueBytes(ty) <= Lowered(ty, false).size
            && image[8 + offset..8 + offset + Lowered(ty, false).size][..ValueBytes(ty)] == FieldImage(variants, i, j, image)
  {
    hide PayloadSize, Lowered, Rem, IsAlignment, MemOf, ValueBytes, MemSize, VariantPlacement;
    PayloadFieldFits(variants, i, j);
    ValueBytesFit(variants[i].fields[j]);
  }

  lemma {:induction false} AlignedAccess(offset: nat, alignment: nat)
    requires IsAlignment(alignment) && Rem(offset, alignment) == 0
    ensures Rem(8 + offset, alignment) == 0 && Rem(8, alignment) == 0
  {
    var k := if alignment == 1 then 8 else if alignment == 2 then 4 else if alignment == 4 then 2 else 1;
    ProductStaysAligned(alignment, k, alignment);
    assert alignment * k == 8;
    RemSum(8, offset, alignment);
  }

  lemma {:induction false} ReadIsValue(odd: OddBool, ty: Type, window: Image)
    requires Orderable(ty) && |window| == Lowered(ty, false).size && ValueBytes(ty) <= |window| == MemSize(MemOf(ty))
    ensures ReadVal(odd, MemOf(ty), window) == ValueOf(odd, ty, window[..ValueBytes(ty)])
  {
    if !ty.Enum? {
      assert window[..ValueBytes(ty)] == window;
    }
  }

  /** Both operands' field addresses, at distinct fresh names. */
  lemma {:induction false} PointerPairRuns(odd: OddBool, members: nat, lslot: Name, rslot: Name, offset: nat, lptr: Name, rptr: Name,
                                           s: State, r: Region) returns (t: State)
    requires members > 1 && HasRoom(s, lslot, offset) && HasRoom(s, rslot, offset)
    requires PointerNames(lptr) + PointerNames(rptr) !! s.Names() && PointerNames(lptr) !! PointerNames(rptr)
    requires forall n :: n in PointerNames(lptr) + PointerNames(rptr) ==> In(r, n)
    ensures Runs(odd, PointerCode(members, lslot, offset, lptr) + PointerCode(members, rslot, offset, rptr), s, t)
    ensures Extends(s, t, r) && t.Names() <= s.Names() + PointerNames(lptr) + PointerNames(rptr)
    ensures Holds(t, PointerOut(offset, lptr), Ptr(lslot, 8 + offset))
    ensures Holds(t, PointerOut(offset, rptr), Ptr(rslot, 8 + offset))
  {
    hide In, Run, PointerCode, Extends;
    var a := PointerRuns(odd, members, lslot, offset, lptr, s, r);
    ExtendsKeeps(s, a, r);
    t := PointerRuns(odd, members, rslot, offset, rptr, a, r);
    ExtendsKeeps(a, t, r);
    HoldsKept(a, t, PointerOut(offset, lptr), Ptr(lslot, 8 + offset));
    ExtendsTransitive(s, a, t, r);
    RunsSeq(odd, PointerCode(members, lslot, offset, lptr), PointerCode(members, rslot, offset, rptr), s, a, t);
  }

  function PointerNames(name: Name): set<Name> {
    {name + [Payload], name + [Field]}
  }

  /** Both operands' copies of field j, read as variant i. */
  lemma {:induction false} TwoLoadsRun(odd: OddBool, variants: seq<Variant>, i: nat, j: nat, offset: nat, lslot: Name, rslot: Name,
                                       lptr: Operand, rptr: Operand, lname: Name, rname: Name,
                                       before: State, s: State, l: Image, r: Image, region: Region) returns (t: State)
    requires OrderableVariants(variants) && |l| == |r| == 8 + PayloadSize(variants)
    requires i < |variants| && j < |variants[i].fields|
    requires SlotHolds(before, lslot, variants, l) && SlotHolds(before, rslot, variants, r) && Extends(before, s, region)
    requires offset == FieldOffset(variants, i, j)
    requires Holds(s, lptr, Ptr(lslot, 8 + offset)) && Holds(s, rptr, Ptr(rslot, 8 + offset))
    requires lname !in s.Names() && rname !in s.Names() && lname != rname && In(region, lname) && In(region, rname)
    ensures var ty := variants[i].fields[j];
            && Runs(odd, LoadCode(ty, lptr, lname) + LoadCode(ty, rptr, rname), s, t)
            && Holds(t, Temp(lname), ValueOf(odd, ty, FieldImage(variants, i, j, l)))
            && Holds(t, Temp(rname), ValueOf(odd, ty, FieldImage(variants, i, j, r)))
    ensures Extends(before, t, region) && t.Names() == s.Names() + {lname, rname}
  {
    hide PayloadSize, In, ValueOf, FieldImage, Lowered, OwnerOf, FieldOffset, Extends, Run, SlotHolds, LoadCode;
    var ty := variants[i].fields[j];
    ExtendsKeeps(before, s, region);
    SlotKept(before, s, lslot, variants, l);
    SlotKept(before, s, rslot, variants, r);
    var a := LoadRuns(odd, variants, i, j, lslot, lptr, lname, s, l, region);
    ExtendsKeeps(s, a, region);
    SlotKept(s, a, rslot, variants, r);
    HoldsKept(s, a, rptr, Ptr(rslot, 8 + offset));
    t := LoadRuns(odd, variants, i, j, rslot, rptr, rname, a, r, region);
    ExtendsKeeps(a, t, region);
    HoldsKept(a, t, Temp(lname), ValueOf(odd, ty, FieldImage(variants, i, j, l)));
    ExtendsTransitive(before, s, a, region);
    ExtendsTransitive(before, a, t, region);
    RunsSeq(odd, LoadCode(ty, lptr, lname), LoadCode(ty, rptr, rname), s, a, t);
  }

  lemma {:induction false} LoadPairRuns(odd: OddBool, mode: Mode, variants: seq<Variant>, i: nat, j: nat, base: Name,
                                        s: State, l: Image, r: Image) returns (t: State)
    requires OrderableVariants(variants) && |l| == |r| == 8 + PayloadSize(variants)
    requires i < |variants| && j < |variants[i].fields|
    requires SlotHolds(s, SlotName(mode, base, Lhs), variants, l) && SlotHolds(s, SlotName(mode, base, Rhs), variants, r)
    requires Clear(s, Steps(base, i, j, j + 1))
    ensures Runs(odd, LoadPairCode(Members(variants), variants[i].fields[j], SlotName(mode, base, Lhs), SlotName(mode, base, Rhs),
                                   FieldOffset(variants, i, j), SubName(mode, base, i, j), FieldName(base, i, j)), s, t)
    ensures Extends(s, t, Steps(base, i, j, j + 1))
    ensures var ty := variants[i].fields[j];
            && Holds(t, Temp(FieldName(base, i, j) + [Lhs]), ValueOf(odd, ty, FieldImage(variants, i, j, l)))
            && Holds(t, Temp(FieldName(base, i, j) + [Rhs]), ValueOf(odd, ty, FieldImage(variants, i, j, r)))
    ensures t.Names() <= s.Names() + LoadNames(SubName(mode, base, i, j), FieldName(base, i, j))
  {
    var sub, field := SubName(mode, base, i, j), FieldName(base, i, j);
    StepNames(mode, base, i, j, Lhs);
    StepNames(mode, base, i, j, Rhs);
    LoadedNamesDiffer(mode, base, i, j);
    hide PayloadSize, In, ValueOf, FieldImage, Lowered, OwnerOf, SubName, FieldName, SlotName, FieldOffset, Extends, Run,
         SlotHolds;
    t := LoadPairAt(odd, variants, i, j, SlotName(mode, base, Lhs), SlotName(mode, base, Rhs),
                    sub + [Lhs, PtrWord], sub + [Rhs, PtrWord], field + [Lhs], field + [Rhs],
                    s, l, r, Steps(base, i, j, j + 1));
  }

  function LoadNames(sub: Name, field: Name): set<Name> {
    PointerNames(sub + [Lhs, PtrWord]) + PointerNames(sub + [Rhs, PtrWord]) + {field + [Lhs], field + [Rhs]}
  }

  /** LoadPairRuns for any names that are fresh and distinct. */
  lemma {:induction false} LoadPairAt(odd: OddBool, variants: seq<Variant>, i: nat, j: nat, lslot: Name, rslot: Name,
                                      lptr: Name, rptr: Name, lname: Name, rname: Name,
                                      s: State, l: Image, r: Image, region: Region) returns (t: State)
    requires OrderableVariants(variants) && |l| == |r| == 8 + PayloadSize(variants)
    requires i < |variants| && j < |variants[i].fields|
    requires SlotHolds(s, lslot, variants, l) && SlotHolds(s, rslot, variants, r)
    requires PointerNames(lptr) + PointerNames(rptr) !! s.Names() && PointerNames(lptr) !! PointerNames(rptr)
    requires forall n :: n in PointerNames(lptr) + PointerNames(rptr) ==> In(region, n)
    requires {lname, rname} !! s.Names() + PointerNames(lptr) + PointerNames(rptr) && lname != rname
    requires In(region, lname) && In(region, rname)
    ensures var ty := variants[i].fields[j];
            var offset := FieldOffset(variants, i, j);
            && Runs(odd, PointerCode(Members(variants), lslot, offset, lptr) + PointerCode(Members(variants), rslot, offset, rptr)
                         + LoadCode(ty, PointerOut(offset, lptr), lname) + LoadCode(ty, PointerOut(offset, rptr), rname), s, t)
            && Holds(t, Temp(lname), ValueOf(odd, ty, FieldImage(variants, i, j, l)))
            && Holds(t, Temp(rname), ValueOf(odd, ty, FieldImage(variants, i, j, r)))
    ensures Extends(s, t, region)
    ensures t.Names() <= s.Names() + PointerNames(lptr) + PointerNames(rptr) + {lname, rname}
  {
    var ty := variants[i].fields[j];
    var offset := FieldOffset(variants, i, j);
    hide PayloadSize, In, ValueOf, FieldImage, Lowered, OwnerOf, FieldOffset, Extends, Run, PointerCode, LoadCode,
         PointerOut, PointerNames, SlotHolds, HasRoom, Holds;
    FieldNeedsPayload(variants, i);
    SlotRoom(variants, i, j, s, lslot, l);
    SlotRoom(variants, i, j, s, rslot, r);
    var a := PointerPairRuns(odd, Members(variants), lslot, rslot, offset, lptr, rptr, s, region);
    t := TwoLoadsRun(odd, variants, i, j, offset, lslot, rslot, PointerOut(offset, lptr), PointerOut(offset, rptr),
                     lname, rname, s, a, l, r, region);
    var pointers := PointerCode(Members(variants), lslot, offset, lptr) + PointerCode(Members(variants), rslot, offset, rptr);
    RunsSeqPair(odd, pointers, LoadCode(ty, PointerOut(offset, lptr), lname), LoadCode(ty, PointerOut(offset, rptr), rname), s, a, t);
  }

  lemma {:induction false} FieldNeedsPayload(variants: seq<Variant>, i: nat)
    requires OrderableVariants(variants) && i < |variants| && variants[i].fields != []
    ensures Members(variants) > 1
  {
    if PayloadSize(variants) == 0 {
      NoPayloadNoFields(variants, i);
    }
  }

  /** A slot has room for the address of any field. */
  predicate HasRoom(s: State, slot: Name, offset: nat) {
    slot in s.env && s.env[slot] == Ptr(slot, 0) && slot in s.mem && 8 + offset <= |s.mem[slot].bytes|
  }

  lemma {:induction false} SlotRoom(variants: seq<Variant>, i: nat, j: nat, s: State, slot: Name, image: Image)
    requires i < |variants| && j < |variants[i].fields| && |image| == 8 + PayloadSize(variants)
    requires SlotHolds(s, slot, variants, image)
    ensures HasRoom(s, slot, FieldOffset(variants, i, j))
  {
    hide PayloadSize, Lowered, Rem;
    PayloadFieldFits(variants, i, j);
  }

  lemma {:induction false} StepNames(mode: Mode, base: Name, i: nat, j: nat, side: Part)
    ensures In(Steps(base, i, j, j + 1), SubName(mode, base, i, j) + [side, PtrWord] + [Payload])
    ensures In(Steps(base, i, j, j + 1), SubName(mode, base, i, j) + [side, PtrWord] + [Field])
    ensures In(Steps(base, i, j, j + 1), FieldName(base, i, j) + [side])
  {
    hide Classify, SubName, FieldName;
    var sub := SubName(mode, base, i, j);
    assert sub + [side, PtrWord] + [Payload] == sub + [side, PtrWord, Payload];
    assert sub + [side, PtrWord] + [Field] == sub + [side, PtrWord, Field];
    StepOwnsSub(mode, base, i, j, [side, PtrWord, Payload]);
    StepOwnsSub(mode, base, i, j, [side, PtrWord, Field]);
    StepOwnsBelowField(base, i, j, [side]);
  }

  lemma {:induction false} LoadedNamesDiffer(mode: Mode, base: Name, i: nat, j: nat)
    ensures var sub := SubName(mode, base, i, j); var field := FieldName(base, i, j);
            var pointers := PointerNames(sub + [Lhs, PtrWord]) + PointerNames(sub + [Rhs, PtrWord]);
            && PointerNames(sub + [Lhs, PtrWord]) !! PointerNames(sub + [Rhs, PtrWord])
            && field + [Lhs] !in pointers && field + [Rhs] !in pointers && field + [Lhs] != field + [Rhs]
  {
    var sub, field := SubName(mode, base, i, j), FieldName(base, i, j);
    assert (field + [Lhs])[|field|] == Lhs && (field + [Rhs])[|field|] == Rhs;
    forall n | n in PointerNames(sub + [Lhs, PtrWord]) ensures n[|sub|] == Lhs && |n| == |sub| + 3 {
    }
    forall n | n in PointerNames(sub + [Rhs, PtrWord]) ensures n[|sub|] == Rhs && |n| == |sub| + 3 {
    }
    if mode.Nested? {
      assert |field| == |sub|;
    } else {
      assert |field| + 2 == |sub|;
      var q := [EnumWord, if mode.Equality? then Equal else Order];
      assert sub == base + q + [VariantWord, Num(i), Field, Num(j)];
      assert (field + [Lhs])[|base|] == VariantWord && (field + [Rhs])[|base|] == VariantWord;
      assert forall n :: n in PointerNames(sub + [Lhs, PtrWord]) + PointerNames(sub + [Rhs, PtrWord]) ==> n[|base|] == EnumWord;
    }
  }
}
