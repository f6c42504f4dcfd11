/**
 Running variant_init, variant_match and variant_extract: what is built from
 arguments is matched by exactly its own variant and gives the arguments back.
 */
module VariantRuns {
  import opened Wrappers
  import opened Arith
  import opened Layout
  import opened Ir
  import opened Padding
  import opened EnumCode
  import opened EnumMeaning
  import opened Frames
  import opened EnumLoads
  import opened VariantCode

  /** A value of any lowered type has as many bytes as the lowering says. */
  lemma {:induction false} FieldBytes(ty: Type)
    ensures MemSize(MemOf(ty)) == Lowered(ty, false).size && IsAlignment(Lowered(ty, false).alignment)
    ensures MemOf(ty).AggTy? ==> MemOf(ty).valueBytes <= MemOf(ty).size
    ensures MemOf(ty).IntTy? ==> MemOf(ty).bytes > 0
  {
    LoweringMatchesLlvm(ty, false);
    LoweringCovered(ty, false);
    if ty.Enum? {
      EnumAlignment(ty.variants);
    }
  }

  // ----- The bytes of a built value -----

  /** vals can be the arguments of the given variant. */
  predicate Arguments(variants: seq<Variant>, tag: nat, vals: seq<Val>) {
    && tag < |variants| <= 0x1_0000_0000_0000_0000
    && |vals| == |variants[tag].fields|
    && forall k :: 0 <= k < |vals| ==> Fits(MemOf(variants[tag].fields[k]), vals[k])
  }

  function FieldWritten(variants: seq<Variant>, tag: nat, vals: seq<Val>, k: nat): (w: seq<Byte>)
    requires Arguments(variants, tag, vals) && k < |vals|
    ensures |w| == Lowered(variants[tag].fields[k], false).size
    ensures FieldOffset(variants, tag, k) + |w| <= PayloadSize(variants)
  {
    PayloadFieldFits(variants, tag, k);
    FieldBytes(variants[tag].fields[k]);
    WriteVal(MemOf(variants[tag].fields[k]), vals[k])
  }

  /** The slot's value bytes once the tag and the first k arguments are stored over zeros. */
  function Filled(variants: seq<Variant>, tag: nat, vals: seq<Val>, k: nat): (image: Image)
    requires Arguments(variants, tag, vals) && k <= |vals|
    ensures |image| == 8 + PayloadSize(variants)
  {
    if k == 0 then Encode(tag, 8) + Zeros(PayloadSize(variants)) else
      Overwrite(Filled(variants, tag, vals, k - 1), 8 + FieldOffset(variants, tag, k - 1), FieldWritten(variants, tag, vals, k - 1))
  }

  /** Where argument k lies in the value. */
  predicate InField(variants: seq<Variant>, tag: nat, k: nat, p: nat)
    requires tag < |variants| && k < |variants[tag].fields|
  {
    var start := 8 + FieldOffset(variants, tag, k);
    start <= p < start + Lowered(variants[tag].fields[k], false).size
  }

  function Window(variants: seq<Variant>, tag: nat, k: nat, image: Image): (w: seq<Byte>)
    requires tag < |variants| && k < |variants[tag].fields| && |image| == 8 + PayloadSize(variants)
    ensures |w| == MemSize(MemOf(variants[tag].fields[k]))
  {
    var start := 8 + FieldOffset(variants, tag, k);
    var size := Lowered(variants[tag].fields[k], false).size;
    PayloadFieldFits(variants, tag, k);
    FieldBytes(variants[tag].fields[k]);
    image[start..start + size]
  }

  /** The tag, each argument at its own offset, and zeros everywhere else. */
  ghost predicate Built(variants: seq<Variant>, tag: nat, vals: seq<Val>, image: Image)
    requires Arguments(variants, tag, vals)
  {
    && |image| == 8 + PayloadSize(variants)
    && image[..8] == Encode(tag, 8)
    && (forall k :: 0 <= k < |vals| ==> Window(variants, tag, k, image) == FieldWritten(variants, tag, vals, k))
    && (forall p :: 8 <= p < |image| && (forall k :: 0 <= k < |vals| ==> !InField(variants, tag, k, p)) ==> image[p] == Known(0))
  }

  lemma {:induction false} FilledKeepsField(variants: seq<Variant>, tag: nat, vals: seq<Val>, k: nat, j: nat)
    requires Arguments(variants, tag, vals) && j < k <= |vals|
    ensures Window(variants, tag, j, Filled(variants, tag, vals, k)) == FieldWritten(variants, tag, vals, j)
  {
    hide PayloadSize, Lowered, VariantPlacement, FieldWritten, MemOf, ShapeOf, FieldOffset, Overwrite;
    var before := Filled(variants, tag, vals, k - 1);
    if j < k - 1 {
      FilledKeepsField(variants, tag, vals, k - 1, j);
      FieldsApart(variants, tag, j, k - 1);
      var start, end := 8 + FieldOffset(variants, tag, j), 8 + FieldOffset(variants, tag, j) + Lowered(variants[tag].fields[j], false).size;
      BeforeUntouched(before, 8 + FieldOffset(variants, tag, k - 1), FieldWritten(variants, tag, vals, k - 1), start, end);
    }
  }

  lemma {:induction false} BeforeUntouched(bytes: seq<Byte>, offset: nat, w: seq<Byte>, start: nat, end: nat)
    requires offset + |w| <= |bytes| && start <= end <= offset
    ensures Overwrite(bytes, offset, w)[start..end] == bytes[start..end]
  {
  }

  lemma {:induction false} FieldsApart(variants: seq<Variant>, tag: nat, j: nat, k: nat)
    requires tag < |variants| && j < k < |variants[tag].fields|
    ensures FieldOffset(variants, tag, j) + Lowered(variants[tag].fields[j], false).size <= FieldOffset(variants, tag, k)
    ensures FieldOffset(variants, tag, k) + Lowered(variants[tag].fields[k], false).size <= PayloadSize(variants)
  {
    hide PayloadSize, Lowered;
    PayloadFieldsDisjoint(variants, tag, j, k);
    PayloadFieldFits(variants, tag, k);
  }

  lemma {:induction false} FilledKeepsTag(variants: seq<Variant>, tag: nat, vals: seq<Val>, k: nat)
    requires Arguments(variants, tag, vals) && k <= |vals|
    ensures Filled(variants, tag, vals, k)[..8] == Encode(tag, 8)
  {
    hide PayloadSize, Lowered, VariantPlacement, FieldWritten, Encode;
    if k > 0 {
      FilledKeepsTag(variants, tag, vals, k - 1);
      assert Filled(variants, tag, vals, k)[..8] == Filled(variants, tag, vals, k - 1)[..8];
    }
  }

  lemma {:induction false} FilledElsewhere(variants: seq<Variant>, tag: nat, vals: seq<Val>, k: nat, p: nat)
    requires Arguments(variants, tag, vals) && k <= |vals| && 8 <= p < 8 + PayloadSize(variants)
    requires forall j :: 0 <= j < k ==> !InField(variants, tag, j, p)
    ensures Filled(variants, tag, vals, k)[p] == Known(0)
  {
    hide PayloadSize, Lowered, VariantPlacement, FieldWritten, Encode;
    if k > 0 {
      FilledElsewhere(variants, tag, vals, k - 1, p);
      assert !InField(variants, tag, k - 1, p);
    }
  }

  lemma {:induction false} FilledIsBuilt(variants: seq<Variant>, tag: nat, vals: seq<Val>)
    requires Arguments(variants, tag, vals)
    ensures Built(variants, tag, vals, Filled(variants, tag, vals, |vals|))
  {
    hide PayloadSize, FieldWritten, Window, InField, Filled, Encode;
    var image := Filled(variants, tag, vals, |vals|);
    FilledKeepsTag(variants, tag, vals, |vals|);
    forall k | 0 <= k < |vals| ensures Window(variants, tag, k, image) == FieldWritten(variants, tag, vals, k) {
      FilledKeepsField(variants, tag, vals, |vals|, k);
    }
    forall p | 8 <= p < |image| && (forall k :: 0 <= k < |vals| ==> !InField(variants, tag, k, p)) ensures image[p] == Known(0) {
      FilledElsewhere(variants, tag, vals, |vals|, p);
    }
  }

  // ----- Running variant_init -----

  /** The pointer temporaries of argument k are still free. */
  predicate Pending(t: State, base: Name, k: nat) {
    InitField(base, k) + [Payload] !in t.Names() && InitField(base, k) + [Field] !in t.Names()
  }

  /** State t of an initialisation begun in s, with k arguments stored. */
  ghost predicate Filling(s: State, t: State, variants: seq<Variant>, base: Name, image: Image, k: nat) {
    && Extends(s, t, Claimed(base))
    && SlotHolds(t, InitSlot(base), variants, image)
    && base !in t.Names()
    && forall j :: k <= j ==> Pending(t, base, j)
  }

  lemma {:induction false} ClaimedNames(base: Name, q: seq<Part>)
    requires Classify(q) != Outside
    ensures In(Claimed(base), base + q)
  {
    OwnerOfSuffix(base, q);
  }

  lemma {:induction false} ClaimedHas(base: Name, k: nat)
    ensures In(Claimed(base), base)
    ensures In(Claimed(base), InitSlot(base)) && In(Claimed(base), InitTag(base))
    ensures In(Claimed(base), InitField(base, k) + [Payload]) && In(Claimed(base), InitField(base, k) + [Field])
    ensures In(Claimed(base), ExtractSlot(base)) && In(Claimed(base), base + [Tag])
    ensures In(Claimed(base), ExtractField(base, k) + [Payload]) && In(Claimed(base), ExtractField(base, k) + [Field])
  {
    hide In, OwnerOf;
    ClaimedNames(base, []);
    assert base + [] == base;
    ClaimedNames(base, [VariantWord, Slot]);
    ClaimedNames(base, [VariantWord, Tag]);
    ClaimedNames(base, [VariantExtract, EnumWord]);
    ClaimedNames(base, [Tag]);
    ClaimedNames(base, [VariantInit, Num(k), Payload]);
    ClaimedNames(base, [VariantInit, Num(k), Field]);
    ClaimedNames(base, [VariantExtract, Num(k), Payload]);
    ClaimedNames(base, [VariantExtract, Num(k), Field]);
    assert InitField(base, k) + [Payload] == base + [VariantInit, Num(k), Payload];
    assert InitField(base, k) + [Field] == base + [VariantInit, Num(k), Field];
    assert ExtractField(base, k) + [Payload] == base + [VariantExtract, Num(k), Payload];
    assert ExtractField(base, k) + [Field] == base + [VariantExtract, Num(k), Field];
  }

  /** b differs from a in the contents of one slot at most. */
  predicate OnlySlot(a: State, b: State, slot: Name) {
    b.env == a.env && b.mem.Keys == a.mem.Keys && forall n :: n in a.mem && n != slot ==> b.mem[n] == a.mem[n]
  }

  /** A store into a slot that s does not know about. */
  lemma {:induction false} StoreExtends(s: State, a: State, b: State, slot: Name, r: Region)
    requires Extends(s, a, r) && slot !in s.Names() && OnlySlot(a, b, slot)
    ensures Extends(s, b, r) && b.Names() == a.Names()
  {
    hide In;
  }

  lemma {:induction false} ClearHas(s: State, r: Region, n: Name)
    requires Clear(s, r) && In(r, n)
    ensures n !in s.Names()
  {
  }

  /** The image after one more argument. */
  lemma {:induction false} FilledStep(variants: seq<Variant>, tag: nat, vals: seq<Val>, k: nat)
    requires Arguments(variants, tag, vals) && k < |vals|
    ensures var ty := MemOf(variants[tag].fields[k]);
            && 8 + FieldOffset(variants, tag, k) + |WriteVal(ty, vals[k])| <= 8 + PayloadSize(variants)
            && Filled(variants, tag, vals, k + 1) ==
               Overwrite(Filled(variants, tag, vals, k), 8 + FieldOffset(variants, tag, k), WriteVal(ty, vals[k]))
  {
    hide PayloadSize, Lowered, VariantPlacement, Encode, MemOf;
    FieldBytes(variants[tag].fields[k]);
    assert FieldWritten(variants, tag, vals, k) == WriteVal(MemOf(variants[tag].fields[k]), vals[k]);
  }

  lemma {:induction false} OverwritePrefix(bytes: seq<Byte>, n: nat, offset: nat, w: seq<Byte>)
    requires n <= |bytes| && offset + |w| <= n
    ensures Overwrite(bytes, offset, w)[..n] == Overwrite(bytes[..n], offset, w)
  {
  }

  /** Storing a value of type ty at an offset of a slot that holds image. */
  lemma {:induction false} StoreRuns(odd: OddBool, variants: seq<Variant>, ty: MemTy, operand: Operand, v: Val,
                                     pointer: Operand, offset: nat, alignment: nat, slot: Name, a: State, image: Image)
    returns (b: State)
    requires SlotHolds(a, slot, variants, image) && Holds(a, operand, v) && Fits(ty, v)
    requires Holds(a, pointer, Ptr(slot, offset)) && offset + MemSize(ty) <= |image|
    requires alignment > 0 && Rem(8, alignment) == 0 && Rem(offset, alignment) == 0
    ensures Runs(odd, [Store(ty, operand, pointer, alignment)], a, b)
    ensures SlotHolds(b, slot, variants, Overwrite(image, offset, WriteVal(ty, v)))
    ensures OnlySlot(a, b, slot)
  {
    hide Lowered, Rem, Fits, WriteVal, Run;
    var w := WriteVal(ty, v);
    var block := a.mem[slot].(bytes := Overwrite(a.mem[slot].bytes, offset, w));
    b := a.(mem := a.mem[slot := block]);
    OverwritePrefix(a.mem[slot].bytes, |image|, offset, w);
    RunsOne(odd, a, Store(ty, operand, pointer, alignment), b);
  }

  /** Storing one argument. */
  lemma {:induction false} InitFieldRuns(odd: OddBool, variants: seq<Variant>, tag: nat, k: nat, operand: Operand, vals: seq<Val>,
                                         base: Name, s: State, a: State) returns (b: State)
    requires Arguments(variants, tag, vals) && k < |vals| && PayloadSize(variants) != 0
    requires Clear(s, Claimed(base)) && Holds(s, operand, vals[k])
    requires Filling(s, a, variants, base, Filled(variants, tag, vals, k), k)
    ensures Runs(odd, InitFieldCode(variants, tag, k, operand, base), a, b)
    ensures Filling(s, b, variants, base, Filled(variants, tag, vals, k + 1), k + 1)
  {
    hide PayloadSize, Lowered, VariantPlacement, FieldWritten, Encode, In, PointerCode, PointerOut, Run, Extends, MemOf,
      InitField, InitSlot, Fits, Rem, IsAlignment, Clear, FieldOffset, SlotHolds, WriteVal;
    var ty := variants[tag].fields[k];
    var slot, name, offset := InitSlot(base), InitField(base, k), FieldOffset(variants, tag, k);
    var image := Filled(variants, tag, vals, k);
    SlotRoom(variants, tag, k, a, slot, image);
    ClaimedHas(base, k);
    assert Pending(a, base, k);
    var p := PointerRuns(odd, Members(variants), slot, offset, name, a, Claimed(base));
    FieldStoreFits(variants, tag, k);
    ExtendsKeeps(a, p, Claimed(base));
    ExtendsTransitive(s, a, p, Claimed(base));
    ExtendsKeeps(s, p, Claimed(base));
    HoldsKept(s, p, operand, vals[k]);
    SlotKept(a, p, slot, variants, image);
    b := StoreRuns(odd, variants, MemOf(ty), operand, vals[k], PointerOut(offset, name), 8 + offset,
                   Lowered(ty, false).alignment, slot, p, image);
    RunsSeq(odd, PointerCode(Members(variants), slot, offset, name), [Store(MemOf(ty), operand, PointerOut(offset, name), Lowered(ty, false).alignment)],
            a, p, b);
    ClearHas(s, Claimed(base), slot);
    FilledStep(variants, tag, vals, k);
    FillingStep(s, a, p, b, base, slot, k);
  }

  lemma {:induction false} FieldStoreFits(variants: seq<Variant>, tag: nat, k: nat)
    requires tag < |variants| && k < |variants[tag].fields|
    ensures var ty := variants[tag].fields[k]; var offset := FieldOffset(variants, tag, k); var alignment := Lowered(ty, false).alignment;
            && alignment > 0 && Rem(8, alignment) == 0 && Rem(8 + offset, alignment) == 0
            && MemSize(MemOf(ty)) == Lowered(ty, false).size
            && 8 + offset + MemSize(MemOf(ty)) <= 8 + PayloadSize(variants)
  {
    hide PayloadSize, Lowered, MemOf;
    PayloadFieldFits(variants, tag, k);
    FieldBytes(variants[tag].fields[k]);
    AlignedAccess(FieldOffset(variants, tag, k), Lowered(variants[tag].fields[k], false).alignment);
  }

  /** The names taken by argument k leave the later ones free. */
  lemma {:induction false} FillingStep(s: State, a: State, p: State, b: State, base: Name, slot: Name, k: nat)
    requires Extends(s, p, Claimed(base)) && slot !in s.Names() && OnlySlot(p, b, slot)
    requires base !in a.Names() && forall j :: k <= j ==> Pending(a, base, j)
    requires forall n :: n in p.Names() ==> n in a.Names() || n == InitField(base, k) + [Payload] || n == InitField(base, k) + [Field]
    ensures Extends(s, b, Claimed(base)) && base !in b.Names() && forall j :: k + 1 <= j ==> Pending(b, base, j)
  {
    hide In, Extends;
    StoreExtends(s, p, b, slot, Claimed(base));
    assert |InitField(base, k) + [Payload]| == |InitField(base, k) + [Field]| == |base| + 3;
    forall j | k + 1 <= j ensures Pending(b, base, j) {
      assert Pending(a, base, j);
      assert (InitField(base, j) + [Payload])[|base| + 1] == Num(j) && (InitField(base, j) + [Field])[|base| + 1] == Num(j);
      assert (InitField(base, k) + [Payload])[|base| + 1] == Num(k) && (InitField(base, k) + [Field])[|base| + 1] == Num(k);
    }
  }

  /** The struct has a payload member, or variant tag has no field to put there. */
  predicate Addressable(variants: seq<Variant>, tag: nat)
    requires tag < |variants|
  {
    PayloadSize(variants) != 0 || variants[tag].fields == []
  }

  /** Code that addresses a field of a struct without a payload member cannot run. */
  lemma {:induction false} PointerStuck(odd: OddBool, members: nat, slot: Name, offset: nat, name: Name, after: seq<Line>, s: State)
    requires members <= 1
    ensures Run(odd, PointerCode(members, slot, offset, name) + after, s).None?
  {
    var address := Def(name + [Payload], GepMember(Temp(slot), members, 1));
    var rest := PointerCode(members, slot, offset, name)[1..] + after;
    assert PointerCode(members, slot, offset, name) + after == [address] + rest;
    assert StepLine(odd, s, address).None?;
    assert Run(odd, [address][..0], s) == Some(s);
    StuckAppend(odd, [address], rest, s);
  }

  lemma {:induction false} StuckAppend(odd: OddBool, a: seq<Line>, b: seq<Line>, s: State)
    requires Run(odd, a, s).None?
    ensures Run(odd, a + b, s).None?
  {
    if b == [] {
      assert a + b == a;
    } else {
      var c := b[..|b| - 1];
      StuckAppend(odd, a, c, s);
      assert (a + b)[..|a + b| - 1] == a + c;
    }
  }

  lemma {:induction false} StuckAfter(odd: OddBool, a: seq<Line>, b: seq<Line>, c: seq<Line>, s: State, t: State)
    requires Runs(odd, a, s, t) && Run(odd, b, t).None?
    ensures Run(odd, a + b + c, s).None?
  {
    RunsAppend(odd, a, b, s, t);
    StuckAppend(odd, a + b, c, s);
  }

  lemma {:induction false} InitFieldsStuck(odd: OddBool, variants: seq<Variant>, tag: nat, operands: seq<Operand>, k: nat, base: Name, s: State)
    requires tag < |variants| && 0 < k <= |operands| == |variants[tag].fields| && !Addressable(variants, tag)
    ensures Run(odd, InitFieldsCode(variants, tag, operands, k, base), s).None?
  {
    hide Run, PayloadSize, PointerCode, FieldOffset;
    var before, last := InitFieldsCode(variants, tag, operands, k - 1, base), InitFieldCode(variants, tag, k - 1, operands[k - 1], base);
    if k == 1 {
      var ty, offset := variants[tag].fields[0], FieldOffset(variants, tag, 0);
      PointerStuck(odd, Members(variants), InitSlot(base), offset, InitField(base, 0),
                   [Store(MemOf(ty), operands[0], PointerOut(offset, InitField(base, 0)), Lowered(ty, false).alignment)], s);
      assert before + last == last;
    } else {
      InitFieldsStuck(odd, variants, tag, operands, k - 1, base, s);
      StuckAppend(odd, before, last, s);
    }
  }

  /** s can run a variant_init of the arguments vals at base. */
  ghost predicate CanInit(s: State, variants: seq<Variant>, tag: nat, operands: seq<Operand>, vals: seq<Val>, base: Name) {
    && Arguments(variants, tag, vals) && |operands| == |vals|
    && Clear(s, Claimed(base))
    && forall k :: 0 <= k < |vals| ==> Holds(s, operands[k], vals[k])
  }

  lemma {:induction false} InitFieldsRun(odd: OddBool, variants: seq<Variant>, tag: nat, k: nat, operands: seq<Operand>, vals: seq<Val>,
                                         base: Name, s: State, a: State) returns (b: State)
    requires CanInit(s, variants, tag, operands, vals, base) && k <= |vals| && Addressable(variants, tag)
    requires Filling(s, a, variants, base, Filled(variants, tag, vals, 0), 0)
    ensures Runs(odd, InitFieldsCode(variants, tag, operands, k, base), a, b)
    ensures Filling(s, b, variants, base, Filled(variants, tag, vals, k), k)
  {
    hide Filled, InitFieldCode, Run, Filling, Clear;
    if k == 0 {
      b := a;
      RunsNothing(odd, a);
    } else {
      var c := InitFieldsRun(odd, variants, tag, k - 1, operands, vals, base, s, a);
      b := InitFieldRuns(odd, variants, tag, k - 1, operands[k - 1], vals, base, s, c);
      RunsSeq(odd, InitFieldsCode(variants, tag, operands, k - 1, base),
              InitFieldCode(variants, tag, k - 1, operands[k - 1], base), a, c, b);
    }
  }

  lemma {:induction false} TagFits(tag: nat)
    requires tag < 0x1_0000_0000_0000_0000
    ensures tag < Pow256(8) && Rem(8, 8) == 0 && Rem(0, 8) == 0
  {
    assert Pow256(8) == 0x1_0000_0000_0000_0000 by {
      assert Pow256(4) == 0x1_0000_0000;
      assert Pow256(6) == 0x1_0000_0000_0000;
    }
  }

  /** The slot, zeroed, and the address of its tag. */
  lemma {:induction false} ZeroedRuns(odd: OddBool, variants: seq<Variant>, base: Name, s: State) returns (p: State)
    requires Clear(s, Claimed(base))
    ensures var zero := ZeroInit(8 + PayloadSize(variants));
            Runs(odd, StackSlotCode(Enum(variants), zero, InitSlot(base)) + [Def(InitTag(base), GepMember(Temp(InitSlot(base)), Members(variants), 0))], s, p)
    ensures Extends(s, p, Claimed(base)) && p.Names() == s.Names() + {InitSlot(base), InitTag(base)}
    ensures SlotHolds(p, InitSlot(base), variants, Zeros(8 + PayloadSize(variants)))
    ensures Holds(p, Temp(InitTag(base)), Ptr(InitSlot(base), 0)) && InitSlot(base) !in s.Names()
  {
    hide PayloadSize, In, Run, Extends, Clear, StackSlotCode, SlotHolds;
    var slot, zeros := InitSlot(base), Zeros(8 + PayloadSize(variants));
    ClaimedHas(base, 0);
    ClearHas(s, Claimed(base), slot);
    ClearHas(s, Claimed(base), InitTag(base));
    var u := StackSlotRuns(odd, variants, ZeroInit(8 + PayloadSize(variants)), slot, s, zeros, Claimed(base));
    assert slot[|base| + 1] == Slot && InitTag(base)[|base| + 1] == Tag;
    SlotPoints(u, slot, variants, zeros);
    p := RunsDef(odd, u, InitTag(base), GepMember(Temp(slot), Members(variants), 0), Ptr(slot, 0), Claimed(base));
    ExtendsKeeps(u, p, Claimed(base));
    SlotKept(u, p, slot, variants, zeros);
    ExtendsTransitive(s, u, p, Claimed(base));
    RunsSeq(odd, StackSlotCode(Enum(variants), ZeroInit(8 + PayloadSize(variants)), slot),
            [Def(InitTag(base), GepMember(Temp(slot), Members(variants), 0))], s, u, p);
  }

  lemma {:induction false} OpeningRuns(odd: OddBool, variants: seq<Variant>, tag: nat, vals: seq<Val>, base: Name, s: State)
    returns (a: State)
    requires Arguments(variants, tag, vals) && Clear(s, Claimed(base))
    ensures Runs(odd, InitOpening(variants, tag, base), s, a)
    ensures Filling(s, a, variants, base, Filled(variants, tag, vals, 0), 0)
  {
    hide PayloadSize, In, Run, Extends, Clear, StackSlotCode, Encode, SlotHolds, WriteVal, Pow256, Rem, InitSlot, InitTag;
    var slot, zeros := InitSlot(base), Zeros(8 + PayloadSize(variants));
    var p := ZeroedRuns(odd, variants, base, s);
    TagFits(tag);
    a := StoreRuns(odd, variants, IntTy(8), LitI64(tag), Word(8, tag), Temp(InitTag(base)), 0, 8, slot, p, zeros);
    RunsSeq(odd, StackSlotCode(Enum(variants), ZeroInit(8 + PayloadSize(variants)), slot) + [Def(InitTag(base), GepMember(Temp(slot), Members(variants), 0))],
            [Store(IntTy(8), LitI64(tag), Temp(InitTag(base)), 8)], s, p, a);
    TagOverZeros(tag, PayloadSize(variants));
    StoreExtends(s, p, a, slot, Claimed(base));
    NothingFilled(s, a, base);
  }

  lemma {:induction false} TagOverZeros(tag: nat, payload: nat)
    requires tag < Pow256(8)
    ensures Overwrite(Zeros(8 + payload), 0, WriteVal(IntTy(8), Word(8, tag))) == Encode(tag, 8) + Zeros(payload)
  {
    hide Encode, Pow256;
  }

  lemma {:induction false} NothingFilled(s: State, a: State, base: Name)
    requires Clear(s, Claimed(base)) && a.Names() == s.Names() + {InitSlot(base), InitTag(base)}
    ensures base !in a.Names() && forall j :: 0 <= j ==> Pending(a, base, j)
  {
    hide In, Clear;
    assert |InitSlot(base)| == |InitTag(base)| == |base| + 2;
    ClaimedHas(base, 0);
    ClearHas(s, Claimed(base), base);
    forall j | 0 <= j ensures Pending(a, base, j) {
      ClaimedHas(base, j);
      ClearHas(s, Claimed(base), InitField(base, j) + [Payload]);
      ClearHas(s, Claimed(base), InitField(base, j) + [Field]);
      assert |InitField(base, j) + [Payload]| == |InitField(base, j) + [Field]| == |base| + 3;
    }
  }

  lemma {:induction false} SlotPoints(u: State, slot: Name, variants: seq<Variant>, image: Image)
    requires SlotHolds(u, slot, variants, image)
    ensures Offset(u, Temp(slot), MemberOffset(0)) == Some(Ptr(slot, 0))
  {
    hide Lowered;
  }

  lemma {:induction false} LoadSlotRuns(odd: OddBool, variants: seq<Variant>, slot: Name, target: Name, a: State, image: Image, r: Region)
    returns (t: State)
    requires SlotHolds(a, slot, variants, image) && |image| == 8 + PayloadSize(variants)
    requires target !in a.Names() && In(r, target)
    ensures Runs(odd, LoadCode(Enum(variants), Temp(slot), target), a, t)
    ensures Extends(a, t, r) && Holds(t, Temp(target), Agg(image)) && t.Names() == a.Names() + {target}
  {
    hide PayloadSize, In, Run, Extends, EnumInfo, PayloadAlignment;
    EnumAlignment(variants);
    assert Rem(8, 8) == 0 && Rem(0, 8) == 0;
    var bytes := a.mem[slot].bytes;
    assert bytes[0..|bytes|] == bytes && bytes[..|image|] == image;
    assert Eval(odd, a, Load(MemOf(Enum(variants)), Temp(slot), 8)) == Some(Agg(image));
    t := RunsDef(odd, a, target, Load(MemOf(Enum(variants)), Temp(slot), 8), Agg(image), r);
  }

  lemma {:induction false} AddressableRuns(odd: OddBool, variants: seq<Variant>, tag: nat, operands: seq<Operand>, vals: seq<Val>,
                                           base: Name, s: State) returns (t: State)
    requires CanInit(s, variants, tag, operands, vals, base) && Addressable(variants, tag)
    ensures Runs(odd, InitCode(variants, tag, operands, base), s, t)
    ensures Extends(s, t, Claimed(base))
    ensures Holds(t, Temp(base), Agg(Filled(variants, tag, vals, |vals|)))
  {
    hide PayloadSize, In, Run, Extends, Clear, SlotHolds, Filled, InitOpening, InitFieldsCode, LoadCode, Addressable;
    var a := OpeningRuns(odd, variants, tag, vals, base, s);
    var b := InitFieldsRun(odd, variants, tag, |vals|, operands, vals, base, s, a);
    ClaimedHas(base, 0);
    t := LoadSlotRuns(odd, variants, InitSlot(base), base, b, Filled(variants, tag, vals, |vals|), Claimed(base));
    ExtendsTransitive(s, b, t, Claimed(base));
    RunsSeq(odd, InitOpening(variants, tag, base), InitFieldsCode(variants, tag, operands, |operands|, base), s, a, b);
    RunsSeq(odd, InitOpening(variants, tag, base) + InitFieldsCode(variants, tag, operands, |operands|, base),
            LoadCode(Enum(variants), Temp(InitSlot(base)), base), s, b, t);
  }

  /**
   variant_init runs exactly when the enum has a payload or the variant has
   no fields, and then leaves the value built from its arguments. Fields of
   size 0 alone give no payload, and the code addresses them all the same.
   */
  lemma {:induction false} InitRuns(odd: OddBool, variants: seq<Variant>, tag: nat, operands: seq<Operand>, vals: seq<Val>,
                                    base: Name, s: State) returns (t: State)
    requires CanInit(s, variants, tag, operands, vals, base)
    ensures Run(odd, InitCode(variants, tag, operands, base), s).Some? <==> Addressable(variants, tag)
    ensures Addressable(variants, tag) ==>
              && Runs(odd, InitCode(variants, tag, operands, base), s, t)
              && Extends(s, t, Claimed(base))
              && Holds(t, Temp(base), Agg(Filled(variants, tag, vals, |vals|)))
  {
    hide PayloadSize, In, Run, Extends, Clear, Filled, InitOpening, InitFieldsCode, LoadCode;
    if Addressable(variants, tag) {
      t := AddressableRuns(odd, variants, tag, operands, vals, base, s);
    } else {
      t := OpeningRuns(odd, variants, tag, vals, base, s);
      InitFieldsStuck(odd, variants, tag, operands, |operands|, base, t);
      StuckAfter(odd, InitOpening(variants, tag, base), InitFieldsCode(variants, tag, operands, |operands|, base),
                 LoadCode(Enum(variants), Temp(InitSlot(base)), base), s, t);
    }
  }

  // ----- Running variant_match and variant_extract -----

  lemma {:induction false} EncodedTag(tag: nat, image: Image)
    requires tag < 0x1_0000_0000_0000_0000 && |image| >= 8 && image[..8] == Encode(tag, 8)
    ensures TagOf(image) == Word(8, tag)
  {
    hide Encode, Pow256;
    TagFits(tag);
    EncodeRoundTrip(tag, 8);
  }

  /** Matching any value whose tag is known compares the tags. */
  lemma {:induction false} MatchRuns(odd: OddBool, w: nat, selector: Operand, base: Name, s: State, tag: nat, image: Image)
    returns (t: State)
    requires Holds(s, selector, Agg(image)) && |image| >= 8 && TagOf(image) == Word(8, tag)
    requires w < 0x1_0000_0000_0000_0000 && Clear(s, Claimed(base))
    ensures Runs(odd, MatchCode(w, selector, base), s, t)
    ensures Extends(s, t, Claimed(base)) && Holds(t, Temp(base), Bit(tag == w))
  {
    hide In, Run, Extends, Clear, Pow256;
    TagFits(w);
    ClaimedHas(base, 0);
    ClearHas(s, Claimed(base), base);
    ClearHas(s, Claimed(base), base + [Tag]);
    var u := RunsDef(odd, s, base + [Tag], ExtractTag(selector), Word(8, tag), Claimed(base));
    assert |base + [Tag]| != |base|;
    assert tag < Pow256(8) by { assert Fits(IntTy(8), TagOf(image)); }
    t := RunsDef(odd, u, base, Icmp(PEq, IntTy(8), Temp(base + [Tag]), LitI64(w)), Bit(tag == w), Claimed(base));
    ExtendsTransitive(s, u, t, Claimed(base));
    RunsSeq(odd, [Def(base + [Tag], ExtractTag(selector))], [Def(base, Icmp(PEq, IntTy(8), Temp(base + [Tag]), LitI64(w)))], s, u, t);
  }

  lemma {:induction false} ExtractSlotRuns(odd: OddBool, variants: seq<Variant>, k: nat, selector: Operand, base: Name,
                                           s: State, image: Image) returns (a: State)
    requires |image| == 8 + PayloadSize(variants) && Holds(s, selector, Agg(image)) && Clear(s, Claimed(base))
    ensures Runs(odd, StackSlotCode(Enum(variants), selector, ExtractSlot(base)), s, a)
    ensures Extends(s, a, Claimed(base)) && SlotHolds(a, ExtractSlot(base), variants, image)
    ensures base !in a.Names() && ExtractField(base, k) + [Payload] !in a.Names() && ExtractField(base, k) + [Field] !in a.Names()
    ensures base != ExtractField(base, k) + [Payload] && base != ExtractField(base, k) + [Field]
  {
    hide PayloadSize, In, Run, Extends, Clear, StackSlotCode, SlotHolds, ExtractField, ExtractSlot;
    ClaimedHas(base, k);
    ExtractNames(s, base, k);
    a := StackSlotRuns(odd, variants, selector, ExtractSlot(base), s, image, Claimed(base));
  }

  lemma {:induction false} PayloadExtractRuns(odd: OddBool, variants: seq<Variant>, v: nat, k: nat, selector: Operand, base: Name,
                                              s: State, image: Image) returns (t: State)
    requires v < |variants| && k < |variants[v].fields| && |image| == 8 + PayloadSize(variants) != 8
    requires Holds(s, selector, Agg(image)) && Clear(s, Claimed(base))
    ensures Runs(odd, ExtractCode(variants, v, k, selector, base), s, t)
    ensures Extends(s, t, Claimed(base))
    ensures Holds(t, Temp(base), ReadVal(odd, MemOf(variants[v].fields[k]), Window(variants, v, k, image)))
  {
    hide PayloadSize, In, Run, Extends, Clear, StackSlotCode, PointerCode, PointerOut, LoadCode, SlotHolds, Lowered, MemOf,
      FieldOffset, Window, ReadVal, ExtractField, ExtractSlot;
    var ty, offset := variants[v].fields[k], FieldOffset(variants, v, k);
    var slot, name := ExtractSlot(base), ExtractField(base, k);
    ClaimedHas(base, k);
    var a := ExtractSlotRuns(odd, variants, k, selector, base, s, image);
    SlotRoom(variants, v, k, a, slot, image);
    var b := PointerRuns(odd, Members(variants), slot, offset, name, a, Claimed(base));
    ExtendsKeeps(a, b, Claimed(base));
    SlotKept(a, b, slot, variants, image);
    t := LoadWindowRuns(odd, variants, v, k, slot, PointerOut(offset, name), base, b, image, Claimed(base));
    ExtendsTransitive(s, a, b, Claimed(base));
    ExtendsTransitive(s, b, t, Claimed(base));
    RunsSeq(odd, StackSlotCode(Enum(variants), selector, slot), PointerCode(Members(variants), slot, offset, name), s, a, b);
    RunsSeq(odd, StackSlotCode(Enum(variants), selector, slot) + PointerCode(Members(variants), slot, offset, name),
            LoadCode(ty, PointerOut(offset, name), base), s, b, t);
  }

  /**
   Extracting field k as variant v runs exactly when the enum has a payload,
   and then stays inside it, whatever the value holds.
   */
  lemma {:induction false} ExtractRuns(odd: OddBool, variants: seq<Variant>, v: nat, k: nat, selector: Operand, base: Name,
                                       s: State, image: Image) returns (t: State)
    requires v < |variants| && k < |variants[v].fields| && |image| == 8 + PayloadSize(variants)
    requires Holds(s, selector, Agg(image)) && Clear(s, Claimed(base))
    ensures Run(odd, ExtractCode(variants, v, k, selector, base), s).Some? <==> PayloadSize(variants) != 0
    ensures PayloadSize(variants) != 0 ==>
              && Runs(odd, ExtractCode(variants, v, k, selector, base), s, t)
              && Extends(s, t, Claimed(base))
              && Holds(t, Temp(base), ReadVal(odd, MemOf(variants[v].fields[k]), Window(variants, v, k, image)))
  {
    hide PayloadSize, In, Run, Extends, Clear, StackSlotCode, PointerCode, PointerOut, LoadCode, SlotHolds, Lowered, MemOf,
      FieldOffset, Window, ReadVal, ExtractField, ExtractSlot;
    if PayloadSize(variants) != 0 {
      t := PayloadExtractRuns(odd, variants, v, k, selector, base, s, image);
    } else {
      t := ExtractSlotRuns(odd, variants, k, selector, base, s, image);
      var offset := FieldOffset(variants, v, k);
      var pointer := PointerCode(Members(variants), ExtractSlot(base), offset, ExtractField(base, k));
      var load := LoadCode(variants[v].fields[k], PointerOut(offset, ExtractField(base, k)), base);
      PointerStuck(odd, Members(variants), ExtractSlot(base), offset, ExtractField(base, k), load, t);
      RunsAppend(odd, StackSlotCode(Enum(variants), selector, ExtractSlot(base)), pointer + load, s, t);
      assert StackSlotCode(Enum(variants), selector, ExtractSlot(base)) + (pointer + load)
          == StackSlotCode(Enum(variants), selector, ExtractSlot(base)) + pointer + load;
    }
  }

  lemma {:induction false} ExtractNames(s: State, base: Name, k: nat)
    requires Clear(s, Claimed(base))
    ensures ExtractSlot(base) !in s.Names() && base !in s.Names() && base != ExtractSlot(base)
    ensures ExtractField(base, k) + [Payload] !in s.Names() + {ExtractSlot(base)}
    ensures ExtractField(base, k) + [Field] !in s.Names() + {ExtractSlot(base)}
    ensures base != ExtractField(base, k) + [Payload] && base != ExtractField(base, k) + [Field]
  {
    hide In, Clear;
    ClaimedHas(base, k);
    ClearHas(s, Claimed(base), base);
    ClearHas(s, Claimed(base), ExtractSlot(base));
    ClearHas(s, Claimed(base), ExtractField(base, k) + [Payload]);
    ClearHas(s, Claimed(base), ExtractField(base, k) + [Field]);
    assert ExtractSlot(base)[|base| + 1] == EnumWord;
    assert (ExtractField(base, k) + [Payload])[|base| + 1] == Num(k) && (ExtractField(base, k) + [Field])[|base| + 1] == Num(k);
  }

  lemma {:induction false} LoadWindowRuns(odd: OddBool, variants: seq<Variant>, v: nat, k: nat, slot: Name, pointer: Operand,
                                          target: Name, s: State, image: Image, r: Region) returns (t: State)
    requires v < |variants| && k < |variants[v].fields| && |image| == 8 + PayloadSize(variants)
    requires SlotHolds(s, slot, variants, image) && Holds(s, pointer, Ptr(slot, 8 + FieldOffset(variants, v, k)))
    requires target !in s.Names() && In(r, target)
    ensures Runs(odd, LoadCode(variants[v].fields[k], pointer, target), s, t)
    ensures Extends(s, t, r)
    ensures Holds(t, Temp(target), ReadVal(odd, MemOf(variants[v].fields[k]), Window(variants, v, k, image)))
  {
    hide PayloadSize, In, Run, Extends, Lowered, MemOf, FieldOffset, ReadVal, Window, Eval;
    var ty := variants[v].fields[k];
    LoadWindowEvaluates(odd, variants, v, k, slot, pointer, s, image);
    t := RunsDef(odd, s, target, Load(MemOf(ty), pointer, Lowered(ty, false).alignment),
                 ReadVal(odd, MemOf(ty), Window(variants, v, k, image)), r);
  }

  lemma {:induction false} LoadWindowEvaluates(odd: OddBool, variants: seq<Variant>, v: nat, k: nat, slot: Name, pointer: Operand,
                                               s: State, image: Image)
    requires v < |variants| && k < |variants[v].fields| && |image| == 8 + PayloadSize(variants)
    requires SlotHolds(s, slot, variants, image) && Holds(s, pointer, Ptr(slot, 8 + FieldOffset(variants, v, k)))
    ensures var ty := variants[v].fields[k];
            Eval(odd, s, Load(MemOf(ty), pointer, Lowered(ty, false).alignment)) ==
            Some(ReadVal(odd, MemOf(ty), Window(variants, v, k, image)))
  {
    hide PayloadSize, Lowered, MemOf, FieldOffset, ReadVal, Rem;
    FieldStoreFits(variants, v, k);
    var start := 8 + FieldOffset(variants, v, k);
    var size := Lowered(variants[v].fields[k], false).size;
    assert s.mem[slot].bytes[start..start + size] == s.mem[slot].bytes[..|image|][start..start + size];
  }

  // ----- Main results -----

  /**
   Matching a built value against variant w is true exactly when it was built
   as w; the code runs exactly when the value can be built.
   */
  lemma {:induction false} MatchBuilt(odd: OddBool, variants: seq<Variant>, tag: nat, operands: seq<Operand>, vals: seq<Val>,
                                      base: Name, w: nat, matched: Name, s: State) returns (t: State)
    requires CanInit(s, variants, tag, operands, vals, base) && w < |variants| && Apart(s, base, matched)
    ensures Run(odd, InitCode(variants, tag, operands, base) + MatchCode(w, Temp(base), matched), s).Some? <==> Addressable(variants, tag)
    ensures Addressable(variants, tag) ==>
              && Runs(odd, InitCode(variants, tag, operands, base) + MatchCode(w, Temp(base), matched), s, t)
              && Holds(t, Temp(matched), Bit(tag == w))
              && SingleAssignment(InitCode(variants, tag, operands, base) + MatchCode(w, Temp(base), matched), s.env.Keys)
  {
    hide PayloadSize, In, Run, Extends, Clear, Filled, InitCode, MatchCode, AssignsOnce, Apart, Addressable;
    var image := Filled(variants, tag, vals, |vals|);
    var u := InitRuns(odd, variants, tag, operands, vals, base, s);
    if Addressable(variants, tag) {
      FilledKeepsTag(variants, tag, vals, |vals|);
      EncodedTag(tag, image);
      StillClear(s, u, base, matched);
      t := MatchRuns(odd, w, Temp(base), matched, u, tag, image);
      RunsSeq(odd, InitCode(variants, tag, operands, base), MatchCode(w, Temp(base), matched), s, u, t);
      RunsIsSingleAssignment(odd, InitCode(variants, tag, operands, base) + MatchCode(w, Temp(base), matched), s, t);
    } else {
      t := u;
      StuckAppend(odd, InitCode(variants, tag, operands, base), MatchCode(w, Temp(base), matched), s);
    }
  }

  /**
   Extracting field k of a built value gives argument k back, unchanged; the
   code runs exactly when the enum has a payload.
   */
  lemma {:induction false} ExtractBuilt(odd: OddBool, variants: seq<Variant>, tag: nat, operands: seq<Operand>, vals: seq<Val>,
                                        base: Name, k: nat, extracted: Name, s: State) returns (t: State)
    requires CanInit(s, variants, tag, operands, vals, base) && k < |vals| && Apart(s, base, extracted)
    ensures Run(odd, InitCode(variants, tag, operands, base) + ExtractCode(variants, tag, k, Temp(base), extracted), s).Some?
            <==> PayloadSize(variants) != 0
    ensures PayloadSize(variants) != 0 ==>
              && Runs(odd, InitCode(variants, tag, operands, base) + ExtractCode(variants, tag, k, Temp(base), extracted), s, t)
              && Holds(t, Temp(extracted), vals[k])
              && SingleAssignment(InitCode(variants, tag, operands, base) + ExtractCode(variants, tag, k, Temp(base), extracted), s.env.Keys)
  {
    hide PayloadSize, In, Run, Extends, Clear, Filled, InitCode, ExtractCode, AssignsOnce, Apart, Window, MemOf, FieldOffset, WriteVal, ReadVal;
    var image := Filled(variants, tag, vals, |vals|);
    var u := InitRuns(odd, variants, tag, operands, vals, base, s);
    if PayloadSize(variants) != 0 {
      FilledKeepsField(variants, tag, vals, |vals|, k);
      FieldBytes(variants[tag].fields[k]);
      StoreThenLoad(odd, MemOf(variants[tag].fields[k]), vals[k]);
      StillClear(s, u, base, extracted);
      t := ExtractRuns(odd, variants, tag, k, Temp(base), extracted, u, image);
      RunsSeq(odd, InitCode(variants, tag, operands, base), ExtractCode(variants, tag, k, Temp(base), extracted), s, u, t);
      RunsIsSingleAssignment(odd, InitCode(variants, tag, operands, base) + ExtractCode(variants, tag, k, Temp(base), extracted), s, t);
    } else {
      t := u;
      StuckAppend(odd, InitCode(variants, tag, operands, base), ExtractCode(variants, tag, k, Temp(base), extracted), s);
    }
  }

  /** enum E { A(Atomic<i32>), B }, where Atomic is a struct without fields: no A can be built. */
  lemma {:induction false} EmptyFieldHasNoAddress(odd: OddBool, operand: Operand, base: Name, s: State)
    requires Clear(s, Claimed(base)) && Holds(s, operand, Agg([]))
    ensures Run(odd, InitCode([Variant([Struct(false, [])]), Variant([])], 0, [operand], base), s).None?
  {
    var variants := [Variant([Struct(false, [])]), Variant([])];
    hide Run, Clear, InitCode, Lowered, MemOf, Fits, PayloadSize;
    EmptyStructHasNoBytes();
    assert NoBytes([Struct(false, [])]);
    NoPayloadIffNoBytes(variants);
    var t := InitRuns(odd, variants, 0, [operand], [Agg([])], base, s);
  }

  lemma {:induction false} EmptyStructHasNoBytes()
    ensures Lowered(Struct(false, []), false).size == 0
    ensures Fits(MemOf(Struct(false, [])), Agg([]))
  {
    LoweringCovered(Struct(false, []), false);
    assert Infos([], true) == [];
    assert AlignTo(0, 1) == 0;
    hide Place;
  }

  /** Two instructions of one block: neither name is below the other. */
  ghost predicate Apart(s: State, base: Name, other: Name) {
    Clear(s, Claimed(other)) && forall n :: In(Claimed(base), n) ==> !In(Claimed(other), n)
  }

  lemma {:induction false} StillClear(s: State, u: State, base: Name, other: Name)
    requires Extends(s, u, Claimed(base)) && Apart(s, base, other)
    ensures Clear(u, Claimed(other))
  {
    hide In, Clear, Extends;
    ClearKept(s, u, Claimed(base), Claimed(other));
  }

  /** Temporaries of different instructions of one function never clash. */
  lemma {:induction false} InstructionsApart(s: State, a: Part, b: Part)
    requires a != b && Clear(s, Claimed([b]))
    ensures Apart(s, [a], [b])
  {
  }
}
