/**
 What the emitted comparison computes on any two byte images, misread fields
 and poison included. EnumRuns proves that running the code gives this;
 EnumOrder proves what it amounts to on images of real values.
 */
module EnumMeaning {
  import opened Layout
  import opened Ir
  import opened EnumCode

  type Image = seq<Byte>

  lemma {:induction false} ValueBytesFit(ty: Type)
    requires Orderable(ty)
    ensures ValueBytes(ty) <= Lowered(ty, false).size == MemSize(MemOf(ty))
    ensures ValueBytes(ty) > 0 && WellFormedInfo(Lowered(ty, false))
  {
    LoweringMatchesLlvm(ty, false);
    if ty.Enum? {
      EnumAlignment(ty.variants);
    }
  }

  /** A zero-size payload means no variant has fields: every field takes at least a byte. */
  lemma {:induction false} NoPayloadNoFields(variants: seq<Variant>, i: nat)
    requires OrderableVariants(variants) && PayloadSize(variants) == 0 && i < |variants|
    ensures variants[i].fields == []
  {
    if variants[i].fields != [] {
      PayloadFieldFits(variants, i, 0);
      ValueBytesFit(variants[i].fields[0]);
    }
  }

  /** The value a load of type ty makes of its value bytes. */
  function ValueOf(odd: OddBool, ty: Type, image: Image): (v: Val)
    requires Orderable(ty) && |image| == ValueBytes(ty)
    ensures Fits(MemOf(ty), v)
  {
    if ty.Bool? then ReadBit(odd, image[0])
    else if ty.Enum? then ValueBytesFit(ty); Agg(image)
    else if AllKnown(image) then LittleEndianBound(image); ReadWord(image)
    else Poison
  }

  /** Value bytes of field j read as variant i, whatever variant the image really holds. */
  function FieldImage(variants: seq<Variant>, i: nat, j: nat, image: Image): (r: Image)
    requires OrderableVariants(variants) && |image| == 8 + PayloadSize(variants)
    requires i < |variants| && j < |variants[i].fields|
    ensures |r| == ValueBytes(variants[i].fields[j])
  {
    var ty := variants[i].fields[j];
    var offset := FieldOffset(variants, i, j);
    PayloadFieldFits(variants, i, j);
    ValueBytesFit(ty);
    image[8 + offset..8 + offset + ValueBytes(ty)]
  }

  function TagOf(image: Image): (v: Val)
    requires |image| >= 8
    ensures Fits(IntTy(8), v)
  {
    if AllKnown(image[..8]) then LittleEndianBound(image[..8]); ReadWord(image[..8]) else Poison
  }

  predicate Bits(t: Triple<Val>) {
    Fits(I1, t.eq) && Fits(I1, t.lt) && Fits(I1, t.gt)
  }

  // ----- Fields and variants -----

  function Denote(odd: OddBool, ty: Type, l: Image, r: Image): (t: Triple<Val>)
    requires Orderable(ty) && |l| == |r| == ValueBytes(ty)
    ensures Bits(t)
    decreases ty, 4
  {
    if ty.Enum? then DenoteEnum(odd, ty.variants, l, r) else
      var a, b := ValueOf(odd, ty, l), ValueOf(odd, ty, r);
      Triple(
        IcmpVal(PEq, MemOf(ty), a, b),
        IcmpVal(ScalarPredicate(LtOp, UnsignedOrder(ty)), MemOf(ty), a, b),
        IcmpVal(ScalarPredicate(GtOp, UnsignedOrder(ty)), MemOf(ty), a, b))
  }

  function DenoteEnum(odd: OddBool, variants: seq<Variant>, l: Image, r: Image): (t: Triple<Val>)
    requires OrderableVariants(variants) && |l| == |r| == 8 + PayloadSize(variants)
    ensures Bits(t)
    decreases variants, 3
  {
    var eq := IcmpVal(PEq, IntTy(8), TagOf(l), TagOf(r));
    var lt := IcmpVal(PSlt, IntTy(8), TagOf(l), TagOf(r));
    var gt := IcmpVal(PSgt, IntTy(8), TagOf(l), TagOf(r));
    if PayloadSize(variants) == 0 then Triple(eq, lt, gt) else
      var same := DenoteVariants(odd, Nested, variants, 0, l, r);
      Triple(SelectVal(eq, same.eq, Bit(false)), SelectVal(eq, same.lt, lt), SelectVal(eq, same.gt, gt))
  }

  function DenoteVariants(odd: OddBool, mode: Mode, variants: seq<Variant>, i: nat, l: Image, r: Image): (t: Triple<Val>)
    requires OrderableVariants(variants) && |l| == |r| == 8 + PayloadSize(variants)
    requires i <= |variants|
    ensures Bits(t)
    decreases variants, 2, |variants| - i
  {
    if i == |variants| then
      Triple(Bit(mode.Equality?), Bit(mode.Ordering? && mode.op in {LeOp, GeOp}), Bit(false))
    else
      var rest := DenoteVariants(odd, mode, variants, i + 1, l, r);
      var v := DenoteFields(odd, mode, variants, i, 0, l, r);
      Pick(mode, IsTag(TagOf(l), i), v, rest)
  }

  function IsTag(tag: Val, i: nat): (v: Val)
    requires Fits(IntTy(8), tag)
    ensures Fits(I1, v)
  {
    if tag.Poison? then Poison else Bit(tag.n == i)
  }

  function Pick(mode: Mode, m: Val, v: Triple<Val>, rest: Triple<Val>): (t: Triple<Val>)
    requires Fits(I1, m) && Bits(v) && Bits(rest)
    ensures Bits(t)
  {
    match mode
    case Nested => Triple(SelectVal(m, v.eq, rest.eq), SelectVal(m, v.lt, rest.lt), SelectVal(m, v.gt, rest.gt))
    case Equality => Triple(SelectVal(m, v.eq, rest.eq), Bit(false), Bit(false))
    case Ordering(_) => Triple(Bit(false), SelectVal(m, v.lt, rest.lt), Bit(false))
  }

  function DenoteFields(odd: OddBool, mode: Mode, variants: seq<Variant>, i: nat, j: nat, l: Image, r: Image): (t: Triple<Val>)
    requires OrderableVariants(variants) && |l| == |r| == 8 + PayloadSize(variants)
    requires i < |variants| && j <= |variants[i].fields|
    ensures Bits(t)
    decreases variants, 1, |variants[i].fields| - j
  {
    if j == |variants[i].fields| then
      Triple(Bit(!mode.Ordering?), Bit(mode.Ordering? && mode.op in {LeOp, GeOp}), Bit(false))
    else
      var rest := DenoteFields(odd, mode, variants, i, j + 1, l, r);
      var f := Denote(odd, variants[i].fields[j], FieldImage(variants, i, j, l), FieldImage(variants, i, j, r));
      Merge(mode, f, rest)
  }

  function Merge(mode: Mode, f: Triple<Val>, rest: Triple<Val>): (t: Triple<Val>)
    requires Bits(f) && Bits(rest)
    ensures Bits(t)
  {
    match mode
    case Nested => Triple(AndVal(f.eq, rest.eq), SelectVal(f.eq, rest.lt, f.lt), SelectVal(f.eq, rest.gt, f.gt))
    case Equality => Triple(AndVal(rest.eq, f.eq), Bit(false), Bit(false))
    case Ordering(op) =>
      Triple(Bit(false), SelectVal(f.eq, rest.lt, if op in {LtOp, LeOp} then f.lt else f.gt), Bit(false))
  }

  // ----- The whole comparison -----

  function DenoteCompare(odd: OddBool, variants: seq<Variant>, op: Op, l: Image, r: Image): (v: Val)
    requires OrderableVariants(variants) && |l| == |r| == 8 + PayloadSize(variants)
    ensures Fits(I1, v)
  {
    var a, b := TagOf(l), TagOf(r);
    if PayloadSize(variants) == 0 then IcmpVal(TagPredicate(op), IntTy(8), a, b) else
      var eq := IcmpVal(PEq, IntTy(8), a, b);
      var same := DenoteVariants(odd, ModeOf(op), variants, 0, l, r);
      match op
      case EqOp => AndVal(eq, same.eq)
      case NeOp => OrVal(IcmpVal(PNe, IntTy(8), a, b), XorVal(same.eq, Bit(true)))
      case _ => SelectVal(eq, same.lt, IcmpVal(TagPredicate(op), IntTy(8), a, b))
  }
}
