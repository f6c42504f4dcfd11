/**
 The code emitted for comparing two enum values, as a function of the enum's
 variants, the operands and the base of the temporaries' names. EnumEmitter
 shows that the emitter's loops write exactly this code.
 */
module EnumCode {
  import opened Layout
  import opened Ir
  import opened Padding

  datatype Op = EqOp | NeOp | LtOp | LeOp | GtOp | GeOp

  /** Fields the ordering is defined for, with variant indices that fit a signed i64 tag. */
  predicate Orderable(ty: Type) {
    match ty
    case Bool => true
    case Int(_) => true
    case Enum(variants) => OrderableVariants(variants)
    case _ => false
  }

  predicate OrderableVariants(variants: seq<Variant>) {
    && |variants| <= 0x8000_0000_0000_0000
    && forall i, j :: 0 <= i < |variants| && 0 <= j < |variants[i].fields| ==> Orderable(variants[i].fields[j])
  }

  /** Bytes that carry the value; an enum's trailing padding is not among them. */
  function ValueBytes(ty: Type): nat {
    match ty
    case Enum(variants) => 8 + PayloadSize(variants)
    case _ => Lowered(ty, false).size
  }

  /** Values of other aggregate types move through memory as opaque bytes, without their padding. */
  function MemOf(ty: Type): MemTy {
    match ty
    case Bool => I1
    case Enum(variants) => AggTy(ValueBytes(ty), Lowered(ty, false).size)
    case Text | Buffer | Struct(_, _) | Array(_, _) | Tuple(_) => PaddedTy(ValueMask(ty))
    case _ => IntTy(Lowered(ty, false).size)
  }

  /**
   The three loops over variants and fields: nested enums inside a payload,
   and the two kinds of comparison the source program can ask for.
   */
  datatype Mode = Nested | Equality | Ordering(op: Op)

  datatype Triple<+T> = Triple(eq: T, lt: T, gt: T)

  // ----- Names -----

  function FieldName(base: Name, i: nat, j: nat): Name {
    base + [VariantWord, Num(i), Field, Num(j)]
  }

  /** Base of the names for comparing field j of variant i. */
  function SubName(mode: Mode, base: Name, i: nat, j: nat): Name {
    match mode
    case Nested => FieldName(base, i, j)
    case Equality => FieldName(base + [EnumWord, Equal], i, j)
    case Ordering(_) => FieldName(base + [EnumWord, Order], i, j)
  }

  function SlotName(mode: Mode, base: Name, side: Part): Name {
    if mode.Nested? then base + [side, Slot] else base + [EnumWord, Compare, side, Slot]
  }

  // ----- Pieces -----

  function StackSlotCode(ty: Type, value: Operand, slot: Name): seq<Line> {
    var info := Lowered(ty, false);
    [Def(slot, Alloca(info.size, info.alignment))] + [Store(MemOf(ty), value, Temp(slot), info.alignment)]
  }

  /** Members of the struct an enum lowers to: without a payload there is only the tag. */
  function MemberCount(payloadSize: nat): nat {
    if payloadSize == 0 then 1 else 2
  }

  function Members(variants: seq<Variant>): nat {
    MemberCount(PayloadSize(variants))
  }

  function PointerCode(members: nat, slot: Name, offset: nat, name: Name): seq<Line> {
    [Def(name + [Payload], GepMember(Temp(slot), members, 1))]
    + if offset == 0 then [] else [Def(name + [Field], GepByte(Temp(name + [Payload]), offset))]
  }

  function PointerOut(offset: nat, name: Name): Operand {
    Temp(name + [if offset == 0 then Payload else Field])
  }

  function LoadCode(ty: Type, pointer: Operand, target: Name): seq<Line> {
    [Def(target, Load(MemOf(ty), pointer, Lowered(ty, false).alignment))]
  }

  /** Address and load one field from both operands' slots. */
  function LoadPairCode(members: nat, ty: Type, lslot: Name, rslot: Name, offset: nat, sub: Name, field: Name): seq<Line> {
    PointerCode(members, lslot, offset, sub + [Lhs, PtrWord])
    + PointerCode(members, rslot, offset, sub + [Rhs, PtrWord])
    + LoadCode(ty, PointerOut(offset, sub + [Lhs, PtrWord]), field + [Lhs])
    + LoadCode(ty, PointerOut(offset, sub + [Rhs, PtrWord]), field + [Rhs])
  }

  predicate UnsignedOrder(ty: Type) {
    ty.Bool? || (ty.Int? && ty.kind.Unsigned())
  }

  function ScalarPredicate(op: Op, unsigned: bool): Predicate {
    match op
    case EqOp => PEq
    case NeOp => PNe
    case LtOp => if unsigned then PUlt else PSlt
    case LeOp => if unsigned then PUle else PSle
    case GtOp => if unsigned then PUgt else PSgt
    case GeOp => if unsigned then PUge else PSge
  }

  function ScalarCode(op: Op, ty: Type, left: Operand, right: Operand, target: Name): seq<Line> {
    [Def(target, Icmp(ScalarPredicate(op, UnsignedOrder(ty)), MemOf(ty), left, right))]
  }

  function TagPairCode(left: Operand, right: Operand, base: Name): seq<Line> {
    [Def(base + [Lhs, Tag], ExtractTag(left))] + [Def(base + [Rhs, Tag], ExtractTag(right))]
  }

  function TagIcmp(p: Predicate, base: Name, target: Name): seq<Line> {
    [Def(target, Icmp(p, IntTy(8), Temp(base + [Lhs, Tag]), Temp(base + [Rhs, Tag])))]
  }

  // ----- Comparing one field: eq, lt and gt at once -----

  function OrderCode(ty: Type, left: Operand, right: Operand, base: Name): seq<Line>
    decreases ty, 5
  {
    match ty
    case Enum(variants) => EnumOrderCode(variants, left, right, base)
    case _ =>
      ScalarCode(EqOp, ty, left, right, base + [Eq])
      + ScalarCode(LtOp, ty, left, right, base + [Lt])
      + ScalarCode(GtOp, ty, left, right, base + [Gt])
  }

  function OrderOut(ty: Type, base: Name): Triple<Operand> {
    if ty.Enum? && PayloadSize(ty.variants) == 0 then
      Triple(Temp(base + [Tag, Eq]), Temp(base + [Tag, Lt]), Temp(base + [Tag, Gt]))
    else
      Triple(Temp(base + [Eq]), Temp(base + [Lt]), Temp(base + [Gt]))
  }

  function EnumOrderCode(variants: seq<Variant>, left: Operand, right: Operand, base: Name): seq<Line>
    decreases variants, 4
  {
    TagPairCode(left, right, base)
    + TagIcmp(PEq, base, base + [Tag, Eq])
    + TagIcmp(PSlt, base, base + [Tag, Lt])
    + TagIcmp(PSgt, base, base + [Tag, Gt])
    + if PayloadSize(variants) == 0 then [] else
        StackSlotCode(Enum(variants), left, SlotName(Nested, base, Lhs))
        + StackSlotCode(Enum(variants), right, SlotName(Nested, base, Rhs))
        + VariantsCode(Nested, variants, 0, base)
        + NestedResultCode(variants, base)
  }

  function NestedResultCode(variants: seq<Variant>, base: Name): seq<Line> {
    var same := VariantsOut(Nested, variants, 0, base);
    [Def(base + [Eq], Select(Temp(base + [Tag, Eq]), same.eq, LitBit(false)))]
    + [Def(base + [Lt], Select(Temp(base + [Tag, Eq]), same.lt, Temp(base + [Tag, Lt])))]
    + [Def(base + [Gt], Select(Temp(base + [Tag, Eq]), same.gt, Temp(base + [Tag, Gt])))]
  }

  // ----- The loops, last variant and last field first -----

  /** Code for variants |variants| - 1 down to i. */
  function VariantsCode(mode: Mode, variants: seq<Variant>, i: nat, base: Name): seq<Line>
    requires i <= |variants|
    decreases variants, 3, |variants| - i
  {
    if i == |variants| then [] else
      VariantsCode(mode, variants, i + 1, base)
      + FieldsCode(mode, variants, i, 0, base)
      + PickCode(mode, variants, i, base)
  }

  /** Code for the fields of variant i, from the last down to j. */
  function FieldsCode(mode: Mode, variants: seq<Variant>, i: nat, j: nat, base: Name): seq<Line>
    requires i < |variants| && j <= |variants[i].fields|
    decreases variants, 2, |variants[i].fields| - j
  {
    if j == |variants[i].fields| then [] else
      FieldsCode(mode, variants, i, j + 1, base)
      + FieldCode(mode, variants, i, j, base)
  }

  function FieldOffset(variants: seq<Variant>, i: nat, j: nat): nat
    requires i < |variants| && j < |variants[i].fields|
  {
    PayloadFieldFits(variants, i, j);
    VariantPlacement(variants[i]).offsets[j]
  }

  function FieldCode(mode: Mode, variants: seq<Variant>, i: nat, j: nat, base: Name): seq<Line>
    requires i < |variants| && j < |variants[i].fields|
    decreases variants, 1
  {
    var ty := variants[i].fields[j];
    var sub := SubName(mode, base, i, j);
    var field := FieldName(base, i, j);
    LoadPairCode(Members(variants), ty, SlotName(mode, base, Lhs), SlotName(mode, base, Rhs), FieldOffset(variants, i, j), sub, field)
    + OrderCode(ty, Temp(field + [Lhs]), Temp(field + [Rhs]), sub)
    + MergeCode(mode, variants, i, j, base)
  }

  /** Name of what field j of variant i contributes. */
  function MergeName(base: Name, i: nat, word: Part, j: nat): Name {
    base + [VariantWord, Num(i), word, Num(j)]
  }

  /** Start of the fold over a variant's fields. */
  function NoFields(mode: Mode): Triple<Operand> {
    Triple(LitBit(!mode.Ordering?), LitBit(mode.Ordering? && mode.op in {LeOp, GeOp}), LitBit(false))
  }

  /** Start of the fold over the variants. */
  function NoVariants(mode: Mode): Triple<Operand> {
    Triple(LitBit(mode.Equality?), LitBit(mode.Ordering? && mode.op in {LeOp, GeOp}), LitBit(false))
  }

  /** Result of the fields of variant i from j on; components a mode does not compute stay false. */
  function FieldsOut(mode: Mode, variants: seq<Variant>, i: nat, j: nat, base: Name): Triple<Operand>
    requires i < |variants| && j <= |variants[i].fields|
  {
    if j == |variants[i].fields| then NoFields(mode)
    else
      match mode
      case Nested =>
        Triple(Temp(MergeName(base, i, Eq, j)), Temp(MergeName(base, i, Lt, j)), Temp(MergeName(base, i, Gt, j)))
      case Equality =>
        Triple(Temp(MergeName(base, i, Eq, j)), LitBit(false), LitBit(false))
      case Ordering(_) =>
        Triple(LitBit(false), Temp(MergeName(base, i, Step, j)), LitBit(false))
  }

  function MergeCode(mode: Mode, variants: seq<Variant>, i: nat, j: nat, base: Name): seq<Line>
    requires i < |variants| && j < |variants[i].fields|
  {
    var f := OrderOut(variants[i].fields[j], SubName(mode, base, i, j));
    var rest := FieldsOut(mode, variants, i, j + 1, base);
    match mode
    case Nested =>
      [Def(MergeName(base, i, Eq, j), AndBit(f.eq, rest.eq))]
      + [Def(MergeName(base, i, Lt, j), Select(f.eq, rest.lt, f.lt))]
      + [Def(MergeName(base, i, Gt, j), Select(f.eq, rest.gt, f.gt))]
    case Equality =>
      [Def(MergeName(base, i, Eq, j), AndBit(rest.eq, f.eq))]
    case Ordering(op) =>
      [Def(MergeName(base, i, Step, j), Select(f.eq, rest.lt, if op in {LtOp, LeOp} then f.lt else f.gt))]
  }

  function MatchName(base: Name, i: nat): Name {
    base + [VariantWord, Num(i), Match]
  }

  /** Result over variants i and up. */
  function VariantsOut(mode: Mode, variants: seq<Variant>, i: nat, base: Name): Triple<Operand>
    requires i <= |variants|
  {
    if i == |variants| then NoVariants(mode)
    else
      match mode
      case Nested =>
        Triple(Temp(base + [Same, Eq, Num(i)]), Temp(base + [Same, Lt, Num(i)]), Temp(base + [Same, Gt, Num(i)]))
      case Equality =>
        Triple(Temp(base + [SameTag, Eq, Num(i)]), LitBit(false), LitBit(false))
      case Ordering(_) =>
        Triple(LitBit(false), Temp(base + [SameTag, Num(i)]), LitBit(false))
  }

  /** Keep variant i's result if the left tag is i. */
  function PickCode(mode: Mode, variants: seq<Variant>, i: nat, base: Name): seq<Line>
    requires i < |variants|
  {
    [Def(MatchName(base, i), Icmp(PEq, IntTy(8), Temp(base + [Lhs, Tag]), LitI64(i)))]
    + PickSelects(mode, variants, i, base)
  }

  function PickSelects(mode: Mode, variants: seq<Variant>, i: nat, base: Name): seq<Line>
    requires i < |variants|
  {
    var v := FieldsOut(mode, variants, i, 0, base);
    var rest := VariantsOut(mode, variants, i + 1, base);
    var m := Temp(MatchName(base, i));
    match mode
    case Nested =>
      [Def(base + [Same, Eq, Num(i)], Select(m, v.eq, rest.eq))]
      + [Def(base + [Same, Lt, Num(i)], Select(m, v.lt, rest.lt))]
      + [Def(base + [Same, Gt, Num(i)], Select(m, v.gt, rest.gt))]
    case Equality =>
      [Def(base + [SameTag, Eq, Num(i)], Select(m, v.eq, rest.eq))]
    case Ordering(_) =>
      [Def(base + [SameTag, Num(i)], Select(m, v.lt, rest.lt))]
  }

  // ----- The whole comparison -----

  function ModeOf(op: Op): Mode {
    if op in {EqOp, NeOp} then Equality else Ordering(op)
  }

  /** Signed: an enum's source name is never one of the unsigned builtins. */
  function TagPredicate(op: Op): Predicate {
    ScalarPredicate(op, false)
  }

  /** Orderings also need how the tags compare. */
  function OrderTagCode(op: Op, base: Name): seq<Line> {
    if op in {EqOp, NeOp} then [] else TagIcmp(TagPredicate(op), base, base + [Tag, Order])
  }

  function CompareCode(variants: seq<Variant>, op: Op, left: Operand, right: Operand, base: Name): seq<Line> {
    TagPairCode(left, right, base)
    + if PayloadSize(variants) == 0 then TagIcmp(TagPredicate(op), base, base) else
        TagIcmp(PEq, base, base + [Tag, Eq])
        + StackSlotCode(Enum(variants), left, SlotName(ModeOf(op), base, Lhs))
        + StackSlotCode(Enum(variants), right, SlotName(ModeOf(op), base, Rhs))
        + OrderTagCode(op, base)
        + VariantsCode(ModeOf(op), variants, 0, base)
        + ResultCode(variants, op, base)
  }

  function ResultCode(variants: seq<Variant>, op: Op, base: Name): seq<Line> {
    var same := VariantsOut(ModeOf(op), variants, 0, base);
    match op
    case EqOp =>
      [Def(base, AndBit(Temp(base + [Tag, Eq]), same.eq))]
    case NeOp =>
      TagIcmp(PNe, base, base + [Tag, Ne])
      + [Def(base + [Payload, Ne], XorBit(same.eq, LitBit(true)))]
      + [Def(base, OrBit(Temp(base + [Tag, Ne]), Temp(base + [Payload, Ne])))]
    case _ =>
      [Def(base, Select(Temp(base + [Tag, Eq]), same.lt, Temp(base + [Tag, Order])))]
  }
}
