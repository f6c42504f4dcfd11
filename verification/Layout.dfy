/**
 The types the backend can lower, the size, alignment and representation it
 picks for each, and an independent statement of how LLVM lays that
 representation out.
 */
module Layout {
  import opened Arith

  // ----- Source types -----

  datatype IntKind = I8 | I16 | I32 | I64 | Isize | U8 | U16 | U32 | U64 | Usize | Uintptr {
    function Bytes(): (n: nat)
      ensures n in {1, 2, 4, 8}
    {
      match this
      case I8 | U8 => 1
      case I16 | U16 => 2
      case I32 | U32 => 4
      case _ => 8
    }

    predicate Unsigned() {
      this in {U8, U16, U32, U64, Usize, Uintptr}
    }

    /** The smallest value of the type. */
    function Least(): int {
      match this
      case I8 => -128
      case I16 => -32768
      case I32 => -0x8000_0000
      case I64 | Isize => -0x8000_0000_0000_0000
      case U8 | U16 | U32 | U64 | Usize | Uintptr => 0
    }

    /** The largest value of the type. */
    function Greatest(): int {
      match this
      case I8 => 127
      case I16 => 32767
      case I32 => 0x7fff_ffff
      case I64 | Isize => 0x7fff_ffff_ffff_ffff
      case U8 => 255
      case U16 => 65535
      case U32 => 0xffff_ffff
      case U64 | Usize | Uintptr => 0xffff_ffff_ffff_ffff
    }

    predicate Admits(v: int) {
      Least() <= v <= Greatest()
    }
  }

  datatype Type =
    | Bool
    | Int(kind: IntKind)
    | Float32
    | Float64
    | Pointer
    | Text                 // str, string, cstr and Slice: a pointer and a length
    | Buffer
    | Struct(packed: bool, fields: seq<Type>)
    | Array(length: nat, element: Type)
    | Tuple(fields: seq<Type>)
    | Enum(variants: seq<Variant>)

  datatype Variant = Variant(fields: seq<Type>)

  // ----- Emitted representations -----

  datatype Repr =
    | ReprI1
    | ReprInt(bytes: nat)
    | ReprFloat
    | ReprDouble
    | ReprPtr
    | ReprStruct(packed: bool, members: seq<Repr>)
    | ReprArray(length: nat, element: Repr)

  datatype TypeInfo = TypeInfo(repr: Repr, size: nat, alignment: nat)

  /** Alignments the lowering produces; they divide each other, which is why sizes stay aligned. */
  predicate IsAlignment(a: nat) {
    a in {1, 2, 4, 8}
  }

  // ----- Placing a list of fields -----

  datatype Placement = Placement(offsets: seq<nat>, end: nat, alignment: nat)

  function FieldAlignment(packed: bool, info: TypeInfo): nat {
    if packed then 1 else info.alignment
  }

  /** Where the accumulating loop puts each field: at the next aligned offset, left to right. */
  function Place(packed: bool, infos: seq<TypeInfo>): Placement {
    if infos == [] then Placement([], 0, 1) else
      var before := Place(packed, infos[..|infos| - 1]);
      var info := infos[|infos| - 1];
      var offset := if packed then before.end else AlignTo(before.end, info.alignment);
      Placement(before.offsets + [offset], offset + info.size, Max(before.alignment, FieldAlignment(packed, info)))
  }

  function PlacedSize(packed: bool, p: Placement): nat {
    if packed then p.end else AlignTo(p.end, p.alignment)
  }

  function SizeOfAll(infos: seq<TypeInfo>): nat {
    if infos == [] then 0 else SizeOfAll(infos[..|infos| - 1]) + infos[|infos| - 1].size
  }

  /** Packed fields follow each other without gaps. */
  lemma {:induction false} PackedPlaced(infos: seq<TypeInfo>)
    ensures Place(true, infos).alignment == 1 && Place(true, infos).end == SizeOfAll(infos)
  {
    if infos != [] {
      PackedPlaced(infos[..|infos| - 1]);
    }
  }

  predicate WellFormedInfo(info: TypeInfo) {
    IsAlignment(info.alignment) && Rem(info.size, info.alignment) == 0
  }

  predicate WellFormedInfos(infos: seq<TypeInfo>) {
    forall i :: 0 <= i < |infos| ==> WellFormedInfo(infos[i])
  }

  /** Fields are aligned, in order, disjoint and inside [0, end). */
  predicate Separated(packed: bool, infos: seq<TypeInfo>, p: Placement)
    requires WellFormedInfos(infos)
  {
    && |p.offsets| == |infos|
    && IsAlignment(p.alignment)
    && (forall i :: 0 <= i < |infos| ==>
          && p.offsets[i] + infos[i].size <= p.end
          && (packed || Rem(p.offsets[i], infos[i].alignment) == 0)
          && (packed || infos[i].alignment <= p.alignment))
    && (forall i, j :: 0 <= i < j < |infos| ==> p.offsets[i] + infos[i].size <= p.offsets[j])
  }

  lemma {:induction false} PlaceSeparated(packed: bool, infos: seq<TypeInfo>)
    requires WellFormedInfos(infos)
    ensures Separated(packed, infos, Place(packed, infos))
  {
    hide AlignTo, Separated, Rem;
    if infos == [] {
      NothingSeparated(packed);
    } else {
      var n := |infos| - 1;
      PlaceSeparated(packed, infos[..n]);
      var before := Place(packed, infos[..n]);
      AlignToIsLeastMultiple(before.end, infos[n].alignment);
      var offset := if packed then before.end else AlignTo(before.end, infos[n].alignment);
      SeparatedStep(packed, infos, before, offset);
    }
  }

  lemma {:induction false} NothingSeparated(packed: bool)
    ensures Separated(packed, [], Placement([], 0, 1))
  {
  }

  /** One more field behind the others. */
  lemma {:induction false} SeparatedStep(packed: bool, infos: seq<TypeInfo>, before: Placement, offset: nat)
    requires infos != [] && WellFormedInfos(infos) && Separated(packed, infos[..|infos| - 1], before)
    requires before.end <= offset && (packed || Rem(offset, infos[|infos| - 1].alignment) == 0)
    ensures var info := infos[|infos| - 1];
            Separated(packed, infos, Placement(before.offsets + [offset], offset + info.size,
                                               Max(before.alignment, FieldAlignment(packed, info))))
  {
    hide Rem;
    var n := |infos| - 1;
    var info := infos[n];
    assert WellFormedInfo(info);
    var p := Placement(before.offsets + [offset], offset + info.size, Max(before.alignment, FieldAlignment(packed, info)));
    forall i | 0 <= i < |infos|
      ensures p.offsets[i] + infos[i].size <= p.end
      ensures packed || (Rem(p.offsets[i], infos[i].alignment) == 0 && infos[i].alignment <= p.alignment)
    {
      if i < n {
        assert infos[i] == infos[..n][i] && p.offsets[i] == before.offsets[i];
      }
    }
    forall i, j | 0 <= i < j < |infos| ensures p.offsets[i] + infos[i].size <= p.offsets[j] {
      assert infos[i] == infos[..n][i] && p.offsets[i] == before.offsets[i];
      if j < n {
        assert infos[j] == infos[..n][j] && p.offsets[j] == before.offsets[j];
      }
    }
  }

  // ----- The lowering as a function of the type -----

  function Infos(fields: seq<Type>, storage: bool): (infos: seq<TypeInfo>)
    ensures |infos| == |fields|
    ensures forall i :: 0 <= i < |fields| ==> infos[i] == Lowered(fields[i], storage)
    decreases fields, 0
  {
    seq(|fields|, i requires 0 <= i < |fields| => Lowered(fields[i], storage))
  }

  function Reprs(infos: seq<TypeInfo>): (reprs: seq<Repr>)
    ensures |reprs| == |infos|
    ensures forall i :: 0 <= i < |infos| ==> reprs[i] == infos[i].repr
  {
    seq(|infos|, i requires 0 <= i < |infos| => infos[i].repr)
  }

  /** LowerTypeInfoImpl; storage is its aggregate_field_storage flag, which turns i1 into i8. */
  function Lowered(ty: Type, storage: bool): TypeInfo
    decreases ty, 1
  {
    match ty
    case Bool => TypeInfo(if storage then ReprInt(1) else ReprI1, 1, 1)
    case Int(kind) => TypeInfo(ReprInt(kind.Bytes()), kind.Bytes(), kind.Bytes())
    case Float32 => TypeInfo(ReprFloat, 4, 4)
    case Float64 => TypeInfo(ReprDouble, 8, 8)
    case Pointer => TypeInfo(ReprPtr, 8, 8)
    case Text => TypeInfo(ReprStruct(false, [ReprPtr, ReprInt(8)]), 16, 8)
    case Buffer => TypeInfo(ReprStruct(false, [ReprPtr, ReprInt(8), ReprInt(8), ReprPtr]), 32, 8)
    case Struct(packed, fields) =>
      var infos := Infos(fields, true);
      var p := Place(packed, infos);
      TypeInfo(ReprStruct(packed, Reprs(infos)), PlacedSize(packed, p), p.alignment)
    case Array(length, element) =>
      var info := Lowered(element, storage);
      TypeInfo(ReprArray(length, info.repr), info.size * length, info.alignment)
    case Tuple(fields) =>
      var infos := Infos(fields, storage);
      var p := Place(false, infos);
      TypeInfo(ReprStruct(false, Reprs(infos)), PlacedSize(false, p), p.alignment)
    case Enum(variants) =>
      EnumInfo(PayloadSize(variants), PayloadAlignment(variants))
  }

  function EnumInfo(payloadSize: nat, payloadAlignment: nat): TypeInfo {
    var alignment := Max(8, payloadAlignment);
    TypeInfo(
      ReprStruct(false, if payloadSize == 0 then [ReprInt(8)] else [ReprInt(8), ReprArray(payloadSize, ReprInt(1))]),
      AlignTo(8 + payloadSize, alignment),
      alignment)
  }

  function VariantPlacement(variant: Variant): Placement
    decreases variant, 2
  {
    Place(false, Infos(variant.fields, false))
  }

  /** Largest variant, each rounded up to its own alignment. */
  function PayloadSize(variants: seq<Variant>): nat
    decreases variants
  {
    if variants == [] then 0 else
      var p := VariantPlacement(variants[|variants| - 1]);
      Max(PayloadSize(variants[..|variants| - 1]), AlignTo(p.end, p.alignment))
  }

  function PayloadAlignment(variants: seq<Variant>): nat
    decreases variants
  {
    if variants == [] then 1 else
      Max(PayloadAlignment(variants[..|variants| - 1]), VariantPlacement(variants[|variants| - 1]).alignment)
  }

  // ----- The lowering as the backend runs it: accumulating loops -----

  method LowerType(ty: Type, storage: bool) returns (info: TypeInfo)
    ensures info == Lowered(ty, storage)
    decreases ty, 1
  {
    match ty
    case Struct(packed, fields) =>
      info := LowerStruct(packed, fields);
    case Array(length, element) =>
      var lowered := LowerType(element, storage);
      info := TypeInfo(ReprArray(length, lowered.repr), lowered.size * length, lowered.alignment);
    case Tuple(fields) =>
      info := LowerTuple(fields, storage);
    case Enum(variants) =>
      var layout := LowerEnumLayout(variants);
      info := layout.aggregate;
    case _ =>
      info := Lowered(ty, storage);
  }

  method LowerStruct(packed: bool, fields: seq<Type>) returns (info: TypeInfo)
    ensures info == Lowered(Struct(packed, fields), true)
    decreases fields, 2
  {
    hide AlignTo, PayloadSize, PayloadAlignment, EnumInfo;
    ghost var infos := Infos(fields, true);
    var members: seq<Repr> := [];
    var size: nat := 0;
    var alignment: nat := 1;
    for index := 0 to |fields|
      invariant members == Reprs(infos)[..index]
      invariant size == Place(packed, infos[..index]).end
      invariant alignment == Place(packed, infos[..index]).alignment
    {
      var field := LowerType(fields[index], true);
      assert infos[..index + 1][..index] == infos[..index];
      members := members + [field.repr];
      if !packed {
        size := AlignTo(size, field.alignment);
      }
      size := size + field.size;
      alignment := Max(alignment, FieldAlignment(packed, field));
    }
    assert infos[..|fields|] == infos && Reprs(infos)[..|fields|] == Reprs(infos);
    info := TypeInfo(ReprStruct(packed, members), if packed then size else AlignTo(size, alignment), alignment);
  }

  method LowerTuple(fields: seq<Type>, storage: bool) returns (info: TypeInfo)
    ensures info == Lowered(Tuple(fields), storage)
    decreases fields, 2
  {
    hide AlignTo, PayloadSize, PayloadAlignment, EnumInfo;
    ghost var infos := Infos(fields, storage);
    var members: seq<Repr> := [];
    var size: nat := 0;
    var alignment: nat := 1;
    for index := 0 to |fields|
      invariant members == Reprs(infos)[..index]
      invariant size == Place(false, infos[..index]).end
      invariant alignment == Place(false, infos[..index]).alignment
    {
      var field := LowerType(fields[index], storage);
      assert infos[..index + 1][..index] == infos[..index];
      members := members + [field.repr];
      size := AlignTo(size, field.alignment) + field.size;
      alignment := Max(alignment, field.alignment);
    }
    assert infos[..|fields|] == infos && Reprs(infos)[..|fields|] == Reprs(infos);
    info := TypeInfo(ReprStruct(false, members), AlignTo(size, alignment), alignment);
  }

  datatype EnumLayout = EnumLayout(
    aggregate: TypeInfo,
    payloadSize: nat,
    payloadAlignment: nat,
    fieldTypes: seq<seq<TypeInfo>>,
    offsets: seq<seq<nat>>)

  function FieldTypes(variants: seq<Variant>): seq<seq<TypeInfo>> {
    seq(|variants|, i requires 0 <= i < |variants| => Infos(variants[i].fields, false))
  }

  function PayloadOffsets(variants: seq<Variant>): seq<seq<nat>> {
    seq(|variants|, i requires 0 <= i < |variants| => VariantPlacement(variants[i]).offsets)
  }

  function EnumLayoutOf(variants: seq<Variant>): EnumLayout {
    EnumLayout(
      EnumInfo(PayloadSize(variants), PayloadAlignment(variants)),
      PayloadSize(variants), PayloadAlignment(variants),
      FieldTypes(variants), PayloadOffsets(variants))
  }

  method LowerEnumLayout(variants: seq<Variant>) returns (layout: EnumLayout)
    ensures layout == EnumLayoutOf(variants)
    decreases variants, 2
  {
    hide AlignTo, Lowered, Place;
    var payloadSize: nat := 0;
    var payloadAlignment: nat := 1;
    var fieldTypes: seq<seq<TypeInfo>> := [];
    var offsets: seq<seq<nat>> := [];
    for index := 0 to |variants|
      invariant payloadSize == PayloadSize(variants[..index])
      invariant payloadAlignment == PayloadAlignment(variants[..index])
      invariant fieldTypes == FieldTypes(variants)[..index]
      invariant offsets == PayloadOffsets(variants)[..index]
    {
      var variantTypes, variantOffsets, end, alignment := LowerVariant(variants[index].fields);
      assert variants[..index + 1][..index] == variants[..index];
      payloadSize := Max(payloadSize, AlignTo(end, alignment));
      payloadAlignment := Max(payloadAlignment, alignment);
      fieldTypes := fieldTypes + [variantTypes];
      offsets := offsets + [variantOffsets];
    }
    assert variants[..|variants|] == variants;
    layout := EnumLayout(EnumInfo(payloadSize, payloadAlignment), payloadSize, payloadAlignment, fieldTypes, offsets);
  }

  /** The inner loop of LowerEnumLayout. */
  method LowerVariant(fields: seq<Type>)
    returns (types: seq<TypeInfo>, offsets: seq<nat>, end: nat, alignment: nat)
    ensures types == Infos(fields, false)
    ensures Placement(offsets, end, alignment) == Place(false, Infos(fields, false))
    decreases fields, 2
  {
    hide AlignTo, PayloadSize, PayloadAlignment, EnumInfo;
    ghost var infos := Infos(fields, false);
    types, offsets, end, alignment := [], [], 0, 1;
    for index := 0 to |fields|
      invariant types == infos[..index]
      invariant Placement(offsets, end, alignment) == Place(false, infos[..index])
    {
      var field := LowerType(fields[index], false);
      assert infos[..index + 1][..index] == infos[..index];
      end := AlignTo(end, field.alignment);
      offsets := offsets + [end];
      end := end + field.size;
      alignment := Max(alignment, field.alignment);
      types := types + [field];
    }
    assert infos[..|fields|] == infos;
  }

  // ----- What LLVM does with a representation -----

  datatype Extent = Extent(size: nat, alignment: nat)

  /**
   LLVM's rules for the Darwin arm64 data layout (LLVM Language Reference,
   sections "Data Layout" and "Structure Type"): allocation size and ABI
   alignment of a representation, stated without the lowering's arithmetic.
   */
  ghost predicate Lays(repr: Repr, e: Extent)
    decreases repr, 1
  {
    match repr
    case ReprI1 => e == Extent(1, 1)
    case ReprInt(bytes) => e == Extent(bytes, bytes)
    case ReprFloat => e == Extent(4, 4)
    case ReprDouble => e == Extent(8, 8)
    case ReprPtr => e == Extent(8, 8)
    case ReprStruct(packed, members) =>
      exists offsets: seq<nat>, parts: seq<Extent> :: StructLays(packed, members, offsets, parts, e)
    case ReprArray(length, element) =>
      exists part: Extent :: Lays(element, part) && e == Extent(part.size * length, part.alignment)
  }

  /** Member i starts at the first offset its alignment allows after the members before it. */
  ghost predicate FirstFit(packed: bool, parts: seq<Extent>, offsets: seq<nat>, i: nat)
    requires i < |parts| == |offsets| && parts[i].alignment > 0
  {
    IsLeastMultiple(EndOf(offsets, parts, i), if packed then 1 else parts[i].alignment, offsets[i])
  }

  /** Every member at the first offset its alignment allows, the whole rounded up to the largest alignment. */
  ghost predicate StructLays(packed: bool, members: seq<Repr>, offsets: seq<nat>, parts: seq<Extent>, e: Extent)
    decreases members, 0
  {
    && |offsets| == |parts| == |members|
    && (forall i :: 0 <= i < |members| ==> Lays(members[i], parts[i]) && parts[i].alignment > 0)
    && (forall i :: 0 <= i < |members| ==> FirstFit(packed, parts, offsets, i))
    && e.alignment > 0
    && (forall i :: 0 <= i < |members| ==> packed || parts[i].alignment <= e.alignment)
    && (e.alignment == 1 || (!packed && exists i :: 0 <= i < |members| && parts[i].alignment == e.alignment))
    && IsLeastMultiple(EndOf(offsets, parts, |members|), e.alignment, e.size)
  }

  /** End of the members before index i. */
  function EndOf(offsets: seq<nat>, parts: seq<Extent>, i: nat): nat
    requires |offsets| == |parts| && i <= |parts|
  {
    if i == 0 then 0 else offsets[i - 1] + parts[i - 1].size
  }

  function Extents(infos: seq<TypeInfo>): (es: seq<Extent>)
    ensures |es| == |infos|
    ensures forall i :: 0 <= i < |infos| ==> es[i] == Extent(infos[i].size, infos[i].alignment)
  {
    seq(|infos|, i requires 0 <= i < |infos| => Extent(infos[i].size, infos[i].alignment))
  }

  predicate PositiveAlignments(infos: seq<TypeInfo>) {
    forall i :: 0 <= i < |infos| ==> infos[i].alignment > 0
  }

  /** The placement loop satisfies LLVM's structure rule, apart from the final rounding. */
  ghost predicate PlacedLikeLlvm(packed: bool, infos: seq<TypeInfo>, p: Placement)
    requires PositiveAlignments(infos)
  {
    var parts := Extents(infos);
    && |p.offsets| == |infos|
    && p.end == EndOf(p.offsets, parts, |infos|)
    && (forall i :: 0 <= i < |infos| ==> FirstFit(packed, parts, p.offsets, i))
    && (forall i :: 0 <= i < |infos| ==> packed || infos[i].alignment <= p.alignment)
    && (p.alignment == 1 || (!packed && exists i :: 0 <= i < |infos| && infos[i].alignment == p.alignment))
  }

  lemma {:induction false} PlaceIsLlvmPlacement(packed: bool, infos: seq<TypeInfo>)
    requires PositiveAlignments(infos)
    ensures PlacedLikeLlvm(packed, infos, Place(packed, infos))
  {
    hide AlignTo, PlacedLikeLlvm, IsLeastMultiple;
    if infos == [] {
      NothingPlaced(packed);
    } else {
      var n := |infos| - 1;
      PlaceIsLlvmPlacement(packed, infos[..n]);
      var before := Place(packed, infos[..n]);
      var offset := if packed then before.end else AlignTo(before.end, infos[n].alignment);
      AlignToIsLeastMultiple(before.end, infos[n].alignment);
      AnyMultipleOfOne(before.end);
      PlacedStep(packed, infos, before, offset);
    }
  }

  lemma {:induction false} NothingPlaced(packed: bool)
    ensures PlacedLikeLlvm(packed, [], Placement([], 0, 1))
  {
  }

  lemma {:induction false} AnyMultipleOfOne(value: nat)
    ensures IsLeastMultiple(value, 1, value)
  {
    AlignToIsLeastMultiple(value, 1);
  }

  /** One more member at the first offset its alignment allows. */
  lemma {:induction false} PlacedStep(packed: bool, infos: seq<TypeInfo>, before: Placement, offset: nat)
    requires infos != [] && PositiveAlignments(infos) && PlacedLikeLlvm(packed, infos[..|infos| - 1], before)
    requires IsLeastMultiple(before.end, if packed then 1 else infos[|infos| - 1].alignment, offset)
    ensures var info := infos[|infos| - 1];
            PlacedLikeLlvm(packed, infos, Placement(before.offsets + [offset], offset + info.size,
                                                    Max(before.alignment, FieldAlignment(packed, info))))
  {
    hide IsLeastMultiple;
    var n := |infos| - 1;
    var p := Placement(before.offsets + [offset], offset + infos[n].size, Max(before.alignment, FieldAlignment(packed, infos[n])));
    var parts := Extents(infos);
    assert p.offsets[..n] == before.offsets && parts[..n] == Extents(infos[..n]);
    forall i | 0 <= i < |infos| ensures FirstFit(packed, parts, p.offsets, i) {
      if i < n {
        assert FirstFit(packed, parts[..n], before.offsets, i);
      } else {
        assert before.end == EndOf(p.offsets, parts, n);
      }
    }
    forall i | 0 <= i < n ensures infos[..n][i] == infos[i] {
    }
    LargestAlignment(packed, infos, n, before.alignment, p.alignment);
  }

  lemma {:induction false} LargestAlignment(packed: bool, infos: seq<TypeInfo>, n: nat, before: nat, after: nat)
    requires |infos| == n + 1
    requires forall i :: 0 <= i < n ==> packed || infos[i].alignment <= before
    requires before == 1 || (!packed && exists i :: 0 <= i < n && infos[i].alignment == before)
    requires after == Max(before, FieldAlignment(packed, infos[n]))
    ensures forall i :: 0 <= i < |infos| ==> packed || infos[i].alignment <= after
    ensures after == 1 || (!packed && exists i :: 0 <= i < |infos| && infos[i].alignment == after)
  {
    if !packed && after != 1 {
      if after == before {
        var i :| 0 <= i < n && infos[i].alignment == before;
        assert infos[i].alignment == after;
      } else {
        assert infos[n].alignment == after;
      }
    }
  }

  lemma {:induction false} StructMatchesLlvm(packed: bool, infos: seq<TypeInfo>, size: nat, alignment: nat)
    requires WellFormedInfos(infos)
    requires forall i :: 0 <= i < |infos| ==> Lays(infos[i].repr, Extent(infos[i].size, infos[i].alignment))
    requires var p := Place(packed, infos); size == PlacedSize(packed, p) && alignment == p.alignment
    ensures Lays(ReprStruct(packed, Reprs(infos)), Extent(size, alignment))
    ensures IsAlignment(alignment) && Rem(size, alignment) == 0
  {
    hide AlignTo;
    var p := Place(packed, infos);
    PlaceSeparated(packed, infos);
    PlaceIsLlvmPlacement(packed, infos);
    AlignToIsLeastMultiple(p.end, p.alignment);
    assert StructLays(packed, Reprs(infos), p.offsets, Extents(infos), Extent(size, alignment));
  }

  lemma {:induction false} PayloadAlignmentIsAlignment(variants: seq<Variant>)
    requires forall i :: 0 <= i < |variants| ==> WellFormedInfos(Infos(variants[i].fields, false))
    ensures IsAlignment(PayloadAlignment(variants))
  {
    if variants != [] {
      PayloadAlignmentIsAlignment(variants[..|variants| - 1]);
      PlaceSeparated(false, Infos(variants[|variants| - 1].fields, false));
    }
  }

  lemma {:induction false} EnumMatchesLlvm(payloadSize: nat, payloadAlignment: nat)
    requires IsAlignment(payloadAlignment)
    ensures var info := EnumInfo(payloadSize, payloadAlignment);
            Lays(info.repr, Extent(info.size, info.alignment)) && WellFormedInfo(info) && info.alignment == 8
  {
    hide AlignTo;
    var info := EnumInfo(payloadSize, payloadAlignment);
    AlignToIsLeastMultiple(8 + payloadSize, 8);
    var e := Extent(info.size, info.alignment);
    if payloadSize == 0 {
      var offsets: seq<nat>, parts := [0], [Extent(8, 8)];
      assert FirstFit(false, parts, offsets, 0) && parts[0].alignment == e.alignment;
      assert EndOf(offsets, parts, 1) == 8;
      assert StructLays(false, info.repr.members, offsets, parts, e);
    } else {
      assert Lays(ReprInt(1), Extent(1, 1));
      assert Lays(info.repr.members[1], Extent(payloadSize, 1));
      var offsets: seq<nat>, parts := [0, 8], [Extent(8, 8), Extent(payloadSize, 1)];
      assert FirstFit(false, parts, offsets, 0) && FirstFit(false, parts, offsets, 1);
      assert parts[0].alignment == e.alignment && EndOf(offsets, parts, 2) == 8 + payloadSize;
      assert StructLays(false, info.repr.members, offsets, parts, e);
    }
  }

  /** Any struct of n eight-byte words, the shape of strings, slices and buffers. */
  lemma {:induction false} WordsMatchLlvm(members: seq<Repr>)
    requires |members| > 0
    requires forall i :: 0 <= i < |members| ==> members[i] == ReprPtr || members[i] == ReprInt(8)
    ensures Lays(ReprStruct(false, members), Extent(8 * |members|, 8))
  {
    var n := |members|;
    var offsets: seq<nat> := seq(n, i requires 0 <= i < n => 8 * i);
    var parts := seq(n, i requires 0 <= i < n => Extent(8, 8));
    forall i | 0 <= i < n ensures FirstFit(false, parts, offsets, i) {
      ProductStaysAligned(8, i, 8);
      assert EndOf(offsets, parts, i) == 8 * i;
    }
    ProductStaysAligned(8, n, 8);
    assert parts[0].alignment == 8 && EndOf(offsets, parts, n) == 8 * n;
    assert StructLays(false, members, offsets, parts, Extent(8 * n, 8));
  }

  lemma {:induction false} WordsInfo(members: seq<Repr>, info: TypeInfo)
    requires |members| > 0
    requires forall i :: 0 <= i < |members| ==> members[i] == ReprPtr || members[i] == ReprInt(8)
    requires info == TypeInfo(ReprStruct(false, members), 8 * |members|, 8)
    ensures FieldMatches(info)
  {
    hide Lays, Rem;
    WordsMatchLlvm(members);
    ProductStaysAligned(8, |members|, 8) by { assert Rem(8, 8) == 0 by { EightDividesItself(); } }
  }

  lemma {:induction false} EightDividesItself()
    ensures Rem(8, 8) == 0
  {
  }

  lemma {:induction false} ScalarMatchesLlvm(ty: Type, storage: bool)
    requires !ty.Struct? && !ty.Array? && !ty.Tuple? && !ty.Enum?
    ensures FieldMatches(Lowered(ty, storage))
  {
    if ty.Text? {
      hide FieldMatches;
      WordsInfo([ReprPtr, ReprInt(8)], Lowered(ty, storage));
    } else if ty.Buffer? {
      hide FieldMatches;
      WordsInfo([ReprPtr, ReprInt(8), ReprInt(8), ReprPtr], Lowered(ty, storage));
    }
  }

  lemma {:induction false} ArrayMatchesLlvm(length: nat, info: TypeInfo)
    requires FieldMatches(info)
    ensures FieldMatches(TypeInfo(ReprArray(length, info.repr), info.size * length, info.alignment))
  {
    var part := Extent(info.size, info.alignment);
    assert Lays(info.repr, part);
    ProductStaysAligned(info.size, length, info.alignment);
  }

  /** The size and alignment computed for any type are those LLVM gives the emitted representation. */
  lemma {:induction false} LoweringMatchesLlvm(ty: Type, storage: bool)
    ensures var info := Lowered(ty, storage);
            Lays(info.repr, Extent(info.size, info.alignment)) && WellFormedInfo(info)
    decreases ty
  {
    hide Lays, Place, PlacedSize, AlignTo, EnumInfo, PayloadSize, PayloadAlignment, WellFormedInfo, Rem;
    match ty
    case Struct(packed, fields) =>
      forall i | 0 <= i < |fields| ensures FieldMatches(Infos(fields, true)[i]) {
        LoweringMatchesLlvm(fields[i], true);
      }
      var info := Lowered(ty, storage);
      FieldsStructMatches(packed, Infos(fields, true), info);
    case Tuple(fields) =>
      forall i | 0 <= i < |fields| ensures FieldMatches(Infos(fields, storage)[i]) {
        LoweringMatchesLlvm(fields[i], storage);
      }
      var info := Lowered(ty, storage);
      FieldsStructMatches(false, Infos(fields, storage), info);
    case Array(length, element) =>
      LoweringMatchesLlvm(element, storage);
      ArrayMatchesLlvm(length, Lowered(element, storage));
    case Enum(variants) =>
      VariantFieldsWellFormed(variants);
      PayloadAlignmentIsAlignment(variants);
      EnumMatchesLlvm(PayloadSize(variants), PayloadAlignment(variants));
    case _ => ScalarMatchesLlvm(ty, storage);
  }

  lemma {:induction false} FieldsStructMatches(packed: bool, infos: seq<TypeInfo>, info: TypeInfo)
    requires forall i :: 0 <= i < |infos| ==> FieldMatches(infos[i])
    requires info == TypeInfo(ReprStruct(packed, Reprs(infos)), PlacedSize(packed, Place(packed, infos)), Place(packed, infos).alignment)
    ensures FieldMatches(info)
  {
    hide Lays, Place, PlacedSize, AlignTo, Rem;
    forall i | 0 <= i < |infos|
      ensures WellFormedInfo(infos[i]) && Lays(infos[i].repr, Extent(infos[i].size, infos[i].alignment))
    {
      assert FieldMatches(infos[i]);
    }
    StructMatchesLlvm(packed, infos, info.size, info.alignment);
  }

  ghost predicate FieldMatches(info: TypeInfo) {
    Lays(info.repr, Extent(info.size, info.alignment)) && WellFormedInfo(info)
  }

  lemma {:induction false} VariantFieldsWellFormed(variants: seq<Variant>)
    ensures forall i :: 0 <= i < |variants| ==> WellFormedInfos(Infos(variants[i].fields, false))
    decreases variants
  {
    forall i | 0 <= i < |variants| ensures WellFormedInfos(Infos(variants[i].fields, false)) {
      forall j | 0 <= j < |variants[i].fields| ensures WellFormedInfo(Infos(variants[i].fields, false)[j]) {
        LoweringMatchesLlvm(variants[i].fields[j], false);
      }
    }
  }

  /** The relation leaves no freedom, so agreeing with it pins size and alignment down. */
  lemma {:induction false} LaysUnique(repr: Repr, a: Extent, b: Extent)
    requires Lays(repr, a) && Lays(repr, b)
    ensures a == b
    decreases repr
  {
    match repr
    case ReprStruct(packed, members) =>
      var offsetsA: seq<nat>, partsA: seq<Extent> :| StructLays(packed, members, offsetsA, partsA, a);
      var offsetsB: seq<nat>, partsB: seq<Extent> :| StructLays(packed, members, offsetsB, partsB, b);
      forall i | 0 <= i < |members| ensures partsA[i] == partsB[i] {
        LaysUnique(members[i], partsA[i], partsB[i]);
      }
      assert partsA == partsB;
      OffsetsUnique(packed, partsA, offsetsA, offsetsB, |members|);
      LeastMultipleUnique(EndOf(offsetsA, partsA, |members|), a.alignment, a.size, b.size);
    case ReprArray(length, element) =>
      var partA: Extent :| Lays(element, partA) && a == Extent(partA.size * length, partA.alignment);
      var partB: Extent :| Lays(element, partB) && b == Extent(partB.size * length, partB.alignment);
      LaysUnique(element, partA, partB);
    case _ =>
  }

  lemma {:induction false} OffsetsUnique(packed: bool, parts: seq<Extent>, a: seq<nat>, b: seq<nat>, n: nat)
    requires |a| == |b| == |parts| && n <= |parts|
    requires forall i :: 0 <= i < |parts| ==> parts[i].alignment > 0
    requires forall i :: 0 <= i < |parts| ==> FirstFit(packed, parts, a, i) && FirstFit(packed, parts, b, i)
    ensures a[..n] == b[..n] && EndOf(a, parts, n) == EndOf(b, parts, n)
  {
    if n > 0 {
      OffsetsUnique(packed, parts, a, b, n - 1);
      assert FirstFit(packed, parts, a, n - 1) && FirstFit(packed, parts, b, n - 1);
      LeastMultipleUnique(EndOf(a, parts, n - 1), if packed then 1 else parts[n - 1].alignment, a[n - 1], b[n - 1]);
    }
  }

  // ----- What the enum emitters rely on -----

  /** Every payload field lies inside the payload, aligned as its load and store claim. */
  lemma {:induction false} PayloadFieldFits(variants: seq<Variant>, i: nat, j: nat)
    requires i < |variants| && j < |variants[i].fields|
    ensures var p := VariantPlacement(variants[i]);
            var info := Lowered(variants[i].fields[j], false);
            && |p.offsets| == |variants[i].fields|
            && WellFormedInfo(info)
            && Rem(p.offsets[j], info.alignment) == 0
            && p.offsets[j] + info.size <= PayloadSize(variants)
  {
    VariantFieldsWellFormed(variants);
    PlaceSeparated(false, Infos(variants[i].fields, false));
    PayloadSizeBounds(variants, i);
  }

  lemma {:induction false} PayloadSizeBounds(variants: seq<Variant>, i: nat)
    requires i < |variants|
    requires forall k :: 0 <= k < |variants| ==> WellFormedInfos(Infos(variants[k].fields, false))
    ensures VariantPlacement(variants[i]).end <= PayloadSize(variants)
  {
    hide AlignTo, IsLeastMultiple, WellFormedInfo;
    var last := |variants| - 1;
    var p := VariantPlacement(variants[last]);
    AlignToGrows(p.end, p.alignment);
    if i < last {
      PayloadSizeBounds(variants[..last], i);
    }
  }

  /** Two payload fields of one variant never overlap. */
  lemma {:induction false} PayloadFieldsDisjoint(variants: seq<Variant>, i: nat, j: nat, k: nat)
    requires i < |variants| && j < k < |variants[i].fields|
    ensures var p := VariantPlacement(variants[i]);
            && |p.offsets| == |variants[i].fields|
            && p.offsets[j] + Lowered(variants[i].fields[j], false).size <= p.offsets[k]
  {
    VariantFieldsWellFormed(variants);
    PlaceSeparated(false, Infos(variants[i].fields, false));
  }

  lemma {:induction false} EmptyFieldsPlaced(infos: seq<TypeInfo>)
    requires forall i :: 0 <= i < |infos| ==> infos[i].size == 0
    ensures Place(false, infos).end == 0
  {
    if infos != [] {
      EmptyFieldsPlaced(infos[..|infos| - 1]);
      assert AlignTo(0, infos[|infos| - 1].alignment) == 0;
    }
  }

  predicate NoBytes(fields: seq<Type>) {
    forall j :: 0 <= j < |fields| ==> Lowered(fields[j], false).size == 0
  }

  lemma {:induction false} EmptyFieldsNoPayload(variants: seq<Variant>)
    requires forall i :: 0 <= i < |variants| ==> NoBytes(variants[i].fields)
    ensures PayloadSize(variants) == 0
  {
    hide Lowered;
    if variants != [] {
      var last := |variants| - 1;
      EmptyFieldsNoPayload(variants[..last]);
      assert NoBytes(variants[last].fields);
      EmptyFieldsPlaced(Infos(variants[last].fields, false));
    }
  }

  /** An enum has no payload exactly when every field of every variant is of size 0. */
  lemma {:induction false} NoPayloadIffNoBytes(variants: seq<Variant>)
    ensures PayloadSize(variants) == 0 <==> forall i :: 0 <= i < |variants| ==> NoBytes(variants[i].fields)
  {
    hide PayloadSize, Lowered, Rem, VariantPlacement;
    if PayloadSize(variants) == 0 {
      forall i, j | 0 <= i < |variants| && 0 <= j < |variants[i].fields| ensures Lowered(variants[i].fields[j], false).size == 0 {
        PayloadFieldFits(variants, i, j);
      }
    } else if forall i :: 0 <= i < |variants| ==> NoBytes(variants[i].fields) {
      EmptyFieldsNoPayload(variants);
    }
  }

  lemma {:induction false} EnumAlignment(variants: seq<Variant>)
    ensures var info := Lowered(Enum(variants), false);
            && info.alignment == 8
            && IsLeastMultiple(8 + PayloadSize(variants), 8, info.size)
  {
    hide AlignTo;
    VariantFieldsWellFormed(variants);
    PayloadAlignmentIsAlignment(variants);
    AlignToIsLeastMultiple(8 + PayloadSize(variants), 8);
  }
}
