/**
 Which LLVM type each source type should become, stated without the lowering:
 from it and LLVM's layout rules, sizes and alignments follow.
 */
module Representation {
  import opened Arith
  import opened Layout

  // ----- The representation of a type -----

  /** repr is the LLVM type of ty; as a field of a struct, storage is set and bools take a byte. */
  ghost predicate Stands(ty: Type, storage: bool, repr: Repr)
    decreases ty, 2
  {
    match ty
    case Bool => repr == if storage then ReprInt(1) else ReprI1
    case Int(kind) => IntStands(kind, repr)
    case Float32 => repr == ReprFloat
    case Float64 => repr == ReprDouble
    case Pointer => repr == ReprPtr
    case Text => repr == ReprStruct(false, [ReprPtr, ReprInt(8)])
    case Buffer => repr == ReprStruct(false, [ReprPtr, ReprInt(8), ReprInt(8), ReprPtr])
    case Struct(packed, fields) => repr.ReprStruct? && repr.packed == packed && AllStand(fields, true, repr.members)
    case Array(length, element) => repr.ReprArray? && repr.length == length && Stands(element, storage, repr.element)
    case Tuple(fields) => repr.ReprStruct? && !repr.packed && AllStand(fields, storage, repr.members)
    case Enum(variants) => exists payload: nat :: LargestVariant(variants, payload) && repr == EnumRepr(payload)
  }

  predicate IntStands(kind: IntKind, repr: Repr) {
    match kind
    case I8 | U8 => repr == ReprInt(1)
    case I16 | U16 => repr == ReprInt(2)
    case I32 | U32 => repr == ReprInt(4)
    case I64 | Isize | U64 | Usize | Uintptr => repr == ReprInt(8)
  }

  ghost predicate AllStand(fields: seq<Type>, storage: bool, members: seq<Repr>)
    decreases fields, 1
  {
    |members| == |fields| && forall i :: 0 <= i < |fields| ==> Stands(fields[i], storage, members[i])
  }

  /** A tag, and an array of bytes when any variant needs some. */
  function EnumRepr(payload: nat): Repr {
    ReprStruct(false, if payload == 0 then [ReprInt(8)] else [ReprInt(8), ReprArray(payload, ReprInt(1))])
  }

  /** LLVM gives the struct of the variant's fields the size n. */
  ghost predicate VariantTakes(variant: Variant, n: nat)
    decreases variant, 0
  {
    exists members: seq<Repr>, alignment: nat ::
      AllStand(variant.fields, false, members) && Lays(ReprStruct(false, members), Extent(n, alignment))
  }

  ghost predicate LargestVariant(variants: seq<Variant>, n: nat)
    decreases variants, 0
  {
    && (forall i, size: nat :: 0 <= i < |variants| && VariantTakes(variants[i], size) ==> size <= n)
    && (n == 0 || exists i :: 0 <= i < |variants| && VariantTakes(variants[i], n))
  }

  // ----- The lowering emits it -----

  lemma {:induction false} FieldsStand(fields: seq<Type>, storage: bool)
    requires forall i :: 0 <= i < |fields| ==> Stands(fields[i], storage, Lowered(fields[i], storage).repr)
    ensures AllStand(fields, storage, Reprs(Infos(fields, storage)))
  {
    hide Stands, Lowered;
  }

  /** For every type the emitted representation is the one it should have. */
  lemma {:induction false} LoweringStands(ty: Type, storage: bool)
    ensures Stands(ty, storage, Lowered(ty, storage).repr)
    decreases ty, 2
  {
    hide Place, PlacedSize, AlignTo, PayloadSize, PayloadAlignment, LargestVariant, AllStand;
    match ty
    case Struct(packed, fields) =>
      forall i | 0 <= i < |fields| ensures Stands(fields[i], true, Lowered(fields[i], true).repr) {
        LoweringStands(fields[i], true);
      }
      FieldsStand(fields, true);
    case Tuple(fields) =>
      forall i | 0 <= i < |fields| ensures Stands(fields[i], storage, Lowered(fields[i], storage).repr) {
        LoweringStands(fields[i], storage);
      }
      FieldsStand(fields, storage);
    case Array(length, element) =>
      LoweringStands(element, storage);
    case Enum(variants) =>
      PayloadIsLargest(variants);
    case _ =>
  }

  lemma {:induction false} PayloadIsLargest(variants: seq<Variant>)
    ensures LargestVariant(variants, PayloadSize(variants))
    decreases variants, 1
  {
    hide Lowered, VariantTakes, PlacedSize, VariantPlacement;
    forall i | 0 <= i < |variants|
      ensures VariantTakes(variants[i], VariantSize(variants[i]))
      ensures forall size :: VariantTakes(variants[i], size) ==> size == VariantSize(variants[i])
    {
      VariantLowered(variants[i]);
      forall size | VariantTakes(variants[i], size) ensures size == VariantSize(variants[i]) {
        VariantTakesOne(variants[i], size, VariantSize(variants[i]));
      }
    }
    PayloadIsMaximum(variants);
  }

  function VariantSize(variant: Variant): nat {
    PlacedSize(false, VariantPlacement(variant))
  }

  lemma {:induction false} PayloadIsMaximum(variants: seq<Variant>)
    ensures forall i :: 0 <= i < |variants| ==> VariantSize(variants[i]) <= PayloadSize(variants)
    ensures PayloadSize(variants) == 0 || exists i :: 0 <= i < |variants| && VariantSize(variants[i]) == PayloadSize(variants)
  {
    hide AlignTo, VariantPlacement;
    if variants != [] {
      var n := |variants| - 1;
      PayloadIsMaximum(variants[..n]);
      forall i | 0 <= i < n ensures VariantSize(variants[..n][i]) == VariantSize(variants[i]) {
      }
      assert PayloadSize(variants) == Max(PayloadSize(variants[..n]), VariantSize(variants[n]));
      if PayloadSize(variants) == VariantSize(variants[n]) {
      } else if PayloadSize(variants) != 0 {
        var i :| 0 <= i < n && VariantSize(variants[..n][i]) == PayloadSize(variants[..n]);
        assert VariantSize(variants[i]) == PayloadSize(variants);
      }
    }
  }

  lemma {:induction false} VariantLowered(variant: Variant)
    ensures VariantTakes(variant, VariantSize(variant))
    decreases variant, 0
  {
    hide Place, PlacedSize, AlignTo, Lays, Lowered, Rem;
    var infos := Infos(variant.fields, false);
    forall i | 0 <= i < |variant.fields| ensures Stands(variant.fields[i], false, Lowered(variant.fields[i], false).repr) {
      LoweringStands(variant.fields[i], false);
    }
    FieldsStand(variant.fields, false);
    forall i | 0 <= i < |infos| ensures FieldMatches(infos[i]) {
      LoweringMatchesLlvm(variant.fields[i], false);
    }
    FieldsStructMatches(false, infos, TypeInfo(ReprStruct(false, Reprs(infos)), VariantSize(variant), VariantPlacement(variant).alignment));
  }

  // ----- It is the only one -----

  /** The relation leaves no freedom. */
  lemma {:induction false} StandsUnique(ty: Type, storage: bool, a: Repr, b: Repr)
    requires Stands(ty, storage, a) && Stands(ty, storage, b)
    ensures a == b
    decreases ty, 2
  {
    hide LargestVariant, AllStand;
    match ty
    case Struct(packed, fields) => AllStandUnique(fields, true, a.members, b.members);
    case Tuple(fields) => AllStandUnique(fields, storage, a.members, b.members);
    case Array(length, element) => StandsUnique(element, storage, a.element, b.element);
    case Enum(variants) =>
      var m: nat :| LargestVariant(variants, m) && a == EnumRepr(m);
      var n: nat :| LargestVariant(variants, n) && b == EnumRepr(n);
      assert m == n by { LargestUnique(variants, m, n); }
    case _ =>
  }

  lemma {:induction false} LargestUnique(variants: seq<Variant>, m: nat, n: nat)
    requires LargestVariant(variants, m) && LargestVariant(variants, n)
    ensures m == n
  {
    hide VariantTakes;
  }

  lemma {:induction false} AllStandUnique(fields: seq<Type>, storage: bool, a: seq<Repr>, b: seq<Repr>)
    requires AllStand(fields, storage, a) && AllStand(fields, storage, b)
    ensures a == b
    decreases fields, 1
  {
    hide Stands;
    forall i | 0 <= i < |fields| ensures a[i] == b[i] {
      StandsUnique(fields[i], storage, a[i], b[i]);
    }
  }

  lemma {:induction false} VariantTakesOne(variant: Variant, m: nat, n: nat)
    requires VariantTakes(variant, m) && VariantTakes(variant, n)
    ensures m == n
    decreases variant, 0
  {
    hide Lays, AllStand;
    var ms: seq<Repr>, x: nat :| AllStand(variant.fields, false, ms) && Lays(ReprStruct(false, ms), Extent(m, x));
    var ns: seq<Repr>, y: nat :| AllStand(variant.fields, false, ns) && Lays(ReprStruct(false, ns), Extent(n, y));
    AllStandUnique(variant.fields, false, ms, ns);
    LaysUnique(ReprStruct(false, ms), Extent(m, x), Extent(n, y));
  }

  // ----- What the packed flag means -----

  /** A packed struct has no alignment and no gaps. */
  lemma {:induction false} PackedIsDense(fields: seq<Type>, storage: bool)
    ensures var info := Lowered(Struct(true, fields), storage);
            info.alignment == 1 && info.size == SizeOfAll(Infos(fields, true))
  {
    hide AlignTo;
    PackedPlaced(Infos(fields, true));
  }

  /** Field j of variant i starts at the first offset its alignment allows after the fields before it, as in LLVM's struct of the fields. */
  lemma {:induction false} PayloadOffsetsFirstFit(variants: seq<Variant>, i: nat, j: nat)
    requires i < |variants| && j < |variants[i].fields|
    ensures var p := VariantPlacement(variants[i]); var parts := Extents(Infos(variants[i].fields, false));
            && |p.offsets| == |parts| && parts[j].alignment > 0 && FirstFit(false, parts, p.offsets, j)
  {
    hide Lowered, FirstFit;
    VariantFieldsWellFormed(variants);
    assert WellFormedInfos(Infos(variants[i].fields, false));
    PlaceIsLlvmPlacement(false, Infos(variants[i].fields, false));
  }

  /** The payload's alignment is the largest of any field's. */
  lemma {:induction false} PayloadAlignmentIsLargest(variants: seq<Variant>)
    ensures forall i, j :: 0 <= i < |variants| && 0 <= j < |variants[i].fields| ==>
              Lowered(variants[i].fields[j], false).alignment <= PayloadAlignment(variants)
    ensures PayloadAlignment(variants) == 1 || exists i, j ::
              0 <= i < |variants| && 0 <= j < |variants[i].fields| && Lowered(variants[i].fields[j], false).alignment == PayloadAlignment(variants)
  {
    hide Lowered, AlignTo, IsLeastMultiple, WellFormedInfo;
    if variants != [] {
      var n := |variants| - 1;
      PayloadAlignmentIsLargest(variants[..n]);
      VariantFieldsWellFormed(variants);
      assert WellFormedInfos(Infos(variants[n].fields, false));
      LastAlignment(variants[n]);
      var p := VariantPlacement(variants[n]);
      assert PayloadAlignment(variants) == Max(PayloadAlignment(variants[..n]), p.alignment);
      if PayloadAlignment(variants) != 1 {
        if PayloadAlignment(variants) == p.alignment {
          var j :| 0 <= j < |variants[n].fields| && Lowered(variants[n].fields[j], false).alignment == p.alignment;
        } else {
          var i, j :| 0 <= i < n && 0 <= j < |variants[..n][i].fields|
                      && Lowered(variants[..n][i].fields[j], false).alignment == PayloadAlignment(variants[..n]);
          assert variants[..n][i] == variants[i];
        }
      }
      forall i, j | 0 <= i < |variants| && 0 <= j < |variants[i].fields|
        ensures Lowered(variants[i].fields[j], false).alignment <= PayloadAlignment(variants)
      {
        if i < n {
          assert variants[..n][i] == variants[i];
        }
      }
    }
  }

  lemma {:induction false} LastAlignment(variant: Variant)
    requires WellFormedInfos(Infos(variant.fields, false))
    ensures var p := VariantPlacement(variant);
            && (forall j :: 0 <= j < |variant.fields| ==> Lowered(variant.fields[j], false).alignment <= p.alignment)
            && (p.alignment == 1 || exists j :: 0 <= j < |variant.fields| && Lowered(variant.fields[j], false).alignment == p.alignment)
  {
    hide Lowered, Rem, FirstFit, EndOf;
    var infos := Infos(variant.fields, false);
    forall j | 0 <= j < |infos| ensures infos[j].alignment > 0 {
      assert WellFormedInfo(infos[j]);
    }
    PlaceIsLlvmPlacement(false, infos);
    var p := VariantPlacement(variant);
    if p.alignment != 1 {
      var j :| 0 <= j < |infos| && infos[j].alignment == p.alignment;
      assert Lowered(variant.fields[j], false).alignment == p.alignment;
    }
  }
}
