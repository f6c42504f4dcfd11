/**
 The six comparisons of two enum values: the four orderings always give the
 lexicographic answer; equality and inequality give it exactly when reading
 the right operand as the left operand's variant meets no undefined value.
 */
module EnumCompare {
  import opened Layout
  import opened Ir
  import opened EnumCode
  import opened EnumMeaning
  import opened EnumOrder

  lemma {:induction false} NestedTags(variants: seq<Variant>, l: Image, r: Image, lv: Value, rv: Value)
    requires OrderableVariants(variants) && |l| == |r| == 8 + PayloadSize(variants)
    requires lv.EnumV? && RepresentsEnum(variants, l, lv.tag, lv.fields)
    requires rv.EnumV? && RepresentsEnum(variants, r, rv.tag, rv.fields)
    ensures TagOf(l) == Word(8, lv.tag) && TagOf(r) == Word(8, rv.tag)
    ensures forall op :: IcmpVal(TagPredicate(op), IntTy(8), TagOf(l), TagOf(r)) == Bit(TagsCompare(op, lv.tag, rv.tag))
  {
    hide PayloadSize;
    TagMeaning(variants, lv.tag, rv.tag);
  }

  predicate TagsCompare(op: Op, a: nat, b: nat) {
    match op
    case EqOp => a == b
    case NeOp => a != b
    case LtOp => a < b
    case LeOp => a <= b
    case GtOp => a > b
    case GeOp => a >= b
  }

  /** Orderings are right for every pair of values; equality is when the tags agree. */
  lemma {:induction false} CompareIsOrder(odd: OddBool, variants: seq<Variant>, op: Op, l: Image, r: Image, lv: Value, rv: Value)
    requires OrderableVariants(variants) && |l| == |r| == 8 + PayloadSize(variants)
    requires lv.EnumV? && RepresentsEnum(variants, l, lv.tag, lv.fields)
    requires rv.EnumV? && RepresentsEnum(variants, r, rv.tag, rv.fields)
    requires op !in {EqOp, NeOp} || lv.tag == rv.tag
    ensures DenoteCompare(odd, variants, op, l, r) == Bit(Compares(op, lv, rv))
  {
    hide PayloadSize, DenoteVariants, Decide, IcmpVal, TagOf;
    NestedTags(variants, l, r, lv, rv);
    assert IcmpVal(TagPredicate(op), IntTy(8), TagOf(l), TagOf(r)) == Bit(TagsCompare(op, lv.tag, rv.tag));
    assert IcmpVal(TagPredicate(EqOp), IntTy(8), TagOf(l), TagOf(r)) == Bit(lv.tag == rv.tag);
    if PayloadSize(variants) == 0 {
      NoPayloadNoFields(variants, lv.tag);
      NoPayloadNoFields(variants, rv.tag);
      NoFieldsNoOrder(lv.fields, rv.fields);
    } else if lv.tag == rv.tag {
      DenoteSameVariant(odd, ModeOf(op), variants, 0, l, r, lv.tag, lv.fields, rv.fields);
      assert lv.fields[0..] == lv.fields && rv.fields[0..] == rv.fields;
    }
  }

  lemma {:induction false} NoFieldsNoOrder(fs: seq<Value>, gs: seq<Value>)
    requires fs == [] || gs == []
    ensures !LessFrom(fs, gs, 0) && !LessFrom(gs, fs, 0)
  {
    assert forall k: nat :: !FirstLess(fs, gs, 0, k) && !FirstLess(gs, fs, 0, k);
  }

  // ----- Equality of values of different variants -----

  /**
   Comparing image l, a value of type ty, with the bytes r reads no undefined
   value: r has no undefined byte where l's variants have integers or tags, no
   byte other than 0 or 1 where they have bools, descending into a nested enum
   only while the nested tags agree.
   */
  predicate ReadsClean(odd: OddBool, ty: Type, l: Image, r: Image)
    requires Orderable(ty) && |l| == |r| == ValueBytes(ty)
    decreases ty, 1
  {
    if ty.Bool? then r[0].Known? && (r[0].value < 2 || odd.OddLowBit?)
    else if ty.Int? then AllKnown(r)
    else AllKnown(r[..8]) && (TagOf(l) == TagOf(r) ==> ReadsCleanAs(odd, ty.variants, TagOf(l), l, r))
  }

  predicate ReadsCleanAs(odd: OddBool, variants: seq<Variant>, tag: Val, l: Image, r: Image)
    requires OrderableVariants(variants) && |l| == |r| == 8 + PayloadSize(variants)
    decreases variants, 1
  {
    tag.Word? && tag.n < |variants| ==>
      forall j :: 0 <= j < |variants[tag.n].fields| ==> FieldReadsClean(odd, variants, tag.n, j, l, r)
  }

  predicate FieldReadsClean(odd: OddBool, variants: seq<Variant>, i: nat, j: nat, l: Image, r: Image)
    requires OrderableVariants(variants) && |l| == |r| == 8 + PayloadSize(variants)
    requires i < |variants| && j < |variants[i].fields|
    decreases variants, 0
  {
    ReadsClean(odd, variants[i].fields[j], FieldImage(variants, i, j, l), FieldImage(variants, i, j, r))
  }

  /** The eq component is defined exactly when the right operand reads clean. */
  lemma {:induction false} EqDefinedIffClean(odd: OddBool, ty: Type, l: Image, r: Image, lv: Value)
    requires Orderable(ty) && |l| == |r| == ValueBytes(ty)
    requires Represents(ty, l, lv)
    ensures Denote(odd, ty, l, r).eq.Bit? <==> ReadsClean(odd, ty, l, r)
    decreases ty, 3
  {
    if ty.Enum? {
      EnumEqDefinedIffClean(odd, ty.variants, l, r, lv);
    }
  }

  lemma {:induction false} EnumEqDefinedIffClean(odd: OddBool, variants: seq<Variant>, l: Image, r: Image, lv: Value)
    requires OrderableVariants(variants) && |l| == |r| == 8 + PayloadSize(variants)
    requires lv.EnumV? && RepresentsEnum(variants, l, lv.tag, lv.fields)
    ensures DenoteEnum(odd, variants, l, r).eq.Bit? <==>
            AllKnown(r[..8]) && (TagOf(l) == TagOf(r) ==> ReadsCleanAs(odd, variants, TagOf(l), l, r))
    decreases variants, 2
  {
    hide PayloadSize, DenoteVariants, Represents, Denote;
    if PayloadSize(variants) == 0 {
      NoPayloadNoFields(variants, lv.tag);
    } else {
      VariantsEqDefined(odd, Nested, variants, 0, l, r, lv.tag, lv.fields);
    }
  }

  lemma {:induction false} DenoteVariantsStep(odd: OddBool, mode: Mode, variants: seq<Variant>, i: nat, l: Image, r: Image)
    requires OrderableVariants(variants) && |l| == |r| == 8 + PayloadSize(variants) && i < |variants|
    ensures DenoteVariants(odd, mode, variants, i, l, r) ==
            Pick(mode, IsTag(TagOf(l), i), DenoteFields(odd, mode, variants, i, 0, l, r),
                 DenoteVariants(odd, mode, variants, i + 1, l, r))
  {
    hide PayloadSize, FieldImage, TagOf, Pick;
  }

  /** The selects drop every variant but the left operand's, poison or not. */
  lemma {:induction false} VariantsEqDefined(odd: OddBool, mode: Mode, variants: seq<Variant>, i: nat, l: Image, r: Image,
                                             tag: nat, fs: seq<Value>)
    requires OrderableVariants(variants) && |l| == |r| == 8 + PayloadSize(variants)
    requires RepresentsEnum(variants, l, tag, fs)
    requires i <= tag && !mode.Ordering?
    ensures DenoteVariants(odd, mode, variants, i, l, r).eq.Bit? <==> ReadsCleanAs(odd, variants, TagOf(l), l, r)
    decreases variants, 1, |variants| - i
  {
    hide PayloadSize, Represents, FieldImage, DenoteVariants, DenoteFields, ReadsClean, TagOf;
    DenoteVariantsStep(odd, mode, variants, i, l, r);
    if i < tag {
      VariantsEqDefined(odd, mode, variants, i + 1, l, r, tag, fs);
    } else {
      FieldsEqDefined(odd, mode, variants, tag, 0, l, r, fs);
      assert TagOf(l) == Word(8, tag);
      assert DenoteVariants(odd, mode, variants, i, l, r).eq == DenoteFields(odd, mode, variants, tag, 0, l, r).eq;
      assert DenoteFields(odd, mode, variants, tag, 0, l, r).eq.Bit? <==>
             forall j :: 0 <= j < |variants[tag].fields| ==> FieldReadsClean(odd, variants, tag, j, l, r);
      assert ReadsCleanAs(odd, variants, Word(8, tag), l, r) <==>
             forall j :: 0 <= j < |variants[tag].fields| ==> FieldReadsClean(odd, variants, tag, j, l, r);
    }
  }

  lemma {:induction false} FieldsEqDefined(odd: OddBool, mode: Mode, variants: seq<Variant>, i: nat, j: nat, l: Image, r: Image,
                                           fs: seq<Value>)
    requires OrderableVariants(variants) && |l| == |r| == 8 + PayloadSize(variants)
    requires RepresentsEnum(variants, l, i, fs)
    requires j <= |variants[i].fields| && !mode.Ordering?
    ensures DenoteFields(odd, mode, variants, i, j, l, r).eq.Bit? <==>
            forall k :: j <= k < |variants[i].fields| ==> FieldReadsClean(odd, variants, i, k, l, r)
    decreases variants, 0, |variants[i].fields| - j
  {
    hide PayloadSize, Represents, FieldReadsClean, FieldImage, Denote;
    if j < |variants[i].fields| {
      FieldsEqDefined(odd, mode, variants, i, j + 1, l, r, fs);
      DenoteFieldsStep(odd, mode, variants, i, j, l, r);
      FieldEqDefined(odd, variants, i, j, l, r, fs);
    }
  }

  lemma {:induction false} FieldEqDefined(odd: OddBool, variants: seq<Variant>, i: nat, j: nat, l: Image, r: Image, fs: seq<Value>)
    requires OrderableVariants(variants) && |l| == |r| == 8 + PayloadSize(variants)
    requires RepresentsEnum(variants, l, i, fs) && j < |variants[i].fields|
    ensures Denote(odd, variants[i].fields[j], FieldImage(variants, i, j, l), FieldImage(variants, i, j, r)).eq.Bit?
            <==> FieldReadsClean(odd, variants, i, j, l, r)
    decreases variants, 0, 0
  {
    hide PayloadSize;
    EqDefinedIffClean(odd, variants[i].fields[j], FieldImage(variants, i, j, l), FieldImage(variants, i, j, r), fs[j]);
  }

  /**
   == and != combine the tags with `and` and `or`, which do not block poison:
   they are right exactly when the tags agree or the right operand reads clean
   as the left operand's variant, and poison otherwise.
   */
  lemma {:induction false} EqualityIffClean(odd: OddBool, variants: seq<Variant>, op: Op, l: Image, r: Image, lv: Value, rv: Value)
    requires OrderableVariants(variants) && |l| == |r| == 8 + PayloadSize(variants)
    requires lv.EnumV? && RepresentsEnum(variants, l, lv.tag, lv.fields)
    requires rv.EnumV? && RepresentsEnum(variants, r, rv.tag, rv.fields)
    requires op in {EqOp, NeOp}
    ensures var clean := lv.tag == rv.tag || ReadsCleanAs(odd, variants, Word(8, lv.tag), l, r);
            DenoteCompare(odd, variants, op, l, r) == if clean then Bit(Compares(op, lv, rv)) else Poison
  {
    hide PayloadSize, DenoteVariants, Decide, IcmpVal, TagOf, FieldReadsClean, Represents, FieldImage;
    if lv.tag == rv.tag {
      CompareIsOrder(odd, variants, op, l, r, lv, rv);
    } else {
      NestedTags(variants, l, r, lv, rv);
      assert IcmpVal(TagPredicate(EqOp), IntTy(8), TagOf(l), TagOf(r)) == Bit(false);
      assert IcmpVal(TagPredicate(NeOp), IntTy(8), TagOf(l), TagOf(r)) == Bit(true);
      if PayloadSize(variants) == 0 {
        NoPayloadNoFields(variants, lv.tag);
      } else {
        VariantsEqDefined(odd, Equality, variants, 0, l, r, lv.tag, lv.fields);
      }
    }
  }

  // ----- Types whose equality never meets poison -----

  predicate BoolFree(ty: Type) {
    match ty
    case Int(_) => true
    case Enum(variants) =>
      forall i, j :: 0 <= i < |variants| && 0 <= j < |variants[i].fields| ==> BoolFree(variants[i].fields[j])
    case _ => false
  }

  /** Without bools, or on a machine that keeps the low bit, defined bytes always read clean. */
  lemma {:induction false} KnownBytesReadClean(odd: OddBool, ty: Type, l: Image, r: Image)
    requires Orderable(ty) && |l| == |r| == ValueBytes(ty)
    requires AllKnown(r) && (odd.OddLowBit? || BoolFree(ty))
    ensures ReadsClean(odd, ty, l, r)
    decreases ty
  {
    if ty.Enum? {
      KnownPayloadReadsClean(odd, ty.variants, TagOf(l), l, r);
    }
  }

  lemma {:induction false} FieldImageKnown(variants: seq<Variant>, i: nat, j: nat, image: Image)
    requires OrderableVariants(variants) && |image| == 8 + PayloadSize(variants)
    requires i < |variants| && j < |variants[i].fields| && AllKnown(image)
    ensures AllKnown(FieldImage(variants, i, j, image))
  {
    hide PayloadSize, ValueBytes;
    PayloadFieldFits(variants, i, j);
    ValueBytesFit(variants[i].fields[j]);
    var start := 8 + FieldOffset(variants, i, j);
    var field := image[start..start + ValueBytes(variants[i].fields[j])];
    assert field == FieldImage(variants, i, j, image);
    forall k | 0 <= k < |field| ensures field[k].Known? {
      assert field[k] == image[start + k];
    }
  }

  lemma {:induction false} KnownPayloadReadsClean(odd: OddBool, variants: seq<Variant>, tag: Val, l: Image, r: Image)
    requires OrderableVariants(variants) && |l| == |r| == 8 + PayloadSize(variants)
    requires AllKnown(r) && (odd.OddLowBit? || BoolFree(Enum(variants)))
    ensures ReadsCleanAs(odd, variants, tag, l, r)
    decreases variants
  {
    hide PayloadSize, TagOf;
    if tag.Word? && tag.n < |variants| {
      forall j | 0 <= j < |variants[tag.n].fields| ensures FieldReadsClean(odd, variants, tag.n, j, l, r) {
        FieldImageKnown(variants, tag.n, j, r);
        KnownBytesReadClean(odd, variants[tag.n].fields[j],
                            FieldImage(variants, tag.n, j, l), FieldImage(variants, tag.n, j, r));
      }
    }
  }
}
