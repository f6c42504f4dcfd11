/**
 Values of enum types, their bytes, and the order the comparison is meant to
 compute; and what the emitted code's meaning is on bytes of real values.
 */
module EnumOrder {
  import opened Layout
  import opened Ir
  import opened EnumCode
  import opened EnumMeaning

  // ----- Values and their order -----

  datatype Value =
    | BoolV(b: bool)
    | IntV(n: int)
    | EnumV(tag: nat, fields: seq<Value>)

  /** Lexicographic on (tag, field 0, field 1, ...): decided at the first field that differs. */
  ghost predicate Less(l: Value, r: Value)
    decreases l
  {
    match (l, r)
    case (BoolV(a), BoolV(b)) => !a && b
    case (IntV(a), IntV(b)) => a < b
    case (EnumV(a, fs), EnumV(b, gs)) => a < b || (a == b && LessFrom(fs, gs, 0))
    case _ => false
  }

  /** The first difference from index j on decides. */
  ghost predicate LessFrom(fs: seq<Value>, gs: seq<Value>, j: nat)
    decreases fs, 1
  {
    exists k: nat :: FirstLess(fs, gs, j, k)
  }

  ghost predicate FirstLess(fs: seq<Value>, gs: seq<Value>, j: nat, k: nat)
    decreases fs, 0
  {
    j <= k && k < |fs| && k < |gs| && fs[j..k] == gs[j..k] && Less(fs[k], gs[k])
  }

  ghost predicate Compares(op: Op, l: Value, r: Value) {
    match op
    case EqOp => l == r
    case NeOp => l != r
    case LtOp => Less(l, r)
    case LeOp => Less(l, r) || l == r
    case GtOp => Less(r, l)
    case GeOp => Less(r, l) || l == r
  }

  /** v is a number of the type that is n modulo 256 to the given number of bytes. */
  predicate IntReads(kind: IntKind, bytes: nat, n: nat, v: int) {
    kind.Admits(v) && (v - n) % Pow256(bytes) == 0
  }

  /** image holds v: only the tag and the fields of v's own variant matter, padding and slack do not. */
  ghost predicate Represents(ty: Type, image: Image, v: Value)
    requires Orderable(ty) && |image| == ValueBytes(ty)
    decreases ty, 1
  {
    if ty.Bool? then v.BoolV? && image[0] == Known(if v.b then 1 else 0)
    else if ty.Int? then v.IntV? && AllKnown(image) && IntReads(ty.kind, |image|, LittleEndian(image), v.n)
    else v.EnumV? && RepresentsEnum(ty.variants, image, v.tag, v.fields)
  }

  ghost predicate RepresentsEnum(variants: seq<Variant>, image: Image, tag: nat, fields: seq<Value>)
    requires OrderableVariants(variants) && |image| == 8 + PayloadSize(variants)
    decreases variants, 0
  {
    && tag < |variants|
    && TagOf(image) == Word(8, tag)
    && |fields| == |variants[tag].fields|
    && forall j :: 0 <= j < |fields| ==>
         Represents(variants[tag].fields[j], FieldImage(variants, tag, j, image), fields[j])
  }

  lemma {:induction false} LessIrreflexive(v: Value)
    ensures !Less(v, v)
  {
    if v.EnumV? {
      forall k: nat ensures !FirstLess(v.fields, v.fields, 0, k) {
        if k < |v.fields| {
          LessIrreflexive(v.fields[k]);
        }
      }
      assert !LessFrom(v.fields, v.fields, 0);
    }
  }

  // ----- Scalars -----

  lemma {:induction false} SignedOfInjective(bytes: nat, a: nat, b: nat)
    requires a < Pow256(bytes) && b < Pow256(bytes)
    ensures SignedOf(IntTy(bytes), a) == SignedOf(IntTy(bytes), b) <==> a == b
  {
  }

  ghost predicate IsTriple(t: Triple<Val>, l: Value, r: Value) {
    t == Triple(Bit(l == r), Bit(Less(l, r)), Bit(Less(r, l)))
  }

  lemma {:induction false} BoolMeaning(odd: OddBool, l: Image, r: Image, lv: Value, rv: Value)
    requires |l| == |r| == ValueBytes(Bool) && Represents(Bool, l, lv) && Represents(Bool, r, rv)
    ensures IsTriple(Denote(odd, Bool, l, r), lv, rv)
  {
  }

  /** The one number of the type that n stands for, as the comparison reads it. */
  function IntOf(kind: IntKind, n: nat): int {
    if kind.Unsigned() then n else SignedOf(IntTy(kind.Bytes()), n)
  }

  lemma {:induction false} Widths()
    ensures Pow256(1) == 0x100 && Pow256(2) == 0x1_0000 && Pow256(4) == 0x1_0000_0000 && Pow256(8) == 0x1_0000_0000_0000_0000
  {
    assert Pow256(3) == 0x100_0000;
    assert Pow256(5) == 0x100_0000_0000;
    assert Pow256(6) == 0x1_0000_0000_0000;
    assert Pow256(7) == 0x100_0000_0000_0000;
  }

  /** Every pattern of a type's bytes reads as exactly one number, which is the one the comparison's predicate sees. */
  lemma {:induction false} IntReadsIff(kind: IntKind, n: nat, v: int)
    requires n < Pow256(kind.Bytes())
    ensures IntReads(kind, kind.Bytes(), n, v) <==> v == IntOf(kind, n)
  {
    Widths();
    hide Pow256;
  }

  lemma {:induction false} IntMeaning(odd: OddBool, kind: IntKind, l: Image, r: Image, lv: Value, rv: Value)
    requires |l| == |r| == ValueBytes(Int(kind)) && Represents(Int(kind), l, lv) && Represents(Int(kind), r, rv)
    ensures IsTriple(Denote(odd, Int(kind), l, r), lv, rv)
  {
    hide Pow256, IntReads;
    LittleEndianBound(l);
    LittleEndianBound(r);
    IntReadsIff(kind, LittleEndian(l), lv.n);
    IntReadsIff(kind, LittleEndian(r), rv.n);
    SignedOfInjective(kind.Bytes(), LittleEndian(l), LittleEndian(r));
  }

  lemma {:induction false} ScalarMeaning(odd: OddBool, ty: Type, l: Image, r: Image, lv: Value, rv: Value)
    requires Orderable(ty) && !ty.Enum? && |l| == |r| == ValueBytes(ty)
    requires Represents(ty, l, lv) && Represents(ty, r, rv)
    ensures IsTriple(Denote(odd, ty, l, r), lv, rv)
  {
    hide Denote, IsTriple, Represents, Lowered;
    if ty.Bool? {
      BoolMeaning(odd, l, r, lv, rv);
    } else {
      IntMeaning(odd, ty.kind, l, r, lv, rv);
    }
  }

  lemma {:induction false} TagMeaning(variants: seq<Variant>, a: nat, b: nat)
    requires |variants| <= 0x8000_0000_0000_0000 && a < |variants| && b < |variants|
    ensures SignedOf(IntTy(8), a) == a && SignedOf(IntTy(8), b) == b
  {
    Widths();
  }

  // ----- Fields of one variant -----

  lemma {:induction false} PrefixHead(fs: seq<Value>, gs: seq<Value>, j: nat, k: nat)
    requires j <= k < |fs| && k < |gs| && fs[j..k] == gs[j..k]
    ensures j < k ==> fs[j] == gs[j]
  {
    if j < k {
      assert fs[j..k][0] == fs[j] && gs[j..k][0] == gs[j];
    }
  }

  lemma {:induction false} LessFromStep(fs: seq<Value>, gs: seq<Value>, j: nat)
    requires j < |fs| == |gs|
    ensures LessFrom(fs, gs, j) <==> if fs[j] == gs[j] then LessFrom(fs, gs, j + 1) else Less(fs[j], gs[j])
  {
    var next := j + 1;
    if k: nat :| FirstLess(fs, gs, j, k) {
      if fs[j] == gs[j] {
        LessIrreflexive(fs[j]);
        assert fs[j + 1..k] == fs[j..k][1..] && gs[j + 1..k] == gs[j..k][1..];
        assert FirstLess(fs, gs, next, k);
      } else {
        PrefixHead(fs, gs, j, k);
      }
    }
    if fs[j] != gs[j] {
      if Less(fs[j], gs[j]) {
        assert FirstLess(fs, gs, j, j);
      }
    } else if k: nat :| FirstLess(fs, gs, next, k) {
      assert fs[j..k] == [fs[j]] + fs[j + 1..k] && gs[j..k] == [gs[j]] + gs[j + 1..k];
      assert FirstLess(fs, gs, j, k);
    }
  }

  /** What a mode's fold over the fields computes from lists of values. */
  ghost function Folded(mode: Mode, fs: seq<Value>, gs: seq<Value>, j: nat): Triple<Val>
    requires j <= |fs| == |gs|
  {
    match mode
    case Nested => Triple(Bit(fs[j..] == gs[j..]), Bit(LessFrom(fs, gs, j)), Bit(LessFrom(gs, fs, j)))
    case Equality => Triple(Bit(fs[j..] == gs[j..]), Bit(false), Bit(false))
    case Ordering(op) =>
      Triple(Bit(false), Bit((if op in {LtOp, LeOp} then LessFrom(fs, gs, j) else LessFrom(gs, fs, j))
                             || (op in {LeOp, GeOp} && fs[j..] == gs[j..])), Bit(false))
  }

  lemma {:induction false} FoldedStep(mode: Mode, fs: seq<Value>, gs: seq<Value>, j: nat, f: Triple<Val>)
    requires j < |fs| == |gs| && IsTriple(f, fs[j], gs[j])
    ensures Merge(mode, f, Folded(mode, fs, gs, j + 1)) == Folded(mode, fs, gs, j)
  {
    LessFromStep(fs, gs, j);
    LessFromStep(gs, fs, j);
    LessIrreflexive(fs[j]);
    assert fs[j..] == [fs[j]] + fs[j + 1..] && gs[j..] == [gs[j]] + gs[j + 1..];
    assert fs[j..] == gs[j..] <==> fs[j] == gs[j] && fs[j + 1..] == gs[j + 1..] by {
      if fs[j..] == gs[j..] {
        assert fs[j..][0] == gs[j..][0] && fs[j..][1..] == gs[j..][1..];
      }
    }
  }

  lemma {:induction false} FoldedEnd(mode: Mode, fs: seq<Value>, gs: seq<Value>)
    requires |fs| == |gs|
    ensures Folded(mode, fs, gs, |fs|) ==
            Triple(Bit(!mode.Ordering?), Bit(mode.Ordering? && mode.op in {LeOp, GeOp}), Bit(false))
  {
    NothingLessAtEnd(fs, gs);
    NothingLessAtEnd(gs, fs);
  }

  lemma {:induction false} NothingLessAtEnd(fs: seq<Value>, gs: seq<Value>)
    ensures !LessFrom(fs, gs, |fs|)
  {
    if k: nat :| FirstLess(fs, gs, |fs|, k) {
      assert false;
    }
  }

  // ----- Main induction: on images of values the meaning is the order -----

  lemma {:induction false} DenoteIsOrder(odd: OddBool, ty: Type, l: Image, r: Image, lv: Value, rv: Value)
    requires Orderable(ty) && |l| == |r| == ValueBytes(ty)
    requires Represents(ty, l, lv) && Represents(ty, r, rv)
    ensures IsTriple(Denote(odd, ty, l, r), lv, rv)
    decreases ty, 3
  {
    if ty.Enum? {
      DenoteEnumIsOrder(odd, ty.variants, l, r, lv, rv);
    } else {
      ScalarMeaning(odd, ty, l, r, lv, rv);
    }
  }

  lemma {:induction false} DenoteEnumIsOrder(odd: OddBool, variants: seq<Variant>, l: Image, r: Image, lv: Value, rv: Value)
    requires OrderableVariants(variants) && |l| == |r| == 8 + PayloadSize(variants)
    requires lv.EnumV? && RepresentsEnum(variants, l, lv.tag, lv.fields)
    requires rv.EnumV? && RepresentsEnum(variants, r, rv.tag, rv.fields)
    ensures IsTriple(DenoteEnum(odd, variants, l, r), lv, rv)
    decreases variants, 2
  {
    TagMeaning(variants, lv.tag, rv.tag);
    if lv.tag == rv.tag {
      if PayloadSize(variants) == 0 {
        NoPayloadNoFields(variants, lv.tag);
        assert lv.fields == [] && rv.fields == [];
      } else {
        DenoteSameVariant(odd, Nested, variants, 0, l, r, lv.tag, lv.fields, rv.fields);
        assert lv.fields[0..] == lv.fields && rv.fields[0..] == rv.fields;
      }
    }
  }

  /** With both tags equal to tag, the selects pick exactly that variant's fold. */
  lemma {:induction false} DenoteSameVariant(odd: OddBool, mode: Mode, variants: seq<Variant>, i: nat, l: Image, r: Image,
                                             tag: nat, fs: seq<Value>, gs: seq<Value>)
    requires OrderableVariants(variants) && |l| == |r| == 8 + PayloadSize(variants)
    requires RepresentsEnum(variants, l, tag, fs) && RepresentsEnum(variants, r, tag, gs)
    requires i <= tag
    ensures DenoteVariants(odd, mode, variants, i, l, r) == Folded(mode, fs, gs, 0)
    decreases variants, 1, |variants| - i
  {
    hide PayloadSize, Represents, FieldImage, DenoteFields, LessFrom, TagOf;
    if i < tag {
      DenoteSameVariant(odd, mode, variants, i + 1, l, r, tag, fs, gs);
    } else {
      DenoteFieldsIsFold(odd, mode, variants, tag, 0, l, r, fs, gs);
    }
  }

  lemma {:induction false} DenoteFieldsIsFold(odd: OddBool, mode: Mode, variants: seq<Variant>, i: nat, j: nat, l: Image, r: Image,
                                              fs: seq<Value>, gs: seq<Value>)
    requires OrderableVariants(variants) && |l| == |r| == 8 + PayloadSize(variants)
    requires RepresentsEnum(variants, l, i, fs) && RepresentsEnum(variants, r, i, gs)
    requires j <= |variants[i].fields|
    ensures DenoteFields(odd, mode, variants, i, j, l, r) == Folded(mode, fs, gs, j)
    decreases variants, 0, |variants[i].fields| - j
  {
    hide PayloadSize, Denote, FieldImage, Merge, Folded, Represents;
    if j < |variants[i].fields| {
      calc {
        DenoteFields(odd, mode, variants, i, j, l, r);
        { DenoteFieldsStep(odd, mode, variants, i, j, l, r); }
        Merge(mode, Denote(odd, variants[i].fields[j], FieldImage(variants, i, j, l), FieldImage(variants, i, j, r)),
              DenoteFields(odd, mode, variants, i, j + 1, l, r));
        { DenoteFieldsIsFold(odd, mode, variants, i, j + 1, l, r, fs, gs); }
        Merge(mode, Denote(odd, variants[i].fields[j], FieldImage(variants, i, j, l), FieldImage(variants, i, j, r)),
              Folded(mode, fs, gs, j + 1));
        { var f := DenoteFieldIsOrder(odd, variants, i, j, l, r, fs, gs); FoldedStep(mode, fs, gs, j, f); }
        Folded(mode, fs, gs, j);
      }
    } else {
      FoldedEnd(mode, fs, gs);
    }
  }

  lemma {:induction false} DenoteFieldsStep(odd: OddBool, mode: Mode, variants: seq<Variant>, i: nat, j: nat, l: Image, r: Image)
    requires OrderableVariants(variants) && |l| == |r| == 8 + PayloadSize(variants)
    requires i < |variants| && j < |variants[i].fields|
    ensures DenoteFields(odd, mode, variants, i, j, l, r) ==
            Merge(mode, Denote(odd, variants[i].fields[j], FieldImage(variants, i, j, l), FieldImage(variants, i, j, r)),
                  DenoteFields(odd, mode, variants, i, j + 1, l, r))
  {
  }

  lemma {:induction false} DenoteFieldIsOrder(odd: OddBool, variants: seq<Variant>, i: nat, j: nat, l: Image, r: Image,
                                              fs: seq<Value>, gs: seq<Value>) returns (f: Triple<Val>)
    requires OrderableVariants(variants) && |l| == |r| == 8 + PayloadSize(variants)
    requires RepresentsEnum(variants, l, i, fs) && RepresentsEnum(variants, r, i, gs)
    requires j < |variants[i].fields|
    ensures f == Denote(odd, variants[i].fields[j], FieldImage(variants, i, j, l), FieldImage(variants, i, j, r))
    ensures IsTriple(f, fs[j], gs[j])
    decreases variants, 0, 0
  {
    var fl, fr := FieldImage(variants, i, j, l), FieldImage(variants, i, j, r);
    f := Denote(odd, variants[i].fields[j], fl, fr);
    DenoteIsOrder(odd, variants[i].fields[j], fl, fr, fs[j], gs[j]);
  }
}
