/** The order the comparison computes is a strict total order on the values of each type. */
module EnumTotalOrder {
  import opened Layout
  import opened Ir
  import opened EnumCode
  import opened EnumMeaning
  import opened EnumOrder

  ghost predicate HasType(ty: Type, v: Value)
    requires Orderable(ty)
    decreases ty, 1
  {
    if ty.Bool? then v.BoolV?
    else if ty.Int? then v.IntV?
    else v.EnumV? && HasVariant(ty.variants, v.tag, v.fields)
  }

  ghost predicate HasVariant(variants: seq<Variant>, tag: nat, fields: seq<Value>)
    requires OrderableVariants(variants)
    decreases variants, 0
  {
    && tag < |variants| && |fields| == |variants[tag].fields|
    && forall j :: 0 <= j < |fields| ==> HasType(variants[tag].fields[j], fields[j])
  }

  lemma {:induction false} RepresentedHasType(ty: Type, image: Image, v: Value)
    requires Orderable(ty) && |image| == ValueBytes(ty) && Represents(ty, image, v)
    ensures HasType(ty, v)
    decreases ty, 1
  {
    if ty.Enum? {
      RepresentedHasVariant(ty.variants, image, v.tag, v.fields);
    }
  }

  lemma {:induction false} RepresentedHasVariant(variants: seq<Variant>, image: Image, tag: nat, fields: seq<Value>)
    requires OrderableVariants(variants) && |image| == 8 + PayloadSize(variants) && RepresentsEnum(variants, image, tag, fields)
    ensures HasVariant(variants, tag, fields)
    decreases variants, 0
  {
    hide PayloadSize, FieldImage, TagOf, Represents, HasType;
    forall j | 0 <= j < |fields| ensures HasType(variants[tag].fields[j], fields[j]) {
      RepresentedHasType(variants[tag].fields[j], FieldImage(variants, tag, j, image), fields[j]);
    }
  }

  /** Exactly one of less, equal and greater. */
  ghost predicate Trichotomous(x: Value, y: Value) {
    && (x == y || Less(x, y) || Less(y, x))
    && !(x == y && Less(x, y)) && !(x == y && Less(y, x)) && !(Less(x, y) && Less(y, x))
  }

  lemma {:induction false} LessIsTrichotomous(ty: Type, x: Value, y: Value)
    requires Orderable(ty) && HasType(ty, x) && HasType(ty, y)
    ensures Trichotomous(x, y)
    decreases ty, 1
  {
    LessIrreflexive(x);
    if ty.Enum? && x.tag == y.tag {
      FieldsTrichotomous(ty.variants, x.tag, x.fields, y.fields, 0);
      assert x.fields[0..] == x.fields && y.fields[0..] == y.fields;
    }
  }

  lemma {:induction false} FieldsTrichotomous(variants: seq<Variant>, tag: nat, fs: seq<Value>, gs: seq<Value>, j: nat)
    requires OrderableVariants(variants) && HasVariant(variants, tag, fs) && HasVariant(variants, tag, gs) && j <= |fs|
    ensures fs[j..] == gs[j..] || LessFrom(fs, gs, j) || LessFrom(gs, fs, j)
    ensures !(LessFrom(fs, gs, j) && LessFrom(gs, fs, j))
    decreases variants, 0, |fs| - j
  {
    hide Less, LessFrom, HasType;
    if j == |fs| {
      FoldedEnd(Nested, fs, gs);
      assert fs[j..] == gs[j..];
    } else {
      LessIsTrichotomous(variants[tag].fields[j], fs[j], gs[j]);
      FieldsTrichotomous(variants, tag, fs, gs, j + 1);
      LessFromStep(fs, gs, j);
      LessFromStep(gs, fs, j);
      assert fs[j..] == [fs[j]] + fs[j + 1..] && gs[j..] == [gs[j]] + gs[j + 1..];
    }
  }

  lemma {:induction false} LessIsTransitive(ty: Type, x: Value, y: Value, z: Value)
    requires Orderable(ty) && HasType(ty, x) && HasType(ty, y) && HasType(ty, z)
    requires Less(x, y) && Less(y, z)
    ensures Less(x, z)
    decreases ty, 1
  {
    if ty.Enum? && x.tag == y.tag == z.tag {
      LessInRange(x.fields, y.fields, 0);
      FieldsTransitive(ty.variants, x.tag, x.fields, y.fields, z.fields, 0);
    }
  }

  lemma {:induction false} FieldsTransitive(variants: seq<Variant>, tag: nat, fs: seq<Value>, gs: seq<Value>, hs: seq<Value>, j: nat)
    requires OrderableVariants(variants) && HasVariant(variants, tag, fs) && HasVariant(variants, tag, gs) && HasVariant(variants, tag, hs)
    requires j < |fs| && LessFrom(fs, gs, j) && LessFrom(gs, hs, j)
    ensures LessFrom(fs, hs, j)
    decreases variants, 0, |fs| - j
  {
    hide Less, LessFrom, HasType;
    LessFromStep(fs, gs, j);
    LessFromStep(gs, hs, j);
    LessFromStep(fs, hs, j);
    var field := variants[tag].fields[j];
    LessIsTrichotomous(field, fs[j], gs[j]);
    LessIsTrichotomous(field, gs[j], hs[j]);
    if fs[j] == gs[j] && gs[j] == hs[j] {
      LessInRange(gs, hs, j + 1);
      FieldsTransitive(variants, tag, fs, gs, hs, j + 1);
    } else if fs[j] != gs[j] && gs[j] != hs[j] {
      LessIsTransitive(field, fs[j], gs[j], hs[j]);
      LessIsTrichotomous(field, fs[j], hs[j]);
    }
  }

  lemma {:induction false} LessInRange(fs: seq<Value>, gs: seq<Value>, j: nat)
    requires LessFrom(fs, gs, j)
    ensures j < |fs| && j < |gs|
  {
    var k: nat :| FirstLess(fs, gs, j, k);
  }
}
