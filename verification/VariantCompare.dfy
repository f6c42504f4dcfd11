/**
 From arguments to answers: two values built by variant_init and compared by
 the emitted comparison, in one run.
 */
module VariantCompare {
  import opened Layout
  import opened Ir
  import opened EnumCode
  import opened EnumMeaning
  import opened EnumOrder
  import opened EnumCompare
  import opened Frames
  import opened EnumTop
  import opened VariantCode
  import opened VariantRuns

  /** Register value v of type ty stands for x. */
  ghost predicate Carries(ty: Type, v: Val, x: Value)
    requires Orderable(ty)
  {
    if ty.Bool? then x.BoolV? && v == Bit(x.b)
    else if ty.Int? then
      x.IntV? && v.Word? && v.bytes == ty.kind.Bytes() && v.n < Pow256(v.bytes) && IntReads(ty.kind, v.bytes, v.n, x.n)
    else v.Agg? && |v.image| == ValueBytes(ty) && Represents(ty, v.image, x)
  }

  /** vals are the arguments x.fields of variant x.tag. */
  ghost predicate CarriesAll(variants: seq<Variant>, vals: seq<Val>, x: Value) {
    && OrderableVariants(variants) && x.EnumV? && Arguments(variants, x.tag, vals)
    && |x.fields| == |vals|
    && forall k :: 0 <= k < |vals| ==> Carries(variants[x.tag].fields[k], vals[k], x.fields[k])
  }

  lemma {:induction false} WrittenRepresents(ty: Type, v: Val, x: Value)
    requires Orderable(ty) && Fits(MemOf(ty), v) && Carries(ty, v, x)
    ensures ValueBytes(ty) <= |WriteVal(MemOf(ty), v)|
    ensures Represents(ty, WriteVal(MemOf(ty), v)[..ValueBytes(ty)], x)
  {
    hide Pow256, Encode;
    ValueBytesFit(ty);
    var w := WriteVal(MemOf(ty), v);
    if ty.Int? {
      EncodeRoundTrip(v.n, v.bytes);
      assert w[..ValueBytes(ty)] == w;
    } else if ty.Enum? {
      assert w[..ValueBytes(ty)] == v.image;
    }
  }

  lemma {:induction false} FieldOfWindow(variants: seq<Variant>, i: nat, j: nat, image: Image)
    requires OrderableVariants(variants) && |image| == 8 + PayloadSize(variants)
    requires i < |variants| && j < |variants[i].fields|
    ensures ValueBytes(variants[i].fields[j]) <= |Window(variants, i, j, image)|
    ensures FieldImage(variants, i, j, image) == Window(variants, i, j, image)[..ValueBytes(variants[i].fields[j])]
  {
    hide PayloadSize, Lowered, MemOf, ValueBytes, FieldOffset;
    ValueBytesFit(variants[i].fields[j]);
    FieldBytes(variants[i].fields[j]);
    var start, n := 8 + FieldOffset(variants, i, j), ValueBytes(variants[i].fields[j]);
    var size := Lowered(variants[i].fields[j], false).size;
    FieldStoreFits(variants, i, j);
    assert Window(variants, i, j, image) == image[start..start + size];
    assert image[start..start + size][..n] == image[start..start + n];
    assert FieldImage(variants, i, j, image) == image[start..start + n];
  }

  /** What variant_init builds from the arguments of x is x. */
  lemma {:induction false} BuiltRepresents(variants: seq<Variant>, vals: seq<Val>, x: Value)
    requires CarriesAll(variants, vals, x)
    ensures RepresentsEnum(variants, Filled(variants, x.tag, vals, |vals|), x.tag, x.fields)
  {
    hide PayloadSize, Filled, Represents, FieldImage, Window, Carries, FieldOffset, MemOf, Lowered, ValueBytes, WriteVal, TagOf, Encode;
    var image := Filled(variants, x.tag, vals, |vals|);
    FilledKeepsTag(variants, x.tag, vals, |vals|);
    EncodedTag(x.tag, image);
    forall j | 0 <= j < |vals|
      ensures Represents(variants[x.tag].fields[j], FieldImage(variants, x.tag, j, image), x.fields[j])
    {
      FilledKeepsField(variants, x.tag, vals, |vals|, j);
      FieldOfWindow(variants, x.tag, j, image);
      WrittenRepresents(variants[x.tag].fields[j], vals[j], x.fields[j]);
    }
  }

  /** No argument writes an undefined byte. */
  predicate DefinedArguments(variants: seq<Variant>, tag: nat, vals: seq<Val>)
    requires Arguments(variants, tag, vals)
  {
    forall k :: 0 <= k < |vals| ==> AllKnown(FieldWritten(variants, tag, vals, k))
  }

  lemma {:induction false} FilledKnown(variants: seq<Variant>, tag: nat, vals: seq<Val>, k: nat)
    requires Arguments(variants, tag, vals) && DefinedArguments(variants, tag, vals) && k <= |vals|
    ensures AllKnown(Filled(variants, tag, vals, k))
  {
    hide PayloadSize, FieldWritten, FieldOffset, Encode;
    if k > 0 {
      FilledKnown(variants, tag, vals, k - 1);
    }
  }

  /**
   Building two values and comparing them gives the lexicographic answer: for
   the orderings always, for == and != when both are of one variant, or the
   right one's arguments are fully defined and misread bools cannot be poison.
   */
  lemma {:induction false} BuiltValuesCompare(odd: OddBool, variants: seq<Variant>, op: Op, x: Value, y: Value,
                                              xs: seq<Operand>, ys: seq<Operand>, xvals: seq<Val>, yvals: seq<Val>,
                                              left: Name, right: Name, base: Name, s: State) returns (t: State)
    requires CarriesAll(variants, xvals, x) && CanInit(s, variants, x.tag, xs, xvals, left)
    requires CarriesAll(variants, yvals, y) && CanInit(s, variants, y.tag, ys, yvals, right)
    requires Apart(s, left, right) && Apart(s, left, base) && Apart(s, right, base)
    requires || op !in {EqOp, NeOp} || x.tag == y.tag
             || (DefinedArguments(variants, y.tag, yvals) && (odd.OddLowBit? || BoolFree(Enum(variants))))
    ensures Runs(odd, InitCode(variants, x.tag, xs, left) + InitCode(variants, y.tag, ys, right)
                      + CompareCode(variants, op, Temp(left), Temp(right), base), s, t)
    ensures Holds(t, Temp(base), Bit(Compares(op, x, y)))
    ensures SingleAssignment(InitCode(variants, x.tag, xs, left) + InitCode(variants, y.tag, ys, right)
                             + CompareCode(variants, op, Temp(left), Temp(right), base), s.env.Keys)
  {
    hide PayloadSize, In, Run, Extends, Clear, Filled, InitCode, CompareCode, RepresentsEnum, Compares, Carries, BoolFree, Apart, AssignsOnce;
    var l, r := Filled(variants, x.tag, xvals, |xvals|), Filled(variants, y.tag, yvals, |yvals|);
    OrderableAddressable(variants, x.tag);
    OrderableAddressable(variants, y.tag);
    var a := InitRuns(odd, variants, x.tag, xs, xvals, left, s);
    InitStillPossible(s, a, variants, y.tag, ys, yvals, left, right);
    var b := InitRuns(odd, variants, y.tag, ys, yvals, right, a);
    BuiltRepresents(variants, xvals, x);
    BuiltRepresents(variants, yvals, y);
    CompareReady(s, a, b, left, right, base, Agg(l));
    if op !in {EqOp, NeOp} || x.tag == y.tag {
      t := ComparisonIsLexicographic(odd, variants, op, Temp(left), Temp(right), base, b, l, r, x, y);
    } else {
      FilledKnown(variants, y.tag, yvals, |yvals|);
      t := DefinedBytesCompareRight(odd, variants, op, Temp(left), Temp(right), base, b, l, r, x, y);
    }
    RunsSeq(odd, InitCode(variants, x.tag, xs, left), InitCode(variants, y.tag, ys, right), s, a, b);
    RunsSeq(odd, InitCode(variants, x.tag, xs, left) + InitCode(variants, y.tag, ys, right),
            CompareCode(variants, op, Temp(left), Temp(right), base), s, b, t);
    RunsIsSingleAssignment(odd, InitCode(variants, x.tag, xs, left) + InitCode(variants, y.tag, ys, right)
                                + CompareCode(variants, op, Temp(left), Temp(right), base), s, t);
  }

  /** BuiltValuesCompare for three instructions of a function, in blocks and at indices of their own. */
  lemma {:induction false} InstructionsCompare(odd: OddBool, variants: seq<Variant>, op: Op, x: Value, y: Value,
                                               xs: seq<Operand>, ys: seq<Operand>, xvals: seq<Val>, yvals: seq<Val>,
                                               left: Part, right: Part, base: Part, s: State) returns (t: State)
    requires CarriesAll(variants, xvals, x) && CanInit(s, variants, x.tag, xs, xvals, [left])
    requires CarriesAll(variants, yvals, y) && CanInit(s, variants, y.tag, ys, yvals, [right])
    requires Clear(s, Claimed([base])) && left != right && left != base && right != base
    requires || op !in {EqOp, NeOp} || x.tag == y.tag
             || (DefinedArguments(variants, y.tag, yvals) && (odd.OddLowBit? || BoolFree(Enum(variants))))
    ensures Runs(odd, InitCode(variants, x.tag, xs, [left]) + InitCode(variants, y.tag, ys, [right])
                      + CompareCode(variants, op, Temp([left]), Temp([right]), [base]), s, t)
    ensures Holds(t, Temp([base]), Bit(Compares(op, x, y)))
  {
    hide PayloadSize, In, Run, Clear, InitCode, CompareCode, Compares, Carries, BoolFree, Apart, SingleAssignment;
    InstructionsApart(s, left, right);
    InstructionsApart(s, left, base);
    InstructionsApart(s, right, base);
    t := BuiltValuesCompare(odd, variants, op, x, y, xs, ys, xvals, yvals, [left], [right], [base], s);
  }

  /** Every field of an orderable type takes at least a byte. */
  lemma {:induction false} OrderableAddressable(variants: seq<Variant>, tag: nat)
    requires OrderableVariants(variants) && tag < |variants|
    ensures Addressable(variants, tag)
  {
    if PayloadSize(variants) == 0 {
      NoPayloadNoFields(variants, tag);
    }
  }

  lemma {:induction false} InitStillPossible(s: State, a: State, variants: seq<Variant>, tag: nat, operands: seq<Operand>, vals: seq<Val>,
                                             done: Name, base: Name)
    requires CanInit(s, variants, tag, operands, vals, base) && Extends(s, a, Claimed(done)) && Apart(s, done, base)
    ensures CanInit(a, variants, tag, operands, vals, base)
  {
    hide Clear, Extends, Arguments;
    StillClear(s, a, done, base);
    ExtendsKeeps(s, a, Claimed(done));
  }

  lemma {:induction false} CompareReady(s: State, a: State, b: State, left: Name, right: Name, base: Name, v: Val)
    requires Extends(s, a, Claimed(left)) && Extends(a, b, Claimed(right)) && Holds(a, Temp(left), v)
    requires Apart(s, left, base) && Apart(s, right, base)
    ensures Holds(b, Temp(left), v) && Clear(b, Claimed(base))
  {
    hide In, Clear;
    StillClear(s, a, left, base);
    ExtendsKeeps(a, b, Claimed(right));
    ClearKept(a, b, Claimed(right), Claimed(base));
  }
}
