/**
 The whole comparison: the emitted code runs from any state, and its result is
 the lexicographic order of the two values.
 */
module EnumTop {
  import opened Wrappers
  import opened Layout
  import opened Ir
  import opened EnumCode
  import opened EnumMeaning
  import opened EnumOrder
  import opened EnumCompare
  import opened Frames
  import opened EnumLoads
  import opened EnumRuns
  import opened EnumLoops

  // ----- Tags, spills and loops -----

  function HeadNames(base: Name): set<Name> {
    {base + [Lhs, Tag], base + [Rhs, Tag], base + [Tag, Eq]}
  }

  function EqVal(l: Image, r: Image): Val
    requires |l| >= 8 && |r| >= 8
  {
    IcmpVal(PEq, IntTy(8), TagOf(l), TagOf(r))
  }

  lemma {:induction false} HeadRuns(odd: OddBool, left: Operand, right: Operand, base: Name,
                                    s: State, l: Image, r: Image) returns (t: State)
    requires |l| >= 8 && |r| >= 8 && Holds(s, left, Agg(l)) && Holds(s, right, Agg(r))
    requires Clear(s, Ours(base))
    ensures Runs(odd, TagPairCode(left, right, base) + TagIcmp(PEq, base, base + [Tag, Eq]), s, t)
    ensures Extends(s, t, Ours(base)) && t.Names() == s.Names() + HeadNames(base)
    ensures HoldsTags(t, base, l, r) && Holds(t, Temp(base + [Tag, Eq]), EqVal(l, r))
  {
    OwnNames(base);
    TagNamesDiffer(base);
    hide Run, In, TagOf, Eval, Extends, IcmpVal;
    var lhs, rhs := Temp(base + [Lhs, Tag]), Temp(base + [Rhs, Tag]);
    var a := TagPairRuns(odd, left, right, base, s, l, r);
    IcmpEvaluates(odd, PEq, IntTy(8), lhs, rhs, a, TagOf(l), TagOf(r));
    t := RunsDef(odd, a, base + [Tag, Eq], Icmp(PEq, IntTy(8), lhs, rhs), EqVal(l, r), Ours(base));
    ExtendsKeeps(a, t, Ours(base));
    HoldsKept(a, t, lhs, TagOf(l));
    HoldsKept(a, t, rhs, TagOf(r));
    ExtendsTransitive(s, a, t, Ours(base));
    RunsSeq(odd, TagPairCode(left, right, base), TagIcmp(PEq, base, base + [Tag, Eq]), s, a, t);
  }

  predicate HoldsOrderTag(s: State, op: Op, base: Name, l: Image, r: Image)
    requires |l| >= 8 && |r| >= 8
  {
    op in {EqOp, NeOp} || Holds(s, Temp(base + [Tag, Order]), IcmpVal(TagPredicate(op), IntTy(8), TagOf(l), TagOf(r)))
  }

  lemma {:induction false} OrderTagRuns(odd: OddBool, op: Op, base: Name, s: State, l: Image, r: Image) returns (t: State)
    requires |l| >= 8 && |r| >= 8 && HoldsTags(s, base, l, r) && base + [Tag, Order] !in s.Names()
    ensures Runs(odd, OrderTagCode(op, base), s, t)
    ensures Extends(s, t, Ours(base)) && HoldsOrderTag(t, op, base, l, r)
    ensures t.Names() <= s.Names() + {base + [Tag, Order]}
  {
    OwnNames(base);
    hide Run, In, TagOf, Eval, IcmpVal;
    if op in {EqOp, NeOp} {
      t := s;
      RunsNothing(odd, s);
    } else {
      var lhs, rhs := Temp(base + [Lhs, Tag]), Temp(base + [Rhs, Tag]);
      IcmpEvaluates(odd, TagPredicate(op), IntTy(8), lhs, rhs, s, TagOf(l), TagOf(r));
      t := RunsDef(odd, s, base + [Tag, Order], Icmp(TagPredicate(op), IntTy(8), lhs, rhs),
                   IcmpVal(TagPredicate(op), IntTy(8), TagOf(l), TagOf(r)), Ours(base));
    }
  }

  /** Everything the loops and the result need of the tags. */
  predicate TagsKnown(s: State, op: Op, base: Name, l: Image, r: Image)
    requires |l| >= 8 && |r| >= 8
  {
    && HoldsTags(s, base, l, r)
    && Holds(s, Temp(base + [Tag, Eq]), EqVal(l, r))
    && HoldsOrderTag(s, op, base, l, r)
  }

  lemma {:induction false} TagsKnownKept(s: State, t: State, op: Op, base: Name, l: Image, r: Image)
    requires |l| >= 8 && |r| >= 8 && TagsKnown(s, op, base, l, r) && Keeps(s, t)
    ensures TagsKnown(t, op, base, l, r)
  {
    hide TagOf, IcmpVal;
  }

  function OurNames(op: Op, base: Name): set<Name> {
    HeadNames(base) + {SlotName(ModeOf(op), base, Lhs), SlotName(ModeOf(op), base, Rhs)} + {base + [Tag, Order]}
  }

  function SetupCode(variants: seq<Variant>, op: Op, left: Operand, right: Operand, base: Name): seq<Line> {
    TagPairCode(left, right, base)
    + TagIcmp(PEq, base, base + [Tag, Eq])
    + (StackSlotCode(Enum(variants), left, SlotName(ModeOf(op), base, Lhs))
       + StackSlotCode(Enum(variants), right, SlotName(ModeOf(op), base, Rhs)))
    + OrderTagCode(op, base)
  }

  lemma {:induction false} SetupRuns(odd: OddBool, variants: seq<Variant>, op: Op, left: Operand, right: Operand, base: Name,
                                     s: State, l: Image, r: Image) returns (t: State)
    requires OrderableVariants(variants) && |l| == |r| == 8 + PayloadSize(variants)
    requires Holds(s, left, Agg(l)) && Holds(s, right, Agg(r)) && Clear(s, Ours(base))
    ensures Runs(odd, SetupCode(variants, op, left, right, base), s, t)
    ensures Extends(s, t, Ours(base)) && t.Names() <= s.Names() + OurNames(op, base)
    ensures Spilled(ModeOf(op), variants, base, t, l, r) && TagsKnown(t, op, base, l, r)
  {
    var mode := ModeOf(op);
    var spill := StackSlotCode(Enum(variants), left, SlotName(mode, base, Lhs))
               + StackSlotCode(Enum(variants), right, SlotName(mode, base, Rhs));
    OrderTagFresh(op, base, s);
    HeadNamesInTagNames(base);
    hide PayloadSize, SlotHolds, In, Run, Extends, TagOf, StackSlotCode, SlotName, TagNames, IcmpVal, Spilled, HeadNames,
         OrderTagCode, TagPairCode, TagIcmp, HoldsOrderTag, Clear, EqVal;
    var a := HeadRuns(odd, left, right, base, s, l, r);
    ExtendsKeeps(s, a, Ours(base));
    var b := SpillRuns(odd, mode, variants, left, right, base, s, a, l, r);
    ExtendsKeeps(a, b, Ours(base));
    t := OrderTagRuns(odd, op, base, b, l, r);
    ExtendsKeeps(b, t, Ours(base));
    SpilledKept(mode, variants, base, b, t, l, r);
    HoldsKept(a, b, Temp(base + [Tag, Eq]), EqVal(l, r));
    HoldsKept(b, t, Temp(base + [Tag, Eq]), EqVal(l, r));
    ExtendsTransitive(s, a, b, Ours(base));
    ExtendsTransitive(s, b, t, Ours(base));
    var head := TagPairCode(left, right, base) + TagIcmp(PEq, base, base + [Tag, Eq]);
    RunsSeq(odd, head, spill, s, a, b);
    RunsSeq(odd, head + spill, OrderTagCode(op, base), s, b, t);
  }

  lemma {:induction false} HeadNamesInTagNames(base: Name)
    ensures HeadNames(base) <= TagNames(base)
  {
  }

  lemma {:induction false} OrderTagFresh(op: Op, base: Name, s: State)
    requires Clear(s, Ours(base))
    ensures var mode := ModeOf(op);
            base + [Tag, Order] !in s.Names() + HeadNames(base) + {SlotName(mode, base, Lhs), SlotName(mode, base, Rhs)}
  {
    OwnNames(base);
    hide In, OwnerOf;
    var n := base + [Tag, Order];
    assert n[|base|] == Tag && n[|base| + 1] == Order;
    assert (base + [Lhs, Tag])[|base|] == Lhs && (base + [Rhs, Tag])[|base|] == Rhs && (base + [Tag, Eq])[|base| + 1] == Eq;
    assert |n| == |base| + 2 && |SlotName(ModeOf(op), base, Lhs)| == |base| + 4 == |SlotName(ModeOf(op), base, Rhs)|;
  }

  // ----- The result -----

  predicate ResultFresh(s: State, base: Name) {
    base !in s.Names() && base + [Tag, Ne] !in s.Names() && base + [Payload, Ne] !in s.Names()
  }

  lemma {:induction false} ResultIsFresh(op: Op, base: Name, n: nat, s: State, a: State, b: State)
    requires Clear(s, Claimed(base)) && a.Names() <= s.Names() + OurNames(op, base)
    requires Extends(a, b, Frames.Variants(base, 0, n))
    ensures ResultFresh(b, base)
  {
    OneResultFresh(op, base, [], n, s, a, b);
    OneResultFresh(op, base, [Tag, Ne], n, s, a, b);
    OneResultFresh(op, base, [Payload, Ne], n, s, a, b);
    assert base + [] == base;
  }

  lemma {:induction false} OneResultFresh(op: Op, base: Name, q: seq<Part>, n: nat, s: State, a: State, b: State)
    requires q in {[], [Tag, Ne], [Payload, Ne]}
    requires Clear(s, Claimed(base)) && a.Names() <= s.Names() + OurNames(op, base)
    requires Extends(a, b, Frames.Variants(base, 0, n))
    ensures base + q !in b.Names()
  {
    OwnName(base, q);
    OwnerOfSuffix(base, q);
    NotOurs(op, base, q);
    hide OwnerOf, OurNames;
    assert base + q !in s.Names();
    assert base + q !in a.Names();
    assert !In(Frames.Variants(base, 0, n), base + q);
  }

  lemma {:induction false} NotOurs(op: Op, base: Name, q: seq<Part>)
    requires q in {[], [Tag, Ne], [Payload, Ne]}
    ensures base + q !in OurNames(op, base)
  {
    var n := base + q;
    forall m | m in OurNames(op, base) ensures m != n {
      if |m| == |n| {
        assert |q| == 2 && n[|base| + 1] == Ne;
        assert (base + [Lhs, Tag])[|base| + 1] == Tag && (base + [Rhs, Tag])[|base| + 1] == Tag;
        assert (base + [Tag, Eq])[|base| + 1] == Eq && (base + [Tag, Order])[|base| + 1] == Order;
      }
    }
  }

  lemma {:induction false} ResultRuns(odd: OddBool, variants: seq<Variant>, op: Op, base: Name, s: State, l: Image, r: Image)
    returns (t: State)
    requires OrderableVariants(variants) && |l| == |r| == 8 + PayloadSize(variants) && PayloadSize(variants) != 0
    requires TagsKnown(s, op, base, l, r) && ResultFresh(s, base)
    requires HoldsTriple(s, VariantsOut(ModeOf(op), variants, 0, base), DenoteVariants(odd, ModeOf(op), variants, 0, l, r))
    ensures Runs(odd, ResultCode(variants, op, base), s, t)
    ensures Extends(s, t, Ours(base)) && Holds(t, Temp(base), DenoteCompare(odd, variants, op, l, r))
  {
    OwnNames(base);
    var so := VariantsOut(ModeOf(op), variants, 0, base);
    var same := DenoteVariants(odd, ModeOf(op), variants, 0, l, r);
    hide PayloadSize, In, Run, Extends, DenoteVariants, TagOf, IcmpVal, VariantsOut, SelectVal, AndVal, OrVal, XorVal, Fits;
    if op == EqOp {
      t := AndRuns(odd, Temp(base + [Tag, Eq]), so.eq, base, s, EqVal(l, r), same.eq, Ours(base));
    } else if op == NeOp {
      t := NotEqualRuns(odd, so.eq, base, s, l, r, same.eq);
    } else {
      t := SelectRuns(odd, Temp(base + [Tag, Eq]), so.lt, Temp(base + [Tag, Order]), base, s, EqVal(l, r), same.lt,
                      IcmpVal(TagPredicate(op), IntTy(8), TagOf(l), TagOf(r)), Ours(base));
    }
  }

  lemma {:induction false} NotEqualRuns(odd: OddBool, payloadEq: Operand, base: Name, s: State, l: Image, r: Image, same: Val)
    returns (t: State)
    requires |l| >= 8 && |r| >= 8 && HoldsTags(s, base, l, r) && ResultFresh(s, base)
    requires Fits(I1, same) && Holds(s, payloadEq, same)
    ensures Runs(odd, TagIcmp(PNe, base, base + [Tag, Ne])
                      + [Def(base + [Payload, Ne], XorBit(payloadEq, LitBit(true)))]
                      + [Def(base, OrBit(Temp(base + [Tag, Ne]), Temp(base + [Payload, Ne])))], s, t)
    ensures Extends(s, t, Ours(base))
    ensures Holds(t, Temp(base), OrVal(IcmpVal(PNe, IntTy(8), TagOf(l), TagOf(r)), XorVal(same, Bit(true))))
  {
    hide In, Run, Extends, TagOf, IcmpVal, OrVal, XorVal, Holds, Fits;
    OwnNames(base);
    assert (base + [Tag, Ne])[|base|] == Tag && (base + [Payload, Ne])[|base|] == Payload;
    assert base != base + [Tag, Ne] && base != base + [Payload, Ne] by {
      assert |base + [Tag, Ne]| == |base| + 2 && |base + [Payload, Ne]| == |base| + 2;
    }
    t := NotEqualAt(odd, Temp(base + [Lhs, Tag]), Temp(base + [Rhs, Tag]), payloadEq, base + [Tag, Ne], base + [Payload, Ne], base,
                    s, TagOf(l), TagOf(r), same, Ours(base));
  }

  /** The same for any distinct fresh names. */
  lemma {:induction false} NotEqualAt(odd: OddBool, lhs: Operand, rhs: Operand, payloadEq: Operand, tag: Name, payload: Name, out: Name,
                                      s: State, a: Val, b: Val, same: Val, region: Region) returns (t: State)
    requires Fits(IntTy(8), a) && Fits(IntTy(8), b) && Fits(I1, same)
    requires Holds(s, lhs, a) && Holds(s, rhs, b) && Holds(s, payloadEq, same)
    requires tag !in s.Names() && payload !in s.Names() && out !in s.Names() && tag != payload && tag != out && payload != out
    requires In(region, tag) && In(region, payload) && In(region, out)
    ensures Runs(odd, [Def(tag, Icmp(PNe, IntTy(8), lhs, rhs))] + [Def(payload, XorBit(payloadEq, LitBit(true)))]
                      + [Def(out, OrBit(Temp(tag), Temp(payload)))], s, t)
    ensures Extends(s, t, region)
    ensures Holds(t, Temp(out), OrVal(IcmpVal(PNe, IntTy(8), a, b), XorVal(same, Bit(true))))
  {
    XorEvaluates(odd, payloadEq, s, same);
    hide In, Run, Extends, IcmpVal, OrVal, XorVal, Eval, Holds;
    var ne, xor := IcmpVal(PNe, IntTy(8), a, b), XorVal(same, Bit(true));
    IcmpEvaluates(odd, PNe, IntTy(8), lhs, rhs, s, a, b);
    var c := RunsDef(odd, s, tag, Icmp(PNe, IntTy(8), lhs, rhs), ne, region);
    ExtendsKeeps(s, c, region);
    EvalKept(odd, s, c, XorBit(payloadEq, LitBit(true)), xor);
    var d := RunsDef(odd, c, payload, XorBit(payloadEq, LitBit(true)), xor, region);
    ExtendsKeeps(c, d, region);
    HoldsKept(c, d, Temp(tag), ne);
    OrEvaluates(odd, Temp(tag), Temp(payload), d, ne, xor);
    t := RunsDef(odd, d, out, OrBit(Temp(tag), Temp(payload)), OrVal(ne, xor), region);
    ExtendsTransitive(s, c, d, region);
    ExtendsTransitive(s, d, t, region);
    RunsSeq(odd, [Def(tag, Icmp(PNe, IntTy(8), lhs, rhs))], [Def(payload, XorBit(payloadEq, LitBit(true)))], s, c, d);
    RunsSeq(odd, [Def(tag, Icmp(PNe, IntTy(8), lhs, rhs))] + [Def(payload, XorBit(payloadEq, LitBit(true)))],
            [Def(out, OrBit(Temp(tag), Temp(payload)))], s, d, t);
  }

  lemma {:induction false} XorEvaluates(odd: OddBool, o: Operand, s: State, v: Val)
    requires Fits(I1, v) && Holds(s, o, v)
    ensures Eval(odd, s, XorBit(o, LitBit(true))) == Some(XorVal(v, Bit(true)))
  {
  }

  lemma {:induction false} OrEvaluates(odd: OddBool, left: Operand, right: Operand, s: State, a: Val, b: Val)
    requires Fits(I1, a) && Fits(I1, b) && Holds(s, left, a) && Holds(s, right, b)
    ensures Eval(odd, s, OrBit(left, right)) == Some(OrVal(a, b))
  {
  }

  // ----- The whole code -----

  /** The emitted comparison never gets stuck, and its result is what EnumMeaning says of the two images. */
  lemma {:induction false} CompareRuns(odd: OddBool, variants: seq<Variant>, op: Op, left: Operand, right: Operand, base: Name,
                                       s: State, l: Image, r: Image) returns (t: State)
    requires OrderableVariants(variants) && |l| == |r| == 8 + PayloadSize(variants)
    requires Holds(s, left, Agg(l)) && Holds(s, right, Agg(r)) && Clear(s, Claimed(base))
    ensures Runs(odd, CompareCode(variants, op, left, right, base), s, t)
    ensures Extends(s, t, Claimed(base)) && Holds(t, Temp(base), DenoteCompare(odd, variants, op, l, r))
  {
    ClearNarrow(s, Claimed(base), Ours(base)) by { hide OwnerOf; }
    if PayloadSize(variants) == 0 {
      t := TagsOnlyRun(odd, variants, op, left, right, base, s, l, r);
    } else {
      t := PayloadCompareRuns(odd, variants, op, left, right, base, s, l, r);
    }
  }

  lemma {:induction false} TagsOnlyRun(odd: OddBool, variants: seq<Variant>, op: Op, left: Operand, right: Operand, base: Name,
                                       s: State, l: Image, r: Image) returns (t: State)
    requires OrderableVariants(variants) && |l| == |r| == 8 + PayloadSize(variants) && PayloadSize(variants) == 0
    requires Holds(s, left, Agg(l)) && Holds(s, right, Agg(r)) && Clear(s, Ours(base))
    ensures Runs(odd, CompareCode(variants, op, left, right, base), s, t)
    ensures Extends(s, t, Claimed(base)) && Holds(t, Temp(base), DenoteCompare(odd, variants, op, l, r))
  {
    OwnNames(base);
    var p := TagPredicate(op);
    var lhs, rhs := Temp(base + [Lhs, Tag]), Temp(base + [Rhs, Tag]);
    hide Run, OwnerOf, TagOf, Eval, Extends, IcmpVal;
    assert |base + [Lhs, Tag]| == |base| + 2 && |base + [Rhs, Tag]| == |base| + 2;
    var a := TagPairRuns(odd, left, right, base, s, l, r);
    IcmpEvaluates(odd, p, IntTy(8), lhs, rhs, a, TagOf(l), TagOf(r));
    t := RunsDef(odd, a, base, Icmp(p, IntTy(8), lhs, rhs), IcmpVal(p, IntTy(8), TagOf(l), TagOf(r)), Ours(base));
    ExtendsTransitive(s, a, t, Ours(base));
    ExtendsWiden(s, t, Ours(base), Claimed(base));
    RunsSeq(odd, TagPairCode(left, right, base), TagIcmp(p, base, base), s, a, t);
  }

  lemma {:induction false} PayloadCompareRuns(odd: OddBool, variants: seq<Variant>, op: Op, left: Operand, right: Operand, base: Name,
                                              s: State, l: Image, r: Image) returns (t: State)
    requires OrderableVariants(variants) && |l| == |r| == 8 + PayloadSize(variants) && PayloadSize(variants) != 0
    requires Holds(s, left, Agg(l)) && Holds(s, right, Agg(r)) && Clear(s, Claimed(base)) && Clear(s, Ours(base))
    ensures Runs(odd, CompareCode(variants, op, left, right, base), s, t)
    ensures Extends(s, t, Claimed(base)) && Holds(t, Temp(base), DenoteCompare(odd, variants, op, l, r))
  {
    CodeInParts(variants, op, left, right, base);
    hide PayloadSize, OwnerOf, Run, Extends, TagOf, SlotName, IcmpVal, Spilled, SetupCode, ResultCode, VariantsCode, CompareCode,
         DenoteCompare, DenoteVariants, TagsKnown, VariantsOut, OurNames, HoldsTriple, Clear;
    var b := LoopsRun(odd, variants, op, left, right, base, s, l, r);
    t := ResultRuns(odd, variants, op, base, b, l, r);
    ExtendsWiden(b, t, Ours(base), Claimed(base));
    ExtendsTransitive(s, b, t, Claimed(base));
    RunsSeq(odd, SetupCode(variants, op, left, right, base) + VariantsCode(ModeOf(op), variants, 0, base),
            ResultCode(variants, op, base), s, b, t);
  }

  lemma {:induction false} LoopsRun(odd: OddBool, variants: seq<Variant>, op: Op, left: Operand, right: Operand, base: Name,
                                    s: State, l: Image, r: Image) returns (t: State)
    requires OrderableVariants(variants) && |l| == |r| == 8 + PayloadSize(variants)
    requires Holds(s, left, Agg(l)) && Holds(s, right, Agg(r)) && Clear(s, Claimed(base)) && Clear(s, Ours(base))
    ensures Runs(odd, SetupCode(variants, op, left, right, base) + VariantsCode(ModeOf(op), variants, 0, base), s, t)
    ensures Extends(s, t, Claimed(base)) && TagsKnown(t, op, base, l, r) && ResultFresh(t, base)
    ensures HoldsTriple(t, VariantsOut(ModeOf(op), variants, 0, base), DenoteVariants(odd, ModeOf(op), variants, 0, l, r))
  {
    hide PayloadSize, OwnerOf, Run, Extends, TagOf, SlotName, IcmpVal, Spilled, SetupCode, VariantsCode,
         DenoteVariants, TagsKnown, VariantsOut, OurNames, HoldsTriple, Clear, ResultFresh;
    var mode := ModeOf(op);
    var region := Frames.Variants(base, 0, |variants|);
    var a := SetupRuns(odd, variants, op, left, right, base, s, l, r);
    ClearNarrow(s, Claimed(base), region);
    ClearKept(s, a, Ours(base), region);
    t := VariantsRun(odd, mode, variants, 0, base, a, l, r);
    ResultIsFresh(op, base, |variants|, s, a, t);
    ExtendsKeeps(a, t, region);
    TagsKnownKept(a, t, op, base, l, r);
    ExtendsWiden(s, a, Ours(base), Claimed(base));
    ExtendsWiden(a, t, region, Claimed(base));
    ExtendsTransitive(s, a, t, Claimed(base));
    RunsSeq(odd, SetupCode(variants, op, left, right, base), VariantsCode(mode, variants, 0, base), s, a, t);
  }

  lemma {:induction false} CodeInParts(variants: seq<Variant>, op: Op, left: Operand, right: Operand, base: Name)
    requires PayloadSize(variants) != 0
    ensures CompareCode(variants, op, left, right, base) ==
            SetupCode(variants, op, left, right, base) + VariantsCode(ModeOf(op), variants, 0, base) + ResultCode(variants, op, base)
  {
    hide PayloadSize, TagPairCode, TagIcmp, StackSlotCode, SlotName, VariantsCode, ResultCode;
    var tags, eq := TagPairCode(left, right, base), TagIcmp(PEq, base, base + [Tag, Eq]);
    var a := StackSlotCode(Enum(variants), left, SlotName(ModeOf(op), base, Lhs));
    var b := StackSlotCode(Enum(variants), right, SlotName(ModeOf(op), base, Rhs));
    var order := OrderTagCode(op, base);
    Reassociate(tags, eq, a, b, order, VariantsCode(ModeOf(op), variants, 0, base), ResultCode(variants, op, base));
  }

  lemma {:induction false} Reassociate(t: seq<Line>, e: seq<Line>, a: seq<Line>, b: seq<Line>, o: seq<Line>, v: seq<Line>, r: seq<Line>)
    ensures t + (e + a + b + o + v + r) == t + e + (a + b) + o + v + r
  {
  }

  // ----- Main results -----

  /** s can run a comparison of the enum values lv and rv at base. */
  ghost predicate Ready(variants: seq<Variant>, left: Operand, right: Operand, base: Name, s: State,
                        l: Image, r: Image, lv: Value, rv: Value)
  {
    && OrderableVariants(variants) && |l| == |r| == 8 + PayloadSize(variants)
    && lv.EnumV? && RepresentsEnum(variants, l, lv.tag, lv.fields)
    && rv.EnumV? && RepresentsEnum(variants, r, rv.tag, rv.fields)
    && Holds(s, left, Agg(l)) && Holds(s, right, Agg(r)) && Clear(s, Claimed(base))
  }

  /**
   Ordering code always runs to the lexicographic answer, on any contents of
   the padding and of the bytes other variants would use, with every access in
   bounds and aligned and every temporary assigned once; so does equality code
   on two values of one variant.
   */
  lemma {:induction false} ComparisonIsLexicographic(odd: OddBool, variants: seq<Variant>, op: Op, left: Operand, right: Operand,
                                                     base: Name, s: State, l: Image, r: Image, lv: Value, rv: Value)
    returns (t: State)
    requires Ready(variants, left, right, base, s, l, r, lv, rv)
    requires op !in {EqOp, NeOp} || lv.tag == rv.tag
    ensures Runs(odd, CompareCode(variants, op, left, right, base), s, t)
    ensures Keeps(s, t) && Holds(t, Temp(base), Bit(Compares(op, lv, rv)))
    ensures SingleAssignment(CompareCode(variants, op, left, right, base), s.env.Keys)
  {
    hide PayloadSize, CompareCode, DenoteCompare, Run, OwnerOf, RepresentsEnum, Compares, AssignsOnce;
    t := CompareRuns(odd, variants, op, left, right, base, s, l, r);
    CompareIsOrder(odd, variants, op, l, r, lv, rv);
    RunsIsSingleAssignment(odd, CompareCode(variants, op, left, right, base), s, t);
  }

  /**
   Equality code runs for any two values, and answers correctly exactly when
   the tags agree or the right operand reads clean as the left one's variant;
   otherwise the result is poison.
   */
  lemma {:induction false} EqualityIsExactlyClean(odd: OddBool, variants: seq<Variant>, op: Op, left: Operand, right: Operand,
                                                  base: Name, s: State, l: Image, r: Image, lv: Value, rv: Value)
    returns (t: State)
    requires Ready(variants, left, right, base, s, l, r, lv, rv) && op in {EqOp, NeOp}
    ensures Runs(odd, CompareCode(variants, op, left, right, base), s, t)
    ensures var clean := lv.tag == rv.tag || ReadsCleanAs(odd, variants, Word(8, lv.tag), l, r);
            Keeps(s, t) && Holds(t, Temp(base), if clean then Bit(Compares(op, lv, rv)) else Poison)
    ensures SingleAssignment(CompareCode(variants, op, left, right, base), s.env.Keys)
  {
    hide PayloadSize, CompareCode, DenoteCompare, Run, OwnerOf, RepresentsEnum, Compares, ReadsCleanAs, AssignsOnce;
    t := CompareRuns(odd, variants, op, left, right, base, s, l, r);
    EqualityIffClean(odd, variants, op, l, r, lv, rv);
    RunsIsSingleAssignment(odd, CompareCode(variants, op, left, right, base), s, t);
  }

  /** All six comparisons are right for payloads without bools, or where odd bools keep their low bit, once no byte is undefined. */
  lemma {:induction false} DefinedBytesCompareRight(odd: OddBool, variants: seq<Variant>, op: Op, left: Operand, right: Operand,
                                                    base: Name, s: State, l: Image, r: Image, lv: Value, rv: Value)
    returns (t: State)
    requires Ready(variants, left, right, base, s, l, r, lv, rv)
    requires AllKnown(r) && (odd.OddLowBit? || BoolFree(Enum(variants)))
    ensures Runs(odd, CompareCode(variants, op, left, right, base), s, t)
    ensures Keeps(s, t) && Holds(t, Temp(base), Bit(Compares(op, lv, rv)))
    ensures SingleAssignment(CompareCode(variants, op, left, right, base), s.env.Keys)
  {
    hide PayloadSize, CompareCode, Run, OwnerOf, RepresentsEnum, Compares, ReadsCleanAs, SingleAssignment;
    if op in {EqOp, NeOp} {
      t := EqualityIsExactlyClean(odd, variants, op, left, right, base, s, l, r, lv, rv);
      KnownPayloadReadsClean(odd, variants, Word(8, lv.tag), l, r);
    } else {
      t := ComparisonIsLexicographic(odd, variants, op, left, right, base, s, l, r, lv, rv);
    }
  }
}
