/**
 Running the loops over variants and fields, nested enums included, and the
 whole comparison.
 */
module EnumLoops {
  import opened Layout
  import opened Ir
  import opened EnumCode
  import opened EnumMeaning
  import opened Frames
  import opened EnumLoads
  import opened EnumRuns

  /** Both operands are on the stack and the left tag is known. */
  predicate Spilled(mode: Mode, variants: seq<Variant>, base: Name, s: State, l: Image, r: Image)
    requires |l| >= 8
  {
    && SlotHolds(s, SlotName(mode, base, Lhs), variants, l)
    && SlotHolds(s, SlotName(mode, base, Rhs), variants, r)
    && Holds(s, Temp(base + [Lhs, Tag]), TagOf(l))
  }

  lemma {:induction false} SpilledKept(mode: Mode, variants: seq<Variant>, base: Name, s: State, t: State, l: Image, r: Image)
    requires |l| >= 8 && Spilled(mode, variants, base, s, l, r) && Keeps(s, t)
    ensures Spilled(mode, variants, base, t, l, r)
  {
    hide SlotHolds, TagOf, SlotName;
    SlotKept(s, t, SlotName(mode, base, Lhs), variants, l);
    SlotKept(s, t, SlotName(mode, base, Rhs), variants, r);
  }

  // ----- Nothing below a step's base exists before the step -----

  lemma {:induction false} StepClearsSub(mode: Mode, base: Name, i: nat, j: nat, n: Name)
    requires !In(Steps(base, i, j, j + 1), n)
    ensures !In(Claimed(SubName(mode, base, i, j)), n)
  {
    hide Classify, SubName;
    var sub := SubName(mode, base, i, j);
    if |sub| <= |n| && n[..|sub|] == sub {
      StepOwnsBelow(mode, base, i, j, n);
    }
  }

  lemma {:induction false} SubInsideStep(mode: Mode, base: Name, i: nat, j: nat, n: Name)
    requires In(Claimed(SubName(mode, base, i, j)), n)
    ensures In(Steps(base, i, j, j + 1), n)
  {
    hide Classify, SubName;
    StepOwnsBelow(mode, base, i, j, n);
  }

  /** The loads a step makes are not names its comparison would define. */
  lemma {:induction false} LoadsOutsideSub(mode: Mode, base: Name, i: nat, j: nat, n: Name)
    requires n in LoadNames(SubName(mode, base, i, j), FieldName(base, i, j))
    ensures !In(Claimed(SubName(mode, base, i, j)), n)
    ensures forall word :: word in {Eq, Lt, Gt, Step} ==> n != MergeName(base, i, word, j)
  {
    var sub, field := SubName(mode, base, i, j), FieldName(base, i, j);
    forall side, p | side in {Lhs, Rhs} && p in {Payload, Field}
      ensures !In(Claimed(sub), sub + [side, PtrWord] + [p])
    {
      assert sub + [side, PtrWord] + [p] == sub + [side, PtrWord, p];
      OwnName(sub, [side, PtrWord, p]);
    }
    forall side | side in {Lhs, Rhs} ensures !In(Claimed(sub), field + [side]) {
      if mode.Nested? {
        OwnName(sub, [side]);
      } else {
        assert |field + [side]| < |sub|;
      }
    }
    forall word | word in {Eq, Lt, Gt, Step} ensures n != MergeName(base, i, word, j) {
      assert |n| > |base| + 4 && |MergeName(base, i, word, j)| == |base| + 4;
    }
  }

  lemma {:induction false} MergesOutsideSub(mode: Mode, base: Name, i: nat, j: nat, word: Part)
    requires word in {Eq, Lt, Gt, Step}
    ensures !In(Claimed(SubName(mode, base, i, j)), MergeName(base, i, word, j))
  {
    var sub, n := SubName(mode, base, i, j), MergeName(base, i, word, j);
    assert n[|base| + 2] == word;
    if mode.Nested? {
      assert sub[|base| + 2] == Field;
    } else {
      assert |sub| > |n|;
    }
  }

  // ----- One field -----

  lemma {:induction false} FieldRuns(odd: OddBool, mode: Mode, variants: seq<Variant>, i: nat, j: nat, base: Name,
                                     s: State, l: Image, r: Image, rest: Triple<Val>) returns (t: State)
    requires OrderableVariants(variants) && |l| == |r| == 8 + PayloadSize(variants)
    requires i < |variants| && j < |variants[i].fields| && Bits(rest)
    requires Spilled(mode, variants, base, s, l, r) && Clear(s, Steps(base, i, j, j + 1))
    requires HoldsTriple(s, FieldsOut(mode, variants, i, j + 1, base), rest)
    ensures Runs(odd, FieldCode(mode, variants, i, j, base), s, t)
    ensures Extends(s, t, Steps(base, i, j, j + 1))
    ensures HoldsTriple(t, FieldsOut(mode, variants, i, j, base),
                        Merge(mode, Denote(odd, variants[i].fields[j], FieldImage(variants, i, j, l), FieldImage(variants, i, j, r)), rest))
    decreases variants, 1
  {
    var ty := variants[i].fields[j];
    var sub, field := SubName(mode, base, i, j), FieldName(base, i, j);
    var region := Steps(base, i, j, j + 1);
    var fl, fr := FieldImage(variants, i, j, l), FieldImage(variants, i, j, r);
    hide PayloadSize, In, ValueOf, FieldImage, Denote, SubName, FieldName, SlotName, Extends, Run, SlotHolds, FieldsOut,
         Merge, MergeName, LoadNames, MergeCode, OrderCode, OrderOut, LoadPairCode, FieldOffset, HoldsTriple, TagOf;
    var a := LoadPairRuns(odd, mode, variants, i, j, base, s, l, r);
    ClearForComparison(mode, base, i, j, s, a);
    var b := OrderRuns(odd, ty, Temp(field + [Lhs]), Temp(field + [Rhs]), sub, a, fl, fr);
    FreshForMerge(mode, base, i, j, s, a, b);
    ExtendsKeeps(s, a, region);
    ExtendsKeeps(a, b, Claimed(sub));
    TripleKept(s, a, FieldsOut(mode, variants, i, j + 1, base), rest);
    TripleKept(a, b, FieldsOut(mode, variants, i, j + 1, base), rest);
    t := MergeRuns(odd, mode, variants, i, j, base, b, Denote(odd, ty, fl, fr), rest);
    WidenSub(mode, base, i, j, a, b);
    ExtendsTransitive(s, a, b, region);
    ExtendsTransitive(s, b, t, region);
    var load := LoadPairCode(Members(variants), ty, SlotName(mode, base, Lhs), SlotName(mode, base, Rhs), FieldOffset(variants, i, j), sub, field);
    var order := OrderCode(ty, Temp(field + [Lhs]), Temp(field + [Rhs]), sub);
    RunsSeq(odd, load, order, s, a, b);
    RunsSeq(odd, load + order, MergeCode(mode, variants, i, j, base), s, b, t);
  }

  lemma {:induction false} ClearForComparison(mode: Mode, base: Name, i: nat, j: nat, s: State, a: State)
    requires Clear(s, Steps(base, i, j, j + 1))
    requires a.Names() <= s.Names() + LoadNames(SubName(mode, base, i, j), FieldName(base, i, j))
    ensures Clear(a, Claimed(SubName(mode, base, i, j)))
  {
    hide In, SubName, FieldName, LoadNames;
    forall n | n in a.Names() ensures !In(Claimed(SubName(mode, base, i, j)), n) {
      if n in s.Names() {
        StepClearsSub(mode, base, i, j, n);
      } else {
        LoadsOutsideSub(mode, base, i, j, n);
      }
    }
  }

  lemma {:induction false} FreshForMerge(mode: Mode, base: Name, i: nat, j: nat, s: State, a: State, b: State)
    requires Clear(s, Steps(base, i, j, j + 1))
    requires a.Names() <= s.Names() + LoadNames(SubName(mode, base, i, j), FieldName(base, i, j))
    requires Extends(a, b, Claimed(SubName(mode, base, i, j)))
    ensures MergeNamesFresh(b, base, i, j)
  {
    MergeNamesOwned(base, i, j);
    hide In, SubName, FieldName, LoadNames, MergeName;
    forall word | word in {Eq, Lt, Gt, Step} ensures MergeName(base, i, word, j) !in b.Names() {
      MergesOutsideSub(mode, base, i, j, word);
      var n := MergeName(base, i, word, j);
      if n in LoadNames(SubName(mode, base, i, j), FieldName(base, i, j)) {
        LoadsOutsideSub(mode, base, i, j, n);
      }
    }
  }

  lemma {:induction false} WidenSub(mode: Mode, base: Name, i: nat, j: nat, a: State, b: State)
    requires Extends(a, b, Claimed(SubName(mode, base, i, j)))
    ensures Extends(a, b, Steps(base, i, j, j + 1))
  {
    hide In, SubName;
    forall n | In(Claimed(SubName(mode, base, i, j)), n) ensures In(Steps(base, i, j, j + 1), n) {
      SubInsideStep(mode, base, i, j, n);
    }
  }

  // ----- The loops -----

  lemma {:induction false} FieldsRuns(odd: OddBool, mode: Mode, variants: seq<Variant>, i: nat, j: nat, base: Name,
                                      s: State, l: Image, r: Image) returns (t: State)
    requires OrderableVariants(variants) && |l| == |r| == 8 + PayloadSize(variants)
    requires i < |variants| && j <= |variants[i].fields|
    requires Spilled(mode, variants, base, s, l, r) && Clear(s, Steps(base, i, 0, |variants[i].fields|))
    ensures Runs(odd, FieldsCode(mode, variants, i, j, base), s, t)
    ensures Extends(s, t, Steps(base, i, j, |variants[i].fields|))
    ensures HoldsTriple(t, FieldsOut(mode, variants, i, j, base), DenoteFields(odd, mode, variants, i, j, l, r))
    decreases variants, 2, |variants[i].fields| - j
  {
    hide PayloadSize, FieldImage, Denote, SlotHolds, Merge, FieldCode, Run, OwnerOf;
    var m := |variants[i].fields|;
    if j == m {
      t := s;
      RunsNothing(odd, s);
    } else {
      hide FieldsOut;
      var a := FieldsRuns(odd, mode, variants, i, j + 1, base, s, l, r);
      ExtendsKeeps(s, a, Steps(base, i, j + 1, m));
      SpilledKept(mode, variants, base, s, a, l, r);
      ClearNarrow(s, Steps(base, i, 0, m), Steps(base, i, j, j + 1));
      ClearKept(s, a, Steps(base, i, j + 1, m), Steps(base, i, j, j + 1));
      t := FieldRuns(odd, mode, variants, i, j, base, a, l, r, DenoteFields(odd, mode, variants, i, j + 1, l, r));
      ExtendsWiden(s, a, Steps(base, i, j + 1, m), Steps(base, i, j, m));
      ExtendsWiden(a, t, Steps(base, i, j, j + 1), Steps(base, i, j, m));
      ExtendsTransitive(s, a, t, Steps(base, i, j, m));
      RunsSeq(odd, FieldsCode(mode, variants, i, j + 1, base), FieldCode(mode, variants, i, j, base), s, a, t);
    }
  }

  lemma {:induction false} VariantsRun(odd: OddBool, mode: Mode, variants: seq<Variant>, i: nat, base: Name,
                                       s: State, l: Image, r: Image) returns (t: State)
    requires OrderableVariants(variants) && |l| == |r| == 8 + PayloadSize(variants)
    requires i <= |variants|
    requires Spilled(mode, variants, base, s, l, r) && Clear(s, Frames.Variants(base, 0, |variants|))
    ensures Runs(odd, VariantsCode(mode, variants, i, base), s, t)
    ensures Extends(s, t, Frames.Variants(base, i, |variants|))
    ensures HoldsTriple(t, VariantsOut(mode, variants, i, base), DenoteVariants(odd, mode, variants, i, l, r))
    decreases variants, 3, |variants| - i
  {
    hide PayloadSize, FieldImage, Denote, SlotHolds, Pick, FieldsCode, Run, OwnerOf, PickCode, DenoteFields;
    var n := |variants|;
    if i == n {
      t := s;
      RunsNothing(odd, s);
    } else {
      hide VariantsOut, FieldsOut;
      var a := VariantsRun(odd, mode, variants, i + 1, base, s, l, r);
      t := VariantRuns(odd, mode, variants, i, base, s, a, l, r, DenoteVariants(odd, mode, variants, i + 1, l, r));
      ExtendsWiden(s, a, Frames.Variants(base, i + 1, n), Frames.Variants(base, i, n));
      ExtendsWiden(a, t, Frames.Variants(base, i, i + 1), Frames.Variants(base, i, n));
      ExtendsTransitive(s, a, t, Frames.Variants(base, i, n));
      RunsSeqPair(odd, VariantsCode(mode, variants, i + 1, base), FieldsCode(mode, variants, i, 0, base),
                  PickCode(mode, variants, i, base), s, a, t);
    }
  }

  /** Variant i, after the variants above it took s to a. */
  lemma {:induction false} VariantRuns(odd: OddBool, mode: Mode, variants: seq<Variant>, i: nat, base: Name,
                                       s: State, a: State, l: Image, r: Image, rest: Triple<Val>) returns (t: State)
    requires OrderableVariants(variants) && |l| == |r| == 8 + PayloadSize(variants)
    requires i < |variants| && Bits(rest)
    requires Spilled(mode, variants, base, s, l, r) && Clear(s, Frames.Variants(base, 0, |variants|))
    requires Extends(s, a, Frames.Variants(base, i + 1, |variants|))
    requires HoldsTriple(a, VariantsOut(mode, variants, i + 1, base), rest)
    ensures Runs(odd, FieldsCode(mode, variants, i, 0, base) + PickCode(mode, variants, i, base), a, t)
    ensures Extends(a, t, Frames.Variants(base, i, i + 1))
    ensures HoldsTriple(t, VariantsOut(mode, variants, i, base),
                        Pick(mode, IsTag(TagOf(l), i), DenoteFields(odd, mode, variants, i, 0, l, r), rest))
    decreases variants, 3, 0
  {
    hide PayloadSize, FieldImage, Denote, SlotHolds, Pick, FieldsCode, Run, OwnerOf, PickCode, DenoteFields, VariantsOut, FieldsOut,
         TagOf, Extends, Clear;
    var m := |variants[i].fields|;
    ExtendsKeeps(s, a, Frames.Variants(base, i + 1, |variants|));
    SpilledKept(mode, variants, base, s, a, l, r);
    ClearNarrow(s, Frames.Variants(base, 0, |variants|), Frames.Variants(base, i, i + 1));
    ClearKept(s, a, Frames.Variants(base, i + 1, |variants|), Frames.Variants(base, i, i + 1));
    ClearNarrow(a, Frames.Variants(base, i, i + 1), Steps(base, i, 0, m));
    ClearNarrow(a, Frames.Variants(base, i, i + 1), Tail(base, i));
    var b := FieldsRuns(odd, mode, variants, i, 0, base, a, l, r);
    ExtendsKeeps(a, b, Steps(base, i, 0, m));
    TripleKept(a, b, VariantsOut(mode, variants, i + 1, base), rest);
    HoldsKept(a, b, Temp(base + [Lhs, Tag]), TagOf(l));
    ClearKept(a, b, Steps(base, i, 0, m), Tail(base, i));
    t := PickRuns(odd, mode, variants, i, base, b, TagOf(l), DenoteFields(odd, mode, variants, i, 0, l, r), rest);
    ExtendsWiden(a, b, Steps(base, i, 0, m), Frames.Variants(base, i, i + 1));
    ExtendsWiden(b, t, Tail(base, i), Frames.Variants(base, i, i + 1));
    ExtendsTransitive(a, b, t, Frames.Variants(base, i, i + 1));
    RunsSeq(odd, FieldsCode(mode, variants, i, 0, base), PickCode(mode, variants, i, base), a, b, t);
  }

  // ----- Comparing a field of any type -----

  lemma {:induction false} OrderRuns(odd: OddBool, ty: Type, left: Operand, right: Operand, base: Name,
                                     s: State, l: Image, r: Image) returns (t: State)
    requires Orderable(ty) && |l| == |r| == ValueBytes(ty)
    requires Holds(s, left, ValueOf(odd, ty, l)) && Holds(s, right, ValueOf(odd, ty, r))
    requires Clear(s, Claimed(base))
    ensures Runs(odd, OrderCode(ty, left, right, base), s, t)
    ensures Extends(s, t, Claimed(base)) && HoldsTriple(t, OrderOut(ty, base), Denote(odd, ty, l, r))
    decreases ty, 5
  {
    if ty.Enum? {
      t := EnumOrderRuns(odd, ty.variants, left, right, base, s, l, r);
    } else {
      t := ScalarRuns(odd, ty, left, right, base, s, l, r);
    }
  }

  lemma {:induction false} EnumOrderRuns(odd: OddBool, variants: seq<Variant>, left: Operand, right: Operand, base: Name,
                                         s: State, l: Image, r: Image) returns (t: State)
    requires OrderableVariants(variants) && |l| == |r| == 8 + PayloadSize(variants)
    requires Holds(s, left, Agg(l)) && Holds(s, right, Agg(r))
    requires Clear(s, Claimed(base))
    ensures Runs(odd, EnumOrderCode(variants, left, right, base), s, t)
    ensures Extends(s, t, Claimed(base)) && HoldsTriple(t, OrderOut(Enum(variants), base), DenoteEnum(odd, variants, l, r))
    decreases variants, 4
  {
    hide PayloadSize, SlotHolds, OwnerOf, Run, Extends, VariantsCode, DenoteVariants, TagOf, StackSlotCode, NestedResultCode,
         HoldsTriple, Clear, IcmpVal;
    ClearNarrow(s, Claimed(base), Ours(base));
    var a := NestedTagsRun(odd, left, right, base, s, l, r);
    ExtendsWiden(s, a, Ours(base), Claimed(base));
    if PayloadSize(variants) == 0 {
      t := a;
      assert EnumOrderCode(variants, left, right, base) == NestedTagCode(left, right, base);
    } else {
      var body := NestedBodyCode(variants, left, right, base);
      t := NestedBodyRuns(odd, variants, left, right, base, s, a, l, r);
      ExtendsTransitive(s, a, t, Claimed(base));
      RunsSeq(odd, NestedTagCode(left, right, base), body, s, a, t);
    }
  }

  /** Names a comparison keeps its slots under, and what it must not find there. */
  lemma {:induction false} SlotNames(mode: Mode, base: Name)
    ensures In(Ours(base), SlotName(mode, base, Lhs)) && In(Ours(base), SlotName(mode, base, Rhs))
    ensures SlotName(mode, base, Lhs) != SlotName(mode, base, Rhs)
    ensures SlotName(mode, base, Lhs) !in TagNames(base) && SlotName(mode, base, Rhs) !in TagNames(base)
  {
    if mode.Nested? {
      OwnName(base, [Lhs, Slot]);
      OwnName(base, [Rhs, Slot]);
      assert (base + [Lhs, Slot])[|base|] == Lhs && (base + [Rhs, Slot])[|base|] == Rhs;
      assert (base + [Lhs, Slot])[|base| + 1] == Slot && (base + [Rhs, Slot])[|base| + 1] == Slot;
      assert (base + [Lhs, Tag])[|base| + 1] == Tag && (base + [Rhs, Tag])[|base| + 1] == Tag;
      assert (base + [Tag, Eq])[|base|] == Tag && (base + [Tag, Lt])[|base|] == Tag && (base + [Tag, Gt])[|base|] == Tag;
    } else {
      OwnName(base, [EnumWord, Compare, Lhs, Slot]);
      OwnName(base, [EnumWord, Compare, Rhs, Slot]);
      assert SlotName(mode, base, Lhs)[|base| + 2] == Lhs && SlotName(mode, base, Rhs)[|base| + 2] == Rhs;
      assert |SlotName(mode, base, Lhs)| == |base| + 4 == |SlotName(mode, base, Rhs)|;
      assert forall n :: n in TagNames(base) ==> |n| == |base| + 2;
    }
  }

  /** Both operands spilled, after the tags took s to a. */
  lemma {:induction false} SpillRuns(odd: OddBool, mode: Mode, variants: seq<Variant>, left: Operand, right: Operand, base: Name,
                                     s: State, a: State, l: Image, r: Image) returns (t: State)
    requires OrderableVariants(variants) && |l| == |r| == 8 + PayloadSize(variants)
    requires Holds(s, left, Agg(l)) && Holds(s, right, Agg(r)) && Clear(s, Ours(base))
    requires Keeps(s, a) && a.Names() <= s.Names() + TagNames(base)
    requires Holds(a, Temp(base + [Lhs, Tag]), TagOf(l))
    ensures Runs(odd, StackSlotCode(Enum(variants), left, SlotName(mode, base, Lhs))
                      + StackSlotCode(Enum(variants), right, SlotName(mode, base, Rhs)), a, t)
    ensures Extends(a, t, Ours(base)) && Spilled(mode, variants, base, t, l, r)
    ensures t.Names() == a.Names() + {SlotName(mode, base, Lhs), SlotName(mode, base, Rhs)}
  {
    SlotNames(mode, base);
    hide PayloadSize, SlotHolds, In, Run, Extends, TagOf, StackSlotCode, SlotName, TagNames;
    var lslot, rslot := SlotName(mode, base, Lhs), SlotName(mode, base, Rhs);
    HoldsKept(s, a, left, Agg(l));
    HoldsKept(s, a, right, Agg(r));
    var b := StackSlotRuns(odd, variants, left, lslot, a, l, Ours(base));
    ExtendsKeeps(a, b, Ours(base));
    HoldsKept(a, b, right, Agg(r));
    HoldsKept(a, b, Temp(base + [Lhs, Tag]), TagOf(l));
    t := StackSlotRuns(odd, variants, right, rslot, b, r, Ours(base));
    ExtendsKeeps(b, t, Ours(base));
    SlotKept(b, t, lslot, variants, l);
    HoldsKept(b, t, Temp(base + [Lhs, Tag]), TagOf(l));
    ExtendsTransitive(a, b, t, Ours(base));
    RunsSeq(odd, StackSlotCode(Enum(variants), left, lslot), StackSlotCode(Enum(variants), right, rslot), a, b, t);
  }

  /** The loops find their part of the name space empty. */
  lemma {:induction false} NestedVariantsClear(base: Name, n: nat, s: State, a: State, b: State)
    requires Clear(s, Claimed(base)) && Extends(s, a, Ours(base)) && Extends(a, b, Ours(base))
    ensures Clear(b, Frames.Variants(base, 0, n))
  {
    hide OwnerOf;
    ClearNarrow(s, Claimed(base), Frames.Variants(base, 0, n));
    ClearKept(s, a, Ours(base), Frames.Variants(base, 0, n));
    ClearKept(a, b, Ours(base), Frames.Variants(base, 0, n));
  }

  predicate WordsFresh(s: State, base: Name) {
    base + [Eq] !in s.Names() && base + [Lt] !in s.Names() && base + [Gt] !in s.Names()
  }

  lemma {:induction false} ResultsFresh(base: Name, n: nat, s: State, a: State, b: State, c: State)
    requires Clear(s, Claimed(base)) && a.Names() == s.Names() + TagNames(base)
    requires b.Names() == a.Names() + {SlotName(Nested, base, Lhs), SlotName(Nested, base, Rhs)}
    requires Extends(b, c, Frames.Variants(base, 0, n))
    ensures WordsFresh(c, base)
  {
    hide OwnerOf, TagNames, SlotName;
    WordFresh(base, Eq, n, s, a, b, c);
    WordFresh(base, Lt, n, s, a, b, c);
    WordFresh(base, Gt, n, s, a, b, c);
  }

  lemma {:induction false} TagNamesLength(base: Name, q: Name)
    requires q in TagNames(base) || q == SlotName(Nested, base, Lhs) || q == SlotName(Nested, base, Rhs)
    ensures |q| == |base| + 2
  {
  }

  /** A name outside the region of an extension is as fresh as it was. */
  lemma {:induction false} StaysFresh(b: State, c: State, r: Region, name: Name)
    requires name !in b.Names() && Extends(b, c, r) && !In(r, name)
    ensures name !in c.Names()
  {
    hide In;
  }

  lemma {:induction false} WordOutside(base: Name, word: Part, n: nat)
    requires word in {Eq, Lt, Gt}
    ensures In(Claimed(base), base + [word]) && !In(Frames.Variants(base, 0, n), base + [word])
  {
    OwnerOfSuffix(base, [word]);
  }

  lemma {:induction false} WordFresh(base: Name, word: Part, n: nat, s: State, a: State, b: State, c: State)
    requires word in {Eq, Lt, Gt}
    requires Clear(s, Claimed(base)) && a.Names() == s.Names() + TagNames(base)
    requires b.Names() == a.Names() + {SlotName(Nested, base, Lhs), SlotName(Nested, base, Rhs)}
    requires Extends(b, c, Frames.Variants(base, 0, n))
    ensures base + [word] !in c.Names()
  {
    hide OwnerOf, TagNames, In, Extends, SlotName;
    var name := base + [word];
    WordOutside(base, word, n);
    assert name !in s.Names();
    assert |name| == |base| + 1;
    if name in TagNames(base) || name == SlotName(Nested, base, Lhs) || name == SlotName(Nested, base, Rhs) {
      TagNamesLength(base, name);
    }
    StaysFresh(b, c, Frames.Variants(base, 0, n), name);
  }

  lemma {:induction false} NestedResultRuns(odd: OddBool, variants: seq<Variant>, base: Name, s: State, l: Image, r: Image)
    returns (t: State)
    requires OrderableVariants(variants) && |l| == |r| == 8 + PayloadSize(variants) && PayloadSize(variants) != 0
    requires HoldsTriple(s, TagTriple(base), TagVals(l, r)) && WordsFresh(s, base)
    requires HoldsTriple(s, VariantsOut(Nested, variants, 0, base), DenoteVariants(odd, Nested, variants, 0, l, r))
    ensures Runs(odd, NestedResultCode(variants, base), s, t)
    ensures Extends(s, t, Ours(base)) && HoldsTriple(t, OrderOut(Enum(variants), base), DenoteEnum(odd, variants, l, r))
  {
    OwnNames(base);
    ThreeWordsDiffer(base);
    hide PayloadSize, In, Run, Extends, DenoteVariants, TagOf, IcmpVal, VariantsOut, SelectVal;
    var tags, same := TagVals(l, r), DenoteVariants(odd, Nested, variants, 0, l, r);
    var so := VariantsOut(Nested, variants, 0, base);
    t := SelectsRun(odd, Temp(base + [Tag, Eq]), so, TagTriple(base).(eq := LitBit(false)),
                    base + [Eq], base + [Lt], base + [Gt], s, tags.eq, same, tags.(eq := Bit(false)), Ours(base));
  }

  function NestedBodyCode(variants: seq<Variant>, left: Operand, right: Operand, base: Name): seq<Line> {
    StackSlotCode(Enum(variants), left, SlotName(Nested, base, Lhs))
    + StackSlotCode(Enum(variants), right, SlotName(Nested, base, Rhs))
    + VariantsCode(Nested, variants, 0, base)
    + NestedResultCode(variants, base)
  }

  lemma {:induction false} NestedBodyRuns(odd: OddBool, variants: seq<Variant>, left: Operand, right: Operand, base: Name,
                                          s: State, a: State, l: Image, r: Image) returns (t: State)
    requires OrderableVariants(variants) && |l| == |r| == 8 + PayloadSize(variants) && PayloadSize(variants) != 0
    requires Holds(s, left, Agg(l)) && Holds(s, right, Agg(r)) && Clear(s, Claimed(base))
    requires Extends(s, a, Ours(base)) && a.Names() == s.Names() + TagNames(base)
    requires HoldsTags(a, base, l, r) && HoldsTriple(a, TagTriple(base), TagVals(l, r))
    ensures Runs(odd, NestedBodyCode(variants, left, right, base), a, t)
    ensures Extends(a, t, Claimed(base)) && HoldsTriple(t, OrderOut(Enum(variants), base), DenoteEnum(odd, variants, l, r))
    decreases variants, 3, |variants| + 2
  {
    hide PayloadSize, SlotHolds, OwnerOf, Run, Extends, VariantsCode, DenoteVariants, TagOf, StackSlotCode, NestedResultCode,
         HoldsTriple, Clear, IcmpVal, SlotName, TagNames, VariantsOut, TagTriple, TagVals, OrderOut, DenoteEnum;
    var code := StackSlotCode(Enum(variants), left, SlotName(Nested, base, Lhs))
              + StackSlotCode(Enum(variants), right, SlotName(Nested, base, Rhs))
              + VariantsCode(Nested, variants, 0, base);
    var c := NestedLoopRuns(odd, variants, left, right, base, s, a, l, r);
    t := NestedResultRuns(odd, variants, base, c, l, r);
    ExtendsWiden(c, t, Ours(base), Claimed(base));
    ExtendsTransitive(a, c, t, Claimed(base));
    RunsSeq(odd, code, NestedResultCode(variants, base), a, c, t);
  }

  lemma {:induction false} NestedLoopRuns(odd: OddBool, variants: seq<Variant>, left: Operand, right: Operand, base: Name,
                                          s: State, a: State, l: Image, r: Image) returns (t: State)
    requires OrderableVariants(variants) && |l| == |r| == 8 + PayloadSize(variants)
    requires Holds(s, left, Agg(l)) && Holds(s, right, Agg(r)) && Clear(s, Claimed(base))
    requires Extends(s, a, Ours(base)) && a.Names() == s.Names() + TagNames(base)
    requires HoldsTags(a, base, l, r) && HoldsTriple(a, TagTriple(base), TagVals(l, r))
    ensures Runs(odd, StackSlotCode(Enum(variants), left, SlotName(Nested, base, Lhs))
                      + StackSlotCode(Enum(variants), right, SlotName(Nested, base, Rhs))
                      + VariantsCode(Nested, variants, 0, base), a, t)
    ensures Extends(a, t, Claimed(base)) && WordsFresh(t, base) && HoldsTriple(t, TagTriple(base), TagVals(l, r))
    ensures HoldsTriple(t, VariantsOut(Nested, variants, 0, base), DenoteVariants(odd, Nested, variants, 0, l, r))
    decreases variants, 3, |variants| + 1
  {
    hide PayloadSize, SlotHolds, OwnerOf, Run, Extends, VariantsCode, DenoteVariants, TagOf, StackSlotCode,
         HoldsTriple, Clear, IcmpVal, SlotName, TagNames, VariantsOut, TagTriple, TagVals, Spilled;
    ClearNarrow(s, Claimed(base), Ours(base));
    ExtendsKeeps(s, a, Ours(base));
    var b := SpillRuns(odd, Nested, variants, left, right, base, s, a, l, r);
    NestedVariantsClear(base, |variants|, s, a, b);
    t := VariantsRun(odd, Nested, variants, 0, base, b, l, r);
    ResultsFresh(base, |variants|, s, a, b, t);
    LoopFrame(base, |variants|, a, b, t, TagTriple(base), TagVals(l, r));
    RunsSeq(odd, StackSlotCode(Enum(variants), left, SlotName(Nested, base, Lhs))
                 + StackSlotCode(Enum(variants), right, SlotName(Nested, base, Rhs)),
            VariantsCode(Nested, variants, 0, base), a, b, t);
  }

  lemma {:induction false} LoopFrame(base: Name, n: nat, a: State, b: State, c: State, o: Triple<Operand>, v: Triple<Val>)
    requires Extends(a, b, Ours(base)) && Extends(b, c, Frames.Variants(base, 0, n)) && HoldsTriple(a, o, v)
    ensures Extends(a, c, Claimed(base)) && HoldsTriple(c, o, v)
  {
    hide OwnerOf;
    ExtendsWiden(a, b, Ours(base), Claimed(base));
    ExtendsWiden(b, c, Frames.Variants(base, 0, n), Claimed(base));
    ExtendsTransitive(a, b, c, Claimed(base));
  }
}
