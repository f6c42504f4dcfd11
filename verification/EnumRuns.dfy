/**
 Running the emitted comparison: from any state that has the two operands and
 none of the comparison's own names, every line executes (no access out of
 bounds or misaligned, no name defined twice) and the result names hold what
 EnumMeaning says.
 */
module EnumRuns {
  import opened Wrappers
  import opened Layout
  import opened Ir
  import opened EnumCode
  import opened EnumMeaning
  import opened Frames
  import opened EnumLoads

  predicate HoldsTriple(s: State, o: Triple<Operand>, v: Triple<Val>) {
    Holds(s, o.eq, v.eq) && Holds(s, o.lt, v.lt) && Holds(s, o.gt, v.gt)
  }

  lemma {:induction false} TripleKept(s: State, t: State, o: Triple<Operand>, v: Triple<Val>)
    requires Keeps(s, t) && HoldsTriple(s, o, v)
    ensures HoldsTriple(t, o, v)
  {
  }

  lemma {:induction false} OwnName(base: Name, q: seq<Part>)
    ensures In(Claimed(base), base + q) <==> Classify(q) != Outside
    ensures In(Ours(base), base + q) <==> Classify(q) == Own
  {
    OwnerOfSuffix(base, q);
  }

  lemma {:induction false} OwnNames(base: Name)
    ensures forall word :: word in {Eq, Lt, Gt} ==> In(Ours(base), base + [word]) && In(Ours(base), base + [Tag, word])
    ensures In(Ours(base), base + [Lhs, Tag]) && In(Ours(base), base + [Rhs, Tag])
    ensures In(Ours(base), base + [Tag, Order]) && In(Ours(base), base + [Tag, Ne]) && In(Ours(base), base + [Payload, Ne])
    ensures In(Ours(base), base)
  {
    hide In;
    forall word | word in {Eq, Lt, Gt} ensures In(Ours(base), base + [word]) && In(Ours(base), base + [Tag, word]) {
      OwnName(base, [word]);
      OwnName(base, [Tag, word]);
    }
    OwnName(base, [Lhs, Tag]);
    OwnName(base, [Rhs, Tag]);
    OwnName(base, [Tag, Order]);
    OwnName(base, [Tag, Ne]);
    OwnName(base, [Payload, Ne]);
    OwnName(base, []);
    assert base + [] == base;
  }

  lemma {:induction false} SuffixesDiffer(base: Name, p: seq<Part>, q: seq<Part>)
    ensures p != q <==> base + p != base + q
  {
    assert (base + p)[|base|..] == p && (base + q)[|base|..] == q;
  }

  lemma {:induction false} ThreeWordsDiffer(base: Name)
    ensures base + [Eq] != base + [Lt] && base + [Eq] != base + [Gt] && base + [Lt] != base + [Gt]
    ensures base + [Tag, Eq] != base + [Tag, Lt] && base + [Tag, Eq] != base + [Tag, Gt] && base + [Tag, Lt] != base + [Tag, Gt]
  {
    assert [Eq][0] == Eq && [Lt][0] == Lt && [Gt][0] == Gt;
    assert [Tag, Eq][1] == Eq && [Tag, Lt][1] == Lt && [Tag, Gt][1] == Gt;
    SuffixesDiffer(base, [Eq], [Lt]);
    SuffixesDiffer(base, [Eq], [Gt]);
    SuffixesDiffer(base, [Lt], [Gt]);
    SuffixesDiffer(base, [Tag, Eq], [Tag, Lt]);
    SuffixesDiffer(base, [Tag, Eq], [Tag, Gt]);
    SuffixesDiffer(base, [Tag, Lt], [Tag, Gt]);
  }

  // ----- Scalar fields -----

  lemma {:induction false} IcmpEvaluates(odd: OddBool, p: Predicate, ty: MemTy, left: Operand, right: Operand,
                                         s: State, a: Val, b: Val)
    requires IsScalar(ty) && Fits(ty, a) && Fits(ty, b) && Holds(s, left, a) && Holds(s, right, b)
    ensures Eval(odd, s, Icmp(p, ty, left, right)) == Some(IcmpVal(p, ty, a, b))
  {
    hide IcmpVal, Fits;
  }

  /** The three icmps on any two loaded scalars. */
  lemma {:induction false} IcmpsRun(odd: OddBool, ty: MemTy, lt: Predicate, gt: Predicate, left: Operand, right: Operand,
                                    base: Name, s: State, a: Val, b: Val) returns (t: State)
    requires IsScalar(ty) && Fits(ty, a) && Fits(ty, b) && Holds(s, left, a) && Holds(s, right, b)
    requires Clear(s, Claimed(base))
    ensures Runs(odd, [Def(base + [Eq], Icmp(PEq, ty, left, right))]
                      + [Def(base + [Lt], Icmp(lt, ty, left, right))]
                      + [Def(base + [Gt], Icmp(gt, ty, left, right))], s, t)
    ensures Extends(s, t, Claimed(base))
    ensures HoldsTriple(t, Triple(Temp(base + [Eq]), Temp(base + [Lt]), Temp(base + [Gt])),
                        Triple(IcmpVal(PEq, ty, a, b), IcmpVal(lt, ty, a, b), IcmpVal(gt, ty, a, b)))
  {
    OwnNames(base);
    ThreeWordsDiffer(base);
    hide Run, OwnerOf, Eval, IcmpVal, Fits, Extends;
    IcmpEvaluates(odd, PEq, ty, left, right, s, a, b);
    IcmpEvaluates(odd, lt, ty, left, right, s, a, b);
    IcmpEvaluates(odd, gt, ty, left, right, s, a, b);
    t := RunsThree(odd, s, base + [Eq], Icmp(PEq, ty, left, right), IcmpVal(PEq, ty, a, b),
                   base + [Lt], Icmp(lt, ty, left, right), IcmpVal(lt, ty, a, b),
                   base + [Gt], Icmp(gt, ty, left, right), IcmpVal(gt, ty, a, b), Claimed(base));
  }

  lemma {:induction false} ScalarRuns(odd: OddBool, ty: Type, left: Operand, right: Operand, base: Name,
                                      s: State, l: Image, r: Image) returns (t: State)
    requires Orderable(ty) && !ty.Enum? && |l| == |r| == ValueBytes(ty)
    requires Holds(s, left, ValueOf(odd, ty, l)) && Holds(s, right, ValueOf(odd, ty, r))
    requires Clear(s, Claimed(base))
    ensures Runs(odd, OrderCode(ty, left, right, base), s, t)
    ensures Extends(s, t, Claimed(base)) && HoldsTriple(t, OrderOut(ty, base), Denote(odd, ty, l, r))
  {
    var lt, gt := ScalarPredicate(LtOp, UnsignedOrder(ty)), ScalarPredicate(GtOp, UnsignedOrder(ty));
    hide Run, Lowered, ValueOf, IcmpVal, Extends, Clear;
    t := IcmpsRun(odd, MemOf(ty), lt, gt, left, right, base, s, ValueOf(odd, ty, l), ValueOf(odd, ty, r));
  }

  // ----- Tags -----

  lemma {:induction false} TagPairRuns(odd: OddBool, left: Operand, right: Operand, base: Name,
                                       s: State, l: Image, r: Image) returns (t: State)
    requires |l| >= 8 && |r| >= 8 && Holds(s, left, Agg(l)) && Holds(s, right, Agg(r))
    requires base + [Lhs, Tag] !in s.Names() && base + [Rhs, Tag] !in s.Names()
    ensures Runs(odd, TagPairCode(left, right, base), s, t)
    ensures Extends(s, t, Ours(base)) && t.Names() == s.Names() + {base + [Lhs, Tag], base + [Rhs, Tag]}
    ensures Holds(t, Temp(base + [Lhs, Tag]), TagOf(l)) && Holds(t, Temp(base + [Rhs, Tag]), TagOf(r))
  {
    hide Run, In, TagOf, Holds, Extends;
    OwnNames(base);
    assert [Lhs, Tag][0] == Lhs && [Rhs, Tag][0] == Rhs;
    SuffixesDiffer(base, [Lhs, Tag], [Rhs, Tag]);
    t := TwoTagsRun(odd, left, right, base + [Lhs, Tag], base + [Rhs, Tag], s, l, r, Ours(base));
  }

  lemma {:induction false} TagEvaluates(odd: OddBool, s: State, o: Operand, image: Image)
    requires |image| >= 8 && Holds(s, o, Agg(image))
    ensures Eval(odd, s, ExtractTag(o)) == Some(TagOf(image))
  {
  }

  lemma {:induction false} TwoTagsRun(odd: OddBool, left: Operand, right: Operand, lname: Name, rname: Name,
                                      s: State, l: Image, r: Image, region: Region) returns (t: State)
    requires |l| >= 8 && |r| >= 8 && Holds(s, left, Agg(l)) && Holds(s, right, Agg(r))
    requires lname !in s.Names() && rname !in s.Names() && lname != rname && In(region, lname) && In(region, rname)
    ensures Runs(odd, [Def(lname, ExtractTag(left))] + [Def(rname, ExtractTag(right))], s, t)
    ensures Extends(s, t, region) && t.Names() == s.Names() + {lname, rname}
    ensures Holds(t, Temp(lname), TagOf(l)) && Holds(t, Temp(rname), TagOf(r))
  {
    hide Run, In, TagOf, Eval;
    TagEvaluates(odd, s, left, l);
    TagEvaluates(odd, s, right, r);
    var a := RunsDef(odd, s, lname, ExtractTag(left), TagOf(l), region);
    EvalKept(odd, s, a, ExtractTag(right), TagOf(r));
    t := RunsDef(odd, a, rname, ExtractTag(right), TagOf(r), region);
    ExtendsTransitive(s, a, t, region);
    RunsSeq(odd, [Def(lname, ExtractTag(left))], [Def(rname, ExtractTag(right))], s, a, t);
  }

  predicate HoldsTags(s: State, base: Name, l: Image, r: Image)
    requires |l| >= 8 && |r| >= 8
  {
    Holds(s, Temp(base + [Lhs, Tag]), TagOf(l)) && Holds(s, Temp(base + [Rhs, Tag]), TagOf(r))
  }

  function TagTriple(base: Name): Triple<Operand> {
    Triple(Temp(base + [Tag, Eq]), Temp(base + [Tag, Lt]), Temp(base + [Tag, Gt]))
  }

  function TagVals(l: Image, r: Image): (t: Triple<Val>)
    requires |l| >= 8 && |r| >= 8
    ensures Bits(t)
  {
    Triple(IcmpVal(PEq, IntTy(8), TagOf(l), TagOf(r)),
           IcmpVal(PSlt, IntTy(8), TagOf(l), TagOf(r)),
           IcmpVal(PSgt, IntTy(8), TagOf(l), TagOf(r)))
  }

  function NestedTagCode(left: Operand, right: Operand, base: Name): seq<Line> {
    TagPairCode(left, right, base)
    + TagIcmp(PEq, base, base + [Tag, Eq])
    + TagIcmp(PSlt, base, base + [Tag, Lt])
    + TagIcmp(PSgt, base, base + [Tag, Gt])
  }

  lemma {:induction false} NestedTagsRun(odd: OddBool, left: Operand, right: Operand, base: Name,
                                         s: State, l: Image, r: Image) returns (t: State)
    requires |l| >= 8 && |r| >= 8 && Holds(s, left, Agg(l)) && Holds(s, right, Agg(r))
    requires Clear(s, Ours(base))
    ensures Runs(odd, NestedTagCode(left, right, base), s, t)
    ensures Extends(s, t, Ours(base)) && HoldsTags(t, base, l, r) && HoldsTriple(t, TagTriple(base), TagVals(l, r))
    ensures t.Names() == s.Names() + TagNames(base)
  {
    OwnNames(base);
    ThreeWordsDiffer(base);
    hide Run, In, TagOf, Eval, Extends, IcmpVal;
    var lhs, rhs := Temp(base + [Lhs, Tag]), Temp(base + [Rhs, Tag]);
    var a := TagPairRuns(odd, left, right, base, s, l, r);
    IcmpEvaluates(odd, PEq, IntTy(8), lhs, rhs, a, TagOf(l), TagOf(r));
    IcmpEvaluates(odd, PSlt, IntTy(8), lhs, rhs, a, TagOf(l), TagOf(r));
    IcmpEvaluates(odd, PSgt, IntTy(8), lhs, rhs, a, TagOf(l), TagOf(r));
    TagNamesDiffer(base);
    t := RunsThree(odd, a,
                   base + [Tag, Eq], Icmp(PEq, IntTy(8), lhs, rhs), IcmpVal(PEq, IntTy(8), TagOf(l), TagOf(r)),
                   base + [Tag, Lt], Icmp(PSlt, IntTy(8), lhs, rhs), IcmpVal(PSlt, IntTy(8), TagOf(l), TagOf(r)),
                   base + [Tag, Gt], Icmp(PSgt, IntTy(8), lhs, rhs), IcmpVal(PSgt, IntTy(8), TagOf(l), TagOf(r)), Ours(base));
    ExtendsKeeps(a, t, Ours(base));
    HoldsKept(a, t, lhs, TagOf(l));
    HoldsKept(a, t, rhs, TagOf(r));
    ExtendsTransitive(s, a, t, Ours(base));
    RunsSeqTriple(odd, TagPairCode(left, right, base), TagIcmp(PEq, base, base + [Tag, Eq]),
                  TagIcmp(PSlt, base, base + [Tag, Lt]), TagIcmp(PSgt, base, base + [Tag, Gt]), s, a, t);
  }

  function TagNames(base: Name): set<Name> {
    {base + [Lhs, Tag], base + [Rhs, Tag]} + {base + [Tag, Eq], base + [Tag, Lt], base + [Tag, Gt]}
  }

  lemma {:induction false} TagNamesDiffer(base: Name)
    ensures {base + [Lhs, Tag], base + [Rhs, Tag]} !! {base + [Tag, Eq], base + [Tag, Lt], base + [Tag, Gt]}
  {
    assert (base + [Tag, Eq])[|base|] == Tag && (base + [Tag, Lt])[|base|] == Tag && (base + [Tag, Gt])[|base|] == Tag;
    assert (base + [Lhs, Tag])[|base|] == Lhs && (base + [Rhs, Tag])[|base|] == Rhs;
  }

  // ----- Merging a field's result, picking a variant's -----

  lemma {:induction false} AndEvaluates(odd: OddBool, left: Operand, right: Operand, s: State, a: Val, b: Val)
    requires Fits(I1, a) && Fits(I1, b) && Holds(s, left, a) && Holds(s, right, b)
    ensures Eval(odd, s, AndBit(left, right)) == Some(AndVal(a, b))
  {
  }

  lemma {:induction false} SelectEvaluates(odd: OddBool, c: Operand, left: Operand, right: Operand, s: State, v: Val, a: Val, b: Val)
    requires Fits(I1, v) && Fits(I1, a) && Fits(I1, b) && Holds(s, c, v) && Holds(s, left, a) && Holds(s, right, b)
    ensures Eval(odd, s, Select(c, left, right)) == Some(SelectVal(v, a, b))
  {
  }

  lemma {:induction false} AndRuns(odd: OddBool, left: Operand, right: Operand, target: Name, s: State, a: Val, b: Val, r: Region)
    returns (t: State)
    requires Fits(I1, a) && Fits(I1, b) && Holds(s, left, a) && Holds(s, right, b)
    requires target !in s.Names() && In(r, target)
    ensures Runs(odd, [Def(target, AndBit(left, right))], s, t)
    ensures Extends(s, t, r) && Holds(t, Temp(target), AndVal(a, b))
  {
    hide In, Run, Eval, Fits, AndVal, Extends;
    AndEvaluates(odd, left, right, s, a, b);
    t := RunsDef(odd, s, target, AndBit(left, right), AndVal(a, b), r);
  }

  lemma {:induction false} SelectRuns(odd: OddBool, c: Operand, left: Operand, right: Operand, target: Name,
                                      s: State, v: Val, a: Val, b: Val, r: Region) returns (t: State)
    requires Fits(I1, v) && Fits(I1, a) && Fits(I1, b) && Holds(s, c, v) && Holds(s, left, a) && Holds(s, right, b)
    requires target !in s.Names() && In(r, target)
    ensures Runs(odd, [Def(target, Select(c, left, right))], s, t)
    ensures Extends(s, t, r) && Holds(t, Temp(target), SelectVal(v, a, b))
  {
    hide In, Run, Eval, Fits, SelectVal, Extends;
    SelectEvaluates(odd, c, left, right, s, v, a, b);
    t := RunsDef(odd, s, target, Select(c, left, right), SelectVal(v, a, b), r);
  }

  predicate MergeNamesFresh(s: State, base: Name, i: nat, j: nat) {
    forall word :: word in {Eq, Lt, Gt, Step} ==> MergeName(base, i, word, j) !in s.Names()
  }

  lemma {:induction false} MergeNamesOwned(base: Name, i: nat, j: nat)
    ensures forall word :: word in {Eq, Lt, Gt, Step} ==> In(Steps(base, i, j, j + 1), MergeName(base, i, word, j))
    ensures forall p, q :: p in {Eq, Lt, Gt} && q in {Eq, Lt, Gt} && p != q ==> MergeName(base, i, p, j) != MergeName(base, i, q, j)
  {
    forall word | word in {Eq, Lt, Gt, Step} ensures In(Steps(base, i, j, j + 1), MergeName(base, i, word, j)) {
      StepOwnsMerge(base, i, word, j);
    }
    forall p, q | p in {Eq, Lt, Gt} && q in {Eq, Lt, Gt} && p != q
      ensures MergeName(base, i, p, j) != MergeName(base, i, q, j)
    {
      assert MergeName(base, i, p, j)[|base| + 2] == p && MergeName(base, i, q, j)[|base| + 2] == q;
    }
  }

  lemma {:induction false} MergeRuns(odd: OddBool, mode: Mode, variants: seq<Variant>, i: nat, j: nat, base: Name,
                                     s: State, f: Triple<Val>, rest: Triple<Val>) returns (t: State)
    requires i < |variants| && j < |variants[i].fields| && Bits(f) && Bits(rest)
    requires HoldsTriple(s, OrderOut(variants[i].fields[j], SubName(mode, base, i, j)), f)
    requires HoldsTriple(s, FieldsOut(mode, variants, i, j + 1, base), rest)
    requires MergeNamesFresh(s, base, i, j)
    ensures Runs(odd, MergeCode(mode, variants, i, j, base), s, t)
    ensures Extends(s, t, Steps(base, i, j, j + 1))
    ensures HoldsTriple(t, FieldsOut(mode, variants, i, j, base), Merge(mode, f, rest))
  {
    MergeNamesOwned(base, i, j);
    var fo := OrderOut(variants[i].fields[j], SubName(mode, base, i, j));
    var ro := FieldsOut(mode, variants, i, j + 1, base);
    hide Run, In, Eval, Extends, OrderOut, SubName, MergeName, AndVal, SelectVal, Runs, Fits;
    var region := Steps(base, i, j, j + 1);
    match mode
    case Nested =>
      t := MergeNestedRuns(odd, fo, ro, MergeName(base, i, Eq, j), MergeName(base, i, Lt, j), MergeName(base, i, Gt, j),
                           s, f, rest, region);
    case Equality =>
      t := AndRuns(odd, ro.eq, fo.eq, MergeName(base, i, Eq, j), s, rest.eq, f.eq, region);
    case Ordering(op) =>
      var less := op in {LtOp, LeOp};
      t := SelectRuns(odd, fo.eq, ro.lt, if less then fo.lt else fo.gt, MergeName(base, i, Step, j),
                      s, f.eq, rest.lt, if less then f.lt else f.gt, region);
  }

  lemma {:induction false} MergeNestedRuns(odd: OddBool, fo: Triple<Operand>, ro: Triple<Operand>, eq: Name, lt: Name, gt: Name,
                                           s: State, f: Triple<Val>, rest: Triple<Val>, r: Region) returns (t: State)
    requires Bits(f) && Bits(rest) && HoldsTriple(s, fo, f) && HoldsTriple(s, ro, rest)
    requires eq !in s.Names() && lt !in s.Names() && gt !in s.Names() && eq != lt && eq != gt && lt != gt && In(r, eq) && In(r, lt) && In(r, gt)
    ensures Runs(odd, [Def(eq, AndBit(fo.eq, ro.eq))] + [Def(lt, Select(fo.eq, ro.lt, fo.lt))]
                      + [Def(gt, Select(fo.eq, ro.gt, fo.gt))], s, t)
    ensures Extends(s, t, r)
    ensures HoldsTriple(t, Triple(Temp(eq), Temp(lt), Temp(gt)), Merge(Nested, f, rest))
  {
    hide Run, In, Eval, Extends, AndVal, SelectVal, Fits;
    AndEvaluates(odd, fo.eq, ro.eq, s, f.eq, rest.eq);
    SelectEvaluates(odd, fo.eq, ro.lt, fo.lt, s, f.eq, rest.lt, f.lt);
    SelectEvaluates(odd, fo.eq, ro.gt, fo.gt, s, f.eq, rest.gt, f.gt);
    t := RunsThree(odd, s, eq, AndBit(fo.eq, ro.eq), AndVal(f.eq, rest.eq),
                   lt, Select(fo.eq, ro.lt, fo.lt), SelectVal(f.eq, rest.lt, f.lt),
                   gt, Select(fo.eq, ro.gt, fo.gt), SelectVal(f.eq, rest.gt, f.gt), r);
  }

  lemma {:induction false} PickNamesOwned(base: Name, i: nat)
    ensures In(Tail(base, i), MatchName(base, i)) && In(Tail(base, i), base + [SameTag, Num(i)])
    ensures In(Tail(base, i), base + [SameTag, Eq, Num(i)])
    ensures forall word :: word in {Eq, Lt, Gt} ==> In(Tail(base, i), base + [Same, word, Num(i)])
    ensures forall word :: word in {Eq, Lt, Gt} ==> base + [Same, word, Num(i)] != MatchName(base, i)
    ensures base + [SameTag, Num(i)] != MatchName(base, i) && base + [SameTag, Eq, Num(i)] != MatchName(base, i)
    ensures forall p, q :: p in {Eq, Lt, Gt} && q in {Eq, Lt, Gt} && p != q ==> base + [Same, p, Num(i)] != base + [Same, q, Num(i)]
  {
    OwnerOfSuffix(base, [VariantWord, Num(i), Match]);
    OwnerOfSuffix(base, [SameTag, Num(i)]);
    OwnerOfSuffix(base, [SameTag, Eq, Num(i)]);
    assert MatchName(base, i)[|base|] == VariantWord;
    assert (base + [SameTag, Num(i)])[|base|] == SameTag && (base + [SameTag, Eq, Num(i)])[|base|] == SameTag;
    forall word | word in {Eq, Lt, Gt}
      ensures In(Tail(base, i), base + [Same, word, Num(i)]) && base + [Same, word, Num(i)] != MatchName(base, i)
    {
      OwnerOfSuffix(base, [Same, word, Num(i)]);
      assert (base + [Same, word, Num(i)])[|base|] == Same;
    }
    forall p, q | p in {Eq, Lt, Gt} && q in {Eq, Lt, Gt} && p != q
      ensures base + [Same, p, Num(i)] != base + [Same, q, Num(i)]
    {
      assert (base + [Same, p, Num(i)])[|base| + 1] == p && (base + [Same, q, Num(i)])[|base| + 1] == q;
    }
  }

  lemma {:induction false} MatchRuns(odd: OddBool, base: Name, i: nat, s: State, tag: Val) returns (t: State)
    requires i < 0x8000_0000_0000_0000 && Fits(IntTy(8), tag) && Holds(s, Temp(base + [Lhs, Tag]), tag)
    requires MatchName(base, i) !in s.Names()
    ensures Runs(odd, [Def(MatchName(base, i), Icmp(PEq, IntTy(8), Temp(base + [Lhs, Tag]), LitI64(i)))], s, t)
    ensures Extends(s, t, Tail(base, i)) && t.Names() == s.Names() + {MatchName(base, i)}
    ensures Holds(t, Temp(MatchName(base, i)), IsTag(tag, i))
  {
    PickNamesOwned(base, i);
    TagLiteral(i);
    hide Run, In, Extends, MatchName, Pow256, Decide;
    IcmpEvaluates(odd, PEq, IntTy(8), Temp(base + [Lhs, Tag]), LitI64(i), s, tag, Word(8, i));
    TagIcmpIsTag(tag, i);
    t := RunsDef(odd, s, MatchName(base, i), Icmp(PEq, IntTy(8), Temp(base + [Lhs, Tag]), LitI64(i)), IsTag(tag, i), Tail(base, i));
  }

  lemma {:induction false} TagLiteral(i: nat)
    requires i < 0x8000_0000_0000_0000
    ensures Fits(IntTy(8), Word(8, i)) && forall s :: Holds(s, LitI64(i), Word(8, i))
  {
    assert Pow256(8) == 0x1_0000_0000_0000_0000 by {
      assert Pow256(4) == 0x1_0000_0000;
      assert Pow256(6) == 0x1_0000_0000_0000;
    }
  }

  lemma {:induction false} TagIcmpIsTag(tag: Val, i: nat)
    requires Fits(IntTy(8), tag) && Fits(IntTy(8), Word(8, i))
    ensures IcmpVal(PEq, IntTy(8), tag, Word(8, i)) == IsTag(tag, i)
  {
    hide Pow256;
  }

  lemma {:induction false} PickRuns(odd: OddBool, mode: Mode, variants: seq<Variant>, i: nat, base: Name,
                                    s: State, tag: Val, v: Triple<Val>, rest: Triple<Val>) returns (t: State)
    requires i < |variants| <= 0x8000_0000_0000_0000 && Bits(v) && Bits(rest)
    requires Fits(IntTy(8), tag) && Holds(s, Temp(base + [Lhs, Tag]), tag)
    requires HoldsTriple(s, FieldsOut(mode, variants, i, 0, base), v)
    requires HoldsTriple(s, VariantsOut(mode, variants, i + 1, base), rest)
    requires Clear(s, Tail(base, i))
    ensures Runs(odd, PickCode(mode, variants, i, base), s, t)
    ensures Extends(s, t, Tail(base, i))
    ensures HoldsTriple(t, VariantsOut(mode, variants, i, base), Pick(mode, IsTag(tag, i), v, rest))
  {
    PickNamesOwned(base, i);
    hide Run, In, Extends, MatchName, Pow256;
    var a := MatchRuns(odd, base, i, s, tag);
    ExtendsKeeps(s, a, Tail(base, i));
    TripleKept(s, a, FieldsOut(mode, variants, i, 0, base), v);
    TripleKept(s, a, VariantsOut(mode, variants, i + 1, base), rest);
    t := PickSelectsRun(odd, mode, variants, i, base, a, IsTag(tag, i), v, rest);
    ExtendsTransitive(s, a, t, Tail(base, i));
    RunsSeq(odd, [Def(MatchName(base, i), Icmp(PEq, IntTy(8), Temp(base + [Lhs, Tag]), LitI64(i)))],
            PickSelects(mode, variants, i, base), s, a, t);
  }

  lemma {:induction false} PickSelectsRun(odd: OddBool, mode: Mode, variants: seq<Variant>, i: nat, base: Name,
                                          s: State, m: Val, v: Triple<Val>, rest: Triple<Val>) returns (t: State)
    requires i < |variants| && Fits(I1, m) && Bits(v) && Bits(rest) && Holds(s, Temp(MatchName(base, i)), m)
    requires HoldsTriple(s, FieldsOut(mode, variants, i, 0, base), v)
    requires HoldsTriple(s, VariantsOut(mode, variants, i + 1, base), rest)
    requires base + [SameTag, Num(i)] !in s.Names() && base + [SameTag, Eq, Num(i)] !in s.Names()
    requires forall word :: word in {Eq, Lt, Gt} ==> base + [Same, word, Num(i)] !in s.Names()
    ensures Runs(odd, PickSelects(mode, variants, i, base), s, t)
    ensures Extends(s, t, Tail(base, i))
    ensures HoldsTriple(t, VariantsOut(mode, variants, i, base), Pick(mode, m, v, rest))
  {
    var vo, ro := FieldsOut(mode, variants, i, 0, base), VariantsOut(mode, variants, i + 1, base);
    var c := Temp(MatchName(base, i));
    hide Run, In, Eval, Extends, MatchName, SelectVal, FieldsOut, VariantsOut, Runs, Fits, Holds;
    OutAt(mode, variants, i, base);
    match mode
    case Nested =>
      var eq, lt, gt := base + [Same, Eq, Num(i)], base + [Same, Lt, Num(i)], base + [Same, Gt, Num(i)];
      assert In(Tail(base, i), eq) && In(Tail(base, i), lt) && In(Tail(base, i), gt) && eq != lt && eq != gt && lt != gt by {
        PickNamesOwned(base, i);
      }
      t := SelectsRun(odd, c, vo, ro, eq, lt, gt, s, m, v, rest, Tail(base, i));
    case Equality =>
      assert In(Tail(base, i), base + [SameTag, Eq, Num(i)]) by { PickNamesOwned(base, i); }
      t := SelectRuns(odd, c, vo.eq, ro.eq, base + [SameTag, Eq, Num(i)], s, m, v.eq, rest.eq, Tail(base, i));
      LiteralHolds(t, false);
    case Ordering(_) =>
      assert In(Tail(base, i), base + [SameTag, Num(i)]) by { PickNamesOwned(base, i); }
      t := SelectRuns(odd, c, vo.lt, ro.lt, base + [SameTag, Num(i)], s, m, v.lt, rest.lt, Tail(base, i));
      LiteralHolds(t, false);
  }

  lemma {:induction false} LiteralHolds(s: State, b: bool)
    ensures Holds(s, LitBit(b), Bit(b))
  {
  }

  lemma {:induction false} OutAt(mode: Mode, variants: seq<Variant>, i: nat, base: Name)
    requires i < |variants|
    ensures VariantsOut(mode, variants, i, base) ==
            match mode
            case Nested => Triple(Temp(base + [Same, Eq, Num(i)]), Temp(base + [Same, Lt, Num(i)]), Temp(base + [Same, Gt, Num(i)]))
            case Equality => Triple(Temp(base + [SameTag, Eq, Num(i)]), LitBit(false), LitBit(false))
            case Ordering(_) => Triple(LitBit(false), Temp(base + [SameTag, Num(i)]), LitBit(false))
  {
  }

  /** Three selects on one condition. */
  lemma {:induction false} SelectsRun(odd: OddBool, c: Operand, a: Triple<Operand>, b: Triple<Operand>,
                                      eq: Name, lt: Name, gt: Name, s: State, m: Val, v: Triple<Val>, w: Triple<Val>, r: Region)
    returns (t: State)
    requires Fits(I1, m) && Bits(v) && Bits(w) && Holds(s, c, m) && HoldsTriple(s, a, v) && HoldsTriple(s, b, w)
    requires eq !in s.Names() && lt !in s.Names() && gt !in s.Names() && eq != lt && eq != gt && lt != gt && In(r, eq) && In(r, lt) && In(r, gt)
    ensures Runs(odd, [Def(eq, Select(c, a.eq, b.eq))] + [Def(lt, Select(c, a.lt, b.lt))] + [Def(gt, Select(c, a.gt, b.gt))], s, t)
    ensures Extends(s, t, r) && t.Names() == s.Names() + {eq, lt, gt}
    ensures HoldsTriple(t, Triple(Temp(eq), Temp(lt), Temp(gt)),
                        Triple(SelectVal(m, v.eq, w.eq), SelectVal(m, v.lt, w.lt), SelectVal(m, v.gt, w.gt)))
  {
    hide Run, In, Eval, Extends, SelectVal, Fits;
    SelectEvaluates(odd, c, a.eq, b.eq, s, m, v.eq, w.eq);
    SelectEvaluates(odd, c, a.lt, b.lt, s, m, v.lt, w.lt);
    SelectEvaluates(odd, c, a.gt, b.gt, s, m, v.gt, w.gt);
    t := RunsThree(odd, s, eq, Select(c, a.eq, b.eq), SelectVal(m, v.eq, w.eq),
                   lt, Select(c, a.lt, b.lt), SelectVal(m, v.lt, w.lt),
                   gt, Select(c, a.gt, b.gt), SelectVal(m, v.gt, w.gt), r);
  }
}
