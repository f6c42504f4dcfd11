/**
 Which bytes of a stored aggregate carry its value. The others, between the
 members and behind the last one, are padding: a store leaves them undefined.
 */
module Padding {
  import opened Arith
  import opened Layout

  /** One flag for every byte in memory, true where the byte belongs to the value. */
  datatype Shape = Shape(mask: seq<bool>, alignment: nat)

  function Fill(b: bool, n: nat): (mask: seq<bool>)
    ensures |mask| == n
  {
    seq(n, _ => b)
  }

  function Repeat(mask: seq<bool>, n: nat): seq<bool>
  {
    if n == 0 then [] else Repeat(mask, n - 1) + mask
  }

  function ShapeOf(repr: Repr): Shape
    decreases repr, 1
  {
    match repr
    case ReprI1 => Shape([true], 1)
    case ReprInt(bytes) => Shape(Fill(true, bytes), bytes)
    case ReprFloat => Shape(Fill(true, 4), 4)
    case ReprDouble => Shape(Fill(true, 8), 8)
    case ReprPtr => Shape(Fill(true, 8), 8)
    case ReprStruct(packed, members) =>
      var laid := LaidOut(packed, Shapes(members));
      Shape(laid.mask + Fill(false, AlignTo(|laid.mask|, laid.alignment) - |laid.mask|), laid.alignment)
    case ReprArray(length, element) => Shape(Repeat(ShapeOf(element).mask, length), ShapeOf(element).alignment)
  }

  function Shapes(members: seq<Repr>): (shapes: seq<Shape>)
    ensures |shapes| == |members|
    ensures forall i :: 0 <= i < |members| ==> shapes[i] == ShapeOf(members[i])
    decreases members, 0
  {
    seq(|members|, i requires 0 <= i < |members| => ShapeOf(members[i]))
  }

  /** Members left to right, each at the next offset its alignment allows. */
  function LaidOut(packed: bool, shapes: seq<Shape>): Shape {
    if shapes == [] then Shape([], 1) else
      var before, last := LaidOut(packed, shapes[..|shapes| - 1]), shapes[|shapes| - 1];
      var offset := if packed then |before.mask| else AlignTo(|before.mask|, last.alignment);
      Shape(before.mask + Fill(false, offset - |before.mask|) + last.mask, Max(before.alignment, if packed then 1 else last.alignment))
  }

  /** The bytes of a value of type ty that are not padding. */
  function ValueMask(ty: Type): seq<bool> {
    ShapeOf(Lowered(ty, false).repr).mask
  }

  // ----- The mask covers exactly the bytes the lowering counts -----

  predicate Covers(info: TypeInfo) {
    |ShapeOf(info.repr).mask| == info.size && ShapeOf(info.repr).alignment == info.alignment
  }

  lemma {:induction false} LaidOutLikePlaced(packed: bool, infos: seq<TypeInfo>)
    requires forall i :: 0 <= i < |infos| ==> Covers(infos[i])
    ensures var laid := LaidOut(packed, Shapes(Reprs(infos)));
            |laid.mask| == Place(packed, infos).end && laid.alignment == Place(packed, infos).alignment
  {
    hide AlignTo, ShapeOf;
    if infos != [] {
      var n := |infos| - 1;
      LaidOutLikePlaced(packed, infos[..n]);
      assert Covers(infos[n]);
      assert Shapes(Reprs(infos))[..n] == Shapes(Reprs(infos[..n]));
    }
  }

  lemma {:induction false} StructCovered(packed: bool, infos: seq<TypeInfo>, info: TypeInfo)
    requires forall i :: 0 <= i < |infos| ==> Covers(infos[i])
    requires info == TypeInfo(ReprStruct(packed, Reprs(infos)), PlacedSize(packed, Place(packed, infos)), Place(packed, infos).alignment)
    ensures Covers(info)
  {
    hide Place, LaidOut, AlignTo;
    LaidOutLikePlaced(packed, infos);
    if packed {
      PackedPlaced(infos);
      AlignToOne(Place(true, infos).end);
    }
  }

  lemma {:induction false} AlignToOne(value: nat)
    ensures AlignTo(value, 1) == value
  {
    RemOne(value);
  }

  lemma {:induction false} RepeatedFill(n: nat)
    ensures Repeat(Fill(true, 1), n) == Fill(true, n)
  {
    if n > 0 {
      RepeatedFill(n - 1);
      assert Fill(true, n - 1) + Fill(true, 1) == Fill(true, n);
    }
  }

  /** Two members, the second without alignment of its own. */
  lemma {:induction false} PairLaidOut(a: Shape, b: Shape)
    requires a.alignment >= b.alignment > 0 && Rem(|a.mask|, b.alignment) == 0
    ensures LaidOut(false, [a]) == a
    ensures LaidOut(false, [a, b]) == Shape(a.mask + b.mask, a.alignment)
  {
    var none := LaidOut(false, []);
    assert [a][..0] == [] && [a, b][..1] == [a];
    assert AlignTo(0, a.alignment) == 0;
    assert [] + Fill(false, 0) + a.mask == a.mask;
    assert a.mask + Fill(false, 0) + b.mask == a.mask + b.mask;
  }

  /** An enum's tag and payload carry its value; the bytes that round its size up do not. */
  lemma {:induction false} EnumCovered(payloadSize: nat, payloadAlignment: nat)
    requires IsAlignment(payloadAlignment)
    ensures var info := EnumInfo(payloadSize, payloadAlignment);
            && Covers(info) && info.size >= 8 + payloadSize
            && ShapeOf(info.repr).mask == Fill(true, 8 + payloadSize) + Fill(false, info.size - (8 + payloadSize))
  {
    hide Place, Repeat, LaidOut, AlignTo, Rem;
    var info := EnumInfo(payloadSize, payloadAlignment);
    var tag, payload := ShapeOf(ReprInt(8)), ShapeOf(ReprArray(payloadSize, ReprInt(1)));
    RepeatedFill(payloadSize);
    ArrayShape(payloadSize, ReprInt(1));
    assert ShapeOf(ReprInt(1)) == Shape(Fill(true, 1), 1);
    assert payload == Shape(Fill(true, payloadSize), 1);
    RemOne(8);
    AlignToGrows(8 + payloadSize, 8);
    PairLaidOut(tag, payload);
    assert Fill(true, 8) + Fill(true, payloadSize) == Fill(true, 8 + payloadSize);
    if payloadSize == 0 {
      assert Shapes([ReprInt(8)]) == [tag];
    } else {
      assert Shapes([ReprInt(8), ReprArray(payloadSize, ReprInt(1))]) == [tag, payload];
    }
  }

  /** The mask has a flag for every byte of the size the lowering computes. */
  lemma {:induction false} LoweringCovered(ty: Type, storage: bool)
    ensures Covers(Lowered(ty, storage))
    decreases ty
  {
    hide Place, PlacedSize, AlignTo, EnumInfo, PayloadSize, PayloadAlignment, Covers;
    match ty
    case Struct(packed, fields) =>
      forall i | 0 <= i < |fields| ensures Covers(Infos(fields, true)[i]) {
        LoweringCovered(fields[i], true);
      }
      StructCovered(packed, Infos(fields, true), Lowered(ty, storage));
    case Tuple(fields) =>
      forall i | 0 <= i < |fields| ensures Covers(Infos(fields, storage)[i]) {
        LoweringCovered(fields[i], storage);
      }
      StructCovered(false, Infos(fields, storage), Lowered(ty, storage));
    case Array(length, element) =>
      LoweringCovered(element, storage);
      ArrayCovered(length, Lowered(element, storage));
    case Enum(variants) =>
      VariantFieldsWellFormed(variants);
      PayloadAlignmentIsAlignment(variants);
      EnumCovered(PayloadSize(variants), PayloadAlignment(variants));
    case _ => ScalarCovered(ty, storage);
  }

  lemma {:induction false} ArrayCovered(length: nat, info: TypeInfo)
    requires Covers(info)
    ensures Covers(TypeInfo(ReprArray(length, info.repr), info.size * length, info.alignment))
  {
    hide ShapeOf, Repeat;
    RepeatLength(ShapeOf(info.repr).mask, info.size, length);
    ArrayShape(length, info.repr);
  }

  lemma {:induction false} RepeatLength(mask: seq<bool>, size: nat, n: nat)
    requires |mask| == size
    ensures |Repeat(mask, n)| == size * n
  {
    if n > 0 {
      RepeatLength(mask, size, n - 1);
    }
  }

  lemma {:induction false} ArrayShape(length: nat, element: Repr)
    ensures ShapeOf(ReprArray(length, element)) == Shape(Repeat(ShapeOf(element).mask, length), ShapeOf(element).alignment)
  {
    hide LaidOut, Repeat, AlignTo;
  }

  lemma {:induction false} ScalarCovered(ty: Type, storage: bool)
    requires !ty.Struct? && !ty.Array? && !ty.Tuple? && !ty.Enum?
    ensures Covers(Lowered(ty, storage))
  {
    if ty.Text? {
      WordsCovered([ReprPtr, ReprInt(8)]);
    } else if ty.Buffer? {
      WordsCovered([ReprPtr, ReprInt(8), ReprInt(8), ReprPtr]);
    }
  }

  lemma {:induction false} WordsLaidOut(members: seq<Repr>)
    requires forall i :: 0 <= i < |members| ==> members[i] == ReprPtr || members[i] == ReprInt(8)
    ensures var laid := LaidOut(false, Shapes(members));
            |laid.mask| == 8 * |members| && laid.alignment == if members == [] then 1 else 8
  {
    if members != [] {
      var n := |members| - 1;
      WordsLaidOut(members[..n]);
      assert Shapes(members)[..n] == Shapes(members[..n]);
      ProductStaysAligned(8, n, 8);
    }
  }

  lemma {:induction false} WordsCovered(members: seq<Repr>)
    requires |members| > 0
    requires forall i :: 0 <= i < |members| ==> members[i] == ReprPtr || members[i] == ReprInt(8)
    ensures Covers(TypeInfo(ReprStruct(false, members), 8 * |members|, 8))
  {
    WordsLaidOut(members);
    ProductStaysAligned(8, |members|, 8);
  }

  lemma {:induction false} EnumValueMask(variants: seq<Variant>)
    ensures var n := 8 + PayloadSize(variants); var size := Lowered(Enum(variants), false).size;
            n <= size && ValueMask(Enum(variants)) == Fill(true, n) + Fill(false, size - n)
  {
    hide PayloadSize, PayloadAlignment, EnumInfo, ShapeOf;
    VariantFieldsWellFormed(variants);
    PayloadAlignmentIsAlignment(variants);
    EnumCovered(PayloadSize(variants), PayloadAlignment(variants));
  }

  /** Each member's own mask lies at the member's offset. */
  lemma {:induction false} MemberAtOffset(packed: bool, infos: seq<TypeInfo>, i: nat)
    requires i < |infos| && forall k :: 0 <= k < |infos| ==> Covers(infos[k])
    ensures var mask := LaidOut(packed, Shapes(Reprs(infos))).mask; var p := Place(packed, infos);
            && |p.offsets| == |infos| && p.offsets[i] + infos[i].size <= |mask|
            && mask[p.offsets[i]..p.offsets[i] + infos[i].size] == ShapeOf(infos[i].repr).mask
  {
    hide AlignTo, ShapeOf, Gap, Place, LaidOut, Reprs, Shapes;
    var n := |infos| - 1;
    LaidOutLikePlaced(packed, infos[..n]);
    assert Covers(infos[n]);
    LaidOutStep(packed, infos);
    OffsetsStep(packed, infos);
    var before, gap, last := LaidOut(packed, Shapes(Reprs(infos[..n]))).mask, Gap(packed, infos), ShapeOf(infos[n].repr).mask;
    if i < n {
      MemberAtOffset(packed, infos[..n], i);
      var start := Place(packed, infos[..n]).offsets[i];
      Slices(before, gap, last, start, start + infos[i].size);
    } else {
      Slices(before, gap, last, 0, 0);
    }
  }

  lemma {:induction false} OffsetsStep(packed: bool, infos: seq<TypeInfo>)
    requires infos != []
    ensures var n := |infos| - 1;
            && |Place(packed, infos[..n]).offsets| == n
            && Place(packed, infos).offsets ==
               Place(packed, infos[..n]).offsets + [Place(packed, infos[..n]).end + |Gap(packed, infos)|]
  {
    hide AlignTo;
    var n := |infos| - 1;
    OneOffsetEach(packed, infos[..n]);
    AlignToGrows(Place(packed, infos[..n]).end, infos[n].alignment);
  }

  /** Padding before the last member. */
  function Gap(packed: bool, infos: seq<TypeInfo>): seq<bool>
    requires infos != []
  {
    var end := Place(packed, infos[..|infos| - 1]).end;
    Fill(false, if packed then 0 else AlignTo(end, infos[|infos| - 1].alignment) - end)
  }

  lemma {:induction false} LaidOutStep(packed: bool, infos: seq<TypeInfo>)
    requires infos != [] && forall k :: 0 <= k < |infos| ==> Covers(infos[k])
    ensures var n := |infos| - 1;
            LaidOut(packed, Shapes(Reprs(infos))).mask
            == LaidOut(packed, Shapes(Reprs(infos[..n]))).mask + Gap(packed, infos) + ShapeOf(infos[n].repr).mask
  {
    hide AlignTo, ShapeOf;
    var n := |infos| - 1;
    LaidOutLikePlaced(packed, infos[..n]);
    assert Covers(infos[n]);
    assert Shapes(Reprs(infos))[..n] == Shapes(Reprs(infos[..n]));
  }

  lemma {:induction false} Slices(a: seq<bool>, b: seq<bool>, c: seq<bool>, start: nat, end: nat)
    requires start <= end <= |a|
    ensures (a + b + c)[start..end] == a[start..end]
    ensures (a + b + c)[|a| + |b|..|a| + |b| + |c|] == c
  {
  }

  lemma {:induction false} OneOffsetEach(packed: bool, infos: seq<TypeInfo>)
    ensures |Place(packed, infos).offsets| == |infos|
  {
    if infos != [] {
      OneOffsetEach(packed, infos[..|infos| - 1]);
    }
  }

  // ----- Types without padding -----

  /** Bytes of all scalars in a representation. */
  function DataBytes(repr: Repr): nat
    decreases repr, 1
  {
    match repr
    case ReprI1 => 1
    case ReprInt(bytes) => bytes
    case ReprFloat => 4
    case ReprDouble => 8
    case ReprPtr => 8
    case ReprStruct(_, members) => DataBytesOfAll(members)
    case ReprArray(length, element) => DataBytes(element) * length
  }

  function DataBytesOfAll(members: seq<Repr>): nat
    decreases members, 0
  {
    if members == [] then 0 else DataBytesOfAll(members[..|members| - 1]) + DataBytes(members[|members| - 1])
  }

  predicate NoPadding(mask: seq<bool>) {
    forall i :: 0 <= i < |mask| ==> mask[i]
  }

  function Count(mask: seq<bool>): (n: nat)
    ensures n <= |mask|
  {
    if mask == [] then 0 else Count(mask[..|mask| - 1]) + if mask[|mask| - 1] then 1 else 0
  }

  lemma {:induction false} CountAppend(a: seq<bool>, b: seq<bool>)
    ensures Count(a + b) == Count(a) + Count(b)
  {
    if b == [] {
      assert a + b == a;
    } else {
      CountAppend(a, b[..|b| - 1]);
      assert (a + b)[..|a + b| - 1] == a + b[..|b| - 1];
    }
  }

  lemma {:induction false} CountFill(b: bool, n: nat)
    ensures Count(Fill(b, n)) == if b then n else 0
  {
    if n > 0 {
      CountFill(b, n - 1);
      assert Fill(b, n)[..n - 1] == Fill(b, n - 1);
    }
  }

  lemma {:induction false} CountRepeat(mask: seq<bool>, count: nat, n: nat)
    requires Count(mask) == count
    ensures Count(Repeat(mask, n)) == count * n
  {
    hide Count;
    if n == 0 {
      CountFill(true, 0);
      assert Fill(true, 0) == [];
    } else {
      CountRepeat(mask, count, n - 1);
      CountAppend(Repeat(mask, n - 1), mask);
      assert count * n == count * (n - 1) + count;
    }
  }

  lemma {:induction false} FullIffNoPadding(mask: seq<bool>)
    ensures Count(mask) == |mask| <==> NoPadding(mask)
  {
    if mask != [] {
      var k := |mask| - 1;
      FullIffNoPadding(mask[..k]);
      if NoPadding(mask[..k]) && mask[k] {
        assert forall i :: 0 <= i < k ==> mask[..k][i];
      }
    }
  }

  lemma {:induction false} LaidOutCount(packed: bool, members: seq<Repr>)
    requires forall i :: 0 <= i < |members| ==> Count(ShapeOf(members[i]).mask) == DataBytes(members[i])
    ensures Count(LaidOut(packed, Shapes(members)).mask) == DataBytesOfAll(members)
  {
    hide AlignTo, ShapeOf, Count, DataBytes, Fill;
    if members == [] {
      CountFill(true, 0);
      assert Fill(true, 0) == [];
    } else {
      var n := |members| - 1;
      LaidOutCount(packed, members[..n]);
      assert Shapes(members)[..n] == Shapes(members[..n]);
      var before, last := LaidOut(packed, Shapes(members[..n])), ShapeOf(members[n]);
      var offset := if packed then |before.mask| else AlignTo(|before.mask|, last.alignment);
      AlignToGrows(|before.mask|, last.alignment);
      CountFill(false, offset - |before.mask|);
      CountAppend(before.mask, Fill(false, offset - |before.mask|));
      CountAppend(before.mask + Fill(false, offset - |before.mask|), last.mask);
    }
  }

  lemma {:induction false} StructCount(packed: bool, members: seq<Repr>)
    requires forall i :: 0 <= i < |members| ==> Count(ShapeOf(members[i]).mask) == DataBytes(members[i])
    ensures Count(ShapeOf(ReprStruct(packed, members)).mask) == DataBytesOfAll(members)
  {
    hide AlignTo, LaidOut, Fill, Count, DataBytes;
    LaidOutCount(packed, members);
    var laid := LaidOut(packed, Shapes(members));
    AlignToGrows(|laid.mask|, laid.alignment);
    CountFill(false, AlignTo(|laid.mask|, laid.alignment) - |laid.mask|);
    CountAppend(laid.mask, Fill(false, AlignTo(|laid.mask|, laid.alignment) - |laid.mask|));
  }

  lemma {:induction false} CountOne()
    ensures Count([true]) == 1
  {
    assert [true][..0] == [];
  }

  /** The mask has a true flag for every byte of every scalar, and no other. */
  lemma {:induction false} MaskCountsData(repr: Repr)
    ensures Count(ShapeOf(repr).mask) == DataBytes(repr)
    decreases repr
  {
    hide AlignTo, LaidOut, Repeat, Fill, Count;
    match repr
    case ReprI1 => CountOne();
    case ReprInt(bytes) => CountFill(true, bytes);
    case ReprFloat => CountFill(true, 4);
    case ReprDouble => CountFill(true, 8);
    case ReprPtr => CountFill(true, 8);
    case ReprStruct(packed, members) =>
      forall i | 0 <= i < |members| ensures Count(ShapeOf(members[i]).mask) == DataBytes(members[i]) {
        MaskCountsData(members[i]);
      }
      StructCount(packed, members);
    case ReprArray(length, element) =>
      MaskCountsData(element);
      CountRepeat(ShapeOf(element).mask, DataBytes(element), length);
  }

  /** A type has no padding exactly when its size is the sum of the sizes of its scalars. */
  lemma {:induction false} NoPaddingIffSizesAdd(ty: Type)
    ensures |ValueMask(ty)| == Lowered(ty, false).size
    ensures NoPadding(ValueMask(ty)) <==> DataBytes(Lowered(ty, false).repr) == Lowered(ty, false).size
  {
    hide Lowered, ShapeOf, NoPadding, DataBytes, Count;
    LoweringCovered(ty, false);
    MaskCountsData(Lowered(ty, false).repr);
    FullIffNoPadding(ValueMask(ty));
  }
}
