/** An equality the emitted code gets wrong: A(false) against B(2), where B's byte is read as A's bool. */
module EnumOddBool {
  import opened Arith
  import opened Layout
  import opened Ir
  import opened EnumCode
  import opened EnumMeaning
  import opened EnumOrder
  import opened EnumCompare

  const A_OR_B: seq<Variant> := [Variant([Bool]), Variant([Int(U8)])]

  function OneByteImage(tag: u8, byte: u8): (image: Image)
    ensures |image| == 9
  {
    [Known(tag)] + Zeros(7) + [Known(byte)]
  }

  lemma {:induction false} PlaceOne(info: TypeInfo)
    requires info.size == 1 && info.alignment == 1
    ensures Place(false, [info]) == Placement([0], 1, 1)
  {
    assert [info][..0] == [];
    assert AlignTo(0, 1) == 0;
  }

  lemma {:induction false} OneByteVariant(ty: Type)
    requires ty == Bool || ty == Int(U8)
    ensures VariantPlacement(Variant([ty])) == Placement([0], 1, 1)
  {
    assert Infos([ty], false) == [Lowered(ty, false)];
    PlaceOne(Lowered(ty, false));
  }

  lemma {:induction false} PayloadIsOneByte()
    ensures PayloadSize(A_OR_B) == 1
    ensures OrderableVariants(A_OR_B)
  {
    OneByteVariant(Bool);
    OneByteVariant(Int(U8));
    assert A_OR_B[..1] == [Variant([Bool])] && A_OR_B[..1][..0] == [];
    assert AlignTo(1, 1) == 1 by {
      assert Rem(1, 1) == 0;
    }
    assert PayloadSize(A_OR_B[..1]) == 1;
  }

  lemma {:induction false} TagOfImage(tag: u8, byte: u8)
    ensures TagOf(OneByteImage(tag, byte)) == Word(8, tag)
  {
    var head := OneByteImage(tag, byte)[..8];
    assert head == [Known(tag)] + Zeros(7);
    assert head[1..] == Zeros(7);
    ZerosAreZero(7);
  }

  lemma {:induction false} ZerosAreZero(n: nat)
    ensures AllKnown(Zeros(n)) && LittleEndian(Zeros(n)) == 0
  {
    if n > 0 {
      ZerosAreZero(n - 1);
      assert Zeros(n)[1..] == Zeros(n - 1);
    }
  }

  lemma {:induction false} FieldByte(tag: u8, byte: u8, i: nat)
    requires i < 2 && |OneByteImage(tag, byte)| == 8 + PayloadSize(A_OR_B) && OrderableVariants(A_OR_B)
    ensures FieldImage(A_OR_B, i, 0, OneByteImage(tag, byte)) == [Known(byte)]
  {
    var ty := A_OR_B[i].fields[0];
    OneByteVariant(ty);
    assert ValueBytes(ty) == 1;
    assert FieldOffset(A_OR_B, i, 0) == 0;
    hide PayloadSize, VariantPlacement, ValueBytes, FieldOffset, Lowered;
  }

  lemma {:induction false} RepresentsA(b: bool)
    ensures OrderableVariants(A_OR_B) && 9 == 8 + PayloadSize(A_OR_B)
    ensures RepresentsEnum(A_OR_B, OneByteImage(0, if b then 1 else 0), 0, [BoolV(b)])
  {
    PayloadIsOneByte();
    TagOfImage(0, if b then 1 else 0);
    FieldByte(0, if b then 1 else 0, 0);
    hide PayloadSize, FieldImage, OneByteImage, TagOf, VariantPlacement, Lowered;
  }

  lemma {:induction false} RepresentsB(n: u8)
    ensures OrderableVariants(A_OR_B) && 9 == 8 + PayloadSize(A_OR_B)
    ensures RepresentsEnum(A_OR_B, OneByteImage(1, n), 1, [IntV(n)])
  {
    PayloadIsOneByte();
    TagOfImage(1, n);
    FieldByte(1, n, 1);
    hide PayloadSize, FieldImage, OneByteImage, TagOf, VariantPlacement, Lowered;
    assert LittleEndian([Known(n)]) == n by {
      assert [Known(n)][1..] == [];
    }
  }

  lemma {:induction false} MisreadByte(odd: OddBool, l: Image, n: u8)
    requires |l| == 9
    ensures OrderableVariants(A_OR_B) && 9 == 8 + PayloadSize(A_OR_B)
    ensures ReadsCleanAs(odd, A_OR_B, Word(8, 0), l, OneByteImage(1, n)) <==> n < 2 || odd.OddLowBit?
  {
    PayloadIsOneByte();
    FieldByte(1, n, 0);
    hide PayloadSize, FieldImage, OneByteImage, VariantPlacement, Lowered;
    assert FieldReadsClean(odd, A_OR_B, 0, 0, l, OneByteImage(1, n)) <==> n < 2 || odd.OddLowBit?;
  }

  /**
   A(b) == B(n) is false for every b and n; the code answers false only when
   n happens to be a valid bool byte, or odd bools keep their low bit.
   */
  lemma {:induction false} OddBoolPoisonsEquality(odd: OddBool, b: bool, n: u8)
    ensures OrderableVariants(A_OR_B) && 9 == 8 + PayloadSize(A_OR_B)
    ensures var l, r := OneByteImage(0, if b then 1 else 0), OneByteImage(1, n);
            && RepresentsEnum(A_OR_B, l, 0, [BoolV(b)])
            && RepresentsEnum(A_OR_B, r, 1, [IntV(n)])
            && DenoteCompare(odd, A_OR_B, EqOp, l, r) == if n < 2 || odd.OddLowBit? then Bit(false) else Poison
  {
    var l, r := OneByteImage(0, if b then 1 else 0), OneByteImage(1, n);
    RepresentsA(b);
    RepresentsB(n);
    MisreadByte(odd, l, n);
    hide PayloadSize, FieldImage, DenoteCompare, OneByteImage, VariantPlacement, Lowered, RepresentsEnum, ReadsCleanAs;
    EqualityIffClean(odd, A_OR_B, EqOp, l, r, EnumV(0, [BoolV(b)]), EnumV(1, [IntV(n)]));
  }
}
