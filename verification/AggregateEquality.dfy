/**
 == and != on structs, arrays, strings and tuples: both operands are spilled
 and compared in chunks of 8, 4, 2 or 1 bytes.
 */
module AggregateEquality {
  import opened Wrappers
  import opened Arith
  import opened Layout
  import opened Ir
  import opened Padding
  import opened EnumCode
  import opened EnumMeaning
  import opened Frames
  import opened EnumLoads
  import R = EnumRuns

  // ----- Code -----

  /** Size of the chunk taken when rest bytes are left. */
  function ChunkSize(rest: nat): (n: nat)
    requires rest > 0
    ensures n in {1, 2, 4, 8} && n <= rest
  {
    var n := if rest < 8 then rest else 8;
    if n != 8 && n != 4 && n != 2 then 1 else n
  }

  function Path(base: Name): Name {
    base + [Aggregate, Compare]
  }

  function SideSlot(base: Name, side: Part): Name {
    Path(base) + [side, Slot]
  }

  function ChunkName(base: Name, a: Part, b: Part, k: nat): Name {
    Path(base) + [a, b, Num(k)]
  }

  /** What the chunks before number k amount to. */
  function Current(base: Name, k: nat): Operand {
    if k == 0 then LitBit(true) else Temp(Path(base) + [Eq, Num(k - 1)])
  }

  function ChunkCode(base: Name, offset: nat, n: nat, k: nat): seq<Line> {
    [Def(ChunkName(base, Lhs, PtrWord, k), GepByte(Temp(SideSlot(base, Lhs)), offset))]
    + [Def(ChunkName(base, Rhs, PtrWord, k), GepByte(Temp(SideSlot(base, Rhs)), offset))]
    + [Def(ChunkName(base, Lhs, Chunk, k), Load(IntTy(n), Temp(ChunkName(base, Lhs, PtrWord, k)), 1))]
    + [Def(ChunkName(base, Rhs, Chunk, k), Load(IntTy(n), Temp(ChunkName(base, Rhs, PtrWord, k)), 1))]
    + [Def(ChunkName(base, Chunk, Eq, k),
           Icmp(PEq, IntTy(n), Temp(ChunkName(base, Lhs, Chunk, k)), Temp(ChunkName(base, Rhs, Chunk, k))))]
    + [Def(Path(base) + [Eq, Num(k)], AndBit(Current(base, k), Temp(ChunkName(base, Chunk, Eq, k))))]
  }

  /** Chunks from number k, at offset, to the end. */
  function ChunksCode(base: Name, size: nat, offset: nat, k: nat): seq<Line>
    decreases size - offset
  {
    if offset >= size then [] else
      var n := ChunkSize(size - offset);
      ChunkCode(base, offset, n, k) + ChunksCode(base, size, offset + n, k + 1)
  }

  function ChunkCount(size: nat, offset: nat): nat
    decreases size - offset
  {
    if offset >= size then 0 else 1 + ChunkCount(size, offset + ChunkSize(size - offset))
  }

  /** Chunks below 8 bytes: one if 1, 2 or 4 are left, else single bytes until that is so. */
  function TailChunks(rest: nat): nat
    requires rest < 8
  {
    match rest
    case 0 => 0
    case 1 | 2 | 4 => 1
    case 3 | 5 => 2
    case 6 => 3
    case 7 => 4
  }

  /** Eight bytes at a time as long as there are eight. */
  lemma {:induction false} ChunksTaken(size: nat, offset: nat)
    requires offset <= size
    ensures ChunkCount(size, offset) == (size - offset) / 8 + TailChunks((size - offset) % 8)
    decreases size - offset
  {
    var rest := size - offset;
    if rest > 0 {
      var n := ChunkSize(rest);
      assert ChunkCount(size, offset) == 1 + ChunkCount(size, offset + n);
      ChunksTaken(size, offset + n);
      assert rest >= 8 ==> rest / 8 == 1 + (rest - 8) / 8 && rest % 8 == (rest - 8) % 8;
    }
  }

  function SpillsCode(ty: Type, left: Operand, right: Operand, base: Name): seq<Line> {
    StackSlotCode(ty, left, SideSlot(base, Lhs)) + StackSlotCode(ty, right, SideSlot(base, Rhs))
  }

  function FinalExpr(negate: bool, base: Name, k: nat): Expr {
    if negate then XorBit(Current(base, k), LitBit(true)) else AndBit(LitBit(true), Current(base, k))
  }

  /** The comparison of two values of an aggregate type; negate for !=. */
  function EqualityCode(ty: Type, negate: bool, left: Operand, right: Operand, base: Name): seq<Line> {
    var size := Lowered(ty, false).size;
    SpillsCode(ty, left, right, base)
    + ChunksCode(base, size, 0, 0)
    + [Def(base, FinalExpr(negate, base, ChunkCount(size, 0)))]
  }

  // ----- Meaning -----

  /** Equality of bytes, poison as soon as one of them is undefined. */
  function BytesEqual(l: Image, r: Image): (v: Val)
    requires |l| == |r|
    ensures Fits(I1, v)
  {
    if AllKnown(l) && AllKnown(r) then Bit(l == r) else Poison
  }

  lemma {:induction false} LittleEndianInjective(a: Image, b: Image)
    requires |a| == |b| && AllKnown(a) && AllKnown(b) && LittleEndian(a) == LittleEndian(b)
    ensures a == b
  {
    if a != [] {
      LittleEndianInjective(a[1..], b[1..]);
      assert a == [a[0]] + a[1..] && b == [b[0]] + b[1..];
    }
  }

  lemma {:induction false} WordsEqual(l: Image, r: Image)
    requires |l| == |r|
    ensures Fits(IntTy(|l|), ReadWord(l)) && Fits(IntTy(|l|), ReadWord(r))
    ensures IcmpVal(PEq, IntTy(|l|), ReadWord(l), ReadWord(r)) == BytesEqual(l, r)
  {
    if AllKnown(l) {
      LittleEndianBound(l);
    }
    if AllKnown(r) {
      LittleEndianBound(r);
    }
    if AllKnown(l) && AllKnown(r) && LittleEndian(l) == LittleEndian(r) {
      LittleEndianInjective(l, r);
    }
  }

  lemma {:induction false} BytesEqualAppend(a: Image, b: Image, c: Image, d: Image)
    requires |a| == |b| && |c| == |d|
    ensures AndVal(BytesEqual(a, b), BytesEqual(c, d)) == BytesEqual(a + c, b + d)
  {
    assert AllKnown(a + c) <==> AllKnown(a) && AllKnown(c) by { KnownAppend(a, c); }
    assert AllKnown(b + d) <==> AllKnown(b) && AllKnown(d) by { KnownAppend(b, d); }
    if a + c == b + d {
      assert a == (a + c)[..|a|] && b == (b + d)[..|a|] && c == (a + c)[|a|..] && d == (b + d)[|a|..];
    }
  }

  lemma {:induction false} KnownAppend(a: Image, c: Image)
    ensures AllKnown(a + c) <==> AllKnown(a) && AllKnown(c)
  {
    if AllKnown(a + c) {
      assert forall i :: 0 <= i < |a| ==> a[i] == (a + c)[i];
      assert forall i :: 0 <= i < |c| ==> c[i] == (a + c)[|a| + i];
    }
  }

  // ----- Running -----

  /** A slot of size bytes holding the given ones. */
  predicate Spilled(s: State, slot: Name, bytes: Image) {
    && slot in s.env && s.env[slot] == Ptr(slot, 0)
    && slot in s.mem && s.mem[slot].bytes == bytes && s.mem[slot].alignment > 0
  }

  predicate ChunkFree(s: State, base: Name, k: nat) {
    && ChunkName(base, Lhs, PtrWord, k) !in s.Names() && ChunkName(base, Rhs, PtrWord, k) !in s.Names()
    && ChunkName(base, Lhs, Chunk, k) !in s.Names() && ChunkName(base, Rhs, Chunk, k) !in s.Names()
    && ChunkName(base, Chunk, Eq, k) !in s.Names() && Path(base) + [Eq, Num(k)] !in s.Names()
  }

  ghost predicate ChunksFree(s: State, base: Name, k: nat) {
    forall j :: k <= j ==> ChunkFree(s, base, j)
  }

  /** A definition that only adds its own name. */
  lemma {:induction false} Defines(odd: OddBool, s: State, target: Name, expr: Expr, v: Val) returns (t: State)
    requires target !in s.Names() && !expr.Alloca? && Eval(odd, s, expr) == Some(v)
    ensures t == s.Bind(target, v)
    ensures Runs(odd, [Def(target, expr)], s, t)
    ensures Keeps(s, t) && Holds(t, Temp(target), v) && t.Names() == s.Names() + {target} && t.mem == s.mem
  {
    hide Eval, Run;
    t := s.Bind(target, v);
    RunsOne(odd, s, Def(target, expr), t);
  }

  /** Address one side's chunk, ready to be loaded. */
  lemma {:induction false} ChunkAddressed(odd: OddBool, slot: Name, bytes: Image, offset: nat, n: nat, pointer: Name, s: State)
    returns (p: State)
    requires Spilled(s, slot, bytes) && offset + n <= |bytes| && pointer !in s.Names()
    ensures Runs(odd, [Def(pointer, GepByte(Temp(slot), offset))], s, p)
    ensures Keeps(s, p) && p.Names() == s.Names() + {pointer}
    ensures Eval(odd, p, Load(IntTy(n), Temp(pointer), 1)) == Some(ReadWord(bytes[offset..offset + n]))
  {
    hide Rem, ReadWord, Run;
    RemOne(offset);
    RemOne(s.mem[slot].alignment);
    p := Defines(odd, s, pointer, GepByte(Temp(slot), offset), Ptr(slot, offset));
  }

  /** What tells the names of one chunk from those of another. */
  function LastPart(n: Name): Part {
    if n == [] then Slot else n[|n| - 1]
  }

  lemma {:induction false} ChunkNameParts(base: Name, a: Part, b: Part, k: nat)
    ensures LastPart(ChunkName(base, a, b, k)) == Num(k)
    ensures |ChunkName(base, a, b, k)| == |base| + 5
    ensures ChunkName(base, a, b, k)[|base| + 2] == a && ChunkName(base, a, b, k)[|base| + 3] == b
    ensures ChunkName(base, a, b, k) == base + [Aggregate, Compare, a, b, Num(k)]
  {
  }

  lemma {:induction false} ResultNameParts(base: Name, k: nat)
    ensures LastPart(Path(base) + [Eq, Num(k)]) == Num(k) && |Path(base) + [Eq, Num(k)]| == |base| + 4
    ensures Path(base) + [Eq, Num(k)] == base + [Aggregate, Compare, Eq, Num(k)]
  {
  }

  lemma {:induction false} NamesOfChunk(base: Name, k: nat)
    ensures ChunkName(base, Lhs, PtrWord, k) != ChunkName(base, Rhs, PtrWord, k)
    ensures ChunkName(base, Lhs, Chunk, k) != ChunkName(base, Rhs, Chunk, k)
    ensures ChunkName(base, Lhs, PtrWord, k) != ChunkName(base, Lhs, Chunk, k)
    ensures ChunkName(base, Lhs, PtrWord, k) != ChunkName(base, Rhs, Chunk, k)
    ensures ChunkName(base, Rhs, PtrWord, k) != ChunkName(base, Lhs, Chunk, k)
    ensures ChunkName(base, Rhs, PtrWord, k) != ChunkName(base, Rhs, Chunk, k)
    ensures forall side, word :: side in {Lhs, Rhs} && word in {PtrWord, Chunk} ==>
              ChunkName(base, side, word, k) != ChunkName(base, Chunk, Eq, k) && ChunkName(base, side, word, k) != Path(base) + [Eq, Num(k)]
    ensures ChunkName(base, Chunk, Eq, k) != Path(base) + [Eq, Num(k)]
    ensures forall a, b :: ChunkName(base, a, b, k) != base
    ensures Path(base) + [Eq, Num(k)] != base
  {
    hide ChunkName, Path, LastPart;
    ResultNameParts(base, k);
    forall a: Part, b: Part
      ensures |ChunkName(base, a, b, k)| == |base| + 5
      ensures ChunkName(base, a, b, k)[|base| + 2] == a && ChunkName(base, a, b, k)[|base| + 3] == b
    {
      ChunkNameParts(base, a, b, k);
    }
  }

  /** The chunk names of different numbers differ. */
  lemma {:induction false} LaterChunkFree(s: State, t: State, base: Name, k: nat)
    requires ChunksFree(s, base, k)
    requires t.Names() == s.Names() + {ChunkName(base, Lhs, PtrWord, k), ChunkName(base, Rhs, PtrWord, k), ChunkName(base, Lhs, Chunk, k),
                                       ChunkName(base, Rhs, Chunk, k), ChunkName(base, Chunk, Eq, k), Path(base) + [Eq, Num(k)]}
    ensures ChunksFree(t, base, k + 1)
  {
    hide Path, ChunkName, LastPart;
    forall n | n in t.Names() && n !in s.Names() ensures LastPart(n) == Num(k) {
      ResultNameParts(base, k);
      forall a: Part, b: Part ensures LastPart(ChunkName(base, a, b, k)) == Num(k) {
        ChunkNameParts(base, a, b, k);
      }
    }
    forall j | k + 1 <= j ensures ChunkFree(t, base, j) {
      assert ChunkFree(s, base, j);
      ResultNameParts(base, j);
      forall a: Part, b: Part ensures LastPart(ChunkName(base, a, b, j)) == Num(j) {
        ChunkNameParts(base, a, b, j);
      }
    }
  }

  /** One chunk: from the answer on the bytes before it to the answer on the bytes up to its end. */
  lemma {:induction false} ChunkRuns(odd: OddBool, base: Name, offset: nat, n: nat, k: nat, s: State, l: Image, r: Image) returns (t: State)
    requires |l| == |r| && offset + n <= |l|
    requires Spilled(s, SideSlot(base, Lhs), l) && Spilled(s, SideSlot(base, Rhs), r) && ChunksFree(s, base, k)
    requires Holds(s, Current(base, k), BytesEqual(l[..offset], r[..offset]))
    ensures Runs(odd, ChunkCode(base, offset, n, k), s, t)
    ensures Keeps(s, t) && ChunksFree(t, base, k + 1)
    ensures Holds(t, Current(base, k + 1), BytesEqual(l[..offset + n], r[..offset + n]))
    ensures base !in s.Names() ==> base !in t.Names()
  {
    hide ReadWord, BytesEqual, Run, ChunkName, Path, SideSlot, ChunksFree, Spilled, Eval, Holds, Keeps;
    FreeNow(s, base, k);
    NamesOfChunk(base, k);
    var lp, rp := ChunkName(base, Lhs, PtrWord, k), ChunkName(base, Rhs, PtrWord, k);
    var lc, rc := ChunkName(base, Lhs, Chunk, k), ChunkName(base, Rhs, Chunk, k);
    var ce, next := ChunkName(base, Chunk, Eq, k), Path(base) + [Eq, Num(k)];
    var a, b, c, d := PairRuns(odd, SideSlot(base, Lhs), SideSlot(base, Rhs), l, r, offset, n, lp, rp, lc, rc, s);
    KeepsHolds(s, d, Current(base, k), BytesEqual(l[..offset], r[..offset]));
    var e, f := CompareRuns(odd, l, r, offset, n, lc, rc, ce, next, Current(base, k), d);
    t := f;
    KeepsTransitive(s, d, t);
    RunsSix(odd, Def(lp, GepByte(Temp(SideSlot(base, Lhs)), offset)), Def(rp, GepByte(Temp(SideSlot(base, Rhs)), offset)),
            Def(lc, Load(IntTy(n), Temp(lp), 1)), Def(rc, Load(IntTy(n), Temp(rp), 1)),
            Def(ce, Icmp(PEq, IntTy(n), Temp(lc), Temp(rc))), Def(next, AndBit(Current(base, k), Temp(ce))), s, a, b, c, d, e, t);
    LaterChunkFree(s, t, base, k);
    assert Current(base, k + 1) == Temp(next);
  }

  lemma {:induction false} KeepsHolds(s: State, t: State, o: Operand, v: Val)
    requires Keeps(s, t) && Holds(s, o, v)
    ensures Holds(t, o, v)
  {
    HoldsKept(s, t, o, v);
  }

  lemma {:induction false} FreeNow(s: State, base: Name, k: nat)
    requires ChunksFree(s, base, k)
    ensures ChunkFree(s, base, k)
  {
  }

  /** Both addresses, then both loads. */
  lemma {:induction false} PairRuns(odd: OddBool, lslot: Name, rslot: Name, l: Image, r: Image, offset: nat, n: nat,
                                    lp: Name, rp: Name, lc: Name, rc: Name, s: State) returns (a: State, b: State, c: State, d: State)
    requires |l| == |r| && offset + n <= |l| && Spilled(s, lslot, l) && Spilled(s, rslot, r)
    requires lp !in s.Names() && rp !in s.Names() && lc !in s.Names() && rc !in s.Names()
    requires lp != rp && lc != rc && lp != lc && lp != rc && rp != lc && rp != rc
    ensures Runs(odd, [Def(lp, GepByte(Temp(lslot), offset))], s, a)
    ensures Runs(odd, [Def(rp, GepByte(Temp(rslot), offset))], a, b)
    ensures Runs(odd, [Def(lc, Load(IntTy(n), Temp(lp), 1))], b, c)
    ensures Runs(odd, [Def(rc, Load(IntTy(n), Temp(rp), 1))], c, d)
    ensures Keeps(s, d) && d.Names() == s.Names() + {lp, rp, lc, rc}
    ensures Holds(d, Temp(lc), ReadWord(l[offset..offset + n])) && Holds(d, Temp(rc), ReadWord(r[offset..offset + n]))
  {
    hide ReadWord, Run, Eval, Spilled, Holds;
    var lw, rw := ReadWord(l[offset..offset + n]), ReadWord(r[offset..offset + n]);
    a := ChunkAddressed(odd, lslot, l, offset, n, lp, s);
    SpilledKept(s, a, rslot, r);
    b := ChunkAddressed(odd, rslot, r, offset, n, rp, a);
    EvalKept(odd, a, b, Load(IntTy(n), Temp(lp), 1), lw);
    c := Defines(odd, b, lc, Load(IntTy(n), Temp(lp), 1), lw);
    EvalKept(odd, b, c, Load(IntTy(n), Temp(rp), 1), rw);
    d := Defines(odd, c, rc, Load(IntTy(n), Temp(rp), 1), rw);
    KeepsHolds(c, d, Temp(lc), lw);
    KeepsTransitive(s, a, b);
    KeepsTransitive(s, b, c);
    KeepsTransitive(s, c, d);
  }

  lemma {:induction false} KeepsTransitive(s: State, t: State, u: State)
    requires Keeps(s, t) && Keeps(t, u)
    ensures Keeps(s, u)
  {
  }

  /** Compare the loaded chunks and fold the answer into the current one. */
  lemma {:induction false} CompareRuns(odd: OddBool, l: Image, r: Image, offset: nat, n: nat, lc: Name, rc: Name, ce: Name, next: Name,
                                       current: Operand, d: State) returns (e: State, t: State)
    requires |l| == |r| && offset + n <= |l| && ce !in d.Names() && next !in d.Names() && ce != next
    requires Holds(d, Temp(lc), ReadWord(l[offset..offset + n])) && Holds(d, Temp(rc), ReadWord(r[offset..offset + n]))
    requires Holds(d, current, BytesEqual(l[..offset], r[..offset]))
    ensures Runs(odd, [Def(ce, Icmp(PEq, IntTy(n), Temp(lc), Temp(rc)))], d, e)
    ensures Runs(odd, [Def(next, AndBit(current, Temp(ce)))], e, t)
    ensures Keeps(d, t) && t.Names() == d.Names() + {ce, next}
    ensures Holds(t, Temp(next), BytesEqual(l[..offset + n], r[..offset + n]))
  {
    hide ReadWord, Run, BytesEqual, IcmpVal, AndVal, Fits, Eval, Holds, Keeps;
    var lw, rw := l[offset..offset + n], r[offset..offset + n];
    WordsEqual(lw, rw);
    R.IcmpEvaluates(odd, PEq, IntTy(n), Temp(lc), Temp(rc), d, ReadWord(lw), ReadWord(rw));
    e := Defines(odd, d, ce, Icmp(PEq, IntTy(n), Temp(lc), Temp(rc)), BytesEqual(lw, rw));
    assert l[..offset] + lw == l[..offset + n] && r[..offset] + rw == r[..offset + n];
    BytesEqualAppend(l[..offset], r[..offset], lw, rw);
    HoldsKept(d, e, current, BytesEqual(l[..offset], r[..offset]));
    R.AndEvaluates(odd, current, Temp(ce), e, BytesEqual(l[..offset], r[..offset]), BytesEqual(lw, rw));
    t := Defines(odd, e, next, AndBit(current, Temp(ce)), BytesEqual(l[..offset + n], r[..offset + n]));
    KeepsTransitive(d, e, t);
  }

  lemma {:induction false} RunsSix(odd: OddBool, l1: Line, l2: Line, l3: Line, l4: Line, l5: Line, l6: Line,
                                   s: State, a: State, b: State, c: State, d: State, e: State, t: State)
    requires Runs(odd, [l1], s, a) && Runs(odd, [l2], a, b) && Runs(odd, [l3], b, c)
    requires Runs(odd, [l4], c, d) && Runs(odd, [l5], d, e) && Runs(odd, [l6], e, t)
    ensures Runs(odd, [l1] + [l2] + [l3] + [l4] + [l5] + [l6], s, t)
  {
    hide Run;
    RunsSeq(odd, [l1], [l2], s, a, b);
    RunsSeq(odd, [l1] + [l2], [l3], s, b, c);
    RunsSeq(odd, [l1] + [l2] + [l3], [l4], s, c, d);
    RunsSeq(odd, [l1] + [l2] + [l3] + [l4], [l5], s, d, e);
    RunsSeq(odd, [l1] + [l2] + [l3] + [l4] + [l5], [l6], s, e, t);
  }

  /** The chunk loop covers exactly the bytes from offset to the end. */
  lemma {:induction false} ChunksRun(odd: OddBool, base: Name, size: nat, offset: nat, k: nat, s: State, l: Image, r: Image) returns (t: State)
    requires |l| == |r| == size && offset <= size
    requires Spilled(s, SideSlot(base, Lhs), l) && Spilled(s, SideSlot(base, Rhs), r) && ChunksFree(s, base, k)
    requires Holds(s, Current(base, k), BytesEqual(l[..offset], r[..offset]))
    ensures Runs(odd, ChunksCode(base, size, offset, k), s, t)
    ensures Keeps(s, t) && Holds(t, Current(base, k + ChunkCount(size, offset)), BytesEqual(l, r))
    ensures base !in s.Names() ==> base !in t.Names()
    decreases size - offset
  {
    hide BytesEqual, Run, ChunkCode, Path, SideSlot, ChunksFree, Current;
    if offset == size {
      assert l[..offset] == l && r[..offset] == r;
      t := s;
      RunsNothing(odd, s);
    } else {
      var n := ChunkSize(size - offset);
      var a := ChunkRuns(odd, base, offset, n, k, s, l, r);
      SpilledKept(s, a, SideSlot(base, Lhs), l);
      SpilledKept(s, a, SideSlot(base, Rhs), r);
      t := ChunksRun(odd, base, size, offset + n, k + 1, a, l, r);
      RunsSeq(odd, ChunkCode(base, offset, n, k), ChunksCode(base, size, offset + n, k + 1), s, a, t);
      var rest := ChunkCount(size, offset + n);
      assert k + (1 + rest) == (k + 1) + rest;
    }
  }

  lemma {:induction false} SpilledKept(s: State, t: State, slot: Name, bytes: Image)
    requires Keeps(s, t) && Spilled(s, slot, bytes)
    ensures Spilled(t, slot, bytes)
  {
  }

  /** Types compared this way: those whose LLVM name opens with a bracket or a brace, which a packed struct's does not. */
  predicate IsAggregate(ty: Type) {
    ty.Text? || ty.Buffer? || (ty.Struct? && !ty.packed) || ty.Array? || ty.Tuple?
  }

  /** image is a value of type ty: one flagged byte after another, padding belonging to none. */
  predicate IsValue(ty: Type, image: Image) {
    |image| == |ValueMask(ty)| && PaddingUndef(ValueMask(ty), image)
  }

  /** No byte of the value is undefined. */
  predicate Defined(ty: Type, image: Image)
    requires IsValue(ty, image)
  {
    forall i :: 0 <= i < |image| && ValueMask(ty)[i] ==> image[i].Known?
  }

  /** Nothing below base is taken. */
  ghost predicate Free(s: State, base: Name) {
    forall q: seq<Part> :: base + q !in s.Names()
  }

  lemma {:induction false} AggregateInfo(ty: Type, value: Operand, slot: Name)
    requires IsAggregate(ty)
    ensures var info := Lowered(ty, false);
            && info.alignment > 0 && Rem(info.alignment, info.alignment) == 0
            && StackSlotCode(ty, value, slot) == [Def(slot, Alloca(info.size, info.alignment))]
                                                 + [Store(PaddedTy(ValueMask(ty)), value, Temp(slot), info.alignment)]
            && MemSize(PaddedTy(ValueMask(ty))) == info.size
  {
    LoweringMatchesLlvm(ty, false);
    LoweringCovered(ty, false);
    hide Lowered, Lays, ShapeOf;
    var alignment := Lowered(ty, false).alignment;
    assert Rem(alignment, alignment) == Rem(0, alignment);
  }

  lemma {:induction false} SideSlots(base: Name)
    ensures SideSlot(base, Lhs) == base + [Aggregate, Compare, Lhs, Slot] && SideSlot(base, Rhs) == base + [Aggregate, Compare, Rhs, Slot]
    ensures SideSlot(base, Lhs) != SideSlot(base, Rhs)
  {
    assert SideSlot(base, Lhs)[|base| + 2] != SideSlot(base, Rhs)[|base| + 2];
  }

  lemma {:induction false} FreeSlots(s: State, base: Name)
    requires Free(s, base)
    ensures SideSlot(base, Lhs) !in s.Names() && SideSlot(base, Rhs) !in s.Names()
  {
    hide SideSlot;
    SideSlots(base);
  }

  lemma {:induction false} SlotFilled(s: State, slot: Name, bytes: Image, alignment: nat)
    requires slot !in s.Names() && alignment > 0
    ensures var t := WithSlot(s, slot, bytes, alignment);
            Keeps(s, t) && t.Names() == s.Names() + {slot} && Spilled(t, slot, bytes)
  {
  }

  lemma {:induction false} SpillsRun(odd: OddBool, ty: Type, left: Operand, right: Operand, base: Name, s: State, l: Image, r: Image)
    returns (t: State)
    requires IsAggregate(ty) && IsValue(ty, l) && IsValue(ty, r)
    requires Holds(s, left, Agg(l)) && Holds(s, right, Agg(r)) && Free(s, base)
    ensures Runs(odd, SpillsCode(ty, left, right, base), s, t)
    ensures Keeps(s, t) && t.Names() == s.Names() + {SideSlot(base, Lhs), SideSlot(base, Rhs)}
    ensures Spilled(t, SideSlot(base, Lhs), l) && Spilled(t, SideSlot(base, Rhs), r)
  {
    hide Run, Lowered, Rem, StackSlotCode, SideSlot, Holds, IsAggregate, ValueMask, PaddingUndef, Free, WithSlot, Keeps, Spilled;
    FreeSlots(s, base);
    var lslot, rslot := SideSlot(base, Lhs), SideSlot(base, Rhs);
    SideSlots(base);
    var alignment, mem := Lowered(ty, false).alignment, PaddedTy(ValueMask(ty));
    AggregateInfo(ty, left, lslot);
    AggregateInfo(ty, right, rslot);
    var a := SlotFillRuns(odd, mem, alignment, left, lslot, s, Agg(l));
    SlotFilled(s, lslot, l, alignment);
    KeepsHolds(s, a, right, Agg(r));
    t := SlotFillRuns(odd, mem, alignment, right, rslot, a, Agg(r));
    SlotFilled(a, rslot, r, alignment);
    SpilledKept(a, t, lslot, l);
    KeepsTransitive(s, a, t);
    RunsSeq(odd, StackSlotCode(ty, left, lslot), StackSlotCode(ty, right, rslot), s, a, t);
  }

  lemma {:induction false} SpillsLeaveFree(s: State, t: State, base: Name)
    requires Free(s, base) && t.Names() == s.Names() + {SideSlot(base, Lhs), SideSlot(base, Rhs)}
    ensures ChunksFree(t, base, 0) && base !in t.Names()
  {
    hide ChunkName, Path, SideSlot;
    SideSlots(base);
    assert base + [] == base;
    assert SideSlot(base, Lhs)[|base| + 3] == Slot && SideSlot(base, Rhs)[|base| + 3] == Slot;
    forall j | 0 <= j ensures ChunkFree(t, base, j) {
      forall a: Part, b: Part
        ensures ChunkName(base, a, b, j) == base + [Aggregate, Compare, a, b, Num(j)] && |ChunkName(base, a, b, j)| == |base| + 5
      {
        ChunkNameParts(base, a, b, j);
      }
      ResultNameParts(base, j);
      assert (base + [Aggregate, Compare, Eq, Num(j)])[|base| + 3] == Num(j);
    }
  }

  /**
   Comparing two aggregates runs, touches nothing outside them, and answers
   whether all their bytes agree, padding included, if every byte of both is
   defined; with an undefined byte the answer is poison.
   */
  lemma {:induction false} EqualityComparesAllBytes(odd: OddBool, ty: Type, negate: bool, left: Operand, right: Operand, base: Name,
                                                    s: State, l: Image, r: Image) returns (t: State)
    requires IsAggregate(ty) && IsValue(ty, l) && IsValue(ty, r)
    requires Holds(s, left, Agg(l)) && Holds(s, right, Agg(r)) && Free(s, base)
    ensures Runs(odd, EqualityCode(ty, negate, left, right, base), s, t) && Keeps(s, t)
    ensures Holds(t, Temp(base), if AllKnown(l) && AllKnown(r) then Bit((l == r) != negate) else Poison)
    ensures SingleAssignment(EqualityCode(ty, negate, left, right, base), s.env.Keys)
  {
    hide Run, Lowered, AllKnown, SpillsCode, ChunksCode, ChunksFree, Current, SideSlot, Path, Free, AssignsOnce,
         BytesEqual, Holds, Spilled, FinalExpr, IsAggregate,
         ValueMask, PaddingUndef;
    var size := Lowered(ty, false).size;
    NoPaddingIffSizesAdd(ty);
    var a := SpillsRun(odd, ty, left, right, base, s, l, r);
    SpillsLeaveFree(s, a, base);
    assert Holds(a, Current(base, 0), BytesEqual(l[..0], r[..0])) by { NothingCompared(a, base, l, r); }
    var b := ChunksRun(odd, base, size, 0, 0, a, l, r);
    var k := ChunkCount(size, 0);
    assert 0 + k == k;
    t := FinalRuns(odd, negate, base, k, b, l, r);
    RunsSeq(odd, SpillsCode(ty, left, right, base), ChunksCode(base, size, 0, 0), s, a, b);
    RunsSeq(odd, SpillsCode(ty, left, right, base) + ChunksCode(base, size, 0, 0), [Def(base, FinalExpr(negate, base, k))], s, b, t);
    RunsIsSingleAssignment(odd, EqualityCode(ty, negate, left, right, base), s, t);
  }

  /** The size is the sum of the sizes of the scalars, so that no byte is padding. */
  predicate Gapless(ty: Type) {
    DataBytes(Lowered(ty, false).repr) == Lowered(ty, false).size
  }

  lemma {:induction false} KnownIffGapless(ty: Type, image: Image)
    requires IsValue(ty, image)
    ensures AllKnown(image) <==> Gapless(ty) && Defined(ty, image)
  {
    hide ValueMask, Lowered, DataBytes;
    NoPaddingIffSizesAdd(ty);
    if !NoPadding(ValueMask(ty)) {
      var i :| 0 <= i < |ValueMask(ty)| && !ValueMask(ty)[i];
      assert image[i] == Undef;
    }
  }

  /**
   The comparison answers whether the values agree exactly for types whose
   scalars fill them and values without undefined bytes. For a type with
   padding it is poison whatever the operands are, even the same one twice.
   */
  lemma {:induction false} EqualityIffGapless(odd: OddBool, ty: Type, negate: bool, left: Operand, right: Operand, base: Name,
                                              s: State, l: Image, r: Image) returns (t: State)
    requires IsAggregate(ty) && IsValue(ty, l) && IsValue(ty, r)
    requires Holds(s, left, Agg(l)) && Holds(s, right, Agg(r)) && Free(s, base)
    ensures Runs(odd, EqualityCode(ty, negate, left, right, base), s, t) && Keeps(s, t)
    ensures Holds(t, Temp(base), if Gapless(ty) && Defined(ty, l) && Defined(ty, r) then Bit((l == r) != negate) else Poison)
  {
    hide Run, EqualityCode, Keeps, Holds, Free, IsAggregate, IsValue, Defined, Gapless, AllKnown, SingleAssignment;
    KnownIffGapless(ty, l);
    KnownIffGapless(ty, r);
    t := EqualityComparesAllBytes(odd, ty, negate, left, right, base, s, l, r);
  }

  /** A byte before a doubleword: seven of the sixteen bytes are padding, and == is poison on every pair of values. */
  lemma {:induction false} ByteBeforeWordIsPoison(odd: OddBool, negate: bool, left: Operand, right: Operand, base: Name,
                                                  s: State, l: Image, r: Image) returns (t: State)
    requires var ty := Struct(false, [Int(U8), Int(I64)]); IsValue(ty, l) && IsValue(ty, r)
    requires Holds(s, left, Agg(l)) && Holds(s, right, Agg(r)) && Free(s, base)
    ensures Runs(odd, EqualityCode(Struct(false, [Int(U8), Int(I64)]), negate, left, right, base), s, t)
    ensures Holds(t, Temp(base), Poison)
  {
    var ty := Struct(false, [Int(U8), Int(I64)]);
    assert !Gapless(ty) by { ByteBeforeWord(); }
    hide Run, EqualityCode, Holds, Free, IsValue, Defined, Gapless;
    t := EqualityIffGapless(odd, ty, negate, left, right, base, s, l, r);
  }

  lemma {:induction false} ByteBeforeWord()
    ensures !Gapless(Struct(false, [Int(U8), Int(I64)]))
  {
    var fields := [Int(U8), Int(I64)];
    var infos := Infos(fields, true);
    assert infos == [TypeInfo(ReprInt(1), 1, 1), TypeInfo(ReprInt(8), 8, 8)];
    var reprs := Reprs(infos);
    assert reprs == [ReprInt(1), ReprInt(8)];
    assert reprs[..1] == [ReprInt(1)] && reprs[..1][..0] == [];
    assert infos[..1] == [infos[0]] && infos[..1][..0] == [];
    assert AlignTo(0, 1) == 0 && AlignTo(1, 8) == 8;
    assert Place(false, infos[..1]).end == 1;
    assert Place(false, infos).end == 16;
    assert DataBytesOfAll(reprs[..1]) == 1 && DataBytesOfAll(reprs) == 9;
    assert Lowered(Struct(false, fields), false).size == PlacedSize(false, Place(false, infos));
    AlignToGrows(16, Place(false, infos).alignment);
    assert DataBytes(ReprStruct(false, reprs)) == DataBytesOfAll(reprs);
  }

  lemma {:induction false} FinalRuns(odd: OddBool, negate: bool, base: Name, k: nat, b: State, l: Image, r: Image) returns (t: State)
    requires |l| == |r| && base !in b.Names() && Holds(b, Current(base, k), BytesEqual(l, r))
    ensures Runs(odd, [Def(base, FinalExpr(negate, base, k))], b, t) && Keeps(b, t)
    ensures Holds(t, Temp(base), if AllKnown(l) && AllKnown(r) then Bit((l == r) != negate) else Poison)
  {
    hide Run, AllKnown, Current;
    t := Defines(odd, b, base, FinalExpr(negate, base, k), if AllKnown(l) && AllKnown(r) then Bit((l == r) != negate) else Poison);
  }

  lemma {:induction false} NothingCompared(s: State, base: Name, l: Image, r: Image)
    ensures Holds(s, Current(base, 0), BytesEqual(l[..0], r[..0]))
  {
  }
}
