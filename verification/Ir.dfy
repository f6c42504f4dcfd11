/**
 The straight-line LLVM subset the enum emitters produce, with an interpreter
 over byte memory. A run gets stuck (None) on a redefined or undefined
 temporary, an ill-typed operand, a struct member that does not exist, and any
 load or store that is out of bounds or less aligned than it claims; values
 that LLVM leaves undefined are Poison.
 */
module Ir {
  import opened Wrappers
  import opened Arith

  // ----- Names -----

  /**
   A temporary's name is the path of its dot-separated components. Every
   component the emitters write is dot-free, so distinct paths are distinct
   names.
   */
  type Name = seq<Part>

  datatype Part =
    | Base(function_: nat, block: nat, instruction: nat)
    | Num(n: nat)
    | Aggregate | Chunk | Compare | EnumWord | Eq | Equal | Field | Gt | Lhs | Lt | Match | Ne | Order
    | Payload | PtrWord | Rhs | Same | SameTag | Slot | Step | Tag | VariantExtract | VariantInit | VariantWord

  // ----- Instructions -----

  datatype MemTy =
    | I1
    | IntTy(bytes: nat)
    | AggTy(valueBytes: nat, size: nat)  // the bytes past valueBytes are padding
    | PaddedTy(mask: seq<bool>)          // the bytes whose flag is false are padding

  function MemSize(ty: MemTy): nat {
    match ty
    case I1 => 1
    case IntTy(bytes) => bytes
    case AggTy(_, size) => size
    case PaddedTy(mask) => |mask|
  }

  predicate IsScalar(ty: MemTy) {
    ty.I1? || ty.IntTy?
  }

  datatype Operand = Temp(name: Name) | LitBit(bit: bool) | LitI64(n: nat) | ZeroInit(bytes: nat)

  datatype Predicate = PEq | PNe | PSlt | PSle | PSgt | PSge | PUlt | PUle | PUgt | PUge

  datatype Expr =
    | Alloca(size: nat, alignment: nat)
    | GepMember(base: Operand, members: nat, index: nat)  // getelementptr inbounds {i64} or {i64, [N x i8]}, ..., i64 0, i32 index
    | GepByte(base: Operand, offset: nat)    // getelementptr inbounds [N x i8] or i8, by a constant
    | Load(ty: MemTy, pointer: Operand, alignment: nat)
    | ExtractTag(aggregate: Operand)         // extractvalue ..., 0
    | Icmp(predicate_: Predicate, ty: MemTy, left: Operand, right: Operand)
    | AndBit(left: Operand, right: Operand)
    | OrBit(left: Operand, right: Operand)
    | XorBit(left: Operand, right: Operand)
    | Select(condition: Operand, whenTrue: Operand, whenFalse: Operand)

  datatype Line =
    | Def(target: Name, expr: Expr)
    | Store(ty: MemTy, value: Operand, pointer: Operand, alignment: nat)

  // ----- Values -----

  type u8 = x: nat | x < 256

  datatype Byte = Known(value: u8) | Undef

  datatype Val =
    | Bit(bit: bool)
    | Word(bytes: nat, n: nat)
    | Ptr(slot: Name, offset: nat)
    | Agg(image: seq<Byte>)
    | Poison

  /** What loading an i1 from a byte other than 0 or 1 gives: LLVM says undefined, machines keep the low bit. */
  datatype OddBool = OddPoison | OddLowBit

  predicate AllKnown(bytes: seq<Byte>) {
    forall i :: 0 <= i < |bytes| ==> bytes[i].Known?
  }

  function Pow256(k: nat): (r: nat)
    ensures r > 0
  {
    if k == 0 then 1 else 256 * Pow256(k - 1)
  }

  function LittleEndian(bytes: seq<Byte>): nat
    requires AllKnown(bytes)
  {
    if bytes == [] then 0 else bytes[0].value + 256 * LittleEndian(bytes[1..])
  }

  function Encode(n: nat, k: nat): (bytes: seq<Byte>)
    ensures |bytes| == k && AllKnown(bytes)
  {
    if k == 0 then [] else [Known(n % 256)] + Encode(n / 256, k - 1)
  }

  lemma {:induction false} LittleEndianBound(bytes: seq<Byte>)
    requires AllKnown(bytes)
    ensures LittleEndian(bytes) < Pow256(|bytes|)
  {
    if bytes != [] {
      LittleEndianBound(bytes[1..]);
    }
  }

  lemma {:induction false} EncodeRoundTrip(n: nat, k: nat)
    requires n < Pow256(k)
    ensures LittleEndian(Encode(n, k)) == n
  {
    if k > 0 {
      EncodeRoundTrip(n / 256, k - 1);
      assert Encode(n, k)[1..] == Encode(n / 256, k - 1);
    }
  }

  function ReadWord(bytes: seq<Byte>): Val {
    if AllKnown(bytes) then Word(|bytes|, LittleEndian(bytes)) else Poison
  }

  function ReadBit(odd: OddBool, byte: Byte): Val {
    match byte
    case Undef => Poison
    case Known(v) =>
      if v == 0 then Bit(false)
      else if v == 1 then Bit(true)
      else if odd.OddLowBit? then Bit(v % 2 == 1) else Poison
  }

  function ReadVal(odd: OddBool, ty: MemTy, bytes: seq<Byte>): Val
    requires |bytes| == MemSize(ty)
  {
    match ty
    case I1 => ReadBit(odd, bytes[0])
    case IntTy(_) => ReadWord(bytes)
    case AggTy(valueBytes, size) => Agg(if valueBytes <= size then bytes[..valueBytes] else bytes)
    case PaddedTy(mask) => Agg(Masked(mask, bytes))
  }

  /** The bytes of a value; padding is no part of it. */
  function Masked(mask: seq<bool>, bytes: seq<Byte>): (r: seq<Byte>)
    requires |bytes| == |mask|
    ensures |r| == |mask|
  {
    seq(|mask|, i requires 0 <= i < |mask| => if mask[i] then bytes[i] else Undef)
  }

  predicate PaddingUndef(mask: seq<bool>, image: seq<Byte>)
    requires |image| == |mask|
  {
    forall i :: 0 <= i < |mask| && !mask[i] ==> image[i] == Undef
  }

  /** The values an operand of a memory type may hold. */
  predicate Fits(ty: MemTy, v: Val) {
    match ty
    case I1 => v.Bit? || v.Poison?
    case IntTy(bytes) => v.Poison? || (v.Word? && v.bytes == bytes && v.n < Pow256(bytes))
    case AggTy(valueBytes, size) => v.Agg? && |v.image| == valueBytes && valueBytes <= size
    case PaddedTy(mask) => v.Agg? && |v.image| == |mask| && PaddingUndef(mask, v.image)
  }

  function Undefs(n: nat): (bytes: seq<Byte>)
    ensures |bytes| == n
  {
    seq(n, _ => Undef)
  }

  function Zeros(n: nat): (bytes: seq<Byte>)
    ensures |bytes| == n
  {
    seq(n, _ => Known(0))
  }

  /** Bytes a store writes; padding of an aggregate comes out undefined. */
  function WriteVal(ty: MemTy, v: Val): (bytes: seq<Byte>)
    requires Fits(ty, v)
    ensures |bytes| == MemSize(ty)
  {
    match ty
    case I1 => if v.Bit? then [Known(if v.bit then 1 else 0)] else Undefs(1)
    case IntTy(bytes) => if v.Word? then Encode(v.n, bytes) else Undefs(bytes)
    case AggTy(valueBytes, size) => v.image + Undefs(size - valueBytes)
    case PaddedTy(_) => v.image
  }

  /** What is stored through a type is what a load through the same type gives back. */
  lemma {:induction false} StoreThenLoad(odd: OddBool, ty: MemTy, v: Val)
    requires Fits(ty, v)
    requires ty.IntTy? ==> ty.bytes > 0
    ensures ReadVal(odd, ty, WriteVal(ty, v)) == v
  {
    match ty
    case I1 =>
    case IntTy(bytes) =>
      if v.Word? {
        EncodeRoundTrip(v.n, bytes);
      } else {
        assert Undefs(bytes)[0].Undef?;
      }
    case AggTy(valueBytes, size) =>
      assert (v.image + Undefs(size - valueBytes))[..valueBytes] == v.image;
    case PaddedTy(mask) =>
      assert Masked(mask, v.image) == v.image;
  }

  /** Whatever the bytes are, loading them gives a value of the type. */
  lemma {:induction false} LoadFits(odd: OddBool, ty: MemTy, bytes: seq<Byte>)
    requires |bytes| == MemSize(ty) && (ty.AggTy? ==> ty.valueBytes <= ty.size)
    ensures Fits(ty, ReadVal(odd, ty, bytes))
  {
    if ty.IntTy? && AllKnown(bytes) {
      LittleEndianBound(bytes);
    }
  }

  // ----- Operators -----

  function Magnitude(v: Val): nat
    requires v.Bit? || v.Word?
  {
    match v
    case Bit(b) => if b then 1 else 0
    case Word(_, n) => n
  }

  /** Two's complement reading of an unsigned value. */
  function SignedOf(ty: MemTy, n: nat): int
  {
    match ty
    case IntTy(bytes) => if 2 * n < Pow256(bytes) then n else n - Pow256(bytes)
    case _ => if n == 0 then 0 else -1
  }

  predicate Decide(p: Predicate, ty: MemTy, a: nat, b: nat) {
    match p
    case PEq => a == b
    case PNe => a != b
    case PUlt => a < b
    case PUle => a <= b
    case PUgt => a > b
    case PUge => a >= b
    case PSlt => SignedOf(ty, a) < SignedOf(ty, b)
    case PSle => SignedOf(ty, a) <= SignedOf(ty, b)
    case PSgt => SignedOf(ty, a) > SignedOf(ty, b)
    case PSge => SignedOf(ty, a) >= SignedOf(ty, b)
  }

  function IcmpVal(p: Predicate, ty: MemTy, a: Val, b: Val): (r: Val)
    requires IsScalar(ty) && Fits(ty, a) && Fits(ty, b)
    ensures Fits(I1, r)
  {
    if a.Poison? || b.Poison? then Poison else Bit(Decide(p, ty, Magnitude(a), Magnitude(b)))
  }

  function AndVal(a: Val, b: Val): (r: Val)
    requires Fits(I1, a) && Fits(I1, b)
    ensures Fits(I1, r)
  {
    if a.Bit? && b.Bit? then Bit(a.bit && b.bit) else Poison
  }

  function OrVal(a: Val, b: Val): (r: Val)
    requires Fits(I1, a) && Fits(I1, b)
    ensures Fits(I1, r)
  {
    if a.Bit? && b.Bit? then Bit(a.bit || b.bit) else Poison
  }

  function XorVal(a: Val, b: Val): (r: Val)
    requires Fits(I1, a) && Fits(I1, b)
    ensures Fits(I1, r)
  {
    if a.Bit? && b.Bit? then Bit(a.bit != b.bit) else Poison
  }

  /** Poison in the operand that is not chosen is harmless; in the condition it is not. */
  function SelectVal(c: Val, a: Val, b: Val): (r: Val)
    requires Fits(I1, c) && Fits(I1, a) && Fits(I1, b)
    ensures Fits(I1, r)
  {
    if c.Bit? then (if c.bit then a else b) else Poison
  }

  // ----- Execution -----

  datatype Block = Block(bytes: seq<Byte>, alignment: nat)

  datatype State = State(env: map<Name, Val>, mem: map<Name, Block>) {
    function Names(): set<Name> {
      env.Keys + mem.Keys
    }

    function Bind(name: Name, v: Val): State {
      this.(env := env[name := v])
    }
  }

  function Resolve(s: State, o: Operand): Option<Val> {
    match o
    case Temp(name) => if name in s.env then Some(s.env[name]) else None
    case LitBit(b) => Some(Bit(b))
    case LitI64(n) => if n < Pow256(8) then Some(Word(8, n)) else None
    case ZeroInit(bytes) => Some(Agg(Zeros(bytes)))
  }

  predicate Holds(s: State, o: Operand, v: Val) {
    Resolve(s, o) == Some(v)
  }

  predicate HoldsFitting(s: State, o: Operand, ty: MemTy) {
    Resolve(s, o).Some? && Fits(ty, Resolve(s, o).value)
  }

  /** The pointer is live, the access in bounds and as aligned as it claims. */
  predicate CanAccess(s: State, o: Operand, size: nat, alignment: nat) {
    && Resolve(s, o).Some?
    && Resolve(s, o).value.Ptr?
    && var p := Resolve(s, o).value;
    && p.slot in s.mem
    && p.offset + size <= |s.mem[p.slot].bytes|
    && alignment > 0
    && Rem(s.mem[p.slot].alignment, alignment) == 0
    && Rem(p.offset, alignment) == 0
  }

  /** getelementptr inbounds stays inside the object or gives poison. */
  function Offset(s: State, o: Operand, delta: nat): Option<Val> {
    if Resolve(s, o).Some? && Resolve(s, o).value.Ptr? && Resolve(s, o).value.slot in s.mem then
      var p := Resolve(s, o).value;
      if p.offset + delta <= |s.mem[p.slot].bytes| then Some(Ptr(p.slot, p.offset + delta)) else Some(Poison)
    else None
  }

  function MemberOffset(index: nat): nat {
    8 * index  // {i64, [N x i8]}: the tag at 0, the payload at 8
  }

  function Eval(odd: OddBool, s: State, e: Expr): Option<Val> {
    match e
    case Alloca(_, _) => None
    case GepMember(base, members, index) => if index < members then Offset(s, base, MemberOffset(index)) else None
    case GepByte(base, offset) => Offset(s, base, offset)
    case Load(ty, pointer, alignment) =>
      if CanAccess(s, pointer, MemSize(ty), alignment) then
        var p := Resolve(s, pointer).value;
        Some(ReadVal(odd, ty, s.mem[p.slot].bytes[p.offset..p.offset + MemSize(ty)]))
      else None
    case ExtractTag(aggregate) =>
      if Resolve(s, aggregate).Some? && Resolve(s, aggregate).value.Agg? && |Resolve(s, aggregate).value.image| >= 8 then
        Some(ReadWord(Resolve(s, aggregate).value.image[..8]))
      else None
    case Icmp(p, ty, left, right) =>
      if IsScalar(ty) && HoldsFitting(s, left, ty) && HoldsFitting(s, right, ty) then
        Some(IcmpVal(p, ty, Resolve(s, left).value, Resolve(s, right).value))
      else None
    case AndBit(left, right) =>
      if HoldsFitting(s, left, I1) && HoldsFitting(s, right, I1) then
        Some(AndVal(Resolve(s, left).value, Resolve(s, right).value))
      else None
    case OrBit(left, right) =>
      if HoldsFitting(s, left, I1) && HoldsFitting(s, right, I1) then
        Some(OrVal(Resolve(s, left).value, Resolve(s, right).value))
      else None
    case XorBit(left, right) =>
      if HoldsFitting(s, left, I1) && HoldsFitting(s, right, I1) then
        Some(XorVal(Resolve(s, left).value, Resolve(s, right).value))
      else None
    case Select(c, a, b) =>
      if HoldsFitting(s, c, I1) && HoldsFitting(s, a, I1) && HoldsFitting(s, b, I1) then
        Some(SelectVal(Resolve(s, c).value, Resolve(s, a).value, Resolve(s, b).value))
      else None
  }

  function StepLine(odd: OddBool, s: State, line: Line): Option<State> {
    match line
    case Def(target, expr) =>
      if target in s.Names() then None
      else if expr.Alloca? then
        Some(s.Bind(target, Ptr(target, 0)).(mem := s.mem[target := Block(Undefs(expr.size), expr.alignment)]))
      else
        (match Eval(odd, s, expr)
         case None => None
         case Some(v) => Some(s.Bind(target, v)))
    case Store(ty, value, pointer, alignment) =>
      if HoldsFitting(s, value, ty) && CanAccess(s, pointer, MemSize(ty), alignment) then
        var p := Resolve(s, pointer).value;
        var block := s.mem[p.slot];
        Some(s.(mem := s.mem[p.slot := block.(bytes := Overwrite(block.bytes, p.offset, WriteVal(ty, Resolve(s, value).value)))]))
      else None
  }

  function Overwrite(bytes: seq<Byte>, offset: nat, new_: seq<Byte>): (r: seq<Byte>)
    requires offset + |new_| <= |bytes|
    ensures |r| == |bytes|
    ensures r[offset..offset + |new_|] == new_
    ensures forall i :: 0 <= i < |bytes| && !(offset <= i < offset + |new_|) ==> r[i] == bytes[i]
  {
    bytes[..offset] + new_ + bytes[offset + |new_|..]
  }

  function Run(odd: OddBool, lines: seq<Line>, s: State): Option<State> {
    if lines == [] then Some(s) else
      match Run(odd, lines[..|lines| - 1], s)
      case None => None
      case Some(before) => StepLine(odd, before, lines[|lines| - 1])
  }

  /** lines take s to t without getting stuck. */
  predicate Runs(odd: OddBool, lines: seq<Line>, s: State, t: State) {
    Run(odd, lines, s) == Some(t)
  }

  lemma {:induction false} RunsSnoc(odd: OddBool, lines: seq<Line>, line: Line, s: State, t: State)
    requires Runs(odd, lines, s, t)
    ensures Run(odd, lines + [line], s) == StepLine(odd, t, line)
  {
    assert (lines + [line])[..|lines|] == lines;
  }

  lemma {:induction false} RunsAppend(odd: OddBool, a: seq<Line>, b: seq<Line>, s: State, t: State)
    requires Runs(odd, a, s, t)
    ensures Run(odd, a + b, s) == Run(odd, b, t)
  {
    if b == [] {
      assert a + b == a;
    } else {
      var c := b[..|b| - 1];
      RunsAppend(odd, a, c, s, t);
      assert (a + b)[..|a + b| - 1] == a + c;
    }
  }

  // ----- Static single assignment -----

  function OperandNames(o: Operand): set<Name> {
    if o.Temp? then {o.name} else {}
  }

  function Uses(line: Line): set<Name> {
    match line
    case Store(_, value, pointer, _) => OperandNames(value) + OperandNames(pointer)
    case Def(_, expr) =>
      (match expr
       case Alloca(_, _) => {}
       case GepMember(base, _, _) => OperandNames(base)
       case GepByte(base, _) => OperandNames(base)
       case Load(_, pointer, _) => OperandNames(pointer)
       case ExtractTag(aggregate) => OperandNames(aggregate)
       case Icmp(_, _, a, b) => OperandNames(a) + OperandNames(b)
       case AndBit(a, b) => OperandNames(a) + OperandNames(b)
       case OrBit(a, b) => OperandNames(a) + OperandNames(b)
       case XorBit(a, b) => OperandNames(a) + OperandNames(b)
       case Select(c, a, b) => OperandNames(c) + OperandNames(a) + OperandNames(b))
  }

  function Targets(lines: seq<Line>): set<Name> {
    set i | 0 <= i < |lines| && lines[i].Def? :: lines[i].target
  }

  /** No temporary is defined twice, and every operand is a literal, an input or an earlier definition. */
  predicate SingleAssignment(lines: seq<Line>, inputs: set<Name>) {
    forall j :: 0 <= j < |lines| ==> AssignsOnce(lines, inputs, j)
  }

  predicate AssignsOnce(lines: seq<Line>, inputs: set<Name>, j: nat)
    requires j < |lines|
  {
    && Uses(lines[j]) <= inputs + Targets(lines[..j])
    && (lines[j].Def? ==> lines[j].target !in inputs + Targets(lines[..j]))
  }

  /** Code that runs at all is in single-assignment form. */
  lemma {:induction false} RunsIsSingleAssignment(odd: OddBool, lines: seq<Line>, s: State, t: State)
    requires Runs(odd, lines, s, t)
    ensures SingleAssignment(lines, s.env.Keys)
  {
    forall j | 0 <= j < |lines| ensures AssignsOnce(lines, s.env.Keys, j) {
      var u, v := RunsPrefix(odd, lines, s, t, j);
      RunsDefinesTargets(odd, lines[..j], s, u);
      StepUses(odd, u, lines[j], v);
    }
  }

  lemma {:induction false} RunsPrefix(odd: OddBool, lines: seq<Line>, s: State, t: State, j: nat)
    returns (u: State, v: State)
    requires Runs(odd, lines, s, t) && j < |lines|
    ensures Runs(odd, lines[..j], s, u) && StepLine(odd, u, lines[j]) == Some(v)
  {
    var k := |lines| - 1;
    if j == k {
      u, v := Run(odd, lines[..k], s).value, t;
    } else {
      u, v := RunsPrefix(odd, lines[..k], s, Run(odd, lines[..k], s).value, j);
      assert lines[..k][..j] == lines[..j];
    }
  }

  lemma {:induction false} RunsDefinesTargets(odd: OddBool, lines: seq<Line>, s: State, t: State)
    requires Runs(odd, lines, s, t)
    ensures t.env.Keys == s.env.Keys + Targets(lines)
  {
    if lines != [] {
      var k := |lines| - 1;
      var u := Run(odd, lines[..k], s).value;
      RunsDefinesTargets(odd, lines[..k], s, u);
      StepUses(odd, u, lines[k], t);
      TargetsSnoc(lines);
    }
  }

  lemma {:induction false} TargetsSnoc(lines: seq<Line>)
    requires lines != []
    ensures var k := |lines| - 1;
            Targets(lines) == Targets(lines[..k]) + (if lines[k].Def? then {lines[k].target} else {})
  {
    var k := |lines| - 1;
    forall n | n in Targets(lines[..k])
      ensures n in Targets(lines)
    {
      var i :| 0 <= i < k && lines[..k][i].Def? && lines[..k][i].target == n;
      assert lines[i].Def? && lines[i].target == n;
    }
    forall n | n in Targets(lines)
      ensures n in Targets(lines[..k]) + (if lines[k].Def? then {lines[k].target} else {})
    {
      var i :| 0 <= i < |lines| && lines[i].Def? && lines[i].target == n;
      if i < k {
        assert lines[..k][i].Def? && lines[..k][i].target == n;
      }
    }
  }

  lemma {:induction false} EvalUses(odd: OddBool, s: State, target: Name, e: Expr)
    requires !e.Alloca? && Eval(odd, s, e).Some?
    ensures Uses(Def(target, e)) <= s.env.Keys
  {
    hide CanAccess, IcmpVal, SelectVal, AndVal, OrVal, XorVal, Fits, ReadVal, ReadWord;
    assert forall o :: Resolve(s, o).Some? ==> OperandNames(o) <= s.env.Keys;
    if e.Load? {
      assert Resolve(s, e.pointer).Some? by { AccessResolves(s, e.pointer, MemSize(e.ty), e.alignment); }
    }
  }

  lemma {:induction false} AccessResolves(s: State, o: Operand, size: nat, alignment: nat)
    ensures CanAccess(s, o, size, alignment) ==> Resolve(s, o).Some?
  {
  }

  lemma {:induction false} StepUses(odd: OddBool, s: State, line: Line, t: State)
    requires StepLine(odd, s, line) == Some(t)
    ensures Uses(line) <= s.env.Keys
    ensures line.Def? ==> line.target !in s.env && t.env.Keys == s.env.Keys + {line.target}
    ensures line.Store? ==> t.env == s.env
  {
    hide Eval, CanAccess, Fits;
    if line.Store? {
      AccessResolves(s, line.pointer, MemSize(line.ty), line.alignment);
    } else if !line.expr.Alloca? {
      EvalUses(odd, s, line.target, line.expr);
    }
  }
}
