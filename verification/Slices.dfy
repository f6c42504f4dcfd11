/**
 Checked slicing on 64-bit words: bounds of any integer type are widened,
 checked by the emitted helpers and applied to a pointer and a length, any
 number of times over.
 */
module Slices {
  import opened Wrappers
  import opened Layout

  const TWO_63 := 0x8000_0000_0000_0000
  const TWO_64 := 0x1_0000_0000_0000_0000

  type Word = x: nat | x < 0x1_0000_0000_0000_0000

  // ----- Integers as the machine holds them -----

  function Modulus(kind: IntKind): nat {
    match kind.Bytes()
    case 1 => 0x100
    case 2 => 0x1_0000
    case 4 => 0x1_0000_0000
    case _ => TWO_64
  }

  /** v is a value of the type. */
  predicate InRange(kind: IntKind, v: int) {
    kind.Admits(v)
  }

  /** Two's complement bits of v. */
  function Bits(kind: IntKind, v: int): (bits: nat)
    requires InRange(kind, v)
    ensures bits < Modulus(kind)
  {
    if v < 0 then v + Modulus(kind) else v
  }

  /** ExtendIntegerToI64: i64 as it is, sext for signed types, zext for the rest. */
  function Extend(kind: IntKind, bits: nat): (w: Word)
    requires bits < Modulus(kind)
  {
    if kind.Bytes() == 8 then bits
    else if !kind.Unsigned() && 2 * bits >= Modulus(kind) then bits + (TWO_64 - Modulus(kind))
    else bits
  }

  function Signed(w: Word): int {
    if w < TWO_63 then w else w - TWO_64
  }

  function Sub(a: Word, b: Word): Word {
    if a >= b then a - b else a + TWO_64 - b
  }

  // ----- The emitted helpers -----

  /** __mc_check_bounds_index. */
  predicate IndexTraps(index: Word, len: Word) {
    if Signed(index) < 0 then true else index >= len
  }

  /** __mc_check_bounds_slice. */
  predicate SliceTraps(lower: Word, upper: Word, len: Word) {
    if Signed(lower) < 0 then true
    else if Signed(upper) < 0 then true
    else if lower > upper then true
    else upper > len
  }

  // ----- Slicing -----

  /** Where a slice points, in elements from the start of the original, and its length. */
  datatype Slice = Slice(offset: int, len: Word)

  datatype Bound = Bound(kind: IntKind, value: int)

  datatype Cut = Cut(lower: Bound, upper: Option<Bound>)

  predicate GoodBound(b: Bound) {
    InRange(b.kind, b.value)
  }

  predicate GoodCut(c: Cut) {
    GoodBound(c.lower) && (c.upper.Some? ==> GoodBound(c.upper.value))
  }

  function WordOf(b: Bound): Word
    requires GoodBound(b)
  {
    Extend(b.kind, Bits(b.kind, b.value))
  }

  /** One bounds_check and slice; None is a trap. The pointer moves by the bound read as signed, as getelementptr does. */
  function Apply(s: Slice, c: Cut): Option<Slice>
    requires GoodCut(c)
  {
    var lower := WordOf(c.lower);
    match c.upper
    case None =>
      if IndexTraps(lower, s.len) then None else Some(Slice(s.offset + Signed(lower), Sub(s.len, lower)))
    case Some(u) =>
      var upper := WordOf(u);
      if SliceTraps(lower, upper, s.len) then None else Some(Slice(s.offset + Signed(lower), Sub(upper, lower)))
  }

  function ApplyAll(s: Slice, cuts: seq<Cut>): Option<Slice>
    requires forall i :: 0 <= i < |cuts| ==> GoodCut(cuts[i])
    decreases |cuts|
  {
    if cuts == [] then Some(s)
    else
      assert GoodCut(cuts[0]);
      match Apply(s, cuts[0])
      case None => None
      case Some(t) => ApplyAll(t, cuts[1..])
  }

  // ----- What slicing means -----

  datatype Range = Range(start: int, end: int)

  /** Bounds are numbers, whatever their type: an open slice must leave something, a closed one may be empty. */
  predicate Allowed(r: Range, c: Cut) {
    var len := r.end - r.start;
    match c.upper
    case None => 0 <= c.lower.value < len
    case Some(u) => 0 <= c.lower.value <= u.value <= len
  }

  function Narrow(r: Range, c: Cut): Range {
    Range(r.start + c.lower.value, match c.upper case None => r.end case Some(u) => r.start + u.value)
  }

  predicate AllAllowed(r: Range, cuts: seq<Cut>)
    decreases |cuts|
  {
    cuts == [] || (Allowed(r, cuts[0]) && AllAllowed(Narrow(r, cuts[0]), cuts[1..]))
  }

  function NarrowAll(r: Range, cuts: seq<Cut>): Range
    decreases |cuts|
  {
    if cuts == [] then r else NarrowAll(Narrow(r, cuts[0]), cuts[1..])
  }

  // ----- The machine computes the meaning -----

  /** A widened bound is negative as an i64 exactly if it is negative or too large for a length; otherwise it is the bound. */
  lemma {:induction false} WordOfMeans(b: Bound)
    requires GoodBound(b)
    ensures Signed(WordOf(b)) < 0 <==> b.value < 0 || b.value >= TWO_63
    ensures 0 <= b.value ==> WordOf(b) == b.value
  {
  }

  /** Both bounds are below 2^63, the reach of the helpers' signed tests. */
  predicate BoundsReach(c: Cut) {
    c.lower.value < TWO_63 && (c.upper.Some? ==> c.upper.value.value < TWO_63)
  }

  predicate AllReach(cuts: seq<Cut>) {
    forall i :: 0 <= i < |cuts| ==> BoundsReach(cuts[i])
  }

  /** One slice, whatever the length: it succeeds exactly on allowed bounds below 2^63. */
  lemma {:induction false} ApplyMeans(s: Slice, r: Range, c: Cut)
    requires GoodCut(c) && r == Range(s.offset, s.offset + s.len)
    ensures Apply(s, c).Some? <==> Allowed(r, c) && BoundsReach(c)
    ensures Apply(s, c).Some? ==>
              var t := Apply(s, c).value;
              Range(t.offset, t.offset + t.len) == Narrow(r, c) && r.start <= t.offset && t.offset + t.len <= r.end
  {
    WordOfMeans(c.lower);
    if c.upper.Some? {
      WordOfMeans(c.upper.value);
    }
  }

  /**
   Any chain of slices, of something of any length, traps exactly when some
   step's bounds are not allowed as numbers or one is 2^63 or more, and
   otherwise ends with exactly the composed range, inside the original.
   */
  lemma {:induction false} ChainIsComposition(s: Slice, r: Range, cuts: seq<Cut>)
    requires forall i :: 0 <= i < |cuts| ==> GoodCut(cuts[i])
    requires r == Range(s.offset, s.offset + s.len)
    ensures ApplyAll(s, cuts).Some? <==> AllAllowed(r, cuts) && AllReach(cuts)
    ensures ApplyAll(s, cuts).Some? ==>
              var t := ApplyAll(s, cuts).value;
              Range(t.offset, t.offset + t.len) == NarrowAll(r, cuts) && r.start <= t.offset && t.offset + t.len <= r.end
    decreases |cuts|
  {
    hide Apply, Allowed, Narrow, BoundsReach;
    if cuts != [] {
      assert GoodCut(cuts[0]);
      ApplyMeans(s, r, cuts[0]);
      ReachSplits(cuts);
      if Apply(s, cuts[0]).Some? {
        var t := Apply(s, cuts[0]).value;
        ChainIsComposition(t, Range(t.offset, t.offset + t.len), cuts[1..]);
      }
    }
  }

  lemma {:induction false} ReachSplits(cuts: seq<Cut>)
    requires cuts != []
    ensures AllReach(cuts) <==> BoundsReach(cuts[0]) && AllReach(cuts[1..])
  {
    hide BoundsReach;
    if AllReach(cuts[1..]) {
      assert forall i :: 0 < i < |cuts| ==> cuts[i] == cuts[1..][i - 1];
    }
  }

  /** Below 2^63 bytes only the numbers count. */
  lemma {:induction false} ShortChainsReach(r: Range, cuts: seq<Cut>)
    requires 0 <= r.end - r.start < TWO_63 && AllAllowed(r, cuts)
    ensures AllReach(cuts)
    decreases |cuts|
  {
    if cuts != [] {
      ShortChainsReach(Narrow(r, cuts[0]), cuts[1..]);
      ReachSplits(cuts);
    }
  }

  /** A chain of slices of something shorter than 2^63 traps exactly when some step's bounds are not allowed as numbers. */
  lemma {:induction false} ShortChainTrapsIff(s: Slice, r: Range, cuts: seq<Cut>)
    requires forall i :: 0 <= i < |cuts| ==> GoodCut(cuts[i])
    requires s.len < TWO_63 && r == Range(s.offset, s.offset + s.len)
    ensures ApplyAll(s, cuts).Some? <==> AllAllowed(r, cuts)
  {
    ChainIsComposition(s, r, cuts);
    if AllAllowed(r, cuts) {
      ShortChainsReach(r, cuts);
    }
  }

  /** With a length of 2^63 or more the slice helper refuses bounds that are in range. */
  lemma {:induction false} HugeLengthsTrap(len: Word, v: int)
    requires len >= TWO_63 && TWO_63 <= v <= len
    ensures InRange(U64, v) && Allowed(Range(0, len), Cut(Bound(U64, 0), Some(Bound(U64, v))))
    ensures Apply(Slice(0, len), Cut(Bound(U64, 0), Some(Bound(U64, v)))) == None
  {
    hide Apply;
    ApplyMeans(Slice(0, len), Range(0, len), Cut(Bound(U64, 0), Some(Bound(U64, v))));
  }
}
