/**
 The bump allocator emitted for arena allocations: 64-bit wrapping arithmetic,
 alignment by masking, and what every run of requests keeps.
 */
module Arena {
  import opened Wrappers
  import opened Arith

  function Pow2(n: nat): (p: nat)
    ensures p > 0
  {
    if n == 0 then 1 else 2 * Pow2(n - 1)
  }

  // ----- Bitwise and -----

  /** The low n bits of x and y, anded. */
  function AndBits(n: nat, x: nat, y: nat): nat {
    if n == 0 then 0 else (if x % 2 == 1 && y % 2 == 1 then 1 else 0) + 2 * AndBits(n - 1, x / 2, y / 2)
  }

  lemma {:induction false} AndOnes(n: nat, x: nat)
    requires x < Pow2(n)
    ensures AndBits(n, x, Pow2(n) - 1) == x
  {
    if n > 0 {
      AndOnes(n - 1, x / 2);
      assert (Pow2(n) - 1) / 2 == Pow2(n - 1) - 1 && (Pow2(n) - 1) % 2 == 1;
    }
  }

  lemma {:induction false} RemDouble(x: nat, b: nat, a: nat)
    requires a > 0 && b < 2
    ensures Rem(2 * x + b, 2 * a) == 2 * Rem(x, a) + b
    decreases x
  {
    if x >= a {
      RemDouble(x - a, b, a);
    }
  }

  lemma {:induction false} PowersGrow(k: nat, n: nat)
    requires k <= n
    ensures Pow2(k) <= Pow2(n)
  {
    if k < n {
      PowersGrow(k, n - 1);
    }
  }

  /** Anding with minus a power of two rounds down to a multiple of it. */
  lemma {:induction false} MaskRoundsDown(n: nat, k: nat, x: nat)
    requires k <= n && x < Pow2(n)
    ensures Pow2(k) <= Pow2(n)
    ensures AndBits(n, x, Pow2(n) - Pow2(k)) == x - Rem(x, Pow2(k))
  {
    hide AndBits, Rem;
    PowersGrow(k, n);
    if k == 0 {
      RemOne(x);
      AndOnes(n, x);
    } else {
      PowersGrow(k - 1, n - 1);
      MaskRoundsDown(n - 1, k - 1, x / 2);
      RemHalves(x, Pow2(k - 1));
      MaskStep(n, Pow2(n - 1) - Pow2(k - 1), x);
      assert Pow2(n) - Pow2(k) == 2 * (Pow2(n - 1) - Pow2(k - 1));
    }
  }

  lemma {:induction false} RemHalves(x: nat, a: nat)
    requires a > 0
    ensures Rem(x, 2 * a) == 2 * Rem(x / 2, a) + x % 2
  {
    RemDouble(x / 2, x % 2, a);
    assert x == 2 * (x / 2) + x % 2;
  }

  /** An even mask drops the lowest bit. */
  lemma {:induction false} MaskStep(n: nat, half: nat, x: nat)
    requires n > 0
    ensures AndBits(n, x, 2 * half) == 2 * AndBits(n - 1, x / 2, half)
  {
    assert (2 * half) % 2 == 0 && (2 * half) / 2 == half;
  }

  // ----- One allocation, as emitted -----

  type Word = x: nat | x < Modulus()

  function Modulus(): nat {
    0x1_0000_0000_0000_0000
  }

  function Add(a: nat, b: nat): Word
    requires a < Modulus() && b < Modulus()
  {
    if a + b < Modulus() then a + b else a + b - Modulus()
  }

  /** Size and binary logarithm of the alignment of one request. */
  datatype Request = Request(size: Word, log: nat)

  predicate GoodRequest(r: Request) {
    r.log < 64 && Pow2(r.log) < Modulus()
  }

  function Aligned(used: Word, log: nat): Word
    requires log < 64 && Pow2(log) < Modulus()
  {
    if log == 0 then used
    else
      AndAtMost(64, Add(used, Pow2(log) - 1), Modulus() - Pow2(log));
      AndBits(64, Add(used, Pow2(log) - 1), Modulus() - Pow2(log))
  }

  lemma {:induction false} AndAtMost(n: nat, x: nat, y: nat)
    ensures AndBits(n, x, y) <= x
  {
    if n > 0 {
      AndAtMost(n - 1, x / 2, y / 2);
    }
  }

  lemma {:induction false} FourMoreBits(n: nat)
    ensures Pow2(n + 4) == 0x10 * Pow2(n)
  {
    assert Pow2(n + 1) == 2 * Pow2(n);
    assert Pow2(n + 2) == 2 * Pow2(n + 1);
    assert Pow2(n + 3) == 2 * Pow2(n + 2);
  }

  lemma {:induction false} EightMoreBits(n: nat)
    ensures Pow2(n + 8) == 0x100 * Pow2(n)
  {
    hide Pow2;
    FourMoreBits(n);
    FourMoreBits(n + 4);
  }

  lemma {:induction false} Pow64()
    ensures Pow2(64) == Modulus()
  {
    hide Pow2;
    NoBits();
    EightMoreBits(0);
    EightMoreBits(8);
    EightMoreBits(16);
    EightMoreBits(24);
    EightMoreBits(32);
    EightMoreBits(40);
    EightMoreBits(48);
    EightMoreBits(56);
  }

  lemma {:induction false} NoBits()
    ensures Pow2(0) == 1
  {
  }

  /** The block's offset from the arena's base, or None for null; and the new used. */
  function Allocate(used: Word, cap: Word, r: Request): (Option<Word>, Word)
    requires GoodRequest(r)
  {
    var aligned := Aligned(used, r.log);
    var nextUsed := Add(aligned, r.size);
    if nextUsed <= cap then (Some(aligned), nextUsed) else (None, used)
  }

  /** The allocation over unbounded integers. */
  function Meant(used: Word, cap: Word, r: Request): (Option<Word>, Word)
    requires GoodRequest(r)
  {
    var start := AlignTo(used, Pow2(r.log));
    if start + r.size <= cap then (Some(start), start + r.size) else (None, used)
  }

  /** The end of the block does not wrap round to something below the capacity. */
  predicate Lands(used: Word, cap: Word, r: Request)
    requires GoodRequest(r)
  {
    var end := AlignTo(used, Pow2(r.log)) + r.size;
    end < Modulus() || end - Modulus() > cap
  }

  /** Requests small enough to land whatever has been used. */
  predicate Fits64(cap: Word, r: Request) {
    GoodRequest(r) && cap + r.size + Pow2(r.log) - 1 < Modulus()
  }

  lemma {:induction false} PowersDivide(k: nat, n: nat)
    requires k <= n
    ensures Rem(Pow2(n), Pow2(k)) == 0
  {
    if k < n {
      PowersDivide(k, n - 1);
      RemSum(Pow2(n - 1), Pow2(n - 1), Pow2(k));
    } else {
      assert Rem(Pow2(n), Pow2(n)) == Rem(0, Pow2(n));
    }
  }

  /** Rounding up by mask is AlignTo, modulo the word. */
  lemma {:induction false} AlignedIsAlignTo(used: Word, log: nat)
    requires log < 64 && Pow2(log) < Modulus()
    ensures AlignTo(used, Pow2(log)) <= Modulus()
    ensures Aligned(used, log) == if AlignTo(used, Pow2(log)) < Modulus() then AlignTo(used, Pow2(log)) else 0
  {
    hide Rem, AndBits, Pow2, AlignTo;
    var a := Pow2(log);
    Pow64();
    RoundUpAsMask(used, a);
    if log == 0 {
      NoBits();
      RemOne(used);
    } else if used + (a - 1) < Modulus() {
      MaskRoundsDown(64, log, used + (a - 1));
    } else {
      MaskRoundsDown(64, log, used + (a - 1) - Modulus());
      SmallRem(used + (a - 1) - Modulus(), a);
      PowersDivide(log, 64);
      AlignToIsLeastMultiple(used, a);
      LeastMultipleUnique(used, a, AlignTo(used, a), Modulus());
    }
  }

  lemma {:induction false} SmallRem(x: nat, a: nat)
    requires x < a
    ensures Rem(x, a) == x
  {
  }

  /** The emitted code does what is meant exactly when the block's end lands. */
  lemma {:induction false} AllocateIff(used: Word, cap: Word, r: Request)
    requires used <= cap && GoodRequest(r)
    ensures Allocate(used, cap, r) == Meant(used, cap, r) <==> Lands(used, cap, r)
  {
    hide AlignTo, Aligned, Pow2;
    AlignedIsAlignTo(used, r.log);
  }

  /** A block that does not land is granted all the same, though the arena has no room for it. */
  lemma {:induction false} StrayIsGranted(used: Word, cap: Word, r: Request)
    requires used <= cap && GoodRequest(r) && !Lands(used, cap, r)
    ensures var (block, after) := Allocate(used, cap, r);
            block.Some? && after == AlignTo(used, Pow2(r.log)) + r.size - Modulus()
    ensures Meant(used, cap, r) == (None, used)
  {
    hide AlignTo, Aligned, Pow2;
    AlignedIsAlignTo(used, r.log);
  }

  lemma {:induction false} SmallRequestsLand(used: Word, cap: Word, r: Request)
    requires used <= cap && Fits64(cap, r)
    ensures Lands(used, cap, r)
  {
    hide AlignTo;
    AlignToIsLeastMultiple(used, Pow2(r.log));
  }

  lemma {:induction false} RoundUpAsMask(value: nat, a: nat)
    requires a > 0
    ensures AlignTo(value, a) == value + (a - 1) - Rem(value + (a - 1), a)
    decreases value
  {
    if value >= a {
      RoundUpAsMask(value - a, a);
    } else if value > 0 {
      assert Rem(value + (a - 1), a) == Rem(value - 1, a) == value - 1;
    }
  }

  // ----- What one allocation keeps -----

  /** A block handed out lies in the arena, aligned, above everything handed out before; null changes nothing. */
  lemma {:induction false} AllocateKeeps(used: Word, cap: Word, r: Request)
    requires used <= cap && GoodRequest(r) && Lands(used, cap, r)
    ensures var (block, after) := Allocate(used, cap, r);
            && used <= after <= cap
            && (block.Some? <==> AlignTo(used, Pow2(r.log)) + r.size <= cap)
            && (block.Some? ==> used <= block.value && block.value + r.size == after && Rem(block.value, Pow2(r.log)) == 0
                                && block.value == AlignTo(used, Pow2(r.log)))
            && (block.None? ==> after == used)
  {
    hide AlignTo, Aligned;
    AllocateIff(used, cap, r);
    AlignToIsLeastMultiple(used, Pow2(r.log));
  }

  // ----- Runs -----

  datatype Block = Block(start: Word, size: Word)

  /** The allocator's state: how much is used, and the blocks handed out so far. */
  class Allocator {
    const cap: Word
    var used: Word
    ghost var blocks: seq<Block>

    constructor (cap: Word, used: Word)
      requires used <= cap
      ensures this.cap == cap && this.used == used && blocks == [] && Valid()
    {
      this.cap, this.used, blocks := cap, used, [];
    }

    /** Blocks are disjoint, in order, and below used. */
    ghost predicate Valid()
      reads this
    {
      && used <= cap
      && (forall i :: 0 <= i < |blocks| ==> blocks[i].start + blocks[i].size <= used)
      && (forall i, j :: 0 <= i < j < |blocks| ==> blocks[i].start + blocks[i].size <= blocks[j].start)
    }

    /** EmitArenaNewInstruction's code. */
    method New(r: Request) returns (block: Option<Word>)
      requires Valid() && GoodRequest(r) && Lands(used, cap, r)
      modifies this
      ensures Valid() && old(used) <= used
      ensures block.Some? <==> AlignTo(old(used), Pow2(r.log)) + r.size <= cap
      ensures block.Some? ==> blocks == old(blocks) + [Block(block.value, r.size)] && Rem(block.value, Pow2(r.log)) == 0
                              && block.value + r.size <= cap
      ensures block.None? ==> used == old(used) && blocks == old(blocks)
    {
      AllocateKeeps(used, cap, r);
      var aligned := Aligned(used, r.log);
      var nextUsed := Add(aligned, r.size);
      var fits := nextUsed <= cap;
      block := if fits then Some(aligned) else None;
      used := if fits then nextUsed else used;
      if fits {
        blocks := blocks + [Block(aligned, r.size)];
      }
    }
  }

  /** The largest size there is never lands: it is granted, and moves used back. */
  lemma {:induction false} WrappedRequestIsGranted(used: Word, cap: Word, size: Word)
    requires 0 < used <= cap && size == Modulus() - 1
    ensures var (block, after) := Allocate(used, cap, Request(size, 0)); block == Some(used) && after == used - 1
  {
    assert Pow2(0) == 1;
  }
}
