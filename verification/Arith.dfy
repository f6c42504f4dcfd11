/** Offsets rounded up to an alignment. */
module Arith {

  /** value modulo divisor, by repeated subtraction. */
  function Rem(value: nat, divisor: nat): (r: nat)
    requires divisor > 0
    ensures r < divisor
    decreases value
  {
    if value < divisor then value else Rem(value - divisor, divisor)
  }

  function AlignTo(value: nat, alignment: nat): nat {
    if alignment == 0 then value else
      var remainder := Rem(value, alignment);
      if remainder == 0 then value else value + (alignment - remainder)
  }

  /** r is the smallest multiple of alignment that is not below value. */
  predicate IsLeastMultiple(value: nat, alignment: nat, r: nat)
    requires alignment > 0
  {
    Rem(r, alignment) == 0 && value <= r < value + alignment
  }

  function Max(a: nat, b: nat): nat {
    if a < b then b else a
  }

  lemma {:induction false} RemSum(x: nat, y: nat, a: nat)
    requires a > 0 && Rem(x, a) == 0
    ensures Rem(x + y, a) == Rem(y, a)
    decreases x
  {
    if x > 0 {
      RemSum(x - a, y, a);
    }
  }

  lemma {:induction false} RemOne(n: nat)
    ensures Rem(n, 1) == 0
    decreases n
  {
    if n > 0 {
      RemOne(n - 1);
    }
  }

  lemma {:induction false} RoundedUpIsMultiple(value: nat, a: nat)
    requires a > 0
    ensures Rem(value + (a - Rem(value, a)), a) == 0
    decreases value
  {
    if value >= a {
      RoundedUpIsMultiple(value - a, a);
    }
  }

  lemma {:induction false} AlignToIsLeastMultiple(value: nat, alignment: nat)
    requires alignment > 0
    ensures IsLeastMultiple(value, alignment, AlignTo(value, alignment))
  {
    RoundedUpIsMultiple(value, alignment);
  }

  lemma {:induction false} AlignToGrows(value: nat, alignment: nat)
    ensures value <= AlignTo(value, alignment)
  {
  }

  lemma {:induction false} LeastMultipleUnique(value: nat, alignment: nat, r: nat, s: nat)
    requires alignment > 0 && IsLeastMultiple(value, alignment, r) && IsLeastMultiple(value, alignment, s)
    ensures r == s
  {
    if r < s {
      RemSum(r, s - r, alignment);
    } else if s < r {
      RemSum(s, r - s, alignment);
    }
  }

  lemma {:induction false} ProductStaysAligned(size: nat, length: nat, alignment: nat)
    requires alignment > 0 && Rem(size, alignment) == 0
    ensures Rem(size * length, alignment) == 0
    decreases length
  {
    if length > 0 {
      ProductStaysAligned(size, length - 1, alignment);
      RemSum(size * (length - 1), size, alignment);
      assert size * length == size * (length - 1) + size;
    }
  }
}
