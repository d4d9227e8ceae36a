/** 64-bit machine integers as Rust has them on a 64-bit target.
    `usize` and `isize` are ranges of the unbounded `int`.  Each operation the source
    performs is written out as a release build executes it: casts reinterpret the bits,
    arithmetic that leaves the range wraps around. */
module MachineInt {

  const TWO_TO_THE_63: int := 0x8000_0000_0000_0000
  const TWO_TO_THE_64: int := 0x1_0000_0000_0000_0000

  /** The largest `usize`, which `0usize.wrapping_sub(1)` yields. */
  const USIZE_MAX: int := TWO_TO_THE_64 - 1

  type Usize = n: int | 0 <= n < TWO_TO_THE_64
  type Isize = n: int | -TWO_TO_THE_63 <= n < TWO_TO_THE_63

  /** The reference reading of wrap-around: the `usize` congruent to `n` modulo 2^64. */
  function WrapUsize(n: int): Usize {
    n % TWO_TO_THE_64
  }

  /** `u as isize`: the same 64 bits read as two's complement. */
  function AsIsize(u: Usize): Isize {
    if u < TWO_TO_THE_63 then u else u - TWO_TO_THE_64
  }

  /** The reference reading of `isize` wrap-around: the `isize` congruent to `n` modulo 2^64. */
  function WrapIsize(n: int): Isize {
    AsIsize(WrapUsize(n))
  }

  /** `a.wrapping_add(b)` on `usize`. */
  function WrappingAdd(a: Usize, b: Usize): (r: Usize)
    ensures a + b < TWO_TO_THE_64 ==> r == a + b
  {
    if a + b < TWO_TO_THE_64 then a + b else a + b - TWO_TO_THE_64
  }

  /** `a.wrapping_sub(b)` on `usize`. */
  function WrappingSub(a: Usize, b: Usize): (r: Usize)
    ensures b <= a ==> r == a - b
  {
    if b <= a then a - b else a - b + TWO_TO_THE_64
  }

  /** `a * k` on `usize` in a release build, where overflow wraps. */
  function UsizeMul(a: Usize, k: Usize): (r: Usize)
    ensures a * k < TWO_TO_THE_64 ==> r == a * k
  {
    MulNonnegative(a, k);
    (a * k) % TWO_TO_THE_64
  }

  lemma {:induction false} MulNonnegative(a: nat, k: nat)
    ensures a * k >= 0
  {
    if k > 0 {
      MulNonnegative(a, k - 1);
      assert a * k == a * (k - 1) + a;
    }
  }

  /** `a + b` on `isize` in a release build, where overflow wraps. */
  function IsizeAdd(a: Isize, b: Isize): (r: Isize)
    ensures -TWO_TO_THE_63 <= a + b < TWO_TO_THE_63 ==> r == a + b
  {
    if a + b >= TWO_TO_THE_63 then a + b - TWO_TO_THE_64
    else if a + b < -TWO_TO_THE_63 then a + b + TWO_TO_THE_64
    else a + b
  }

  /** `a * k` on `isize` in a release build, where overflow wraps. */
  function IsizeMul(a: Isize, k: Isize): (r: Isize)
    ensures -TWO_TO_THE_63 <= a * k < TWO_TO_THE_63 ==> r == a * k
  {
    WrapIsizeInRange(a * k);
    WrapIsize(a * k)
  }

  /** Wrapping leaves an integer that is already in range alone. */
  lemma WrapIsizeInRange(n: int)
    ensures -TWO_TO_THE_63 <= n < TWO_TO_THE_63 ==> WrapIsize(n) == n
  {
    if 0 <= n < TWO_TO_THE_63 {
      assert WrapUsize(n) == n;
    } else if -TWO_TO_THE_63 <= n < 0 {
      assert WrapUsize(n) == n + TWO_TO_THE_64;
    }
  }

  /** Two integers with the same residue modulo 2^64 wrap to the same `usize`. */
  lemma {:induction false} WrapUsizeOfCongruent(a: int, b: int)
    requires (a - b) % TWO_TO_THE_64 == 0
    ensures WrapUsize(a) == WrapUsize(b)
  {
    var k := (a - b) / TWO_TO_THE_64;
    assert a == b + k * TWO_TO_THE_64;
    var q := b / TWO_TO_THE_64;
    var m := b % TWO_TO_THE_64;
    assert a == (q + k) * TWO_TO_THE_64 + m;
  }

  /** The wrapping operations agree with the reference readings on every input. */
  lemma WrappingOpsAreModular(a: Usize, b: Usize)
    ensures WrappingAdd(a, b) == WrapUsize(a + b)
    ensures WrappingSub(a, b) == WrapUsize(a - b)
  {
    if a + b >= TWO_TO_THE_64 {
      WrapUsizeOfCongruent(a + b, a + b - TWO_TO_THE_64);
    }
    if b > a {
      WrapUsizeOfCongruent(a - b, a - b + TWO_TO_THE_64);
    }
  }

  /** `isize` addition wraps to the reference reading on every input. */
  lemma IsizeAddIsModular(a: Isize, b: Isize)
    ensures IsizeAdd(a, b) == WrapIsize(a + b)
  {
    var s := a + b;
    if s >= TWO_TO_THE_63 {
      WrapUsizeOfCongruent(s, s - TWO_TO_THE_64);
    } else if s < -TWO_TO_THE_63 {
      WrapUsizeOfCongruent(s, s + TWO_TO_THE_64);
    }
    WrapIsizeInRange(IsizeAdd(a, b));
  }

  /** The cast `as isize` keeps the residue modulo 2^64. */
  lemma AsIsizeResidue(u: Usize)
    ensures WrapUsize(AsIsize(u)) == WrapUsize(u)
  {
    if u >= TWO_TO_THE_63 {
      WrapUsizeOfCongruent(u - TWO_TO_THE_64, u);
    }
  }

  /** `usize` multiplication keeps the residue of the exact product. */
  lemma UsizeMulResidue(u: Usize, k: Usize)
    ensures WrapUsize(UsizeMul(u, k)) == WrapUsize(u * k)
  {
    MulNonnegative(u, k);
  }

  /** `isize` addition keeps the residue of the exact sum. */
  lemma IsizeAddResidue(a: Isize, b: Isize)
    ensures WrapUsize(IsizeAdd(a, b)) == WrapUsize(a + b)
  {
    var s := a + b;
    if s >= TWO_TO_THE_63 {
      WrapUsizeOfCongruent(s - TWO_TO_THE_64, s);
    } else if s < -TWO_TO_THE_63 {
      WrapUsizeOfCongruent(s + TWO_TO_THE_64, s);
    }
  }

  /** `isize` multiplication keeps the residue of the exact product. */
  lemma IsizeMulResidue(a: Isize, k: Isize)
    ensures WrapUsize(IsizeMul(a, k)) == WrapUsize(a * k)
  {
    var u := WrapUsize(a * k);
    if u >= TWO_TO_THE_63 {
      WrapUsizeOfCongruent(u - TWO_TO_THE_64, a * k);
    }
  }

  /** The residue of a sum only depends on the residues of its terms. */
  lemma ResidueOfSum(a: int, b: int, a': int, b': int)
    requires WrapUsize(a) == WrapUsize(a') && WrapUsize(b) == WrapUsize(b')
    ensures WrapUsize(a + b) == WrapUsize(a' + b')
  {
    var ka, kb := a / TWO_TO_THE_64, b / TWO_TO_THE_64;
    var ka', kb' := a' / TWO_TO_THE_64, b' / TWO_TO_THE_64;
    assert (a + b) - (a' + b') == (ka - ka' + kb - kb') * TWO_TO_THE_64;
    WrapUsizeOfCongruent(a + b, a' + b');
  }

  /** An `isize` is the wrap of every integer that shares its residue. */
  lemma IsizeOfResidue(r: Isize, n: int)
    requires WrapUsize(r) == WrapUsize(n)
    ensures r == WrapIsize(n)
  {
    WrapIsizeInRange(r);
  }
}
