/** The 32-bit indices of a pipe (OSTask/pipes.c), which wrap: where in the pipe they lead. */
module PipeIndices {

  const WRAP := 0x1_0000_0000

  type Byte = bv8

  // ----- remainders

  lemma {:induction false} ModOf(a: nat, r: nat, q: nat, s: nat)
    requires r < s && a == r + q * s
    ensures a % s == r
  {
    if q > 0 {
      assert (q - 1) * s == q * s - s;
      ModOf(a - s, r, q - 1, s);
      ModLess(a, s);
    }
  }

  lemma ModLess(a: nat, s: nat)
    requires 0 < s <= a
    ensures (a - s) % s == a % s
  {
    var b := a - s;
    Unique(b, b / s, b % s, a / s - 1, a % s, s);
  }

  lemma Unique(a: int, q: int, r: int, p: int, t: int, s: nat)
    requires 0 <= r < s && 0 <= t < s && a == r + q * s && a == t + p * s
    ensures q == p && r == t
  {
    var d := q - p;
    assert d * s == q * s - p * s;
    if d > 0 {
      AtLeast(d, s);
    }
  }

  lemma AtLeast(d: nat, s: nat)
    requires d > 0
    ensures d * s >= s
  {
    assert d * s == s + (d - 1) * s;
    assert (d - 1) * s >= 0;
  }

  /** Positions less than s apart are at different places modulo s. */
  lemma Apart(a: nat, b: nat, s: nat)
    requires b < a < b + s
    ensures a % s != b % s
  {
    if a % s == b % s {
      var d := a / s - b / s;
      assert a - b == d * s by { assert a == a % s + a / s * s && b == b % s + b / s * s; }
      NotBetween(d, s);
    }
  }

  lemma NotBetween(d: int, s: nat)
    ensures !(0 < d * s < s)
  {
    if d > 0 {
      AtLeast(d, s);
    } else {
      assert d * s <= 0;
    }
  }

  /** Going on from the remainder is going on from the number. */
  lemma ModFrom(n: nat, k: nat, s: nat)
    requires s > 0
    ensures (n % s + k) % s == (n + k) % s
  {
    var m := n % s + k;
    var a, q := n / s, m / s;
    Divided(n, s);
    Divided(m, s);
    Distributes(q, a, s);
    ModOf(n + k, m % s, q + a, s);
  }

  lemma Divided(n: nat, s: nat)
    requires s > 0
    ensures n == n % s + n / s * s
  {
  }

  lemma Distributes(q: nat, a: nat, s: nat)
    ensures q * s + a * s == (q + a) * s
  {
  }

  /** An index that has wrapped gives the right place in the pipe, for every amount of data, exactly
      when the size of the pipe divides 2^32. */
  lemma WrapIsHarmlessIff(size: nat)
    requires 0 < size
    ensures (forall n: nat :: Placed(n, size)) <==> WRAP % size == 0
  {
    if WRAP % size == 0 {
      forall n: nat ensures Placed(n, size) { WrapIsHarmless(n, size); }
    } else {
      assert !Placed(WRAP, size) by { ModOf(0, 0, 0, size); }
    }
  }

  predicate Placed(n: nat, size: nat)
    requires size > 0
  {
    n % WRAP % size == n % size
  }

  lemma WrapIsHarmless(n: nat, size: nat)
    requires 0 < size && (WRAP % size == 0 || n < WRAP)
    ensures Placed(n, size)
  {
    if n >= WRAP {
      var m := n % WRAP;
      var c := WRAP / size;
      assert WRAP == c * size;
      assert n == m + n / WRAP * WRAP;
      assert n / WRAP * WRAP == n / WRAP * c * size;
      var q := m / size;
      assert m == m % size + q * size;
      assert n == m % size + (q + n / WRAP * c) * size;
      ModOf(n, m % size, q + n / WRAP * c, size);
    }
  }

  /** The difference of two indices is the difference of what they count, if that is less than 2^32. */
  lemma Difference(w: nat, r: nat)
    requires 0 <= w - r < WRAP
    ensures (w % WRAP - r % WRAP) % WRAP == w - r
  {
  }
}
