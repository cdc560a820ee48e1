/** Signed 64-bit counter arithmetic as performed by Go's sync/atomic
    AddInt64: the sum is taken modulo 2^64 and read back as a two's-complement
    value, so an increment of the largest value wraps to the smallest. */
module Int64Arith {

  const MinInt64: int := -0x8000_0000_0000_0000
  const MaxInt64: int := 0x7fff_ffff_ffff_ffff
  const Modulus: int := 0x1_0000_0000_0000_0000

  /** The values a Go int64 can hold. */
  type Int64 = x: int | MinInt64 <= x <= MaxInt64

  /** The int64 that two's-complement hardware stores for the mathematical value x. */
  function Wrap(x: int): (r: Int64)
    ensures (r - x) % Modulus == 0
    ensures MinInt64 <= x <= MaxInt64 ==> r == x
  {
    (x - MinInt64) % Modulus + MinInt64
  }

  /** Wrapping can be done before or after adding an offset: the result is the same. */
  lemma WrapShift(a: int, b: int)
    ensures Wrap(Wrap(a) + b) == Wrap(a + b)
  {
    var q := (a - MinInt64) / Modulus;
    assert a - MinInt64 == Modulus * q + (a - MinInt64) % Modulus;
    assert Wrap(a) + b - MinInt64 == (a + b - MinInt64) - Modulus * q;
  }

  /** atomic.AddInt64(&x, delta): the new value of x. */
  function AtomicAdd(x: Int64, delta: Int64): (r: Int64)
    ensures MinInt64 <= x + delta <= MaxInt64 ==> r == x + delta
    ensures x + delta > MaxInt64 ==> r == x + delta - Modulus
    ensures x + delta < MinInt64 ==> r == x + delta + Modulus
  {
    Wrap(x + delta)
  }

  /** The counter after n successive increments by one, starting from x. */
  function AfterAdds(x: Int64, n: nat): Int64
    decreases n
  {
    if n == 0 then x else AfterAdds(AtomicAdd(x, 1), n - 1)
  }

  /** The counter after n successive decrements by one, starting from x. */
  function AfterDones(x: Int64, n: nat): Int64
    decreases n
  {
    if n == 0 then x else AfterDones(AtomicAdd(x, -1), n - 1)
  }

  /** n increments move the counter by n, modulo 2^64. */
  lemma {:induction false} AfterAddsIsWrappedSum(x: Int64, n: nat)
    ensures AfterAdds(x, n) == Wrap(x + n)
    decreases n
  {
    if n > 0 {
      var y := AtomicAdd(x, 1);
      AfterAddsIsWrappedSum(y, n - 1);
      WrapShift(x + 1, n - 1);
      assert AfterAdds(x, n) == Wrap(Wrap(x + 1) + (n - 1));
    }
  }

  /** n decrements move the counter by -n, modulo 2^64. */
  lemma {:induction false} AfterDonesIsWrappedDifference(x: Int64, n: nat)
    ensures AfterDones(x, n) == Wrap(x - n)
    decreases n
  {
    if n > 0 {
      var y := AtomicAdd(x, -1);
      AfterDonesIsWrappedDifference(y, n - 1);
      WrapShift(x - 1, -((n - 1) as int));
      assert AfterDones(x, n) == Wrap(Wrap(x - 1) + -((n - 1) as int));
    }
  }

  /** n decrements starting from a non-negative value no smaller than n
      never wrap: the counter is exactly x - n. */
  lemma {:induction false} AfterDonesExact(x: Int64, n: nat)
    requires 0 <= n <= x
    ensures AfterDones(x, n) == x - n
  {
    AfterDonesIsWrappedDifference(x, n);
  }

  /** n increments followed by n decrements restore the counter, for every
      starting value and every n, overflow included. */
  lemma BalancedJobsRestore(x: Int64, n: nat)
    ensures AfterDones(AfterAdds(x, n), n) == x
  {
    AfterAddsIsWrappedSum(x, n);
    AfterDonesIsWrappedDifference(AfterAdds(x, n), n);
    WrapShift(x + n, -(n as int));
  }
}
