/** Types shared by every module of the model: bytes, the fixed-width
    integers of the Kotlin side, and the Option/Result wrappers used for
    nullable values and raised exceptions. */
module Common {

  /** One octet on the wire, seen unsigned. A Kotlin `Byte` read back with
      `toInt() and 0xFF`, and a Python `bytes` element, are both this value. */
  type byte = b: int | 0 <= b < 0x100

  /** Kotlin `Int`. */
  type int32 = x: int | -0x8000_0000 <= x < 0x8000_0000

  /** Kotlin `Long`. */
  type int64 = x: int | -0x8000_0000_0000_0000 <= x < 0x8000_0000_0000_0000

  /** The range of a 16-bit big-endian header field. */
  type uint16 = x: int | 0 <= x < 0x1_0000

  datatype Option<+T> = None | Some(value: T)

  /** `Failure` stands for an exception the source raises (or, in Kotlin,
      the failed `Result` that `runCatching` turns it into). */
  datatype Result<+T, +E> = Success(value: T) | Failure(error: E)

  function Min(a: int, b: int): int
  {
    if a <= b then a else b
  }

  lemma MulAtLeast(d: int, k: int)
    requires d >= 1 && k >= 1
    ensures d * k >= d
  {
    if k > 1 {
      MulAtLeast(d, k - 1);
      assert d * k == d * (k - 1) + d;
    }
  }

  /** A map holding some key is not empty. */
  lemma MapNonEmpty<K, V>(m: map<K, V>, k: K)
    requires k in m
    ensures |m| >= 1
  {
    assert m.Keys != {};
    assert |m.Keys| == |m|;
  }

  /** Euclidean division has one quotient and one remainder. */
  lemma DivUnique(a: int, d: int, q: int, r: int)
    requires d >= 1 && 0 <= r < d && a == d * q + r
    ensures a / d == q && a % d == r
  {
    var q', r' := a / d, a % d;
    assert a == d * q' + r';
    if q' < q {
      MulAtLeast(d, q - q');
    } else if q' > q {
      MulAtLeast(d, q' - q);
    }
  }

  /** Dividing by `d` and then by 256 is dividing by `256 * d`. */
  lemma DivMul256(u: int, d: int)
    requires d >= 1
    ensures u / (d * 0x100) == (u / d) / 0x100
  {
    var q, r := u / d, u % d;
    var hi, lo := q / 0x100, q % 0x100;
    assert q == 0x100 * hi + lo;
    assert u == d * q + r;
    assert d * q == (d * 0x100) * hi + d * lo;
    assert 0 <= d * lo <= d * 0xFF;
    DivUnique(u, d * 0x100, hi, d * lo + r);
  }
}
