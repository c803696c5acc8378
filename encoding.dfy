/** Integer and string encodings used by the advertisement metadata: the
    JVM `String.hashCode` recurrence, UTF-16 code units, and 32-bit values
    laid out little- or big-endian. */
module Encoding {
  import opened Common

  const TWO32: int := 0x1_0000_0000

  /** Thirty-two bits read as a signed `Int` (two's complement). */
  function ToInt32(u: int): int32
    requires 0 <= u < TWO32
  {
    if u >= 0x8000_0000 then u - TWO32 else u
  }

  /** The low 32 bits of `x`, unsigned: `x & 0xFFFFFFFF` in Python. */
  function ToUint32(x: int): nat
  {
    x % TWO32
  }

  /** Signed and unsigned views of 32 bits convert into each other. */
  lemma Int32Views(u: int, x: int32)
    ensures 0 <= u < TWO32 ==> ToUint32(ToInt32(u)) == u
    ensures ToInt32(ToUint32(x)) == x
  {
  }

  /** The accumulator `h = (31 * h + unit) mod 2^32` after every unit of
      `units`, folded from the left as the hashing loops run. */
  function HashAcc(units: seq<int>): nat
  {
    if units == [] then 0
    else ToUint32(31 * HashAcc(units[..|units| - 1]) + units[|units| - 1])
  }

  /** The JVM `String.hashCode` recurrence over `units`, read as a signed
      32-bit value. */
  function JavaHash(units: seq<int>): int32
  {
    ToInt32(HashAcc(units))
  }

  /** The hash polynomial `units[0]*31^(n-1) + ... + units[n-1]` with no
      wrap-around at all. */
  function HashPoly(units: seq<int>): int
  {
    if units == [] then 0 else 31 * HashPoly(units[..|units| - 1]) + units[|units| - 1]
  }

  /** Wrapping the accumulator to 32 bits at every step, as the Python loop
      masks it and as JVM `Int` arithmetic overflows, is wrapping the whole
      polynomial once at the end. */
  lemma {:induction false} HashAccIsPolyMod(units: seq<int>)
    ensures HashAcc(units) == HashPoly(units) % TWO32
  {
    if units != [] {
      var init := units[..|units| - 1];
      var c := units[|units| - 1];
      HashAccIsPolyMod(init);
      var p := HashPoly(init);
      DivUnique(p, TWO32, p / TWO32, p % TWO32);
      assert 31 * p + c == TWO32 * (31 * (p / TWO32)) + (31 * (p % TWO32) + c);
      ModShift(31 * (p / TWO32), 31 * (p % TWO32) + c, TWO32);
    }
  }

  /** The Unicode code points of `s`: what Python iterates with `for ch in s`. */
  function CodePoints(s: string): seq<int>
  {
    seq(|s|, i requires 0 <= i < |s| => s[i] as int)
  }

  /** The UTF-16 code units of one character: one unit in the Basic
      Multilingual Plane, a surrogate pair above it. */
  function CodeUnits(c: char): seq<int>
  {
    var v := c as int;
    if v < 0x1_0000 then [v]
    else [0xD800 + (v - 0x1_0000) / 0x400, 0xDC00 + (v - 0x1_0000) % 0x400]
  }

  /** The UTF-16 code units of `s`: what a JVM `String` holds. */
  function Utf16(s: string): seq<int>
  {
    if s == [] then [] else CodeUnits(s[0]) + Utf16(s[1..])
  }

  ghost predicate InBmp(s: string)
  {
    forall i :: 0 <= i < |s| ==> (s[i] as int) < 0x1_0000
  }

  /** Below U+10000 a string's UTF-16 units are its code points. */
  lemma {:induction false} BmpUnitsArePoints(s: string)
    requires InBmp(s)
    ensures Utf16(s) == CodePoints(s)
  {
    if s != [] {
      assert InBmp(s[1..]) by {
        forall i | 0 <= i < |s[1..]| ensures (s[1..][i] as int) < 0x1_0000 {
          assert s[1..][i] == s[i + 1];
        }
      }
      BmpUnitsArePoints(s[1..]);
      assert CodePoints(s) == [s[0] as int] + CodePoints(s[1..]);
    }
  }

  /** `[u & 0xFF, (u >> 8) & 0xFF, (u >> 16) & 0xFF, (u >> 24) & 0xFF]`. */
  function Le32(u: int): seq<byte>
  {
    [u % 0x100, (u / 0x100) % 0x100, (u / 0x1_0000) % 0x100, (u / 0x100_0000) % 0x100]
  }

  /** Four bytes, most significant first: `ByteBuffer.putInt` and
      `struct.pack(">i", x)` for a value in the signed 32-bit range. */
  function Be32(x: int): seq<byte>
  {
    [(x / 0x100_0000) % 0x100, (x / 0x1_0000) % 0x100, (x / 0x100) % 0x100, x % 0x100]
  }

  /** Reads four little-endian bytes as an unsigned value. */
  function ReadLe32(b: seq<byte>): nat
    requires |b| == 4
  {
    b[0] as int + 0x100 * (b[1] as int) + 0x1_0000 * (b[2] as int) + 0x100_0000 * (b[3] as int)
  }

  /** Reads four big-endian bytes as a signed value (`struct.unpack(">i")`). */
  function ReadBe32(b: seq<byte>): int32
    requires |b| == 4
  {
    ToInt32(0x100_0000 * (b[0] as int) + 0x1_0000 * (b[1] as int) + 0x100 * (b[2] as int) + b[3] as int)
  }

  /** The four base-256 digits of `u` and how they rebuild it. */
  lemma Digits(u: int)
    requires 0 <= u < TWO32
    ensures u == 0x100 * (u / 0x100) + u % 0x100
    ensures u / 0x100 == 0x100 * (u / 0x1_0000) + (u / 0x100) % 0x100
    ensures u / 0x1_0000 == 0x100 * (u / 0x100_0000) + (u / 0x1_0000) % 0x100
    ensures 0 <= u / 0x100_0000 < 0x100
  {
    DivMul256(u, 0x100);
    DivMul256(u, 0x1_0000);
  }

  /** Little-endian bytes of a 32-bit value read back as that value. */
  lemma Le32RoundTrip(u: int)
    requires 0 <= u < TWO32
    ensures ReadLe32(Le32(u)) == u
  {
    Digits(u);
    var b := Le32(u);
    assert b[3] == u / 0x100_0000;
  }

  lemma ModShift(j: int, w: int, m: int)
    requires m >= 1
    ensures (m * j + w) % m == w % m
  {
    DivUnique(w, m, w / m, w % m);
    DivUnique(m * j + w, m, j + w / m, w % m);
  }

  /** The bytes of `x` depend only on its low 32 bits. */
  lemma Be32OfLow(x: int)
    ensures Be32(x) == Be32(ToUint32(x))
  {
    var q, u := x / TWO32, ToUint32(x);
    assert x == TWO32 * q + u;
    DivUnique(x, 0x100_0000, 0x100 * q + u / 0x100_0000, u % 0x100_0000);
    ModShift(q, u / 0x100_0000, 0x100);
    DivUnique(x, 0x1_0000, 0x1_0000 * q + u / 0x1_0000, u % 0x1_0000);
    ModShift(0x100 * q, u / 0x1_0000, 0x100);
    DivUnique(x, 0x100, 0x100_0000 * q + u / 0x100, u % 0x100);
    ModShift(0x1_0000 * q, u / 0x100, 0x100);
    ModShift(0x100_0000 * q, u, 0x100);
  }

  /** The little-endian bytes of `x` depend only on its low 32 bits, so a
      negative `Int` lays out as its two's-complement pattern. */
  lemma Le32OfLow(x: int)
    ensures Le32(x) == Le32(ToUint32(x))
  {
    var q, u := x / TWO32, ToUint32(x);
    assert x == TWO32 * q + u;
    DivUnique(x, 0x100_0000, 0x100 * q + u / 0x100_0000, u % 0x100_0000);
    ModShift(q, u / 0x100_0000, 0x100);
    DivUnique(x, 0x1_0000, 0x1_0000 * q + u / 0x1_0000, u % 0x1_0000);
    ModShift(0x100 * q, u / 0x1_0000, 0x100);
    DivUnique(x, 0x100, 0x100_0000 * q + u / 0x100, u % 0x100);
    ModShift(0x1_0000 * q, u / 0x100, 0x100);
    ModShift(0x100_0000 * q, u, 0x100);
  }

  lemma Be32Unsigned(u: int)
    requires 0 <= u < TWO32
    ensures 0x100_0000 * (Be32(u)[0] as int) + 0x1_0000 * (Be32(u)[1] as int) + 0x100 * (Be32(u)[2] as int) + Be32(u)[3] as int == u
  {
    Digits(u);
    var b := Be32(u);
    assert b[0] == u / 0x100_0000;
  }

  /** Big-endian bytes read back as the signed low 32 bits of the value;
      for a value already in the signed range, as the value itself. */
  lemma Be32RoundTrip(x: int)
    ensures ReadBe32(Be32(x)) == ToInt32(ToUint32(x))
    ensures -0x8000_0000 <= x < 0x8000_0000 ==> ReadBe32(Be32(x)) == x
  {
    var u := ToUint32(x);
    Be32OfLow(x);
    Be32Unsigned(u);
    assert ReadBe32(Be32(u)) == ToInt32(u);
    if -0x8000_0000 <= x < 0x8000_0000 {
      Int32Views(0, x);
    }
  }
}
