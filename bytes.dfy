/** Fixed-width machine integers as both sides of the tool use them: C++ `TUint`/`TInt`
    (32 bits, two's complement) and the byte/`>>>` arithmetic of the JavaScript endpoint. */
module Bytes {

  const TWO_8: int := 0x100
  const TWO_16: int := 0x1_0000
  const TWO_24: int := 0x100_0000
  const TWO_31: int := 0x8000_0000
  const TWO_32: int := 0x1_0000_0000

  type u8 = x: int | 0 <= x < 0x100
  type u32 = x: int | 0 <= x < 0x1_0000_0000
  type i32 = x: int | -0x8000_0000 <= x < 0x8000_0000

  /** The low 32 bits of `x`: C++ unsigned arithmetic on `TUint`, and JavaScript's `x >>> 0`. */
  function Low32(x: int): (r: u32)
    ensures (x - r) % TWO_32 == 0
    ensures 0 <= x < TWO_32 ==> r == x
  {
    x % TWO_32
  }

  /** Wrapping after every increment is wrapping once at the end. */
  lemma Low32AddOne(x: int)
    ensures Low32(Low32(x) + 1) == Low32(x + 1)
  {
    var q := x / TWO_32;
    assert x == q * TWO_32 + Low32(x);
    assert x + 1 == q * TWO_32 + (Low32(x) + 1);
  }

  /** A 32-bit pattern read as a signed two's complement `TInt` (C++'s conversion of an
      unsigned value that does not fit, and JavaScript's ToInt32). */
  function AsSigned(x: u32): (r: i32)
    ensures Low32(r) == x
    ensures r >= 0 <==> x < TWO_31
  {
    if x < TWO_31 then x else x - TWO_32
  }

  /** C/C++ integer division, which truncates toward zero (Dafny's `/` is Euclidean). */
  function TruncDiv(n: int, d: int): (q: int)
    requires d > 0
    ensures n >= 0 ==> 0 <= q * d <= n < q * d + d
    ensures n < 0 ==> q * d - d < n <= q * d <= 0
  {
    if n >= 0 then
      DivBounds(n, d);
      n / d
    else
      DivBounds(-n, d);
      var k := (-n) / d;
      assert (-k) * d == -(k * d);
      -k
  }

  lemma DivBounds(n: nat, d: int)
    requires d > 0
    ensures 0 <= (n / d) * d <= n < (n / d) * d + d
  {
    var k, r := n / d, n % d;
    assert n == k * d + r && 0 <= r < d;
    assert k >= 0;
    assert k * d >= 0;
  }

  /** The four bytes of `x`, most significant first. */
  function BigEndian(x: u32): (r: seq<u8>)
    ensures |r| == 4
    ensures r[0] * TWO_24 + r[1] * TWO_16 + r[2] * TWO_8 + r[3] == x
  {
    // x as four base-256 digits, most significant first.
    var b0, rest0 := x / TWO_24, x % TWO_24;
    var b1, rest1 := rest0 / TWO_16, rest0 % TWO_16;
    var b2, b3 := rest1 / TWO_8, rest1 % TWO_8;
    DivUnique16(x, b0 * TWO_8 + b1, rest1);
    DivUnique8(b0 * TWO_8 + b1, b0, b1);
    DivUnique8(x, b0 * TWO_16 + b1 * TWO_8 + b2, b3);
    DivUnique8(b0 * TWO_16 + b1 * TWO_8 + b2, b0 * TWO_8 + b1, b2);
    [x / TWO_24, (x / TWO_16) % TWO_8, (x / TWO_8) % TWO_8, x % TWO_8]
  }

  /** The value of four bytes read most significant first (`ReaderBinary::ReadUintBe(4)`). */
  function ReadUintBe(b: seq<u8>): (r: u32)
    requires |b| == 4
    ensures r / TWO_24 == b[0] && r % TWO_8 == b[3]
  {
    var v := b[0] * TWO_24 + b[1] * TWO_16 + b[2] * TWO_8 + b[3];
    DivUnique8(v, b[0] * TWO_16 + b[1] * TWO_8 + b[2], b[3]);
    DivUnique24(v, b[0], b[1] * TWO_16 + b[2] * TWO_8 + b[3]);
    v
  }

  lemma ReadUintBeOfBigEndian(x: u32)
    ensures ReadUintBe(BigEndian(x)) == x
  {
    var b := BigEndian(x);
    assert b[0] * TWO_24 + b[1] * TWO_16 + b[2] * TWO_8 + b[3] == x;
  }

  /** Division by 2^8 has one quotient and one remainder. */
  lemma DivUnique8(n: int, q: int, r: int)
    requires n == q * TWO_8 + r && 0 <= r < TWO_8
    ensures n / TWO_8 == q && n % TWO_8 == r
  {
  }

  /** Division by 2^24 has one quotient and one remainder. */
  lemma DivUnique24(n: int, q: int, r: int)
    requires n == q * TWO_24 + r && 0 <= r < TWO_24
    ensures n / TWO_24 == q && n % TWO_24 == r
  {
  }

  /** Division by 2^16 has one quotient and one remainder. */
  lemma DivUnique16(n: int, q: int, r: int)
    requires n == q * TWO_16 + r && 0 <= r < TWO_16
    ensures n / TWO_16 == q && n % TWO_16 == r
  {
  }

  lemma BigEndianOfReadUintBe(b: seq<u8>)
    requires |b| == 4
    ensures BigEndian(ReadUintBe(b)) == b
  {
    var x := ReadUintBe(b);
    DivUnique16(x, b[0] * TWO_8 + b[1], b[2] * TWO_8 + b[3]);
    DivUnique8(b[0] * TWO_8 + b[1], b[0], b[1]);
    DivUnique8(x, b[0] * TWO_16 + b[1] * TWO_8 + b[2], b[3]);
    DivUnique8(b[0] * TWO_16 + b[1] * TWO_8 + b[2], b[0] * TWO_8 + b[1], b[2]);
    var r := BigEndian(x);
    assert r[0] == b[0] && r[1] == b[1] && r[2] == b[2] && r[3] == b[3];
  }

  /** Big-endian encoding is injective: different values never share their four bytes. */
  lemma BigEndianInjective(x: u32, y: u32)
    requires BigEndian(x) == BigEndian(y)
    ensures x == y
  {
    ReadUintBeOfBigEndian(x);
    ReadUintBeOfBigEndian(y);
  }

  /** Only zero is encoded as four zero bytes. */
  lemma BigEndianZero(x: u32)
    ensures BigEndian(x) == [0, 0, 0, 0] <==> x == 0
  {
    if BigEndian(x) == [0, 0, 0, 0] {
      ReadUintBeOfBigEndian(x);
    }
  }
}
