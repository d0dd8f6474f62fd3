/** Machine words and byte strings: two's-complement wrap-around and the
    big-endian fields of the Kafka protocol. */
module Words {

  type byte = b: int | 0 <= b < 256
  type bytes = seq<byte>

  const TWO_16 := 0x1_0000
  const TWO_32 := 0x1_0000_0000
  const TWO_64 := 0x1_0000_0000_0000_0000

  type int16 = i: int | -0x8000 <= i < 0x8000
  type int32 = i: int | -0x8000_0000 <= i < 0x8000_0000
  type int64 = i: int | -0x8000_0000_0000_0000 <= i < 0x8000_0000_0000_0000
  type uint32 = u: int | 0 <= u < TWO_32

  const MAX_INT32: int := 0x7fff_ffff

  /** A reader takes a value off the front of the source or finds it bad. */
  datatype Parse<+T> = Bad | Parsed(value: T, rest: bytes)

  /** The conversions int16(x), int32(x) and int64(x): reduce modulo the word
      size into the signed range. */
  function Wrap16(x: int): (r: int16)
    ensures -0x8000 <= r < 0x8000
  {
    (x + 0x8000) % TWO_16 - 0x8000
  }

  function Wrap32(x: int): (r: int32)
    ensures -0x8000_0000 <= r < 0x8000_0000
  {
    (x + 0x8000_0000) % TWO_32 - 0x8000_0000
  }

  function Wrap64(x: int): (r: int64)
    ensures -0x8000_0000_0000_0000 <= r < 0x8000_0000_0000_0000
  {
    (x + 0x8000_0000_0000_0000) % TWO_64 - 0x8000_0000_0000_0000
  }

  lemma WrapId(x: int)
    ensures -0x8000 <= x < 0x8000 ==> Wrap16(x) == x
    ensures -0x8000_0000 <= x < 0x8000_0000 ==> Wrap32(x) == x
    ensures -0x8000_0000_0000_0000 <= x < 0x8000_0000_0000_0000 ==> Wrap64(x) == x
  {
  }

  /** The `width` low bytes of x, most significant first.  Division rounds down,
      so a negative x yields its two's-complement bytes. */
  function PutBE(x: int, width: nat): (r: bytes)
    ensures |r| == width
    decreases width
  {
    if width == 0 then [] else PutBE(x / 256, width - 1) + [x % 256]
  }

  /** The unsigned value of a big-endian byte string. */
  function GetBE(s: bytes): nat {
    if s == [] then 0 else GetBE(s[..|s| - 1]) * 256 + s[|s| - 1]
  }

  function Pow256(n: nat): (p: nat)
    ensures p > 0
  {
    if n == 0 then 1 else 256 * Pow256(n - 1)
  }

  /** Splitting off the low byte commutes with reduction modulo a power of 256. */
  lemma ModSplit(x: int, m: nat)
    requires m > 0
    ensures x % (256 * m) == (x / 256) % m * 256 + x % 256
  {
    var q, r := (x / 256) / m, (x / 256) % m;
    var y := r * 256 + x % 256;
    assert x / 256 == q * m + r;
    assert x == (x / 256) * 256 + x % 256;
    assert x == q * (256 * m) + y by {
      assert (q * m + r) * 256 == q * (256 * m) + r * 256;
    }
    assert 0 <= y < 256 * m by {
      assert r <= m - 1;
      assert r * 256 <= (m - 1) * 256;
    }
    ModUnique(x, 256 * m, q, y);
  }

  lemma ModUnique(x: int, m: nat, q: int, r: int)
    requires m > 0 && x == q * m + r && 0 <= r < m
    ensures x % m == r && x / m == q
  {
    var d := x / m - q;
    assert d * m == r - x % m;
    if d > 0 {
      AtLeastOne(d, m);
    } else if d < 0 {
      AtLeastOne(-d, m);
    }
  }

  lemma AtLeastOne(d: int, m: nat)
    requires d > 0
    ensures d * m >= m
  {
  }

  /** Reading back what was written gives x modulo the field size. */
  lemma {:induction false} GetPut(x: int, width: nat)
    ensures GetBE(PutBE(x, width)) == x % Pow256(width)
    decreases width
  {
    if width > 0 {
      GetPut(x / 256, width - 1);
      var s := PutBE(x, width);
      assert s[..|s| - 1] == PutBE(x / 256, width - 1);
      ModSplit(x, Pow256(width - 1));
    }
  }

  function GetInt16(s: bytes): (r: int16)
    ensures -0x8000 <= r < 0x8000
  {
    Wrap16(GetBE(s))
  }

  function GetInt32(s: bytes): (r: int32)
    ensures -0x8000_0000 <= r < 0x8000_0000
  {
    Wrap32(GetBE(s))
  }

  function GetInt64(s: bytes): (r: int64)
    ensures -0x8000_0000_0000_0000 <= r < 0x8000_0000_0000_0000
  {
    Wrap64(GetBE(s))
  }

  lemma FieldSizes()
    ensures Pow256(2) == TWO_16 && Pow256(4) == TWO_32 && Pow256(8) == TWO_64
  {
    assert Pow256(1) == 0x100;
    assert Pow256(3) == 0x100_0000;
    assert Pow256(5) == 0x100_0000_0000;
    assert Pow256(6) == 0x1_0000_0000_0000;
    assert Pow256(7) == 0x100_0000_0000_0000;
  }

  /** Fields are big-endian: byte k of a written number counts 256 to the power of
      the number of bytes behind it. */
  lemma {:induction false} BigEndian(x: int, width: nat, k: nat)
    requires k < width
    ensures PutBE(x, width)[k] == x / Pow256(width - 1 - k) % 256
    decreases width
  {
    if k < width - 1 {
      BigEndian(x / 256, width - 1, k);
      DivTwice(x, 256, Pow256(width - 2 - k));
    }
  }

  lemma DivTwice(x: int, a: nat, b: nat)
    requires a > 0 && b > 0
    ensures a * b > 0 && x / a / b == x / (a * b)
  {
    var q, r, s := x / a / b, x / a % b, x % a;
    assert x / a == q * b + r;
    assert x == (q * b + r) * a + s;
    assert (q * b + r) * a == q * (a * b) + r * a;
    assert 0 <= r * a <= (b - 1) * a;
    assert (b - 1) * a == a * b - a;
    ModUnique(x, a * b, q, r * a + s);
  }

  lemma FourBytes(s: bytes)
    requires |s| == 4
    ensures GetBE(s) == ((s[0] as int * 256 + s[1] as int) * 256 + s[2] as int) * 256 + s[3] as int
  {
    var t := s[..3];
    assert t[..2][..1][..0] == [] && t[..2][..1][0] == s[0] && t[..2][1] == s[1] && t[2] == s[2];
    assert GetBE(t[..2][..1]) == s[0];
    assert GetBE(t[..2]) == s[0] as int * 256 + s[1] as int;
  }

  /** Every signed field survives a write and a read, and so does an unsigned
      32-bit one. */
  lemma Int16RoundTrip(x: int16)
    ensures GetInt16(PutBE(x, 2)) == x
  {
    FieldSizes();
    GetPut(x, 2);
    ModUnique(x + 0x8000, TWO_16, 0, x + 0x8000);
    AddMod(x, 0x8000, TWO_16);
  }

  lemma Int32RoundTrip(x: int32)
    ensures GetInt32(PutBE(x, 4)) == x
  {
    FieldSizes();
    GetPut(x, 4);
    AddMod(x, 0x8000_0000, TWO_32);
  }

  lemma Int64RoundTrip(x: int64)
    ensures GetInt64(PutBE(x, 8)) == x
  {
    FieldSizes();
    GetPut(x, 8);
    AddMod(x, 0x8000_0000_0000_0000, TWO_64);
  }

  lemma UnsignedRoundTrip(u: uint32)
    ensures GetBE(PutBE(u, 4)) == u
  {
    FieldSizes();
    GetPut(u, 4);
  }

  lemma SmallMod(x: nat, m: nat)
    requires x < m
    ensures x % m == x
  {
  }

  lemma AddMod(a: int, b: int, m: nat)
    requires m > 0
    ensures (a % m + b) % m == (a + b) % m
  {
    var q, r := (a % m + b) / m, (a % m + b) % m;
    assert a == (a / m) * m + a % m;
    assert a + b == (a / m + q) * m + r by {
      assert (a / m + q) * m == (a / m) * m + q * m;
    }
    ModUnique(a + b, m, a / m + q, r);
  }

  lemma {:induction false} GetBound(s: bytes)
    ensures GetBE(s) < Pow256(|s|)
  {
    if s != [] {
      GetBound(s[..|s| - 1]);
    }
  }
}
