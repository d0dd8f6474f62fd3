/** Base-128 varints on 32- and 64-bit words: the server's readVarint and
    appendVarint, and the arithmetic the wire library shares with them. */
module Varint {
  import opened Words

  /** Seven bits a byte, least significant group first; every byte but the last
      has its top bit set. */
  function Base128(u: nat): (r: bytes)
    ensures |r| >= 1
  {
    if u < 128 then [u] else [u % 128 + 128] + Base128(u / 128)
  }

  /** The sign-folding map 0, -1, 1, -2, ... to 0, 1, 2, 3, ... */
  function ZigZag(i: int): nat {
    if i >= 0 then 2 * i else -2 * i - 1
  }

  function UnZigZag(u: nat): int {
    if u % 2 == 0 then u / 2 else -(u / 2) - 1
  }

  function EncodeVarint(i: int): bytes {
    Base128(ZigZag(i))
  }

  /** What a reader of at most `max` groups meets: the source ends first, all
      `max` groups ask for another one, or a value of `n` bytes. */
  datatype GroupScan = Short | TooLong | Got(value: nat, n: nat)

  function ReadGroups(src: bytes, max: nat): (g: GroupScan)
    ensures g.Got? ==> 1 <= g.n <= |src| && g.n <= max
    decreases max
  {
    if max == 0 then TooLong
    else if src == [] then Short
    else if src[0] < 128 then Got(src[0], 1)
    else
      match ReadGroups(src[1..], max - 1)
      case Got(v, n) => Got(src[0] - 128 + 128 * v, n + 1)
      case other => other
  }

  function Pow128(n: nat): (p: nat)
    ensures p > 0
  {
    if n == 0 then 1 else 128 * Pow128(n - 1)
  }

  /** A value of at most `max` groups is read back with its exact length,
      whatever follows it. */
  lemma {:induction false} GroupsRoundTrip(u: nat, suffix: bytes, max: nat)
    requires max > 0 && u < Pow128(max)
    ensures |Base128(u)| <= max
    ensures ReadGroups(Base128(u) + suffix, max) == Got(u, |Base128(u)|)
  {
    if u >= 128 {
      var tail := Base128(u / 128);
      assert u / 128 < Pow128(max - 1);
      GroupsRoundTrip(u / 128, suffix, max - 1);
      assert (([u % 128 + 128] + tail) + suffix)[1..] == tail + suffix;
    }
  }

  /** Only the consumed bytes matter: what follows them does not change a
      successful read. */
  lemma {:induction false} GroupsPrefix(src: bytes, suffix: bytes, max: nat)
    requires ReadGroups(src, max).Got?
    ensures ReadGroups(src + suffix, max) == ReadGroups(src, max)
  {
    if src[0] >= 128 {
      GroupsPrefix(src[1..], suffix, max - 1);
      assert (src + suffix)[1..] == src[1..] + suffix;
    }
  }

  lemma ZigZagRoundTrip(i: int)
    ensures UnZigZag(ZigZag(i)) == i
  {
    if i < 0 {
      assert ZigZag(i) == 2 * (-i - 1) + 1;
    }
  }

  /** Powers of 128 around the two word sizes. */
  lemma WordGroups()
    ensures TWO_32 <= Pow128(5) && TWO_64 <= Pow128(10)
  {
    assert Pow128(1) == 128;
    assert Pow128(2) == 16384;
    assert Pow128(3) == 0x20_0000;
    assert Pow128(4) == 0x1000_0000;
    assert Pow128(5) == 0x8_0000_0000;
    assert Pow128(6) == 0x400_0000_0000;
    assert Pow128(7) == 0x2_0000_0000_0000;
    assert Pow128(8) == 0x100_0000_0000_0000;
    assert Pow128(9) == 0x8000_0000_0000_0000;
    assert Pow128(10) == 0x40_0000_0000_0000_0000;
  }

  /** The value and length readVarint reports: length 0 when the source ends
      inside the varint and -1 when a fifth byte still asks for more.  A fifth
      byte's surplus bits fall off the 32-bit word. */
  function DecodeVarint(src: bytes): (r: (int32, int))
    ensures -1 <= r.1 <= 5 && r.1 <= |src|
    ensures r.1 <= 0 ==> r.0 == 0
  {
    match ReadGroups(src, 5)
    case Short => (0, 0)
    case TooLong => (0, -1)
    case Got(v, n) => (UnZigZag(v % TWO_32), n)
  }

  /** readVarint undoes appendVarint on every int32, whatever follows, and
      reports 1 to 5 bytes: exactly those that were written. */
  lemma VarintRoundTrip(i: int32, suffix: bytes)
    ensures DecodeVarint(EncodeVarint(i) + suffix) == (i, |EncodeVarint(i)|)
    ensures 1 <= |EncodeVarint(i)| <= 5
  {
    WordGroups();
    GroupsRoundTrip(ZigZag(i), suffix, 5);
    ZigZagRoundTrip(i);
    SmallMod(ZigZag(i), TWO_32);
  }

  /** Two different int32 values never share an encoding, nor is one encoding a
      prefix of another. */
  lemma VarintPrefixFree(i: int32, j: int32, s: bytes, t: bytes)
    requires EncodeVarint(i) + s == EncodeVarint(j) + t
    ensures i == j && s == t
  {
    VarintRoundTrip(i, s);
    VarintRoundTrip(j, t);
    var whole := EncodeVarint(i) + s;
    assert s == whole[|EncodeVarint(i)|..];
    assert t == whole[|EncodeVarint(j)|..];
  }

  /** Where the reader stands after the first `k` groups, all of which ask for
      more: `low` is the value they carry. */
  function Resume(low: nat, k: nat, rest: GroupScan): GroupScan {
    match rest
    case Got(v, n) => Got(low + Pow128(k) * v, k + n)
    case other => other
  }

  /** or-ing group k of the byte b into the word u: 128^k is 1 << 7k. */
  function PushGroup(u: uint32, k: nat, b: byte): uint32 {
    (u + Pow128(k) * (b % 128)) % TWO_32
  }

  /** The same on unbounded numbers. */
  ghost function Grown(low: nat, k: nat, b: byte): nat {
    low + Pow128(k) * (b % 128)
  }

  /** The loop has read k groups worth `low`; `u` is what fits the word. */
  ghost predicate Scanning(src: bytes, k: nat, low: nat, u: uint32)
    requires k <= 5 && k <= |src|
  {
    && low < Pow128(k)
    && u == low % TWO_32
    && ReadGroups(src, 5) == Resume(low, k, ReadGroups(src[k..], 5 - k))
  }

  lemma ScanStep(src: bytes, k: nat, low: nat, u: uint32)
    requires k < 5 && k < |src| && Scanning(src, k, low, u)
    ensures src[k] >= 128 ==> Scanning(src, k + 1, Grown(low, k, src[k]), PushGroup(u, k, src[k]))
    ensures src[k] < 128 ==> DecodeVarint(src) == (UnZigZag(PushGroup(u, k, src[k])), k + 1)
  {
    hide Grown, PushGroup, Pow128;
    var b := src[k];
    Accumulate(low, k, b);
    assert src[k..][1..] == src[k + 1..];
    if b >= 128 {
      StepResume(low, k, b, ReadGroups(src[k + 1..], 4 - k));
    } else {
      ScanEnd(src, k, low, u);
    }
  }

  lemma ScanStart(src: bytes)
    ensures Scanning(src, 0, 0, 0)
  {
    assert src[0..] == src;
  }

  /** The scan ends here, or the source does. */
  lemma ScanEnd(src: bytes, k: nat, low: nat, u: uint32)
    requires k < 5 && k < |src| && Scanning(src, k, low, u) && src[k] < 128
    ensures ReadGroups(src, 5) == Got(Grown(low, k, src[k]), k + 1)
    ensures PushGroup(u, k, src[k]) == Grown(low, k, src[k]) % TWO_32
  {
    hide Grown, PushGroup, Pow128;
    Accumulate(low, k, src[k]);
    assert ReadGroups(src[k..], 5 - k) == Got(src[k], 1);
    ResumeOne(low, k, src[k]);
  }

  lemma ScanShort(src: bytes, k: nat, low: nat, u: uint32)
    requires k < 5 && k == |src| && Scanning(src, k, low, u)
    ensures ReadGroups(src, 5) == Short
  {
  }

  lemma ScanTooLong(src: bytes, low: nat, u: uint32)
    requires 5 <= |src| && Scanning(src, 5, low, u)
    ensures ReadGroups(src, 5) == TooLong
  {
  }

  lemma ResumeOne(low: nat, k: nat, b: byte)
    requires b < 128
    ensures Resume(low, k, Got(b, 1)) == Got(Grown(low, k, b), k + 1)
  {
  }

  method ReadVarint(src: bytes) returns (value: int32, n: int)
    ensures (value, n) == DecodeVarint(src)
  {
    hide PushGroup, Grown, Scanning;
    var u: uint32 := 0;
    var shift := 0;
    ghost var low, k := 0, 0;
    ScanStart(src);
    while shift <= 28
      invariant shift == 7 * k && 0 <= k <= 5 && k <= |src|
      invariant Scanning(src, k, low, u)
      decreases 35 - shift
    {
      if shift / 7 >= |src| {
        ScanShort(src, k, low, u);
        return 0, 0;
      }
      var b := src[shift / 7];
      ScanStep(src, k, low, u);
      u := PushGroup(u, shift / 7, b);
      if b < 128 {
        return UnZigZag(u), shift / 7 + 1;
      }
      low, k := Grown(low, k, b), k + 1;
      shift := shift + 7;
    }
    ScanTooLong(src, low, u);
    return 0, -1;
  }

  lemma Accumulate(low: nat, k: nat, b: byte)
    requires low < Pow128(k)
    ensures Grown(low, k, b) < Pow128(k + 1)
    ensures PushGroup(low % TWO_32, k, b) == Grown(low, k, b) % TWO_32
  {
    var p, g := Pow128(k), b % 128;
    assert p * g <= p * 127 by {
      MulMono(p, g, 127);
    }
    AddMod(low, p * g, TWO_32);
  }

  lemma MulMono(p: nat, x: int, y: int)
    requires x <= y
    ensures p * x <= p * y
  {
  }

  lemma StepResume(low: nat, k: nat, b: byte, rest: GroupScan)
    requires b >= 128
    ensures Resume(low, k, match rest case Got(v, n) => Got(b - 128 + 128 * v, n + 1) case other => other)
         == Resume(Grown(low, k, b), k + 1, rest)
  {
    match rest
    case Got(v, n) =>
      assert b % 128 == b - 128;
      assert Pow128(k) * (b - 128 + 128 * v) == Pow128(k) * (b - 128) + Pow128(k + 1) * v by {
        assert Pow128(k) * (128 * v) == (128 * Pow128(k)) * v;
      }
    case other =>
  }

  method AppendVarint(dst: bytes, i: int32) returns (out: bytes)
    ensures out == dst + EncodeVarint(i)
  {
    var u := ZigZag(i);
    out := dst;
    while u >= 128
      invariant out + Base128(u) == dst + EncodeVarint(i)
    {
      assert out + Base128(u) == (out + [u % 128 + 128]) + Base128(u / 128);
      out := out + [u % 128 + 128];
      u := u / 128;
    }
    out := out + [u];
  }
}
