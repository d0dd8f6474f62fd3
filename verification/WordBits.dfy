/** The shifts, ors and exclusive-ors of the varint code on 32-bit words, and the
    numbers they stand for. */
module WordBits {
  import opened Words
  import opened Varint
  import opened RecordBatches

  function Half(u: bv32): bv32 { u >> 1 }
  function Twice(u: bv32): bv32 { u << 1 }
  function Or(x: bv32, y: bv32): bv32 { x | y }
  predicate Apart(x: bv32, y: bv32) { x & y == 0 }

  /** The lowest bit, as a number. */
  function Low(u: bv32): nat {
    if u & 1 == 1 then 1 else 0
  }

  /** The number a word stands for, bit by bit. */
  function Num(u: bv32): nat
    decreases u
  {
    if u == 0 then 0 else
      HalfSmaller(u);
      2 * Num(Half(u)) + Low(u)
  }

  /** The same word read as an int32. */
  function Signed(u: bv32): int {
    if u < 0x8000_0000 then Num(u) else Num(u) - TWO_32
  }

  lemma HalfSmaller(u: bv32)
    ensures u != 0 ==> Half(u) < u
    ensures u == 0 ==> Half(u) == 0 && Low(u) == 0
  {
  }

  lemma NumHalf(u: bv32)
    ensures Num(u) == 2 * Num(Half(u)) + Low(u)
  {
    hide Half, Low;
    HalfSmaller(u);
  }

  lemma NumZero()
    ensures Num(0) == 0
  {
  }

  lemma HalfOr(x: bv32, y: bv32)
    ensures Half(Or(x, y)) == Or(Half(x), Half(y))
  {
  }

  lemma HalfApart(x: bv32, y: bv32)
    requires Apart(x, y)
    ensures Apart(Half(x), Half(y))
  {
  }

  lemma OrZero(x: bv32, y: bv32)
    ensures Or(x, y) == 0 ==> x == 0 && y == 0
  {
  }

  lemma LowOr(x: bv32, y: bv32)
    requires Apart(x, y)
    ensures Low(Or(x, y)) == Low(x) + Low(y)
  {
  }

  /** Words without a bit in common are or-ed by adding. */
  lemma {:induction false} NumOr(x: bv32, y: bv32)
    requires Apart(x, y)
    ensures Num(Or(x, y)) == Num(x) + Num(y)
    decreases Or(x, y)
  {
    hide *;
    HalfOr(x, y);
    HalfApart(x, y);
    HalfSmaller(Or(x, y));
    OrZero(x, y);
    if Or(x, y) == 0 {
      NumZero();
    } else {
      NumOr(Half(x), Half(y));
      NumHalf(x);
      NumHalf(y);
      NumHalf(Or(x, y));
      LowOr(x, y);
    }
  }

  lemma HalfTwice(u: bv32)
    requires u < 0x8000_0000
    ensures Half(Twice(u)) == u && Low(Twice(u)) == 0
  {
  }

  /** Shifting left doubles while the top bit is clear. */
  lemma NumTwice(u: bv32)
    requires u < 0x8000_0000
    ensures Num(Twice(u)) == 2 * Num(u)
  {
    hide *;
    HalfTwice(u);
    NumHalf(Twice(u));
  }

  // ----- groups of seven bits

  function Up7(u: bv32): bv32 { u << 7 }
  function Down7(u: bv32): bv32 { u >> 7 }
  function Low7(u: bv32): bv32 { u & 0x7f }

  lemma SevenTwices(u: bv32)
    requires u < 0x200_0000
    ensures Up7(u) == Twice(Twice(Twice(Twice(Twice(Twice(Twice(u)))))))
    ensures Twice(u) < 0x400_0000 && Twice(Twice(u)) < 0x800_0000 && Twice(Twice(Twice(u))) < 0x1000_0000
    ensures Twice(Twice(Twice(Twice(u)))) < 0x2000_0000 && Twice(Twice(Twice(Twice(Twice(u))))) < 0x4000_0000
    ensures Twice(Twice(Twice(Twice(Twice(Twice(u)))))) < 0x8000_0000
  {
  }

  lemma NumUp7(u: bv32)
    requires u < 0x200_0000
    ensures Num(Up7(u)) == 128 * Num(u)
  {
    hide *;
    SevenTwices(u);
    NumTwice(u);
    NumTwice(Twice(u));
    NumTwice(Twice(Twice(u)));
    NumTwice(Twice(Twice(Twice(u))));
    NumTwice(Twice(Twice(Twice(Twice(u)))));
    NumTwice(Twice(Twice(Twice(Twice(Twice(u))))));
    NumTwice(Twice(Twice(Twice(Twice(Twice(Twice(u)))))));
  }

  lemma Sevens()
    ensures Num(0x7f) == 0x7f
  {
    hide Num;
    NumZero();
    NumHalf(0x7f);
    NumHalf(0x3f);
    NumHalf(0x1f);
    NumHalf(0xf);
    NumHalf(0x7);
    NumHalf(0x3);
    NumHalf(0x1);
  }

  /** The top bit, and all bits. */
  lemma Landmarks()
    ensures Num(0x8000_0000) == 0x8000_0000 && Num(0xffff_ffff) == 0xffff_ffff
  {
    hide Num;
    Sevens();
    NumUp7(0x7f);
    NumOr(0x3f80, 0x7f);
    NumUp7(0x3fff);
    NumOr(0x1f_ff80, 0x7f);
    NumUp7(0x1f_ffff);
    NumOr(0xfff_ff80, 0x7f);
    NumHalf(0x1fff_ffff);
    NumHalf(0x3fff_ffff);
    NumHalf(0x7fff_ffff);
    NumHalf(0xffff_ffff);
    NumOr(0x8000_0000, 0x7fff_ffff);
  }

  // ----- folding the sign

  function Not(u: bv32): bv32 { 0xffff_ffff ^ u }
  function WithoutTop(u: bv32): bv32 { u & 0x7fff_ffff }

  lemma NotParts(u: bv32)
    ensures Apart(u, Not(u)) && Or(u, Not(u)) == 0xffff_ffff
  {
  }

  lemma NumNot(u: bv32)
    ensures Num(Not(u)) == TWO_32 - 1 - Num(u)
  {
    hide Num, Not, Or, Apart;
    NotParts(u);
    NumOr(u, Not(u));
    Landmarks();
  }

  lemma TopParts(u: bv32)
    ensures WithoutTop(u) < 0x8000_0000
    ensures Twice(u) == Twice(WithoutTop(u))
  {
    TwiceDropsTop(u);
  }

  lemma TwiceDropsTop(u: bv32)
    ensures Twice(u) == Twice(WithoutTop(u))
  {
  }

  lemma TopSet(u: bv32)
    requires u >= 0x8000_0000
    ensures Or(WithoutTop(u), 0x8000_0000) == u
    ensures Apart(WithoutTop(u), 0x8000_0000)
  {
  }

  /** The bits of an int32 shifted left once, all of them flipped for a negative
      one: what the source gets from an arithmetic shift of the sign. */
  function Fold(i: bv32): bv32 {
    (i << 1) ^ (if i >= 0x8000_0000 then 0xffff_ffff else 0)
  }

  /** Shifted right once, all bits flipped when the lowest bit was set. */
  function Unfold(u: bv32): bv32 {
    (u >> 1) ^ (0 - (u & 1))
  }

  lemma FoldPositive(i: bv32)
    requires i < 0x8000_0000
    ensures Fold(i) == Twice(i)
  {
  }

  lemma FoldNegative(i: bv32)
    requires i >= 0x8000_0000
    ensures Fold(i) == Not(Twice(i))
  {
  }

  lemma UnfoldEven(u: bv32)
    requires Low(u) == 0
    ensures Unfold(u) == Half(u) && Half(u) < 0x8000_0000
  {
  }

  lemma UnfoldOdd(u: bv32)
    requires Low(u) == 1
    ensures Unfold(u) == Not(Half(u)) && Not(Half(u)) >= 0x8000_0000
  {
  }

  /** Folding the bits of an int32 folds its value. */
  lemma FoldIsZigZag(i: bv32)
    ensures Num(Fold(i)) == ZigZag(Signed(i))
  {
    if i < 0x8000_0000 {
      hide Fold, Num, Twice;
      FoldPositive(i);
      NumTwice(i);
    } else {
      hide Fold, Num, Twice, WithoutTop, Not, Or, Apart;
      FoldNegative(i);
      TopParts(i);
      NumTwice(WithoutTop(i));
      NumNot(Twice(i));
      TopSet(i);
      NumOr(WithoutTop(i), 0x8000_0000);
      Landmarks();
      assert Num(Fold(i)) == ZigZag(Num(i) - TWO_32);
    }
  }

  lemma LowIsBit(u: bv32)
    ensures Low(u) == 0 || Low(u) == 1
  {
  }

  /** Unfolding the bits of a word unfolds its value. */
  lemma UnfoldIsUnZigZag(u: bv32)
    ensures Signed(Unfold(u)) == UnZigZag(Num(u))
  {
    hide Unfold, Num, Half, Not, Low, Signed;
    LowIsBit(u);
    NumHalf(u);
    if Low(u) == 0 {
      UnfoldEven(u);
      SignedSmall(Half(u));
    } else {
      UnfoldOdd(u);
      NumNot(Half(u));
      SignedLarge(Not(Half(u)));
    }
  }

  lemma SignedSmall(u: bv32)
    requires u < 0x8000_0000
    ensures Signed(u) == Num(u)
  {
    hide Num;
  }

  lemma SignedLarge(u: bv32)
    requires u >= 0x8000_0000
    ensures Signed(u) == Num(u) - TWO_32
  {
    hide Num;
  }

  /** On words themselves the one undoes the other. */
  lemma UnfoldUndoesFold(i: bv32)
    ensures Unfold(Fold(i)) == i
  {
    hide Unfold, Fold, Half, Twice, Not, Low;
    if i < 0x8000_0000 {
      FoldPositive(i);
      HalfTwice(i);
      UnfoldEven(Twice(i));
    } else {
      FoldNegative(i);
      NegativeBack(i);
      UnfoldOdd(Not(Twice(i)));
    }
  }

  lemma NegativeBack(i: bv32)
    requires i >= 0x8000_0000
    ensures Low(Not(Twice(i))) == 1 && Not(Half(Not(Twice(i)))) == i
  {
  }

  // ----- the loops

  lemma SevenParts(u: bv32)
    ensures Apart(Low7(u), Up7(Down7(u))) && Or(Low7(u), Up7(Down7(u))) == u
    ensures Down7(u) < 0x200_0000
    ensures Apart(Low7(u), 0x7f ^ Low7(u)) && Or(Low7(u), 0x7f ^ Low7(u)) == 0x7f
    ensures u < 0x80 <==> Down7(u) == 0
  {
  }

  lemma NumPositive(u: bv32)
    ensures u != 0 ==> Num(u) > 0
    decreases u
  {
    hide *;
    HalfSmaller(u);
    NumHalf(u);
    if u != 0 && Half(u) != 0 {
      NumPositive(Half(u));
    } else if u != 0 {
      LastBit(u);
    }
  }

  lemma LastBit(u: bv32)
    ensures u != 0 && Half(u) == 0 ==> Low(u) == 1
  {
  }

  /** One step of the writing loop: the low group and what is left of the word
      are the remainder and the quotient of its value by 128, and the loop goes on
      exactly while the value is 128 or more. */
  lemma WriteStep(u: bv32)
    ensures Num(Low7(u)) == Num(u) % 128 && Num(Down7(u)) == Num(u) / 128
    ensures u >= 0x80 <==> Num(u) >= 128
  {
    hide *;
    SevenParts(u);
    NumOr(Low7(u), Up7(Down7(u)));
    NumUp7(Down7(u));
    NumOr(Low7(u), 0x7f ^ Low7(u));
    Sevens();
    NumPositive(Down7(u));
    NumZero();
  }

  /** b << 7k */
  function GroupAt(b: bv32, k: nat): bv32
    requires k < 5
  {
    match k
    case 0 => b
    case 1 => b << 7
    case 2 => b << 14
    case 3 => b << 21
    case 4 => b << 28
  }

  /** The word has no bit beyond its first k groups. */
  predicate WithinGroups(u: bv32, k: nat) {
    match k
    case 0 => u == 0
    case 1 => u < 0x80
    case 2 => u < 0x4000
    case 3 => u < 0x20_0000
    case 4 => u < 0x1000_0000
    case _ => true
  }

  lemma GroupApart(u: bv32, b: bv32, k: nat)
    requires k < 5 && b < 128 && WithinGroups(u, k)
    ensures Apart(u, GroupAt(b, k))
    ensures WithinGroups(Or(u, GroupAt(b, k)), k + 1)
  {
  }

  lemma GroupShifts(b: bv32)
    requires b < 128
    ensures GroupAt(b, 1) == Up7(b) && GroupAt(b, 2) == Up7(Up7(b)) && GroupAt(b, 3) == Up7(Up7(Up7(b)))
    ensures Up7(b) < 0x200_0000 && Up7(Up7(b)) < 0x200_0000
  {
  }

  function Low4(b: bv32): bv32 { b & 0xf }
  function High4(b: bv32): bv32 { b >> 4 }

  /** The fifth group: its upper three bits leave the word. */
  lemma LastGroupParts(b: bv32)
    requires b < 128
    ensures GroupAt(b, 4) == Up7(Up7(Up7(Up7(Low4(b)))))
    ensures Low4(b) < 0x200_0000 && Up7(Low4(b)) < 0x200_0000
    ensures Up7(Up7(Low4(b))) < 0x200_0000 && Up7(Up7(Up7(Low4(b)))) < 0x200_0000
    ensures b == Or(Low4(b), Twice(Twice(Twice(Twice(High4(b)))))) && High4(b) < 8
    ensures Apart(Low4(b), Twice(Twice(Twice(Twice(High4(b))))))
  {
  }

  lemma FourTwices(u: bv32)
    requires u < 0x1000_0000
    ensures Num(Twice(Twice(Twice(Twice(u))))) == 16 * Num(u)
  {
    hide Num;
    assert Twice(u) < 0x2000_0000 && Twice(Twice(u)) < 0x4000_0000 && Twice(Twice(Twice(u))) < 0x8000_0000;
    hide Twice;
    NumTwice(u);
    NumTwice(Twice(u));
    NumTwice(Twice(Twice(u)));
    NumTwice(Twice(Twice(Twice(u))));
  }

  lemma NumLastGroup(b: bv32) returns (q: nat)
    requires b < 128
    ensures 0x1000_0000 * Num(b) == Num(GroupAt(b, 4)) + q * TWO_32
  {
    hide Num, GroupAt, Up7, Low4, High4, Twice, Or, Apart;
    LastGroupParts(b);
    NumUp7(Low4(b));
    NumUp7(Up7(Low4(b)));
    NumUp7(Up7(Up7(Low4(b))));
    NumUp7(Up7(Up7(Up7(Low4(b)))));
    FourTwices(High4(b));
    NumOr(Low4(b), Twice(Twice(Twice(Twice(High4(b))))));
    q := Num(High4(b));
  }

  /** A group is worth its number times 128^k, but for what leaves the word. */
  lemma GroupWorth(b: bv32, k: nat) returns (q: nat)
    requires k < 5 && b < 128
    ensures Pow128(k) * Num(b) == Num(GroupAt(b, k)) + q * TWO_32
  {
    hide Num, GroupAt, Up7;
    Powers128();
    if k < 4 {
      GroupShifts(b);
      NumUp7(b);
      NumUp7(Up7(b));
      NumUp7(Up7(Up7(b)));
      GroupZero(b);
      q := 0;
    } else {
      q := NumLastGroup(b);
    }
  }

  lemma GroupZero(b: bv32)
    ensures GroupAt(b, 0) == b
  {
  }

  lemma Powers128()
    ensures Pow128(0) == 1 && Pow128(1) == 128 && Pow128(2) == 0x4000 && Pow128(3) == 0x20_0000 && Pow128(4) == 0x1000_0000
  {
    assert Pow128(2) == 128 * Pow128(1) && Pow128(3) == 128 * Pow128(2);
  }

  lemma NumFits(u: bv32)
    ensures Num(u) < TWO_32
    ensures u < 128 ==> Num(u) < 128
  {
    hide Num;
    NumNot(u);
    WriteStep(u);
  }

  /** One step of the reading loop: or-ing the next group in is pushing its value,
      and the word stays within its groups. */
  lemma ReadStep(u: bv32, b: bv32, k: nat)
    requires k < 5 && b < 128 && WithinGroups(u, k)
    ensures Num(u) < TWO_32 && Num(b) < 128
    ensures Num(Or(u, GroupAt(b, k))) == PushGroup(Num(u), k, Num(b))
    ensures WithinGroups(Or(u, GroupAt(b, k)), k + 1)
  {
    hide Num, GroupAt, Or, Apart, WithinGroups, Pow128;
    NumFits(u);
    NumFits(b);
    GroupApart(u, b, k);
    NumOr(u, GroupAt(b, k));
    NumFits(Or(u, GroupAt(b, k)));
    var q := GroupWorth(b, k);
    PushedGroup(Num(u), k, Num(b), Num(GroupAt(b, k)), q);
  }

  lemma PushedGroup(u: uint32, k: nat, b: byte, g: nat, q: nat)
    requires b < 128 && Pow128(k) * b == g + q * TWO_32 && u + g < TWO_32
    ensures PushGroup(u, k, b) == u + g
  {
    hide Pow128;
    ModUnique(u + Pow128(k) * b, TWO_32, q, u + g);
  }

  // ----- the functions, bit by bit

  /** The numbers of a string of bytes, each held in a word. */
  function Nums(src: seq<bv32>): (r: bytes)
    requires forall i :: 0 <= i < |src| ==> src[i] < 0x100
    ensures |r| == |src|
  {
    seq(|src|, i requires 0 <= i < |src| => ByteNum(src[i]))
  }

  function ByteNum(b: bv32): byte
    requires b < 0x100
  {
    ByteFits(b);
    Num(b)
  }

  lemma ByteFits(b: bv32)
    requires b < 0x100
    ensures Num(b) < 256 && (b < 0x80 <==> Num(b) < 128)
  {
    hide Num, Down7, Low7;
    WriteStep(b);
    DownOfByte(b);
    Sevens();
    NumHalf(1);
    NumZero();
  }

  lemma DownOfByte(b: bv32)
    requires b < 0x100
    ensures Down7(b) == 0 || Down7(b) == 1
    ensures Half(1) == 0 && Low(1) == 1
  {
  }

  /** readVarint with its words: what it returns from group k on, having read u. */
  function ReadBits(src: seq<bv32>, k: nat, u: bv32): (bv32, int)
    decreases 5 - k
  {
    if k >= 5 then (0, -1)
    else if k >= |src| then (0, 0)
    else
      var u' := Or(u, GroupAt(Low7(src[k]), k));
      if src[k] & 0x80 == 0 then (Unfold(u'), k + 1) else ReadBits(src, k + 1, u')
  }

  lemma TopOfByte(b: bv32)
    requires b < 0x100
    ensures b & 0x80 == 0 <==> b < 0x80
    ensures Low7(b) < 128
  {
  }

  lemma {:induction false} ReadBitsFrom(src: seq<bv32>, k: nat, low: nat, u: bv32)
    requires forall i :: 0 <= i < |src| ==> src[i] < 0x100
    requires k <= 5 && k <= |src| && WithinGroups(u, k) && Num(u) < TWO_32
    requires Scanning(Nums(src), k, low, Num(u))
    ensures var (v, n) := ReadBits(src, k, u); DecodeVarint(Nums(src)) == (Signed(v), n)
    decreases 5 - k
  {
    hide Num, Or, GroupAt, Low7, Unfold, WithinGroups, PushGroup, Scanning, Grown;
    if k == 5 {
      ScanTooLong(Nums(src), low, Num(u));
      SignedZero();
    } else if k == |src| {
      ScanShort(Nums(src), k, low, Num(u));
      SignedZero();
    } else {
      var b := src[k];
      var u' := Or(u, GroupAt(Low7(b), k));
      ByteFits(b);
      TopOfByte(b);
      ReadStep(u, Low7(b), k);
      WriteStep(b);
      PushLow(Num(u), k, Num(b));
      NumFits(u');
      ScanStep(Nums(src), k, low, Num(u));
      if b < 0x80 {
        UnfoldIsUnZigZag(u');
      } else {
        ReadBitsFrom(src, k + 1, Grown(low, k, Num(b)), u');
      }
    }
  }

  lemma PushLow(u: uint32, k: nat, b: byte)
    ensures PushGroup(u, k, b) == PushGroup(u, k, b % 128)
  {
  }

  lemma SignedZero()
    ensures Signed(0) == 0
  {
  }

  /** On every byte string the word operations of readVarint compute the value
      and length of the specification. */
  lemma ReadBitsDecodes(src: seq<bv32>)
    requires forall i :: 0 <= i < |src| ==> src[i] < 0x100
    ensures var (v, n) := ReadBits(src, 0, 0); DecodeVarint(Nums(src)) == (Signed(v), n)
  {
    hide Num, Scanning, ReadBits;
    NumZero();
    ScanStart(Nums(src));
    ReadBitsFrom(src, 0, 0, 0);
  }

  /** appendVarint with its words, on the folded value. */
  function WriteBits(u: bv32): (r: seq<bv32>)
    decreases u
  {
    if u < 0x80 then [u] else
      DownSmaller(u);
      [Or(Low7(u), 0x80)] + WriteBits(Down7(u))
  }

  lemma DownSmaller(u: bv32)
    requires u >= 0x80
    ensures Down7(u) < u
  {
  }

  lemma MarkedGroup(u: bv32)
    ensures Apart(Low7(u), 0x80) && Or(Low7(u), 0x80) < 0x100
  {
  }

  /** And those of appendVarint write the groups of the folded value. */
  lemma {:induction false} WriteBitsEncodes(u: bv32)
    ensures forall i :: 0 <= i < |WriteBits(u)| ==> WriteBits(u)[i] < 0x100
    ensures Nums(WriteBits(u)) == Base128(Num(u))
    decreases u
  {
    hide Num, Low7, Down7, Or, Apart;
    WriteStep(u);
    if u >= 0x80 {
      DownSmaller(u);
      WriteBitsEncodes(Down7(u));
      MarkedGroup(u);
      NumOr(Low7(u), 0x80);
      NumEighty();
      assert Nums(WriteBits(u)) == [ByteNum(Or(Low7(u), 0x80))] + Nums(WriteBits(Down7(u)));
    }
  }

  lemma NumEighty()
    ensures Num(0x80) == 128
  {
    hide Num;
    Sevens();
    NumUp7(1);
    NumHalf(1);
    NumZero();
  }

  /** So the word operations of the two functions undo each other on every int32. */
  lemma BitsRoundTrip(i: bv32, suffix: seq<bv32>)
    requires forall k :: 0 <= k < |suffix| ==> suffix[k] < 0x100
    ensures var wire := WriteBits(Fold(i));
      && (forall k :: 0 <= k < |wire| ==> wire[k] < 0x100)
      && Nums(wire) == EncodeVarint(Signed(i))
      && var (v, n) := ReadBits(wire + suffix, 0, 0);
      Signed(v) == Signed(i) && n == |wire|
  {
    hide Num, Fold, ReadBits, WriteBits, Signed, Nums, DecodeVarint, ZigZag, Base128;
    var wire := WriteBits(Fold(i));
    WriteBitsEncodes(Fold(i));
    FoldIsZigZag(i);
    ReadBitsDecodes(wire + suffix);
    NumsAppend(wire, suffix);
    SignedFits(i);
    VarintRoundTrip(Signed(i), Nums(suffix));
  }

  lemma NumsAppend(a: seq<bv32>, b: seq<bv32>)
    requires forall i :: 0 <= i < |a| ==> a[i] < 0x100
    requires forall i :: 0 <= i < |b| ==> b[i] < 0x100
    ensures Nums(a + b) == Nums(a) + Nums(b)
  {
    hide ByteNum;
  }

  lemma SignedFits(i: bv32)
    ensures -0x8000_0000 <= Signed(i) < 0x8000_0000
  {
    hide Num;
    NumFits(i);
    if i < 0x8000_0000 {
      NumTwice(i);
      NumFits(Twice(i));
    } else {
      TopSet(i);
      NumOr(WithoutTop(i), 0x8000_0000);
      Landmarks();
    }
  }

  // ----- the attribute bits of a batch

  predicate AnyOf(u: bv32, bits: bv32) { u & bits != 0 }

  /** The checks on a batch's attributes are those on their bits: the compression
      bits 0x07, and the transaction and control bits 0x30. */
  lemma AttributeBits(u: bv32, attributes: int16)
    requires Signed(u) == attributes
    ensures Compressed(attributes) <==> AnyOf(u, 0x07)
    ensures Transactional(attributes) <==> AnyOf(u, 0x30)
  {
    hide *;
    var h3 := Half(Half(Half(u)));
    ThreeBits(u);
    ThreeBits(h3);
    LowBits(u);
    SignedIs(u);
    SixBits(attributes, Num(Half(Half(Half(h3)))), if Num(u) == attributes then 0 else 1,
            Low(u), Low(Half(u)), Low(Half(Half(u))), Low(h3), Low(Half(h3)), Low(Half(Half(h3))));
  }

  lemma SignedIs(u: bv32)
    ensures Signed(u) == Num(u) || Signed(u) == Num(u) - 0x1_0000_0000
  {
    hide Num;
  }

  lemma ThreeBits(u: bv32)
    ensures Num(u) == 8 * Num(Half(Half(Half(u)))) + 4 * Low(Half(Half(u))) + 2 * Low(Half(u)) + Low(u)
    ensures Low(u) <= 1 && Low(Half(u)) <= 1 && Low(Half(Half(u))) <= 1
  {
    hide *;
    LowIsBit(u);
    LowIsBit(Half(u));
    LowIsBit(Half(Half(u)));
    NumHalf(u);
    NumHalf(Half(u));
    NumHalf(Half(Half(u)));
  }

  lemma SixBits(a: int16, q: int, sign: int, b0: nat, b1: nat, b2: nat, b3: nat, b4: nat, b5: nat)
    requires b0 <= 1 && b1 <= 1 && b2 <= 1 && b3 <= 1 && b4 <= 1 && b5 <= 1
    requires a == 8 * (8 * q + 4 * b5 + 2 * b4 + b3) + 4 * b2 + 2 * b1 + b0 - 0x1_0000_0000 * sign
    ensures Compressed(a) <==> b0 + b1 + b2 > 0
    ensures Transactional(a) <==> b4 + b5 > 0
  {
    var top := q - 0x400_0000 * sign;
    ModUnique(a, 8, 8 * top + 4 * b5 + 2 * b4 + b3, 4 * b2 + 2 * b1 + b0);
    ModUnique(a, 16, 4 * top + 2 * b5 + b4, 8 * b3 + 4 * b2 + 2 * b1 + b0);
  }

  lemma LowBits(u: bv32)
    ensures AnyOf(u, 0x07) <==> Low(u) + Low(Half(u)) + Low(Half(Half(u))) > 0
    ensures AnyOf(u, 0x30) <==> Low(Half(Half(Half(Half(u))))) + Low(Half(Half(Half(Half(Half(u)))))) > 0
  {
  }
}
