/**
 The CRC-32 of the migrator (section 8 of RFC 1952): streaming, chunking, injectivity of every
 step, and the burst property: two messages of equal length that differ only inside one window of
 32 bits never have the same CRC.
*/
module Crc32 {
  const POLY: bv32 := 0xEDB88320
  const ONES: bv32 := 0xFFFFFFFF

  function Mix(c: bv32, x: bv32): bv32 {
    c ^ x
  }

  function Half(b: bv32): bv32 {
    b >> 1
  }

  /** The polynomial if the lowest bit is set, without a branch. */
  function Tap(c: bv32): bv32 {
    POLY & (0 - (c & 1))
  }

  /** One shift of the register. */
  function Shift(c: bv32): bv32 {
    Mix(Half(c), Tap(c))
  }

  function Shifts(c: bv32, k: nat): bv32
    decreases k
  {
    if k == 0 then c else Shifts(Shift(c), k - 1)
  }

  function FeedByte(c: bv32, b: bv8): bv32 {
    Shifts(Mix(c, b as bv32), 8)
  }

  function Stream(c: bv32, data: seq<bv8>): bv32
    decreases |data|
  {
    if |data| == 0 then c else FeedByte(Stream(c, data[..|data| - 1]), data[|data| - 1])
  }

  /** The finished CRC of a message. */
  function Crc(data: seq<bv8>): bv32 {
    Mix(Stream(ONES, data), ONES)
  }

  lemma StreamNothing(c: bv32)
    ensures Stream(c, []) == c
  {
  }

  /** crc32_stream: the loop over a buffer. */
  method RunStream(start: bv32, data: array<bv8>, len: nat) returns (crc: bv32)
    requires len <= data.Length
    ensures crc == Stream(start, data[..len])
  {
    hide Shift;
    crc := start;
    for i := 0 to len
      invariant crc == Stream(start, data[..i])
    {
      ghost var before := crc;
      crc := Mix(crc, data[i] as bv32);
      ghost var mixed := crc;
      for k := 0 to 8
        invariant Shifts(mixed, 8) == Shifts(crc, 8 - k)
      {
        crc := Shift(crc);
      }
      assert crc == FeedByte(before, data[i]);
      assert data[..i + 1][..i] == data[..i];
    }
  }

  // ---- which CRC it is ----------------------------------------------------------------------

  /** x to the e, with the coefficients of a polynomial of degree below 32 kept highest power lowest. */
  function Power(e: nat): bv32
    requires e < 32
  {
    1 << (31 - e)
  }

  /** The polynomial is x^32 + x^26 + x^23 + x^22 + x^16 + x^12 + x^11 + x^10 + x^8 + x^7 + x^5 + x^4 + x^2 + x + 1. */
  lemma PolynomialIsCrc32()
    ensures POLY == Power(26) | Power(23) | Power(22) | Power(16) | Power(12) | Power(11) | Power(10) | Power(8)
                    | Power(7) | Power(5) | Power(4) | Power(2) | Power(1) | Power(0)
  {
  }

  /** The bytes of "123456789". */
  const DIGITS: seq<bv8> := [0x31, 0x32, 0x33, 0x34, 0x35, 0x36, 0x37, 0x38, 0x39]

  lemma OneMoreByte(c: bv32, data: seq<bv8>, n: nat)
    requires n < |data|
    ensures Stream(c, data[..n + 1]) == FeedByte(Stream(c, data[..n]), data[n])
  {
    assert data[..n + 1][..n] == data[..n];
    hide FeedByte;
  }

  lemma EightShifts(c: bv32)
    ensures Shifts(c, 8) == Shift(Shift(Shift(Shift(Shift(Shift(Shift(Shift(c))))))))
  {
    hide Shift;
    assert Shifts(c, 8) == Shifts(Shift(Shift(c)), 6) == Shifts(Shift(Shift(Shift(Shift(c)))), 4);
  }

  lemma Fed(c: bv32, b: bv8, d: bv32)
    ensures Shift(Shift(Shift(Shift(Shift(Shift(Shift(Shift(Mix(c, b as bv32))))))))) == d ==> FeedByte(c, b) == d
  {
    EightShifts(Mix(c, b as bv32));
    hide Shift, Mix, Shifts;
  }

  lemma Digits1To3()
    ensures FeedByte(0xFFFFFFFF, 0x31) == 0x7C231048
    ensures FeedByte(0x7C231048, 0x32) == 0xB0ACBB32
    ensures FeedByte(0xB0ACBB32, 0x33) == 0x77B79C2D
  {
    Fed(0xFFFFFFFF, 0x31, 0x7C231048);
    Fed(0x7C231048, 0x32, 0xB0ACBB32);
    Fed(0xB0ACBB32, 0x33, 0x77B79C2D);
    hide FeedByte;
  }

  lemma Digits4To6()
    ensures FeedByte(0x77B79C2D, 0x34) == 0x641C1F5C
    ensures FeedByte(0x641C1F5C, 0x35) == 0x340AC5E3
    ensures FeedByte(0x340AC5E3, 0x36) == 0xF68D2C9E
  {
    Fed(0x77B79C2D, 0x34, 0x641C1F5C);
    Fed(0x641C1F5C, 0x35, 0x340AC5E3);
    Fed(0x340AC5E3, 0x36, 0xF68D2C9E);
    hide FeedByte;
  }

  lemma Digits7To9()
    ensures FeedByte(0xF68D2C9E, 0x37) == 0xAFFC9660
    ensures FeedByte(0xAFFC9660, 0x38) == 0x651F2550
    ensures FeedByte(0x651F2550, 0x39) == 0x340BC6D9
  {
    Fed(0xF68D2C9E, 0x37, 0xAFFC9660);
    Fed(0xAFFC9660, 0x38, 0x651F2550);
    Fed(0x651F2550, 0x39, 0x340BC6D9);
    hide FeedByte;
  }

  /** The value by which implementations of this CRC are told from others. */
  lemma CheckValue()
    ensures Crc(DIGITS) == 0xCBF43926
  {
    Digits1To3();
    Digits4To6();
    Digits7To9();
    StreamNothing(ONES);
    hide FeedByte, Stream;
    OneMoreByte(ONES, DIGITS, 0);
    OneMoreByte(ONES, DIGITS, 1);
    OneMoreByte(ONES, DIGITS, 2);
    OneMoreByte(ONES, DIGITS, 3);
    OneMoreByte(ONES, DIGITS, 4);
    OneMoreByte(ONES, DIGITS, 5);
    OneMoreByte(ONES, DIGITS, 6);
    OneMoreByte(ONES, DIGITS, 7);
    OneMoreByte(ONES, DIGITS, 8);
    assert DIGITS[..0] == [] && DIGITS[..9] == DIGITS;
  }

  // ---- chunking ---------------------------------------------------------------------------

  /** Feeding a message in two pieces is feeding it whole; so any chunking gives the same CRC. */
  lemma {:induction false} StreamConcat(c: bv32, a: seq<bv8>, b: seq<bv8>)
    ensures Stream(c, a + b) == Stream(Stream(c, a), b)
    decreases |b|
  {
    hide FeedByte;
    if |b| == 0 {
      assert a + b == a;
    } else {
      StreamConcat(c, a, b[..|b| - 1]);
      assert (a + b)[..|a + b| - 1] == a + b[..|b| - 1];
    }
  }

  function StreamChunks(c: bv32, chunks: seq<seq<bv8>>): bv32
    decreases |chunks|
  {
    if |chunks| == 0 then c else Stream(StreamChunks(c, chunks[..|chunks| - 1]), chunks[|chunks| - 1])
  }

  function Flatten(chunks: seq<seq<bv8>>): seq<bv8>
    decreases |chunks|
  {
    if |chunks| == 0 then [] else Flatten(chunks[..|chunks| - 1]) + chunks[|chunks| - 1]
  }

  lemma {:induction false} AnyChunking(c: bv32, chunks: seq<seq<bv8>>)
    ensures StreamChunks(c, chunks) == Stream(c, Flatten(chunks))
    decreases |chunks|
  {
    if |chunks| > 0 {
      AnyChunking(c, chunks[..|chunks| - 1]);
      StreamConcat(c, Flatten(chunks[..|chunks| - 1]), chunks[|chunks| - 1]);
    }
  }

  // ---- exclusive or -----------------------------------------------------------------------

  lemma MixCommutes(a: bv32, b: bv32)
    ensures Mix(a, b) == Mix(b, a)
  {
  }

  lemma MixAssociates(a: bv32, b: bv32, c: bv32)
    ensures Mix(Mix(a, b), c) == Mix(a, Mix(b, c))
  {
  }

  lemma Unmix(c: bv32, d: bv32, b: bv32)
    requires Mix(c, b) == Mix(d, b)
    ensures c == d
  {
  }

  lemma MixNothing(c: bv32)
    ensures Mix(c, 0) == c && Mix(c, c) == 0
  {
  }

  lemma MixSelf(c: bv32, d: bv32)
    ensures Mix(c, d) == 0 <==> c == d
  {
    MixNothing(d);
    hide Mix;
    if Mix(c, d) == 0 {
      Unmix(c, d, d);
    }
  }

  lemma Regroup(c: bv32, d: bv32, x: bv32, y: bv32)
    ensures Mix(Mix(c, x), Mix(d, y)) == Mix(Mix(c, d), Mix(x, y))
  {
    hide Mix;
    MixAssociates(c, x, Mix(d, y));
    MixAssociates(x, d, y);
    MixCommutes(x, d);
    MixAssociates(d, x, y);
    MixAssociates(c, d, Mix(x, y));
  }

  // ---- injectivity ------------------------------------------------------------------------

  /** The polynomial's top bit records what the shift dropped, so a shift can be undone. */
  function Unshift(d: bv32): bv32 {
    if d & 0x80000000 != 0 then ((d ^ POLY) << 1) | 1 else d << 1
  }

  lemma UnshiftShift(c: bv32)
    ensures Unshift(Shift(c)) == c
  {
  }

  lemma ShiftInjective(c: bv32, d: bv32)
    requires Shift(c) == Shift(d)
    ensures c == d
  {
    UnshiftShift(c);
    UnshiftShift(d);
  }

  lemma {:induction false} ShiftsInjective(c: bv32, d: bv32, k: nat)
    requires Shifts(c, k) == Shifts(d, k)
    ensures c == d
    decreases k
  {
    if k > 0 {
      ShiftsInjective(Shift(c), Shift(d), k - 1);
      ShiftInjective(c, d);
    }
  }

  lemma MixInjective(c: bv32, d: bv32, a: bv8, b: bv8)
    requires Mix(c, a as bv32) == Mix(d, b as bv32)
    ensures a == b <==> c == d
  {
    hide Mix;
    if a == b {
      Unmix(c, d, a as bv32);
    }
    if c == d {
      MixCommutes(c, a as bv32);
      MixCommutes(c, b as bv32);
      Unmix(a as bv32, b as bv32, c);
      WideByte(a, b);
    }
  }

  lemma WideByte(a: bv8, b: bv8)
    requires a as bv32 == b as bv32
    ensures a == b
  {
  }

  /** A byte step loses nothing: neither of the state, given the byte, nor of the byte, given the state. */
  lemma FeedByteInjective(c: bv32, d: bv32, a: bv8, b: bv8)
    requires FeedByte(c, a) == FeedByte(d, b)
    ensures a == b <==> c == d
  {
    ShiftsInjective(Mix(c, a as bv32), Mix(d, b as bv32), 8);
    hide Mix, Shifts;
    MixInjective(c, d, a, b);
  }

  // ---- bit by bit -------------------------------------------------------------------------

  function Odd(b: bv32): bool {
    b & 1 == 1
  }

  function Double(b: bv32): bv32 {
    b << 1
  }

  function BitValue(b: bool): bv32 {
    if b then 1 else 0
  }

  function FeedBit(c: bv32, b: bool): bv32 {
    Shift(Mix(c, BitValue(b)))
  }

  /** Bits fed in order, first bit first. */
  function Serial(c: bv32, bits: seq<bool>): bv32
    decreases |bits|
  {
    if |bits| == 0 then c else Serial(FeedBit(c, bits[0]), bits[1..])
  }

  /** The k lowest bits of a byte's worth, least significant first. */
  function BitsOf(b: bv32, k: nat): (bits: seq<bool>)
    ensures |bits| == k
    decreases k
  {
    if k == 0 then [] else [Odd(b)] + BitsOf(Half(b), k - 1)
  }

  function ByteBits(a: bv8): seq<bool> {
    BitsOf(a as bv32, 8)
  }

  function MessageBits(data: seq<bv8>): (bits: seq<bool>)
    ensures |bits| == 8 * |data|
    decreases |data|
  {
    if |data| == 0 then [] else MessageBits(data[..|data| - 1]) + ByteBits(data[|data| - 1])
  }

  lemma HalfIsLinear(a: bv32, b: bv32)
    ensures Half(Mix(a, b)) == Mix(Half(a), Half(b))
  {
  }

  lemma TapValue(c: bv32)
    ensures Tap(c) == if Odd(c) then POLY else 0
  {
  }

  lemma OddIsLinear(a: bv32, b: bv32)
    ensures Odd(Mix(a, b)) <==> Odd(a) != Odd(b)
  {
  }

  lemma TapIsLinear(a: bv32, b: bv32)
    ensures Tap(Mix(a, b)) == Mix(Tap(a), Tap(b))
  {
    hide Tap, Mix, Odd;
    TapValue(a);
    TapValue(b);
    TapValue(Mix(a, b));
    OddIsLinear(a, b);
    MixNothing(Tap(a));
    MixNothing(Tap(b));
    MixCommutes(Tap(a), Tap(b));
    MixSelf(POLY, POLY);
  }

  lemma ShiftIsLinear(a: bv32, b: bv32)
    ensures Shift(Mix(a, b)) == Mix(Shift(a), Shift(b))
  {
    hide Mix, Half, Tap;
    HalfIsLinear(a, b);
    TapIsLinear(a, b);
    Regroup(Half(a), Tap(a), Half(b), Tap(b));
    Regroup(Half(a), Half(b), Tap(a), Tap(b));
  }

  lemma OneBit(x: bool)
    ensures Half(BitValue(x)) == 0 && Odd(BitValue(x)) == x
  {
  }

  lemma ShiftOfBits(b: bv32)
    ensures Shift(b) == Mix(Shift(BitValue(Odd(b))), Half(b))
  {
    hide Mix, Half, Tap, Odd, BitValue;
    var low := BitValue(Odd(b));
    OneBit(Odd(b));
    TapValue(b);
    TapValue(low);
    MixCommutes(0, Tap(low));
    MixNothing(Tap(low));
    MixCommutes(Half(b), Tap(b));
  }

  /** What a shift does to bits not yet reached is to move them down. */
  lemma ShiftMixed(c: bv32, b: bv32)
    ensures Shift(Mix(c, b)) == Mix(Shift(Mix(c, BitValue(Odd(b)))), Half(b))
  {
    hide Shift, Mix, BitValue, Odd, Half;
    ShiftIsLinear(c, b);
    ShiftOfBits(b);
    ShiftIsLinear(c, BitValue(Odd(b)));
    MixAssociates(Shift(c), Shift(BitValue(Odd(b))), Half(b));
  }

  function DropBits(b: bv32, k: nat): bv32
    decreases k
  {
    if k == 0 then b else DropBits(Half(b), k - 1)
  }

  lemma {:induction false} ShiftsAreSerial(c: bv32, b: bv32, k: nat)
    requires DropBits(b, k) == 0
    ensures Shifts(Mix(c, b), k) == Serial(c, BitsOf(b, k))
    decreases k
  {
    hide Shift, Mix, Odd, Half, BitValue;
    if k == 0 {
      MixNothing(c);
    } else {
      ShiftMixed(c, b);
      ShiftsAreSerial(FeedBit(c, Odd(b)), Half(b), k - 1);
      var bits := BitsOf(b, k);
      assert bits[0] == Odd(b) && bits[1..] == BitsOf(Half(b), k - 1);
    }
  }

  lemma ByteDrops(a: bv8)
    ensures DropBits(a as bv32, 8) == 0
  {
    var b := a as bv32;
    assert Half(Half(Half(Half(Half(Half(Half(Half(b)))))))) == 0;
    hide Half;
    assert DropBits(b, 8) == DropBits(Half(Half(Half(Half(b)))), 4);
  }

  lemma {:induction false} SerialConcat(c: bv32, a: seq<bool>, b: seq<bool>)
    ensures Serial(c, a + b) == Serial(Serial(c, a), b)
    decreases |a|
  {
    hide FeedBit;
    if |a| == 0 {
      assert a + b == b;
    } else {
      SerialConcat(FeedBit(c, a[0]), a[1..], b);
      assert (a + b)[1..] == a[1..] + b;
    }
  }

  lemma FeedByteIsSerial(c: bv32, a: bv8)
    ensures FeedByte(c, a) == Serial(c, ByteBits(a))
  {
    hide Shifts, Serial, BitsOf;
    ByteDrops(a);
    ShiftsAreSerial(c, a as bv32, 8);
  }

  /** The byte-wise CRC is the bit-wise one, each byte's least significant bit first. */
  lemma {:induction false} StreamIsSerial(c: bv32, data: seq<bv8>)
    ensures Stream(c, data) == Serial(c, MessageBits(data))
    decreases |data|
  {
    hide Serial, FeedByte, ByteBits;
    if |data| == 0 {
      SerialNothing(c);
    } else {
      var n := |data| - 1;
      StreamIsSerial(c, data[..n]);
      FeedByteIsSerial(Stream(c, data[..n]), data[n]);
      SerialConcat(c, MessageBits(data[..n]), ByteBits(data[n]));
    }
  }

  lemma SerialNothing(c: bv32)
    ensures Serial(c, []) == c
  {
  }

  lemma FeedBitInjective(c: bv32, d: bv32, b: bool)
    requires FeedBit(c, b) == FeedBit(d, b)
    ensures c == d
  {
    hide Shift, BitValue, Mix;
    ShiftInjective(Mix(c, BitValue(b)), Mix(d, BitValue(b)));
    Unmix(c, d, BitValue(b));
  }

  lemma {:induction false} SerialInjective(c: bv32, d: bv32, bits: seq<bool>)
    requires Serial(c, bits) == Serial(d, bits)
    ensures c == d
    decreases |bits|
  {
    hide FeedBit;
    if |bits| > 0 {
      SerialInjective(FeedBit(c, bits[0]), FeedBit(d, bits[0]), bits[1..]);
      FeedBitInjective(c, d, bits[0]);
    }
  }

  // ---- bursts -----------------------------------------------------------------------------

  /** Where two bit strings differ, as a number: first bit lowest. */
  function Difference(u: seq<bool>, v: seq<bool>): bv32
    requires |u| == |v|
    decreases |u|
  {
    if |u| == 0 then 0 else Mix(Double(Difference(u[1..], v[1..])), Mix(BitValue(u[0]), BitValue(v[0])))
  }

  /** 2^n, while it fits. */
  function Marker(n: nat): bv32
    decreases n
  {
    if n == 0 then 1 else Double(Marker(n - 1))
  }

  lemma {:induction false} MarkerFits(n: nat)
    requires n <= 31
    ensures Marker(n) != 0
    decreases 31 - n
  {
    if n == 31 {
      assert Marker(8) == 0x100;
      assert Marker(16) == 0x1_0000;
      assert Marker(24) == 0x100_0000;
      assert Marker(31) == 0x8000_0000;
    } else {
      MarkerFits(n + 1);
    }
  }

  predicate PowerOfTwo(m: bv32) {
    m != 0 && m & (m - 1) == 0
  }

  lemma PowerDoubles(m: bv32)
    requires PowerOfTwo(m) && Double(m) != 0
    ensures PowerOfTwo(Double(m))
  {
  }

  lemma {:induction false} MarkerIsPower(n: nat)
    requires n <= 31
    ensures PowerOfTwo(Marker(n))
    decreases n
  {
    MarkerFits(n);
    if n > 0 {
      MarkerIsPower(n - 1);
      hide PowerOfTwo, Double;
      PowerDoubles(Marker(n - 1));
    }
  }

  /** The top bit is clear: there is room to double. */
  predicate Roomy(r: bv32) {
    r & 0x8000_0000 == 0
  }

  lemma BelowPowerIsRoomy(r: bv32, m: bv32)
    requires PowerOfTwo(m) && r < m
    ensures Roomy(r)
  {
  }

  lemma DoubleBelow(r: bv32, m: bv32)
    requires PowerOfTwo(m) && r < m && Double(m) != 0
    ensures Mix(Double(r), 0) < Double(m) && Mix(Double(r), 1) < Double(m)
  {
  }

  lemma DoublingStaysBelow(r: bv32, m: bv32, a: bool, b: bool)
    requires PowerOfTwo(m) && r < m && Double(m) != 0
    ensures Mix(Double(r), Mix(BitValue(a), BitValue(b))) < Double(m)
  {
    assert Mix(BitValue(a), BitValue(b)) == BitValue(a != b);
    assert BitValue(true) == 1 && BitValue(false) == 0;
    hide Mix, Double, BitValue, PowerOfTwo;
    DoubleBelow(r, m);
  }

  lemma DoublingKeeps(r: bv32, a: bool, b: bool)
    requires Roomy(r) && Mix(Double(r), Mix(BitValue(a), BitValue(b))) == 0
    ensures r == 0 && a == b
  {
  }

  lemma {:induction false} DifferenceSmall(u: seq<bool>, v: seq<bool>)
    requires |u| == |v| <= 31
    ensures Difference(u, v) < Marker(|u|)
    decreases |u|
  {
    MarkerFits(|u|);
    hide Double, Mix, BitValue, PowerOfTwo;
    if |u| > 0 {
      DifferenceSmall(u[1..], v[1..]);
      MarkerIsPower(|u| - 1);
      DoublingStaysBelow(Difference(u[1..], v[1..]), Marker(|u| - 1), u[0], v[0]);
    }
  }

  lemma RoomToDouble(u: seq<bool>, v: seq<bool>)
    requires |u| == |v| <= 31
    ensures Roomy(Difference(u, v))
  {
    hide Difference, Marker, Roomy, PowerOfTwo;
    DifferenceSmall(u, v);
    MarkerIsPower(|u|);
    BelowPowerIsRoomy(Difference(u, v), Marker(|u|));
  }

  lemma {:induction false} NoDifference(u: seq<bool>, v: seq<bool>)
    requires |u| == |v| <= 32 && Difference(u, v) == 0
    ensures u == v
    decreases |u|
  {
    hide Double, Mix, BitValue, Roomy;
    if |u| > 0 {
      RoomToDouble(u[1..], v[1..]);
      DoublingKeeps(Difference(u[1..], v[1..]), u[0], v[0]);
      NoDifference(u[1..], v[1..]);
      assert u == [u[0]] + u[1..] && v == [v[0]] + v[1..];
    }
  }

  /** If two shifted registers differ by r with its top bit clear, they differed by r doubled before. */
  lemma DifferenceBefore(a: bv32, b: bv32, r: bv32)
    requires Mix(Shift(a), Shift(b)) == r && Roomy(r)
    ensures Mix(a, b) == Double(r)
  {
    hide *;
    ShiftIsLinear(a, b);
    UnshiftShift(Mix(a, b));
    RoomyUnshift(r);
  }

  lemma RoomyUnshift(r: bv32)
    requires Roomy(r)
    ensures Unshift(r) == Double(r)
  {
  }

  lemma ConvergingStep(c: bv32, d: bv32, a: bool, b: bool, r: bv32)
    requires Mix(FeedBit(c, a), FeedBit(d, b)) == r && Roomy(r)
    ensures Mix(c, d) == Mix(Double(r), Mix(BitValue(a), BitValue(b)))
  {
    hide Shift, BitValue, Mix, Roomy, Double;
    DifferenceBefore(Mix(c, BitValue(a)), Mix(d, BitValue(b)), r);
    Regroup(c, d, BitValue(a), BitValue(b));
    var x := Mix(BitValue(a), BitValue(b));
    MixAssociates(Mix(c, d), x, x);
    MixSelf(x, x);
    MixNothing(Mix(c, d));
  }

  /** Registers that up to 32 bits bring together differed by exactly where those bits differ. */
  lemma {:induction false} Converging(c: bv32, d: bv32, u: seq<bool>, v: seq<bool>)
    requires |u| == |v| <= 32 && Serial(c, u) == Serial(d, v)
    ensures Mix(c, d) == Difference(u, v)
    decreases |u|
  {
    hide FeedBit, BitValue, Mix, Double, Roomy;
    if |u| == 0 {
      MixSelf(c, d);
    } else {
      Converging(FeedBit(c, u[0]), FeedBit(d, v[0]), u[1..], v[1..]);
      RoomToDouble(u[1..], v[1..]);
      ConvergingStep(c, d, u[0], v[0], Difference(u[1..], v[1..]));
    }
  }

  /** Equal outside the 32 bits from bit p on. */
  predicate BurstAt(x: seq<bool>, y: seq<bool>, p: nat) {
    && |x| == |y| && p <= |x|
    && x[..p] == y[..p]
    && (p + 32 <= |x| ==> x[p + 32..] == y[p + 32..])
  }

  lemma BurstDetected(c: bv32, x: seq<bool>, y: seq<bool>, p: nat)
    requires BurstAt(x, y, p) && Serial(c, x) == Serial(c, y)
    ensures x == y
  {
    var q := if p + 32 <= |x| then p + 32 else |x|;
    var u, v, tail := x[p..q], y[p..q], x[q..];
    assert x == x[..p] + (u + tail) && y == x[..p] + (v + tail) by {
      assert y[q..] == tail;
    }
    SerialConcat(c, x[..p], u + tail);
    SerialConcat(c, x[..p], v + tail);
    var s := Serial(c, x[..p]);
    SerialConcat(s, u, tail);
    SerialConcat(s, v, tail);
    SerialInjective(Serial(s, u), Serial(s, v), tail);
    Converging(s, s, u, v);
    MixSelf(s, s);
    NoDifference(u, v);
  }

  lemma BitsDetermineByte(a: bv8, b: bv8)
    requires ByteBits(a) == ByteBits(b)
    ensures a == b
  {
    hide Serial, ByteBits, FeedByte;
    FeedByteIsSerial(0, a);
    FeedByteIsSerial(0, b);
    FeedByteInjective(0, 0, a, b);
  }

  lemma {:induction false} BitsDetermineMessage(x: seq<bv8>, y: seq<bv8>)
    requires |x| == |y| && MessageBits(x) == MessageBits(y)
    ensures x == y
    decreases |x|
  {
    hide ByteBits;
    if |x| > 0 {
      var n := |x| - 1;
      var p, q := MessageBits(x[..n]), MessageBits(y[..n]);
      assert MessageBits(x)[..8 * n] == p && MessageBits(y)[..8 * n] == q;
      assert MessageBits(x)[8 * n..] == ByteBits(x[n]);
      assert MessageBits(y)[8 * n..] == ByteBits(y[n]);
      BitsDetermineByte(x[n], y[n]);
      BitsDetermineMessage(x[..n], y[..n]);
      assert x == x[..n] + [x[n]] && y == y[..n] + [y[n]];
    }
  }

  /** Two different messages of one length that agree outside a window of 32 bits have different CRCs. */
  lemma BurstChangesCrc(x: seq<bv8>, y: seq<bv8>, p: nat)
    requires |x| == |y| && x != y && BurstAt(MessageBits(x), MessageBits(y), p)
    ensures Crc(x) != Crc(y)
  {
    hide *;
    if Crc(x) == Crc(y) {
      CrcStream(x, y);
      StreamIsSerial(ONES, x);
      StreamIsSerial(ONES, y);
      BurstDetected(ONES, MessageBits(x), MessageBits(y), p);
      BitsDetermineMessage(x, y);
    }
  }

  lemma CrcStream(x: seq<bv8>, y: seq<bv8>)
    requires Crc(x) == Crc(y)
    ensures Stream(ONES, x) == Stream(ONES, y)
  {
    hide Stream, Mix;
    Unmix(Stream(ONES, x), Stream(ONES, y), ONES);
  }
}
