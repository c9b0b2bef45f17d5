/**
  The HX710B 24-bit ADC driver of src/hx710b.c. The sensor is read by
  clocking its SCK line and sampling its DOUT line: 24 data bits, most
  significant first, then 1 to 3 further clock pulses that select the gain
  and channel of the next conversion. The bits are a 24-bit two's-complement
  value, which the driver sign-extends to a 32-bit `long`.

  The two GPIO lines are an object of class Lines: the levels written to SCK
  are logged, and DOUT is the sequence of levels its successive reads return.
 */
module Hx710b {
  import opened CInt

  // ---------------------------------------------------------------------
  // The two lines of one sensor

  class Lines {
    /** The levels written to SCK so far, oldest first (true is high). */
    var sck: seq<bool>
    /** The levels DOUT returns to the next reads, in order (true is high). */
    var dout: seq<bool>

    constructor (dout: seq<bool>)
      ensures this.sck == [] && this.dout == dout
    {
      this.sck := [];
      this.dout := dout;
    }

    /** `gpio_set_level` on SCK. */
    method SetClock(level: bool)
      modifies this
      ensures sck == old(sck) + [level]
      ensures dout == old(dout)
    {
      sck := sck + [level];
    }

    /**
      One clock pulse with DOUT sampled while SCK is high (the two
      microsecond delays around it are not modelled).
     */
    method ClockIn() returns (level: bool)
      requires |dout| > 0
      modifies this
      ensures level == old(dout[0])
      ensures dout == old(dout[1..])
      ensures sck == old(sck) + [true, false]
    {
      SetClock(true);
      level := GetData();
      SetClock(false);
    }

    /** One clock pulse without a read (the delays are not modelled). */
    method Pulse()
      modifies this
      ensures sck == old(sck) + [true, false]
      ensures dout == old(dout)
    {
      SetClock(true);
      SetClock(false);
    }

    /** `gpio_get_level` on DOUT: takes the next level. */
    method GetData() returns (level: bool)
      requires |dout| > 0
      modifies this
      ensures level == old(dout[0])
      ensures dout == old(dout[1..])
      ensures sck == old(sck)
    {
      level := dout[0];
      dout := dout[1..];
    }
  }

  /** n clock pulses: n times high then low. */
  function Pulses(n: nat): (w: seq<bool>)
    ensures |w| == 2 * n
  {
    if n == 0 then [] else Pulses(n - 1) + [true, false]
  }

  /** The next level of what is left after the first k, and what is left after it. */
  lemma NextLevel(s: seq<bool>, k: nat)
    requires k < |s|
    ensures s[k..][0] == s[k] && s[k..][1..] == s[k + 1..]
  {
  }

  /** One more pulse on a log of n pulses. */
  lemma PulseSnoc(log: seq<bool>, n: nat)
    ensures (log + Pulses(n)) + [true, false] == log + Pulses(n + 1)
  {
  }

  /** The next byte of what is left after the first k levels, and what is left after it. */
  lemma NextByte(s: seq<bool>, k: nat)
    requires k + 8 <= |s|
    ensures s[k..][..8] == s[k..k + 8] && s[k..][8..] == s[k + 8..]
  {
  }

  /** A log that has m pulses and then n more has m + n. */
  lemma {:induction false} PulsesAppend(log: seq<bool>, m: nat, n: nat)
    ensures (log + Pulses(m)) + Pulses(n) == log + Pulses(m + n)
  {
    if n > 0 {
      PulsesAppend(log, m, n - 1);
      assert (log + Pulses(m)) + Pulses(n) == ((log + Pulses(m)) + Pulses(n - 1)) + [true, false];
    }
  }

  // ---------------------------------------------------------------------
  // Bits as numbers

  /** `LSBFIRST` (0) and `MSBFIRST` (1). */
  datatype BitOrder = LsbFirst | MsbFirst

  function Pow2(n: nat): (p: nat)
    ensures p >= 1
  {
    if n == 0 then 1 else 2 * Pow2(n - 1)
  }

  function Bit(b: bool): nat { if b then 1 else 0 }

  /** The bits read most significant first, as an unsigned number. */
  function Msb(bits: seq<bool>): nat
  {
    if |bits| == 0 then 0 else 2 * Msb(bits[..|bits| - 1]) + Bit(bits[|bits| - 1])
  }

  /** n bits hold a number below 2^n. */
  lemma {:induction false} MsbBound(bits: seq<bool>)
    ensures Msb(bits) < Pow2(|bits|)
  {
    if |bits| > 0 {
      MsbBound(bits[..|bits| - 1]);
    }
  }

  /** The n-bit binary representation of u, most significant bit first. */
  function BitsOf(u: nat, n: nat): (bits: seq<bool>)
    requires u < Pow2(n)
    ensures |bits| == n
  {
    if n == 0 then [] else BitsOf(u / 2, n - 1) + [u % 2 == 1]
  }

  function Reverse(s: seq<bool>): (r: seq<bool>)
    ensures |r| == |s|
    ensures forall i :: 0 <= i < |s| ==> r[i] == s[|s| - 1 - i]
  {
    if |s| == 0 then [] else [s[|s| - 1]] + Reverse(s[..|s| - 1])
  }

  /** Shifting x * p + y left by one bit and appending c. */
  lemma Shift(x: int, p: int, y: int, c: int)
    ensures 2 * (x * p + y) + c == x * (2 * p) + (2 * y + c)
  {
  }

  lemma {:induction false} MsbAppend(a: seq<bool>, b: seq<bool>)
    ensures Msb(a + b) == Msb(a) * Pow2(|b|) + Msb(b)
  {
    if |b| == 0 {
      assert a + b == a;
    } else {
      var b' := b[..|b| - 1];
      assert (a + b)[..|a + b| - 1] == a + b';
      MsbAppend(a, b');
      assert Msb(b) == 2 * Msb(b') + Bit(b[|b| - 1]);
      Shift(Msb(a), Pow2(|b'|), Msb(b'), Bit(b[|b| - 1]));
    }
  }

  /** Reading back the binary representation gives the number. */
  lemma {:induction false} MsbBitsOf(u: nat, n: nat)
    requires u < Pow2(n)
    ensures Msb(BitsOf(u, n)) == u
  {
    if n > 0 {
      var bits := BitsOf(u, n);
      assert bits[..n - 1] == BitsOf(u / 2, n - 1);
      MsbBitsOf(u / 2, n - 1);
    }
  }

  /** The binary representation of a reading is the bits read. */
  lemma {:induction false} BitsOfMsb(bits: seq<bool>)
    ensures Msb(bits) < Pow2(|bits|)
    ensures BitsOf(Msb(bits), |bits|) == bits
  {
    MsbBound(bits);
    if |bits| > 0 {
      var p := bits[..|bits| - 1];
      BitsOfMsb(p);
      assert bits == p + [bits[|bits| - 1]];
    }
  }

  // ---------------------------------------------------------------------
  // shiftInSlow

  /** The bit position the i-th level read lands in. */
  function Pos(order: BitOrder, i: nat): (p: nat)
    requires i < 8
    ensures p < 8
  {
    if order == LsbFirst then i else 7 - i
  }

  /** A level as `gpio_get_level` returns it. */
  function Level(b: bool): bv8 { if b then 1 else 0 }

  /** The byte the loop of `shiftInSlow` has built after reading the first k levels of l. */
  function Pack(l: seq<bool>, k: nat, order: BitOrder): bv8
    requires k <= |l| && k <= 8
  {
    if k == 0 then 0 else Pack(l, k - 1, order) | (Level(l[k - 1]) << Pos(order, k - 1))
  }

  /** One more level ORed into the byte packed so far. */
  lemma PackStep(l: seq<bool>, k: nat, order: BitOrder, value: bv8, level: bool)
    requires k < |l| && k < 8
    requires value == Pack(l, k, order) && level == l[k]
    ensures value | (Level(level) << Pos(order, k)) == Pack(l, k + 1, order)
  {
  }

  /**
    The byte that 8 levels make: the first level read is the most
    significant bit with MSBFIRST, the least significant with LSBFIRST.
   */
  function ByteValue(levels: seq<bool>, order: BitOrder): (v: nat)
    requires |levels| == 8
    ensures v < 256
  {
    MsbBound(levels);
    MsbBound(Reverse(levels));
    assert Pow2(8) == 256;
    if order == MsbFirst then Msb(levels) else Msb(Reverse(levels))
  }

  /** Eight levels ORed in at bits 7 down to 0 make the number they spell. */
  lemma OrValue(l0: bool, l1: bool, l2: bool, l3: bool, l4: bool, l5: bool, l6: bool, l7: bool)
    ensures ((Level(l0) << 7) | (Level(l1) << 6) | (Level(l2) << 5) | (Level(l3) << 4)
           | (Level(l4) << 3) | (Level(l5) << 2) | (Level(l6) << 1) | Level(l7)) as int
         == 128 * Bit(l0) + 64 * Bit(l1) + 32 * Bit(l2) + 16 * Bit(l3) + 8 * Bit(l4) + 4 * Bit(l5) + 2 * Bit(l6) + Bit(l7)
  {
  }

  // Two more levels packed, at each even count (one lemma per count keeps
  // the shift amounts constant for the solver).

  lemma PackTo2(l: seq<bool>, order: BitOrder)
    requires |l| >= 8
    ensures Pack(l, 2, order)
         == Pack(l, 0, order) | (Level(l[0]) << Pos(order, 0)) | (Level(l[1]) << Pos(order, 1))
  {
  }

  lemma PackTo4(l: seq<bool>, order: BitOrder)
    requires |l| >= 8
    ensures Pack(l, 4, order)
         == Pack(l, 2, order) | (Level(l[2]) << Pos(order, 2)) | (Level(l[3]) << Pos(order, 3))
  {
  }

  lemma PackTo6(l: seq<bool>, order: BitOrder)
    requires |l| >= 8
    ensures Pack(l, 6, order)
         == Pack(l, 4, order) | (Level(l[4]) << Pos(order, 4)) | (Level(l[5]) << Pos(order, 5))
  {
  }

  lemma PackTo8(l: seq<bool>, order: BitOrder)
    requires |l| >= 8
    ensures Pack(l, 8, order)
         == Pack(l, 6, order) | (Level(l[6]) << Pos(order, 6)) | (Level(l[7]) << Pos(order, 7))
  {
  }

  /** With MSBFIRST the loop ORs the eight levels in at bits 7 down to 0. */
  lemma PackSpreadMsb(l: seq<bool>)
    requires |l| >= 8
    ensures Pack(l, 8, MsbFirst)
         == (Level(l[0]) << 7) | (Level(l[1]) << 6) | (Level(l[2]) << 5) | (Level(l[3]) << 4)
          | (Level(l[4]) << 3) | (Level(l[5]) << 2) | (Level(l[6]) << 1) | Level(l[7])
  {
    PackTo2(l, MsbFirst);
    PackTo4(l, MsbFirst);
    PackTo6(l, MsbFirst);
    PackTo8(l, MsbFirst);
  }

  /** With LSBFIRST the loop ORs the eight levels in at bits 0 up to 7. */
  lemma PackSpreadLsb(l: seq<bool>)
    requires |l| >= 8
    ensures Pack(l, 8, LsbFirst)
         == (Level(l[7]) << 7) | (Level(l[6]) << 6) | (Level(l[5]) << 5) | (Level(l[4]) << 4)
          | (Level(l[3]) << 3) | (Level(l[2]) << 2) | (Level(l[1]) << 1) | Level(l[0])
  {
    PackTo2(l, LsbFirst);
    PackTo4(l, LsbFirst);
    PackTo6(l, LsbFirst);
    PackTo8(l, LsbFirst);
  }

  /** The first k bits of l read most significant first, counted by index. */
  function MsbUpTo(l: seq<bool>, k: nat): nat
    requires k <= |l|
  {
    if k == 0 then 0 else 2 * MsbUpTo(l, k - 1) + Bit(l[k - 1])
  }

  lemma {:induction false} MsbIsUpTo(l: seq<bool>, k: nat)
    requires k <= |l|
    ensures Msb(l[..k]) == MsbUpTo(l, k)
  {
    if k > 0 {
      MsbIsUpTo(l, k - 1);
      assert l[..k][..k - 1] == l[..k - 1];
    }
  }

  /** Two more bits read. */
  lemma MsbTwo(l: seq<bool>, k: nat)
    requires k + 2 <= |l|
    ensures MsbUpTo(l, k + 2) == 4 * MsbUpTo(l, k) + 2 * Bit(l[k]) + Bit(l[k + 1])
  {
  }

  lemma MsbUpTo8(l: seq<bool>)
    requires |l| >= 8
    ensures MsbUpTo(l, 8) == 128 * Bit(l[0]) + 64 * Bit(l[1]) + 32 * Bit(l[2]) + 16 * Bit(l[3])
                           + 8 * Bit(l[4]) + 4 * Bit(l[5]) + 2 * Bit(l[6]) + Bit(l[7])
  {
    MsbTwo(l, 0);
    MsbTwo(l, 2);
    MsbTwo(l, 4);
    MsbTwo(l, 6);
  }

  /** The first eight bits read most significant first, weighted out. */
  lemma Msb8(l: seq<bool>)
    requires |l| >= 8
    ensures Msb(l[..8]) == 128 * Bit(l[0]) + 64 * Bit(l[1]) + 32 * Bit(l[2]) + 16 * Bit(l[3])
                         + 8 * Bit(l[4]) + 4 * Bit(l[5]) + 2 * Bit(l[6]) + Bit(l[7])
  {
    MsbIsUpTo(l, 8);
    MsbUpTo8(l);
  }

  /** The first eight bits read least significant first, weighted out. */
  lemma Lsb8(l: seq<bool>)
    requires |l| >= 8
    ensures Msb(Reverse(l[..8])) == 128 * Bit(l[7]) + 64 * Bit(l[6]) + 32 * Bit(l[5]) + 16 * Bit(l[4])
                                  + 8 * Bit(l[3]) + 4 * Bit(l[2]) + 2 * Bit(l[1]) + Bit(l[0])
  {
    var r := Reverse(l[..8]);
    assert r[0] == l[7] && r[1] == l[6] && r[2] == l[5] && r[3] == l[4];
    assert r[4] == l[3] && r[5] == l[2] && r[6] == l[1] && r[7] == l[0];
    assert r[..8] == r;
    Msb8(r);
  }

  lemma PackIsByteValueMsb(l: seq<bool>)
    requires |l| >= 8
    ensures Pack(l, 8, MsbFirst) as int == Msb(l[..8])
  {
    PackSpreadMsb(l);
    OrValue(l[0], l[1], l[2], l[3], l[4], l[5], l[6], l[7]);
    Msb8(l);
  }

  lemma PackIsByteValueLsb(l: seq<bool>)
    requires |l| >= 8
    ensures Pack(l, 8, LsbFirst) as int == Msb(Reverse(l[..8]))
  {
    PackSpreadLsb(l);
    OrValue(l[7], l[6], l[5], l[4], l[3], l[2], l[1], l[0]);
    Lsb8(l);
  }

  /** The eight levels packed make the byte. */
  lemma PackIsByteValue(l: seq<bool>, order: BitOrder)
    requires |l| >= 8
    ensures Pack(l, 8, order) as int == ByteValue(l[..8], order)
  {
    if order == MsbFirst {
      PackIsByteValueMsb(l);
    } else {
      PackIsByteValueLsb(l);
    }
  }

  /**
    With either order, the i-th level read is bit Pos(order, i) of the byte
    (in the byte's binary representation, most significant bit first, bit p
    is at index 7 - p).
   */
  lemma BitPlacement(levels: seq<bool>, order: BitOrder, i: nat)
    requires |levels| == 8 && i < 8
    ensures BitsOf(ByteValue(levels, order), 8)[7 - Pos(order, i)] == levels[i]
  {
    var bits := BitsOf(ByteValue(levels, order), 8);
    if order == MsbFirst {
      BitsOfMsb(levels);
      assert bits == levels;
    } else {
      var r := Reverse(levels);
      BitsOfMsb(r);
      assert bits == r;
    }
  }

  /** The byte determines the levels: different level sequences give different bytes. */
  lemma ByteValueInjective(a: seq<bool>, b: seq<bool>, order: BitOrder)
    requires |a| == 8 && |b| == 8
    requires ByteValue(a, order) == ByteValue(b, order)
    ensures a == b
  {
    forall i | 0 <= i < 8
      ensures a[i] == b[i]
    {
      BitPlacement(a, order, i);
      BitPlacement(b, order, i);
    }
  }

  /**
    `shiftInSlow`: eight clock pulses, DOUT sampled while SCK is high, each
    level ORed into the byte at its position.
   */
  method ShiftInSlow(lines: Lines, order: BitOrder) returns (value: bv8)
    requires |lines.dout| >= 8
    modifies lines
    ensures value as int == ByteValue(old(lines.dout[..8]), order)
    ensures lines.dout == old(lines.dout[8..])
    ensures lines.sck == old(lines.sck) + Pulses(8)
  {
    ghost var d := lines.dout;
    value := 0;
    var i := 0;
    while i < 8
      invariant 0 <= i <= 8
      invariant lines.dout == d[i..]
      invariant lines.sck == old(lines.sck) + Pulses(i)
      invariant value == Pack(d, i, order)
    {
      NextLevel(d, i);
      PulseSnoc(old(lines.sck), i);
      var level := lines.ClockIn();
      PackStep(d, i, order, value, level);
      value := value | (Level(level) << Pos(order, i));
      i := i + 1;
    }
    PackIsByteValue(d, order);
  }

  // ---------------------------------------------------------------------
  // Sign extension and assembly

  const DATA_BITS: nat := 24

  predicate IsInt24(v: int) { -0x80_0000 <= v < 0x80_0000 }

  /** A 24-bit pattern read as two's complement. */
  function Signed24(u: nat): (v: int)
    requires u < 0x100_0000
    ensures IsInt24(v)
    ensures v == u || v == u - 0x100_0000
    ensures v < 0 <==> u >= 0x80_0000
  {
    if u < 0x80_0000 then u else u - 0x100_0000
  }

  /**
    The end of `hx710b_read`, on the three bytes as the `unsigned long`s
    they are promoted to: the filler byte is 0xFF exactly when bit 7 of the
    most significant byte is set (HighBit: when it is 0x80 or more), the
    32-bit word filler:hi:mid:lo (WordValue: the OR of bytes at disjoint
    places is their weighted sum) is read as a signed `long`.
   */
  function Assemble(hi: int, mid: int, lo: int): (v: int)
    requires IsU8(hi) && IsU8(mid) && IsU8(lo)
    ensures v == Signed24(hi * 0x1_0000 + mid * 0x100 + lo)
    ensures v < 0 <==> hi >= 0x80
  {
    var filler := if hi >= 0x80 then 0xFF else 0x00;
    ToInt32(filler * 0x100_0000 + hi * 0x1_0000 + mid * 0x100 + lo)
  }

  /** The four bytes ORed into a 32-bit word at their places. */
  lemma WordValue(f: bv8, hi: bv8, mid: bv8, lo: bv8)
    ensures ((f as bv32 << 24) | (hi as bv32 << 16) | (mid as bv32 << 8) | lo as bv32) as int
         == f as int * 0x100_0000 + hi as int * 0x1_0000 + mid as int * 0x100 + lo as int
  {
  }

  /** Bit 7 of a byte is set exactly when the byte is 128 or more. */
  lemma HighBit(b: bv8)
    ensures b & 0x80 != 0 <==> b as int >= 0x80
  {
  }

  // ---------------------------------------------------------------------
  // The sensor

  /** `HX710B_GAIN_128` (1), `HX710B_GAIN_32` (2), `HX710B_GAIN_64` (3). */
  datatype Gain = Gain128 | Gain32 | Gain64

  /** The enumeration value of a gain. */
  function GainCode(g: Gain): nat
  {
    match g
    case Gain128 => 1
    case Gain32 => 2
    case Gain64 => 3
  }

  /** The clock pulses after the data bits: one more than the gain's value. */
  function GainPulses(g: Gain): (n: nat)
    ensures n == GainCode(g) + 1
    ensures g == Gain128 ==> n == 2
    ensures g == Gain32 ==> n == 3
    ensures g == Gain64 ==> n == 4
  {
    GainCode(g) + 1
  }

  /** The clock pulses of one read. */
  function ReadPulses(g: Gain): nat
  {
    DATA_BITS + GainPulses(g)
  }

  /** Some level of DOUT is low. */
  predicate GoesLow(dout: seq<bool>)
  {
    |dout| > 0 && (!dout[0] || GoesLow(dout[1..]))
  }

  /** The first low DOUT level, the one that signals a finished conversion. */
  function FirstLow(dout: seq<bool>): (i: nat)
    requires GoesLow(dout)
    ensures i < |dout| && !dout[i]
  {
    if !dout[0] then 0 else 1 + FirstLow(dout[1..])
  }

  /** Every level before the first low one is high. */
  lemma {:induction false} BeforeFirstLow(dout: seq<bool>, j: nat)
    requires GoesLow(dout) && j < FirstLow(dout)
    ensures dout[j]
  {
    if j > 0 {
      BeforeFirstLow(dout[1..], j - 1);
    }
  }

  /** DOUT holds a ready level followed by a full frame of data bits. */
  predicate HasFrame(dout: seq<bool>)
  {
    GoesLow(dout) && FirstLow(dout) + 1 + DATA_BITS <= |dout|
  }

  /** The data bits of the next frame. */
  function FrameBits(dout: seq<bool>): (bits: seq<bool>)
    requires HasFrame(dout)
    ensures |bits| == DATA_BITS
  {
    dout[FirstLow(dout) + 1..FirstLow(dout) + 1 + DATA_BITS]
  }

  /** What is left of DOUT after the next frame. */
  function AfterFrame(dout: seq<bool>): seq<bool>
    requires HasFrame(dout)
  {
    dout[FirstLow(dout) + 1 + DATA_BITS..]
  }

  /** The value a frame of data bits encodes. */
  function Decode(bits: seq<bool>): (v: int)
    requires |bits| == DATA_BITS
    ensures IsInt24(v)
  {
    Pow2At24();
    MsbBound(bits);
    Signed24(Msb(bits))
  }

  /** The 24-bit two's complement pattern of a value: the inverse of Signed24. */
  function Unsigned24(v: int): (u: nat)
    requires IsInt24(v)
    ensures u < 0x100_0000 && Signed24(u) == v
  {
    if v < 0 then v + 0x100_0000 else v
  }

  /** The data bits a sensor sends for the value v. */
  function Encode(v: int): (bits: seq<bool>)
    requires IsInt24(v)
    ensures |bits| == DATA_BITS
  {
    Pow2At24();
    BitsOf(Unsigned24(v), DATA_BITS)
  }

  lemma Pow2At24()
    ensures Pow2(24) == 0x100_0000
  {
    assert Pow2(6) == 64;
    assert Pow2(12) == 4096;
    assert Pow2(18) == 0x4_0000;
  }

  /** Every 24-bit value survives the wire. */
  lemma DecodeEncode(v: int)
    requires IsInt24(v)
    ensures Decode(Encode(v)) == v
  {
    Pow2At24();
    MsbBitsOf(Unsigned24(v), DATA_BITS);
  }

  /** Every frame is the encoding of the value it decodes to. */
  lemma EncodeDecode(bits: seq<bool>)
    requires |bits| == DATA_BITS
    ensures Encode(Decode(bits)) == bits
  {
    Pow2At24();
    MsbBound(bits);
    var u := Msb(bits);
    assert Unsigned24(Signed24(u)) == u;
    BitsOfMsb(bits);
  }

  /** A byte read after the bits a shifts them up by eight places. */
  lemma MsbThenByte(a: seq<bool>, b: seq<bool>)
    requires |b| == 8
    ensures Msb(a + b) == Msb(a) * 0x100 + Msb(b)
  {
    MsbAppend(a, b);
    assert Pow2(4) == 16;
  }

  lemma ThreeBytes(bits: seq<bool>)
    requires |bits| == DATA_BITS
    ensures bits == (bits[..8] + bits[8..16]) + bits[16..24]
  {
  }

  /** Three bytes read most significant first make the 24-bit frame they came from. */
  lemma BytesOfFrame(bits: seq<bool>)
    requires |bits| == DATA_BITS
    ensures Msb(bits) == Msb(bits[..8]) * 0x1_0000 + Msb(bits[8..16]) * 0x100 + Msb(bits[16..24])
  {
    var hi, mid, lo := bits[..8], bits[8..16], bits[16..24];
    ThreeBytes(bits);
    MsbThenByte(hi, mid);
    MsbThenByte(hi + mid, lo);
  }

  /** The three bytes at the head of DOUT, assembled, are the value of the 24 bits they came from. */
  lemma AssembleFrame(frame: seq<bool>, hi: bv8, mid: bv8, lo: bv8)
    requires |frame| >= DATA_BITS
    requires hi as int == Msb(frame[..8]) && mid as int == Msb(frame[8..16]) && lo as int == Msb(frame[16..24])
    ensures Assemble(hi as int, mid as int, lo as int) == Decode(frame[..DATA_BITS])
  {
    var bits := frame[..DATA_BITS];
    assert bits[..8] == frame[..8] && bits[8..16] == frame[8..16] && bits[16..24] == frame[16..24];
    BytesOfFrame(bits);
  }

  /** Once the ready level has been polled, the next 24 levels are the frame and the rest follows it. */
  lemma ReadyFrame(dout: seq<bool>)
    requires HasFrame(dout)
    ensures FrameBits(dout) == dout[FirstLow(dout) + 1..][..DATA_BITS]
    ensures AfterFrame(dout) == dout[FirstLow(dout) + 1..][DATA_BITS..]
  {
  }

  // ---------------------------------------------------------------------
  // Several reads in a row

  /** DOUT holds n frames, one after the other. */
  predicate HasFrames(dout: seq<bool>, n: nat)
    decreases n
  {
    n == 0 || (HasFrame(dout) && HasFrames(AfterFrame(dout), n - 1))
  }

  /** The values of the next n frames. */
  function Readings(dout: seq<bool>, n: nat): (vs: seq<int>)
    requires HasFrames(dout, n)
    ensures |vs| == n
    ensures forall i :: 0 <= i < n ==> IsInt24(vs[i])
    decreases n
  {
    if n == 0 then [] else [Decode(FrameBits(dout))] + Readings(AfterFrame(dout), n - 1)
  }

  /** What is left of DOUT after the next n frames. */
  function AfterFrames(dout: seq<bool>, n: nat): seq<bool>
    requires HasFrames(dout, n)
    decreases n
  {
    if n == 0 then dout else AfterFrames(AfterFrame(dout), n - 1)
  }

  /** The first i of n frames are frames, and so are the n - i after them. */
  lemma {:induction false} FramesSplit(dout: seq<bool>, i: nat, n: nat)
    requires i <= n && HasFrames(dout, n)
    ensures HasFrames(dout, i)
    ensures HasFrames(AfterFrames(dout, i), n - i)
    decreases i
  {
    if i > 0 {
      FramesSplit(AfterFrame(dout), i - 1, n - 1);
    }
  }

  /** The frame after the first i of i + 1 frames, and what is left after it. */
  lemma {:induction false} AfterFramesSnoc(dout: seq<bool>, i: nat)
    requires HasFrames(dout, i + 1)
    ensures HasFrames(dout, i) && HasFrame(AfterFrames(dout, i))
    ensures AfterFrames(dout, i + 1) == AfterFrame(AfterFrames(dout, i))
    decreases i
  {
    FramesSplit(dout, i, i + 1);
    if i > 0 {
      AfterFramesSnoc(AfterFrame(dout), i - 1);
    }
  }

  /** The readings of i + 1 frames: those of the first i, then that of the last. */
  lemma {:induction false} ReadingsSnoc(dout: seq<bool>, i: nat)
    requires HasFrames(dout, i + 1)
    ensures HasFrames(dout, i) && HasFrame(AfterFrames(dout, i))
    ensures Readings(dout, i + 1) == Readings(dout, i) + [Decode(FrameBits(AfterFrames(dout, i)))]
    decreases i
  {
    AfterFramesSnoc(dout, i);
    if i > 0 {
      ReadingsSnoc(AfterFrame(dout), i - 1);
    }
  }

  /** One more of n frames: where it starts, where it ends, and the sum of the readings with it. */
  lemma FramesStep(dout: seq<bool>, i: nat, n: nat)
    requires i < n && HasFrames(dout, n)
    ensures HasFrames(dout, i) && HasFrames(dout, i + 1) && HasFrame(AfterFrames(dout, i))
    ensures AfterFrames(dout, i + 1) == AfterFrame(AfterFrames(dout, i))
    ensures Sum(Readings(dout, i + 1)) == Sum(Readings(dout, i)) + Decode(FrameBits(AfterFrames(dout, i)))
  {
    FramesSplit(dout, i + 1, n);
    AfterFramesSnoc(dout, i);
    ReadingsSnoc(dout, i);
    SumSnoc(Readings(dout, i), Decode(FrameBits(AfterFrames(dout, i))));
  }

  /** w written n times. */
  function Repeat(w: seq<bool>, n: nat): seq<bool>
  {
    if n == 0 then [] else Repeat(w, n - 1) + w
  }

  lemma RepeatSnoc(log: seq<bool>, w: seq<bool>, n: nat)
    ensures (log + Repeat(w, n)) + w == log + Repeat(w, n + 1)
  {
  }

  function Sum(vs: seq<int>): int
  {
    if |vs| == 0 then 0 else Sum(vs[..|vs| - 1]) + vs[|vs| - 1]
  }

  lemma SumSnoc(vs: seq<int>, x: int)
    ensures Sum(vs + [x]) == Sum(vs) + x
  {
    assert (vs + [x])[..|vs|] == vs;
  }

  /** A sum of 24-bit values is bounded by their number. */
  lemma {:induction false} SumBound(vs: seq<int>)
    requires forall i :: 0 <= i < |vs| ==> IsInt24(vs[i])
    ensures -(|vs| * 0x80_0000) <= Sum(vs) <= |vs| * 0x7F_FFFF
  {
    if |vs| > 0 {
      SumBound(vs[..|vs| - 1]);
    }
  }

  lemma MulMono(q: int, m: int, n: int)
    requires n > 0 && q >= m
    ensures q * n >= m * n
  {
  }

  /**
    The truncated average of n 24-bit values is a 24-bit value, and the sum
    of up to 255 of them fits in a 32-bit `long`.
   */
  lemma AverageInRange(vs: seq<int>)
    requires 0 < |vs| && forall i :: 0 <= i < |vs| ==> IsInt24(vs[i])
    ensures |vs| < 256 ==> IsInt32(Sum(vs))
    ensures IsInt24(Div(Sum(vs), |vs|))
  {
    var n, s := |vs|, Sum(vs);
    SumBound(vs);
    var q := Div(s, n);
    if q >= 0x80_0000 {
      MulMono(q, 0x80_0000, n);
    } else if q < -0x80_0000 {
      MulMono(-0x80_0000 - 1, q, n);
    }
  }

  /** `hx710b_t`: the two GPIO numbers and the gain. */
  class Hx710b {
    var sck: nat
    var dout: nat
    var gain: Gain

    /** `hx710b_init`: stores the pins and the gain (the GPIO configuration is not modelled). */
    method Init(sck: nat, dout: nat, gain: Gain)
      modifies this
      ensures this.sck == sck && this.dout == dout && this.gain == gain
    {
      this.sck := sck;
      this.dout := dout;
      this.gain := gain;
    }

    /** `hx710b_is_ready`: a conversion is ready when DOUT reads low. */
    method IsReady(lines: Lines) returns (ready: bool)
      requires |lines.dout| > 0
      modifies lines
      ensures ready <==> !old(lines.dout[0])
      ensures lines.dout == old(lines.dout[1..])
      ensures lines.sck == old(lines.sck)
    {
      var level := lines.GetData();
      ready := !level;
    }

    /** `hx710b_wait_ready`: polls DOUT until it reads low (the delay between polls is not modelled). */
    method WaitReady(lines: Lines, delayMs: nat)
      requires GoesLow(lines.dout)
      modifies lines
      ensures lines.dout == old(lines.dout[FirstLow(lines.dout) + 1..])
      ensures lines.sck == old(lines.sck)
    {
      ghost var d := lines.dout;
      ghost var polled := 0;
      var ready := false;
      while !ready
        invariant polled <= FirstLow(d) + 1
        invariant lines.dout == d[polled..]
        invariant ready ==> polled == FirstLow(d) + 1
        invariant !ready ==> GoesLow(lines.dout) && FirstLow(d) == polled + FirstLow(lines.dout)
        invariant lines.sck == old(lines.sck)
        decreases |lines.dout|
      {
        ready := IsReady(lines);
        polled := polled + 1;
      }
    }

    /**
      The data phase of `hx710b_read`: the loop `for (i = 3; i--;)` shifts in
      `data[2]`, then `data[1]`, then `data[0]`, each most significant bit
      first, so the first byte on the wire is the most significant.
     */
    method ShiftInData(lines: Lines, data: array<bv8>)
      requires data.Length == 3 && |lines.dout| >= DATA_BITS
      modifies lines, data
      ensures data[2] as int == Msb(old(lines.dout[..8]))
      ensures data[1] as int == Msb(old(lines.dout[8..16]))
      ensures data[0] as int == Msb(old(lines.dout[16..24]))
      ensures lines.dout == old(lines.dout[DATA_BITS..])
      ensures lines.sck == old(lines.sck) + Pulses(DATA_BITS)
    {
      ghost var frame := lines.dout;
      ghost var pos := 0;
      var i := 3;
      while i > 0
        invariant 0 <= i <= 3 && pos == 24 - 8 * i
        invariant lines.dout == frame[pos..]
        invariant lines.sck == old(lines.sck) + Pulses(pos)
        invariant i <= 2 ==> data[2] as int == Msb(frame[..8])
        invariant i <= 1 ==> data[1] as int == Msb(frame[8..16])
        invariant i == 0 ==> data[0] as int == Msb(frame[16..24])
      {
        i := i - 1;
        NextByte(frame, pos);
        PulsesAppend(old(lines.sck), pos, 8);
        data[i] := ShiftInSlow(lines, MsbFirst);
        pos := pos + 8;
      }
    }

    /**
      The gain phase of `hx710b_read`: `gain + 1` more SCK pulses, which
      select the gain of the next conversion.
     */
    method ClockGain(lines: Lines)
      modifies lines
      ensures lines.sck == old(lines.sck) + Pulses(GainPulses(gain))
      ensures lines.dout == old(lines.dout)
    {
      var k := 0;
      while k <= GainCode(gain)
        invariant k <= GainCode(gain) + 1
        invariant lines.sck == old(lines.sck) + Pulses(k)
        invariant lines.dout == old(lines.dout)
      {
        lines.Pulse();
        PulsesAppend(old(lines.sck), k, 1);
        k := k + 1;
      }
    }

    /**
      The part of `hx710b_read` after the wait: shifts in three bytes most
      significant first into `data[2]`, `data[1]`, `data[0]`, pulses SCK
      `gain + 1` more times, and sign-extends the 24 bits.
     */
    method ShiftInFrame(lines: Lines) returns (value: int)
      requires |lines.dout| >= DATA_BITS
      modifies lines
      ensures value == Decode(old(lines.dout[..DATA_BITS]))
      ensures lines.dout == old(lines.dout[DATA_BITS..])
      ensures lines.sck == old(lines.sck) + Pulses(ReadPulses(gain))
    {
      var data := new bv8[3];
      ShiftInData(lines, data);
      var hi, mid, lo := data[2] as int, data[1] as int, data[0] as int;
      ClockGain(lines);
      PulsesAppend(old(lines.sck), DATA_BITS, GainPulses(gain));
      AssembleFrame(old(lines.dout), data[2], data[1], data[0]);
      value := Assemble(hi, mid, lo);
    }

    /** `hx710b_read`: waits for a conversion, then reads its frame. */
    method Read(lines: Lines) returns (value: int)
      requires HasFrame(lines.dout)
      modifies lines
      ensures value == Decode(FrameBits(old(lines.dout)))
      ensures lines.dout == AfterFrame(old(lines.dout))
      ensures lines.sck == old(lines.sck) + Pulses(ReadPulses(gain))
    {
      WaitReady(lines, 10);
      ReadyFrame(old(lines.dout));
      value := ShiftInFrame(lines);
    }

    /**
      `hx710b_read_average`: `times` reads summed in a `long`, then the sum
      divided by `times` with C's truncating division (the 1 ms pause after
      each read is not modelled). `times` is a `uint8_t`; 0 would divide by
      zero.
     */
    method ReadAverage(lines: Lines, times: int) returns (avg: int)
      requires IsU8(times) && times > 0
      requires HasFrames(lines.dout, times)
      modifies lines
      ensures avg == Div(Sum(Readings(old(lines.dout), times)), times)
      ensures IsInt24(avg)
      ensures lines.dout == AfterFrames(old(lines.dout), times)
      ensures lines.sck == old(lines.sck) + Repeat(Pulses(ReadPulses(gain)), times)
    {
      ghost var d := lines.dout;
      ghost var pulses := Pulses(ReadPulses(gain));
      var sum := 0;
      var i := 0;
      while i < times
        invariant 0 <= i <= times && HasFrames(d, i)
        invariant lines.dout == AfterFrames(d, i)
        invariant sum == Sum(Readings(d, i))
        invariant lines.sck == old(lines.sck) + Repeat(pulses, i)
      {
        FramesStep(d, i, times);
        RepeatSnoc(old(lines.sck), pulses, i);
        var v := Read(lines);
        sum := sum + v;
        i := i + 1;
      }
      AverageInRange(Readings(d, times));
      avg := Div(sum, times);
    }

    /** `hx710b_power_down`: SCK low, then high; the sensor powers down while SCK stays high. */
    method PowerDown(lines: Lines)
      modifies lines
      ensures lines.sck == old(lines.sck) + [false, true]
      ensures lines.dout == old(lines.dout)
    {
      lines.SetClock(false);
      lines.SetClock(true);
    }

    /** `hx710b_power_up`: SCK low wakes the sensor. */
    method PowerUp(lines: Lines)
      modifies lines
      ensures lines.sck == old(lines.sck) + [false]
      ensures lines.dout == old(lines.dout)
    {
      lines.SetClock(false);
    }
  }
}
