/** What the header tests of server-go/bus/wire.go come to, in the bits of the flag word and in numbers. */
module FrameRules {
  import opened Words
  import opened FrameCodec

  /** The masks of `Validate`, as arithmetic on the flag word. */
  lemma Masks(h: u16)
    ensures And(h, UNKNOWN_MASK) == 0 <==> h < 256
    ensures And(h, PLACEMENT_MASK) == h % 4 && And(h, PATTERN_MASK) == h / 4 % 16 * 4
  {
    hide And, Pow2;
    Powers();
    HighByte(h);
    AndMask(h, 2);
    AndEven(h, 30); AndEven(h / 2, 15); AndMask(h / 4, 4);
    assert h / 2 / 2 == h / 4;
  }

  lemma Powers()
    ensures Pow2(1) == 2 && Pow2(2) == 4 && Pow2(4) == 16 && Pow2(7) == 128 && Pow2(8) == 256
  {}

  lemma FourDown(x: nat, y: nat)
    ensures And(x, 16 * y) == 16 * And(x / 16, y)
  {
    hide And;
    var a := x / 2;
    var b := a / 2;
    var c := b / 2;
    var d := c / 2;
    TwiceDown(x, a, 8 * y);
    TwiceDown(a, b, 4 * y);
    TwiceDown(b, c, 2 * y);
    TwiceDown(c, d, y);
    Sixteenth(x, a, b, c, d);
  }

  lemma Sixteenth(x: nat, a: nat, b: nat, c: nat, d: nat)
    requires 2 * a <= x <= 2 * a + 1 && 2 * b <= a <= 2 * b + 1 && 2 * c <= b <= 2 * c + 1 && 2 * d <= c <= 2 * d + 1
    ensures x / 16 == d
  {
    assert 16 * d <= x < 16 * d + 16;
  }

  lemma TwiceDown(x: nat, half: nat, y: nat)
    requires half == x / 2
    ensures And(x, 2 * y) == 2 * And(half, y)
  {
    hide And;
    AndEven(x, y);
  }

  lemma HighByte(h: u16)
    ensures And(h, UNKNOWN_MASK) == h / 256 * 256
  {
    hide And, Pow2;
    Powers();
    FourDown(h, 0xFF0);
    FourDown(h / 16, 0xFF);
    AndMask(h / 256, 8);
  }

  lemma SmallSingleBits()
    ensures !SingleBit(0) && SingleBit(1) && SingleBit(2) && !SingleBit(3)
  {}

  /** The pattern nibble, when exactly one of its bits is set. */
  lemma Nibble(h: u16)
    requires h / 4 % 2 + h / 8 % 2 + h / 16 % 2 + h / 32 % 2 == 1
    ensures h / 4 % 16 * 4 == F_REQUEST <==> h / 8 % 2 == 1
    ensures h / 4 % 16 * 4 == F_REPLY <==> h / 16 % 2 == 1
  {
    var q := h / 4;
    assert h / 8 == q / 2 && h / 16 == q / 4 && h / 32 == q / 8;
    NibbleBits(q);
    FourBits(q % 16);
  }

  lemma NibbleBits(q: nat)
    ensures var n := q % 16;
      q % 2 == n % 2 && q / 2 % 2 == n / 2 % 2 && q / 4 % 2 == n / 4 % 2 && q / 8 % 2 == n / 8 % 2
  {
    var a, n := q / 16, q % 16;
    BitOf(q, 8 * a, n, 1);
    BitOf(q, 4 * a, n, 2);
    BitOf(q, 2 * a, n, 4);
    BitOf(q, a, n, 8);
  }

  lemma BitOf(q: nat, a: nat, n: nat, p: nat)
    requires (p == 1 || p == 2 || p == 4 || p == 8) && q == 2 * p * a + n
    ensures q / p % 2 == n / p % 2
  {
    var m, r := n / p, n % p;
    assert n == p * m + r;
    assert q == p * (2 * a + m) + r;
    ModUnique(q, p, 2 * a + m, r);
  }

  lemma FourBits(n: nat)
    requires n < 16
    ensures n == n % 2 + n / 2 % 2 * 2 + n / 4 % 2 * 4 + n / 8 % 2 * 8
  {}

  lemma OtherFlags(h: u16)
    ensures Has(h, F_MORE) <==> h / 128 % 2 == 1
    ensures Has(h, F_ARENA) <==> h / 2 % 2 == 1
  {
    hide And, Pow2;
    Powers();
    FlagBit(h, 7);
    FlagBit(h, 1);
  }

  /** Which frames are valid, field by field: version 3; no flag above bit 7; exactly one of notification, request,
      reply and cancel (bits 2 to 5); a payload of at most 1 MiB in exactly one place (bit 0 inline, bit 1 arena), or
      none, with no place and no reference; FMore (bit 7) only on inline requests and replies with a payload; a
      generation only with an arena payload; and correlation 0 exactly for notifications. */
  lemma ValidExactly(f: Frame)
    ensures var h := f.hdrFlags;
      Validate(f) == OK <==>
        && f.wireVersion == 3 && h < 256
        && h / 4 % 2 + h / 8 % 2 + h / 16 % 2 + h / 32 % 2 == 1
        && (if f.payloadLen > 0 then h % 2 + h / 2 % 2 == 1 && f.payloadLen <= 1_048_576
            else h % 4 == 0 && f.payloadRef == 0)
        && (h / 128 % 2 == 1 ==> h / 8 % 2 + h / 16 % 2 == 1 && h % 2 == 1 && f.payloadLen > 0)
        && (h / 2 % 2 == 1 || f.generation == 0)
        && (h / 4 % 2 == 1 <==> f.correlationId == 0)
  {
    Tests(f.hdrFlags);
    hide And, SingleBit, Has, Patterns;
    var h := f.hdrFlags;
    if h / 4 % 2 + h / 8 % 2 + h / 16 % 2 + h / 32 % 2 == 1 { Nibble(h); }
  }

  /** Every test of `Validate`. */
  lemma Tests(h: u16)
    ensures And(h, UNKNOWN_MASK) == 0 <==> h < 256
    ensures And(h, PLACEMENT_MASK) == h % 4 && And(h, PATTERN_MASK) == h / 4 % 16 * 4
    ensures SingleBit(And(h, PATTERN_MASK)) <==> h / 4 % 2 + h / 8 % 2 + h / 16 % 2 + h / 32 % 2 == 1
    ensures SingleBit(And(h, PLACEMENT_MASK)) <==> h % 2 + h / 2 % 2 == 1
    ensures Has(h, F_MORE) <==> h / 128 % 2 == 1
    ensures Has(h, F_ARENA) <==> h / 2 % 2 == 1
    ensures Has(h, F_NOTIFICATION) <==> h / 4 % 2 == 1
  {
    Masks(h);
    PatternTest(h);
    PlacementTest(h);
    OtherFlags(h);
    hide And, SingleBit;
    FlagBits(h);
  }

  lemma PatternTest(h: u16)
    ensures SingleBit(And(h, PATTERN_MASK)) <==> h / 4 % 2 + h / 8 % 2 + h / 16 % 2 + h / 32 % 2 == 1
  {
    hide And, SingleBit, Has;
    OnePattern(h);
    FlagBits(h);
  }

  lemma PlacementTest(h: u16)
    ensures SingleBit(And(h, PLACEMENT_MASK)) <==> h % 2 + h / 2 % 2 == 1
  {
    hide And, SingleBit;
    Masks(h);
    SmallSingleBits();
    assert h % 4 == h % 2 + 2 * (h / 2 % 2);
  }

  /** Which error a refused frame gets: the first of these that applies. */
  lemma RefusedWith(f: Frame)
    ensures var h := f.hdrFlags;
      var patterns := h / 4 % 2 + h / 8 % 2 + h / 16 % 2 + h / 32 % 2;
      Validate(f) ==
        if f.wireVersion != 3 then ErrVersion
        else if h >= 256 || patterns != 1 then ErrFlags
        else if f.payloadLen > 0 && h % 2 + h / 2 % 2 != 1 then ErrFlags
        else if f.payloadLen > 1_048_576 then ErrPayloadLen
        else if f.payloadLen == 0 && h % 4 != 0 then ErrFlags
        else if f.payloadLen == 0 && f.payloadRef != 0 then ErrPayloadLen
        else if h / 128 % 2 == 1 && (h / 8 % 2 + h / 16 % 2 == 0 || h % 2 == 0 || f.payloadLen == 0) then ErrFlags
        else if h / 2 % 2 == 0 && f.generation != 0 then ErrFlags
        else if (h / 4 % 2 == 1) != (f.correlationId == 0) then ErrCorrelation
        else OK
  {
    Tests(f.hdrFlags);
    hide And, SingleBit, Has, Patterns;
    var h := f.hdrFlags;
    if h / 4 % 2 + h / 8 % 2 + h / 16 % 2 + h / 32 % 2 == 1 { Nibble(h); }
  }

  /** What `Decode` makes of bytes, and which fields it reads where. */
  lemma DecodeExactly(b: seq<byte>)
    ensures Decode(b) == Rejected(ErrShort) <==> |b| < 64
    ensures |b| >= 64 && Get32(b, 0) != 0x3053_5542 ==> Decode(b) == Rejected(ErrMagic)
    ensures |b| >= 64 && Get32(b, 0) == 0x3053_5542 ==>
              var f := Frame(Get16(b, 4), Get16(b, 6), Get32(b, 8), Get32(b, 12), Get64(b, 16), Get64(b, 24),
                             Get64(b, 32), Get64(b, 40), Get32(b, 48), Get32(b, 52), Get32(b, 56), Get32(b, 60));
              Decode(b) == if Validate(f) == OK then Decoded(f) else Rejected(Validate(f))
  {
    hide Validate, UnLE;
    NoShort(b);
  }

  lemma NoShort(b: seq<byte>)
    ensures forall f: Frame :: Validate(f) != ErrShort
  {
    hide And, SingleBit;
  }
}
