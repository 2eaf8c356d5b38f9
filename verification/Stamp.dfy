// The picture time stamp (latency.py): a 48-bit time and its CRC-8 painted as wide blocks into the luma plane,
// and read back by thresholding against the frame's own sync blocks.
module Stamp {
  import opened Prelude
  import opened Crc8

  const BLOCKS := 64
  const USED := 60
  const HIGH: byte := 235
  const LOW: byte := 16
  const SYNC: seq<bool> := [true, false, true, false]
  const TIME_LIMIT: nat := 0x1_0000_0000_0000

  datatype StampError = TooNarrow | TimeTooWide

  // ----- The code word -----

  /** `value = (ms << CRC_BITS) | crc8(raw)`, as 56 bits. */
  function CodeWord(ms: nat): (s: seq<bool>)
    ensures |s| == 56
  {
    ToBits(ms * 256 + Check(ms), 56)
  }

  /** `[(value >> shift) & 1 for shift in range(n - 1, -1, -1)]`. */
  function ShiftedBits(value: nat, n: nat): (s: seq<bool>)
    ensures |s| == n
  {
    seq(n, i requires 0 <= i < n => ShiftRight(value, n - 1 - i) % 2 == 1)
  }

  lemma ShiftedBitsAreBits(value: nat, n: nat)
    ensures ShiftedBits(value, n) == ToBits(value, n)
  {
    forall i | 0 <= i < n
      ensures ShiftedBits(value, n)[i] == ToBits(value, n)[i]
    {
      ToBitsAt(value, n, i);
    }
  }

  /** `bits_for`: sync, time and CRC, with the bits taken by shifting as the source does. */
  function BitsFor(ms: nat): (s: seq<bool>)
    ensures |s| == USED
  {
    SYNC + ShiftedBits(ms * 256 + Check(ms), 56)
  }

  lemma BitsForIsCodeWord(ms: nat)
    ensures BitsFor(ms) == SYNC + CodeWord(ms)
  {
    ShiftedBitsAreBits(ms * 256 + Check(ms), 56);
  }

  /** `crc8(ms.to_bytes(6, "big"))`, as a number. */
  function Check(ms: nat): (check: nat)
    ensures check < 256
  {
    ValueBound(Crc(ToBytes(ms, 6)));
    Crc(ToBytes(ms, 6)).Value()
  }

  /** The end of `read_stamp`: the time in 56 received bits, unless the CRC rejects them. */
  function Accept(bits: seq<bool>): Option<nat>
    requires |bits| == 56
  {
    var value := FromBits(bits);
    if Check(value / 256) == value % 256 then Some(value / 256) else None
  }

  lemma ValueBound(c: Register)
    ensures c.Value() < 256 && ToBits(c.Value(), 8) == c.Bits(8)
  {
    ToBitsOfFromBits(c.Bits(8));
    FromBitsBound(c.Bits(8));
  }

  lemma {:induction false} FromBitsBound(s: seq<bool>)
    requires |s| <= 8
    ensures FromBits(s) < [1, 2, 4, 8, 16, 32, 64, 128, 256][|s|]
  {
    if s == [] {
    } else {
      FromBitsBound(s[..|s| - 1]);
    }
  }

  /** The remainder of a time followed by eight check bits compares them with the time's CRC. */
  lemma RemainderOfTimeAndCheck(ms: nat, check: seq<bool>)
    requires |check| == 8
    ensures Remainder(ToBits(ms, 48) + check) == Crc(ToBytes(ms, 6)).Xor(Load(check))
  {
    RemainderAppend(ToBits(ms, 48), check);
    CrcIsRemainder(ToBytes(ms, 6));
    BitsOfToBytes(ms, 6);
  }

  lemma LoadIsValue(c: Register, check: nat)
    requires check < 256
    ensures Load(ToBits(check, 8)) == c <==> check == c.Value()
  {
    ValueBound(c);
    LoadBits(c, 8);
    if Load(ToBits(check, 8)) == c {
      LoadInjective(ToBits(check, 8), c.Bits(8));
      ShiftRightZero(check, 8, 256);
      FromBitsOfToBits(check, 8);
    }
  }

  /** The reader accepts exactly the multiples of the generator, and reads their first 48 bits. */
  lemma AcceptIffRemainderZero(bits: seq<bool>)
    requires |bits| == 56
    ensures Accept(bits).Some? <==> Remainder(bits) == ZERO
    ensures Accept(bits).Some? ==> ToBits(Accept(bits).value, 48) == bits[..48]
  {
    var value := FromBits(bits);
    var ms, check := value / 256, value % 256;
    ToBitsOfFromBits(bits);
    ToBitsByte(value, 48);
    RemainderOfTimeAndCheck(ms, ToBits(check, 8));
    XorSame(Crc(ToBytes(ms, 6)), Load(ToBits(check, 8)));
    LoadIsValue(Crc(ToBytes(ms, 6)), check);
  }

  lemma XorSame(a: Register, b: Register)
    ensures a.Xor(b) == ZERO <==> a == b
  {
  }

  lemma {:induction false} LoadInjective(a: seq<bool>, b: seq<bool>)
    requires |a| == |b| <= 8 && Load(a) == Load(b)
    ensures a == b
  {
    if a == [] {
    } else {
      var n := |a| - 1;
      LoadBelow(a[..n]);
      LoadBelow(b[..n]);
      LoadInjective(a[..n], b[..n]);
      assert a == a[..n] + [a[n]] && b == b[..n] + [b[n]];
    }
  }

  lemma HalvedBelow(v: nat, half: nat)
    requires v < 2 * half
    ensures v / 2 < half
  {
  }

  lemma {:induction false} ShiftRightZero(v: nat, n: nat, p: nat)
    requires v < p && n <= 56 && p == PowerOfTwo(n)
    ensures ShiftRight(v, n) == 0
  {
    if n == 0 {
    } else {
      hide PowerOfTwo;
      var half := PowerOfTwo(n - 1);
      PowerOfTwoStep(n);
      HalvedBelow(v, half);
      ShiftRightZero(v / 2, n - 1, half);
    }
  }

  function PowerOfTwo(n: nat): nat
  {
    if n == 0 then 1 else 2 * PowerOfTwo(n - 1)
  }

  lemma PowerOfTwoStep(n: nat)
    requires n > 0
    ensures PowerOfTwo(n) == 2 * PowerOfTwo(n - 1)
  {
  }

  lemma PowerOfTwo56()
    ensures PowerOfTwo(56) == TIME_LIMIT * 256
  {
    assert PowerOfTwo(14) == 0x4000;
    assert PowerOfTwo(28) == 0x1000_0000;
    assert PowerOfTwo(42) == 0x400_0000_0000;
  }

  lemma ToBitsRoundTrip(v: nat, n: nat)
    requires n == 56 && v < TIME_LIMIT * 256
    ensures FromBits(ToBits(v, n)) == v
  {
    PowerOfTwo56();
    ShiftRightZero(v, n, TIME_LIMIT * 256);
    FromBitsOfToBits(v, n);
  }

  lemma AcceptValue(bits: seq<bool>, ms: nat, check: nat)
    requires |bits| == 56 && FromBits(bits) == ms * 256 + check && check == Check(ms)
    ensures Accept(bits) == Some(ms)
  {
    assert FromBits(bits) / 256 == ms && FromBits(bits) % 256 == check;
  }

  /** Without errors the reader returns the stamped time. */
  lemma AcceptCodeWord(ms: nat)
    requires ms < TIME_LIMIT
    ensures Accept(CodeWord(ms)) == Some(ms) && Remainder(CodeWord(ms)) == ZERO
  {
    ToBitsRoundTrip(ms * 256 + Check(ms), 56);
    AcceptValue(CodeWord(ms), ms, Check(ms));
    AcceptIffRemainderZero(CodeWord(ms));
  }

  // ----- Error detection -----

  /** A received word is accepted exactly when its error pattern is a multiple of the generator. */
  lemma ErrorUndetectedIff(ms: nat, received: seq<bool>)
    requires ms < TIME_LIMIT && |received| == 56
    ensures Accept(received).Some? <==> Remainder(Xor(CodeWord(ms), received)) == ZERO
  {
    AcceptCodeWord(ms);
    RemainderXor(CodeWord(ms), received);
    AcceptIffRemainderZero(received);
    XorSame(ZERO, Remainder(received));
  }

  lemma PatternDetected(error: seq<bool>, first: nat)
    requires |error| == 56 && true in error
    requires Weight(error) <= 3 || Weight(error) % 2 == 1 || Burst(error, first, 8)
    ensures Remainder(error) != ZERO
  {
    WeightZero(error);
    if Weight(error) == 2 {
      TwoPlacesDetected(error);
    } else if Weight(error) % 2 == 1 {
      OddPlacesDetected(error);
    } else {
      BurstDetected(error, first);
    }
  }

  /** One, two, three or any odd number of wrong bits, or one burst of at most eight: never a wrong time. */
  lemma ErrorsDetected(ms: nat, received: seq<bool>, first: nat)
    requires ms < TIME_LIMIT && |received| == 56 && received != CodeWord(ms)
    requires var error := Xor(CodeWord(ms), received);
             Weight(error) <= 3 || Weight(error) % 2 == 1 || Burst(error, first, 8)
    ensures Accept(received) == None
  {
    var error := Xor(CodeWord(ms), received);
    var i :| 0 <= i < 56 && received[i] != CodeWord(ms)[i];
    assert error[i];
    PatternDetected(error, first);
    ErrorUndetectedIff(ms, received);
  }

  /** The generator shifted by seven places: four errors inside nine adjacent bits. */
  const GENERATOR_SHIFTED: seq<bool> :=
    seq(56, i => i == 40 || i == 46 || i == 47 || i == 48)

  lemma XorTwice(a: seq<bool>, b: seq<bool>)
    requires |a| == |b|
    ensures Xor(a, Xor(a, b)) == b
  {
  }

  /** The bounds are sharp: four wrong bits, or a burst of nine, can be read as another time. */
  lemma FourErrorsUndetected(ms: nat) returns (received: seq<bool>)
    requires ms < TIME_LIMIT
    ensures |received| == 56 && Accept(received).Some? && Accept(received) != Some(ms)
    ensures var error := Xor(CodeWord(ms), received); Weight(error) == 4 && Burst(error, 40, 9)
  {
    received := Xor(CodeWord(ms), GENERATOR_SHIFTED);
    XorTwice(CodeWord(ms), GENERATOR_SHIFTED);
    GeneratorPattern();
    ErrorUndetectedIff(ms, received);
    AcceptIffRemainderZero(received);
    AcceptCodeWord(ms);
    AcceptIffRemainderZero(CodeWord(ms));
    assert received[40] != CodeWord(ms)[40];
    assert received[..48][40] == received[40] && CodeWord(ms)[..48][40] == CodeWord(ms)[40];
  }

  lemma GeneratorPattern()
    ensures Weight(GENERATOR_SHIFTED) == 4 && Remainder(GENERATOR_SHIFTED) == ZERO
  {
    var e := GENERATOR_SHIFTED;
    WeightZero(e[..40]);
    var head := e[..41];
    assert head[..40] == e[..40];
    assert Remainder(head) == ONE && Weight(head) == 1;
    var middle := [false, false, false, false, false, true, true, true];
    assert e[..49] == head + middle;
    GeneratorLoad(middle);
    RemainderAppend(head, middle);
    WeightAppend(head, middle);
    var tail := [false, false, false, false, false, false, false];
    assert e == e[..49] + tail;
    GeneratorTail(tail);
    RemainderAppend(e[..49], tail);
    WeightAppend(e[..49], tail);
  }

  lemma GeneratorLoad(w: seq<bool>)
    requires w == [false, false, false, false, false, true, true, true]
    ensures Load(w) == Steps(ONE, 8) && Weight(w) == 3
  {
    LoadZero(w[..5]);
    WeightZero(w[..5]);
    assert w[..6][..5] == w[..5] && w[..7][..6] == w[..6] && w[..8] == w && w[..8][..7] == w[..7];
    assert Weight(w[..6]) == 1 && Weight(w[..7]) == 2;
    assert Load(w[..6]) == ONE && Load(w[..7]) == ONE.Shift(true);
    assert Steps(Register(false, false, false, false, false, false, false, true), 8)
        == Register(false, false, false, false, false, true, true, true);
  }

  lemma GeneratorTail(w: seq<bool>)
    requires w == [false, false, false, false, false, false, false]
    ensures Load(w) == ZERO && Weight(w) == 0 && Steps(ZERO, 7) == ZERO
  {
    LoadZero(w);
    WeightZero(w);
    StepsZero(7);
  }

  lemma {:induction false} WeightAppend(a: seq<bool>, b: seq<bool>)
    ensures Weight(a + b) == Weight(a) + Weight(b)
  {
    if b == [] {
      assert a + b == a;
    } else {
      assert (a + b)[..|a + b| - 1] == a + b[..|b| - 1];
      WeightAppend(a, b[..|b| - 1]);
    }
  }
}
