// The CRC-8 of the picture time stamp (latency.py): the byte-wise register of the source, the polynomial
// remainder it computes, and the error patterns that remainder can never miss.
module Crc8 {

  // ----- Numbers and bit strings, most significant bit first -----

  type byte = x: int | 0 <= x < 256

  function ToBits(v: nat, n: nat): (s: seq<bool>)
    ensures |s| == n
    decreases n, v
  {
    if n == 0 then [] else ToBits(v / 2, n - 1) + [v % 2 == 1]
  }

  function FromBits(s: seq<bool>): nat
  {
    if s == [] then 0 else 2 * FromBits(s[..|s| - 1]) + (if s[|s| - 1] then 1 else 0)
  }

  /** `v >> n`, one position at a time. */
  function ShiftRight(v: nat, n: nat): nat
    decreases n, v
  {
    if n == 0 then v else ShiftRight(v / 2, n - 1)
  }

  /** `v.to_bytes(n, "big")` for a value that fits. */
  function ToBytes(v: nat, n: nat): seq<byte>
    decreases n, v
  {
    if n == 0 then [] else ToBytes(v / 256, n - 1) + [v % 256]
  }

  function BitsOfBytes(data: seq<byte>): seq<bool>
  {
    if data == [] then [] else BitsOfBytes(data[..|data| - 1]) + ToBits(data[|data| - 1], 8)
  }

  lemma {:induction false} ToBitsAt(v: nat, n: nat, i: nat)
    requires i < n
    ensures ToBits(v, n)[i] <==> ShiftRight(v, n - 1 - i) % 2 == 1
  {
    if i >= n - 1 {
    } else {
      ToBitsAt(v / 2, n - 1, i);
    }
  }

  lemma {:induction false} ToBitsOfFromBits(s: seq<bool>)
    ensures ToBits(FromBits(s), |s|) == s
  {
    if s == [] {
    } else {
      ToBitsOfFromBits(s[..|s| - 1]);
      assert s == s[..|s| - 1] + [s[|s| - 1]];
    }
  }

  lemma {:induction false} FromBitsOfToBits(v: nat, n: nat)
    requires ShiftRight(v, n) == 0
    ensures FromBits(ToBits(v, n)) == v
  {
    if n == 0 {
    } else {
      FromBitsOfToBits(v / 2, n - 1);
      assert ToBits(v, n)[..n - 1] == ToBits(v / 2, n - 1);
    }
  }

  lemma {:induction false} FromBitsZero(s: seq<bool>)
    ensures FromBits(s) == 0 <==> true !in s
  {
    if s == [] {
    } else {
      FromBitsZero(s[..|s| - 1]);
      assert s == s[..|s| - 1] + [s[|s| - 1]];
    }
  }

  /** Cutting off the low byte of a number cuts off its last eight bits. */
  lemma ToBitsByte(v: nat, m: nat)
    ensures ToBits(v, m + 8) == ToBits(v / 256, m) + ToBits(v % 256, 8)
  {
    ToBitsSplit1(v, m, 8);
  }

  lemma {:induction false} ToBitsSplit1(v: nat, m: nat, k: nat)
    requires k <= 8
    ensures var p := [1, 2, 4, 8, 16, 32, 64, 128, 256][k]; ToBits(v, m + k) == ToBits(v / p, m) + ToBits(v % p, k)
  {
    if k == 0 {
    } else {
      var p := [1, 2, 4, 8, 16, 32, 64, 128, 256][k - 1];
      ToBitsSplit1(v / 2, m, k - 1);
      assert [1, 2, 4, 8, 16, 32, 64, 128, 256][k] == 2 * p;
      HalfThenDivide(v, p);
      assert ToBits(v, m + k) == ToBits(v / 2, m + k - 1) + [v % 2 == 1];
      assert (v % (2 * p)) % 2 == v % 2;
    }
  }

  lemma HalfThenDivide(v: nat, p: nat)
    requires p in {1, 2, 4, 8, 16, 32, 64, 128}
    ensures v / (2 * p) == v / 2 / p && (v % (2 * p)) / 2 == (v / 2) % p && (v % (2 * p)) % 2 == v % 2
  {
  }

  lemma {:induction false} BitsOfToBytes(v: nat, n: nat)
    ensures BitsOfBytes(ToBytes(v, n)) == ToBits(v, 8 * n)
  {
    if n == 0 {
    } else {
      BitsOfToBytes(v / 256, n - 1);
      ToBitsByte(v, 8 * (n - 1));
      var data := ToBytes(v, n);
      assert data[..|data| - 1] == ToBytes(v / 256, n - 1);
    }
  }

  // ----- The register -----

  /** The eight bits of the `crc` variable, from 0x80 down to 0x01. */
  datatype Register = Register(b7: bool, b6: bool, b5: bool, b4: bool, b3: bool, b2: bool, b1: bool, b0: bool) {

    /** `(this << 1) & 0xFF`, with a bit shifted in. */
    function Shift(bit: bool): Register
    {
      Register(b6, b5, b4, b3, b2, b1, b0, bit)
    }

    /** `this ^ other`. */
    function Xor(other: Register): Register
    {
      Register(b7 != other.b7, b6 != other.b6, b5 != other.b5, b4 != other.b4,
               b3 != other.b3, b2 != other.b2, b1 != other.b1, b0 != other.b0)
    }

    /** `this >> 1`. */
    function Half(): Register
    {
      Register(false, b7, b6, b5, b4, b3, b2, b1)
    }

    /** The low n bits. */
    function Bits(n: nat): (s: seq<bool>)
      ensures |s| == n
      decreases n, this
    {
      if n == 0 then [] else Half().Bits(n - 1) + [b0]
    }

    function Value(): nat
    {
      FromBits(Bits(8))
    }

    predicate Odd()
    {
      ((b7 != b6) != (b5 != b4)) != ((b3 != b2) != (b1 != b0))
    }
  }

  const ZERO := Register(false, false, false, false, false, false, false, false)
  const ONE := ZERO.Shift(true)
  /** 0x07, the generator x^8 + x^2 + x + 1 without its leading term. */
  const GENERATOR := ZERO.Shift(true).Shift(true).Shift(true)

  /** The register that holds the low bits s. */
  function Load(s: seq<bool>): Register
  {
    if s == [] then ZERO else Load(s[..|s| - 1]).Shift(s[|s| - 1])
  }

  function LoadByte(v: byte): Register
  {
    Load(ToBits(v, 8))
  }

  /** One turn of the inner loop: multiply by x modulo the generator. */
  function Step(c: Register): Register
  {
    if c.b7 then c.Shift(false).Xor(GENERATOR) else c.Shift(false)
  }

  function Steps(c: Register, n: nat): Register
    decreases n, c
  {
    if n == 0 then c else Step(Steps(c, n - 1))
  }

  function Crc(data: seq<byte>): Register
  {
    if data == [] then ZERO else Steps(Crc(data[..|data| - 1]).Xor(LoadByte(data[|data| - 1])), 8)
  }

  /** `crc8`: the two nested loops compute the specification function. */
  method Crc8(data: seq<byte>) returns (crc: Register)
    ensures crc == Crc(data)
  {
    crc := ZERO;
    for i := 0 to |data|
      invariant crc == Crc(data[..i])
    {
      crc := crc.Xor(LoadByte(data[i]));
      ghost var start := crc;
      for k := 0 to 8
        invariant crc == Steps(start, k)
      {
        crc := if crc.b7 then crc.Shift(false).Xor(GENERATOR) else crc.Shift(false);
      }
      assert data[..i + 1][..i] == data[..i];
    }
    assert data[..|data|] == data;
  }

  /** The remainder of the bit string, read as a polynomial over GF(2), modulo x^8 + x^2 + x + 1. */
  function Remainder(s: seq<bool>): Register
  {
    if s == [] then ZERO else Step(Remainder(s[..|s| - 1])).Xor(ZERO.Shift(s[|s| - 1]))
  }

  lemma XorAssociative(a: Register, b: Register, c: Register)
    ensures a.Xor(b).Xor(c) == a.Xor(b.Xor(c))
  {
  }

  lemma StepForm(c: Register)
    ensures Step(c) == Register(c.b6, c.b5, c.b4, c.b3, c.b2, c.b1 != c.b7, c.b0 != c.b7, c.b7)
  {
  }

  lemma StepLinear(a: Register, b: Register)
    ensures Step(a.Xor(b)) == Step(a).Xor(Step(b))
  {
    StepForm(a);
    StepForm(b);
    StepForm(a.Xor(b));
  }

  lemma {:induction false} StepsZero(n: nat)
    ensures Steps(ZERO, n) == ZERO
  {
    if n == 0 {
    } else {
      StepsZero(n - 1);
    }
  }

  /** No bit of the register is set from place k up. */
  predicate Below(c: Register, k: nat)
  {
    && (k <= 7 ==> !c.b7) && (k <= 6 ==> !c.b6) && (k <= 5 ==> !c.b5) && (k <= 4 ==> !c.b4)
    && (k <= 3 ==> !c.b3) && (k <= 2 ==> !c.b2) && (k <= 1 ==> !c.b1) && (k == 0 ==> !c.b0)
  }

  lemma {:induction false} LoadBelow(s: seq<bool>)
    ensures Below(Load(s), |s|)
  {
    if s == [] {
    } else {
      LoadBelow(s[..|s| - 1]);
    }
  }

  lemma {:induction false} LoadZero(s: seq<bool>)
    requires |s| <= 8
    ensures Load(s) == ZERO <==> true !in s
  {
    if s == [] {
    } else {
      LoadZero(s[..|s| - 1]);
      LoadBelow(s[..|s| - 1]);
      assert s == s[..|s| - 1] + [s[|s| - 1]];
    }
  }

  lemma LoadPush(s: seq<bool>, bit: bool)
    ensures Load(s + [bit]) == Load(s).Shift(bit)
  {
    assert (s + [bit])[..|s|] == s;
  }

  lemma HalfBelow(c: Register, n: nat)
    requires n > 0 && Below(c, n)
    ensures Below(c.Half(), n - 1)
    ensures c.Half().Shift(c.b0) == c
  {
  }

  lemma LoadNone()
    ensures Load([]) == ZERO
  {
  }

  lemma {:induction false} LoadBits(c: Register, n: nat)
    requires Below(c, n)
    ensures Load(c.Bits(n)) == c
    decreases n
  {
    hide Load, Below;
    if n == 0 {
      LoadNone();
      NothingBelow(c);
    } else {
      HalfBelow(c, n);
      LoadBits(c.Half(), n - 1);
      LoadPush(c.Half().Bits(n - 1), c.b0);
      assert c.Bits(n) == c.Half().Bits(n - 1) + [c.b0];
    }
  }

  lemma NothingBelow(c: Register)
    requires Below(c, 0)
    ensures c == ZERO
  {
  }

  lemma StepSmall(c: Register)
    requires !c.b7
    ensures Step(c) == c.Shift(false)
  {
  }

  lemma ShiftInto(r: Register, low: Register, bit: bool)
    requires !low.b7
    ensures Step(r.Xor(low)).Xor(ZERO.Shift(bit)) == Step(r).Xor(low.Shift(bit))
  {
    hide Step;
    StepSmall(low);
    StepLinear(r, low);
    XorAssociative(Step(r), Step(low), ZERO.Shift(bit));
  }

  lemma RemainderPush(s: seq<bool>, bit: bool)
    ensures Remainder(s + [bit]) == Step(Remainder(s)).Xor(ZERO.Shift(bit))
  {
    hide Step;
    assert (s + [bit])[..|s|] == s;
  }

  lemma StepsPush(c: Register, n: nat)
    ensures Steps(c, n + 1) == Step(Steps(c, n)) && Steps(c, 0) == c
  {
    hide Step;
  }

  lemma XorZero(c: Register)
    ensures c.Xor(ZERO) == c
  {
  }

  lemma BelowSeven(c: Register, n: nat)
    requires Below(c, n) && n < 8
    ensures !c.b7
  {
  }

  /** Appending up to eight bits multiplies the remainder by that power of x and adds the bits. */
  lemma {:induction false} RemainderAppend(s: seq<bool>, w: seq<bool>)
    requires |w| <= 8
    ensures Remainder(s + w) == Steps(Remainder(s), |w|).Xor(Load(w))
  {
    hide Step, Steps, Load, Remainder, Below;
    if w == [] {
      assert s + w == s;
      StepsPush(Remainder(s), 0);
      LoadNone();
      XorZero(Remainder(s));
    } else {
      var n := |w| - 1;
      var front, bit := w[..n], w[n];
      assert w == front + [bit] && s + w == (s + front) + [bit];
      RemainderAppend(s, front);
      LoadBelow(front);
      BelowSeven(Load(front), n);
      ShiftInto(Steps(Remainder(s), n), Load(front), bit);
      RemainderPush(s + front, bit);
      StepsPush(Remainder(s), n);
      LoadPush(front, bit);
    }
  }

  /** The byte-wise CRC is the remainder of the message times x^8. */
  lemma {:induction false} CrcIsRemainder(data: seq<byte>)
    ensures Crc(data) == Steps(Remainder(BitsOfBytes(data)), 8)
  {
    if data == [] {
      StepsZero(8);
    } else {
      var front, last := data[..|data| - 1], data[|data| - 1];
      CrcIsRemainder(front);
      RemainderAppend(BitsOfBytes(front), ToBits(last, 8));
    }
  }

  // ----- What the remainder detects -----

  function Xor(a: seq<bool>, b: seq<bool>): (s: seq<bool>)
    requires |a| == |b|
    ensures |s| == |a|
  {
    seq(|a|, i requires 0 <= i < |a| => a[i] != b[i])
  }

  /** The number of set places. */
  function Weight(s: seq<bool>): nat
  {
    if s == [] then 0 else Weight(s[..|s| - 1]) + if s[|s| - 1] then 1 else 0
  }

  /** All the set places lie inside `width` adjacent ones, from `first` on. */
  ghost predicate Burst(s: seq<bool>, first: nat, width: nat)
  {
    forall i :: 0 <= i < |s| && s[i] ==> first <= i < first + width
  }

  lemma {:induction false} RemainderXor(a: seq<bool>, b: seq<bool>)
    requires |a| == |b|
    ensures Remainder(Xor(a, b)) == Remainder(a).Xor(Remainder(b))
  {
    if a == [] {
    } else {
      var n := |a| - 1;
      RemainderXor(a[..n], b[..n]);
      assert Xor(a, b)[..n] == Xor(a[..n], b[..n]);
      StepLinear(Remainder(a[..n]), Remainder(b[..n]));
      XorSwap(Step(Remainder(a[..n])), Step(Remainder(b[..n])), a[n], b[n]);
    }
  }

  lemma XorSwap(a: Register, b: Register, p: bool, q: bool)
    ensures a.Xor(b).Xor(ZERO.Shift(p != q)) == a.Xor(ZERO.Shift(p)).Xor(b.Xor(ZERO.Shift(q)))
  {
    var pp, qq := ZERO.Shift(p), ZERO.Shift(q);
    XorAssociative(a, b, pp.Xor(qq));
    XorAssociative(b, pp, qq);
    XorCommutes(b, pp);
    XorAssociative(pp, b, qq);
    XorAssociative(a, pp, b.Xor(qq));
  }

  lemma XorCommutes(a: Register, b: Register)
    ensures a.Xor(b) == b.Xor(a)
  {
  }

  /** The generator has the factor x + 1, so the remainder keeps the parity of the bit string. */
  lemma {:induction false} RemainderParity(s: seq<bool>)
    ensures Remainder(s).Odd() <==> Weight(s) % 2 == 1
  {
    if s == [] {
    } else {
      RemainderParity(s[..|s| - 1]);
    }
  }

  lemma {:induction false} WeightZero(s: seq<bool>)
    ensures Weight(s) == 0 <==> true !in s
    ensures true !in s ==> Remainder(s) == ZERO
  {
    if s == [] {
    } else {
      WeightZero(s[..|s| - 1]);
      assert s == s[..|s| - 1] + [s[|s| - 1]];
    }
  }

  /** None of the n powers c, c x, c x^2, ... is 1. */
  predicate NeverOne(c: Register, n: nat)
    decreases n
  {
    n == 0 || (c != ONE && NeverOne(Step(c), n - 1))
  }

  lemma {:induction false} StepsAfterStep(c: Register, n: nat)
    ensures Steps(Step(c), n) == Step(Steps(c, n))
  {
    if n == 0 {
    } else {
      StepsAfterStep(c, n - 1);
    }
  }

  lemma {:induction false} NeverOneAt(c: Register, n: nat, d: nat)
    requires NeverOne(c, n) && d < n
    ensures Steps(c, d) != ONE
    decreases n
  {
    if d == 0 {
    } else {
      NeverOneAt(Step(c), n - 1, d - 1);
      StepsAfterStep(c, d - 1);
    }
  }

  // The 56 powers, by evaluation in blocks of eight.

  lemma NeverOne8()
    ensures NeverOne(Register(false, true, false, true, false, false, true, false), 8)
  {
  }

  lemma NeverOne16()
    ensures NeverOne(Register(true, true, false, false, false, true, false, false), 16)
  {
    NeverOne8();
  }

  lemma NeverOne24()
    ensures NeverOne(Register(false, false, true, false, true, true, false, false), 24)
  {
    NeverOne16();
  }

  lemma NeverOne32()
    ensures NeverOne(Register(true, true, false, true, false, true, true, false), 32)
  {
    NeverOne24();
  }

  lemma NeverOne40()
    ensures NeverOne(Register(false, false, true, false, true, false, true, false), 40)
  {
    NeverOne32();
  }

  lemma NeverOne48()
    ensures NeverOne(Register(false, false, false, false, true, true, true, false), 48)
  {
    NeverOne40();
  }

  lemma NeverOne56()
    ensures NeverOne(Register(false, false, false, false, false, false, true, false), 56)
  {
    NeverOne48();
  }

  /** Two different places of the stamp have different syndromes: x has no order below 57. */
  lemma PowerNotOne(d: nat)
    requires 0 < d < 57
    ensures Steps(ONE, d) != ONE
  {
    NeverOne56();
    NeverOneAt(Step(ONE), 56, d - 1);
    StepsAfterStep(ONE, d - 1);
  }

  lemma {:induction false} SinglePlace(s: seq<bool>) returns (k: nat)
    requires Weight(s) == 1
    ensures k < |s| && Remainder(s) == Steps(ONE, k)
  {
    var n := |s| - 1;
    if s[n] {
      WeightZero(s[..n]);
      k := 0;
    } else {
      k := SinglePlace(s[..n]);
      k := k + 1;
    }
  }

  lemma {:induction false} TwoPlacesDetected(s: seq<bool>)
    requires Weight(s) == 2 && |s| <= 57
    ensures Remainder(s) != ZERO
  {
    var n := |s| - 1;
    if s[n] {
      var k := SinglePlace(s[..n]);
      PowerNotOne(k + 1);
    } else {
      TwoPlacesDetected(s[..n]);
    }
  }

  lemma OddPlacesDetected(s: seq<bool>)
    requires Weight(s) % 2 == 1
    ensures Remainder(s) != ZERO
  {
    RemainderParity(s);
  }

  lemma {:induction false} BurstDetected(s: seq<bool>, first: nat)
    requires true in s && Burst(s, first, 8)
    ensures Remainder(s) != ZERO
  {
    var n := |s| - 1;
    var i :| 0 <= i < |s| && s[i];
    if |s| > first + 8 {
      assert s[..n][i];
      BurstDetected(s[..n], first);
    } else {
      var tail := s[first..];
      assert tail[i - first];
      WeightZero(s[..first]);
      LoadZero(tail);
      assert s == s[..first] + tail;
      RemainderAppend(s[..first], tail);
      StepsZero(|tail|);
    }
  }
}
