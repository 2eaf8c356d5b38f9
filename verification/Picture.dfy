// Painting the time stamp into a luma plane and reading it back (latency.py).
module Picture {
  import opened Prelude
  import opened Crc8
  import opened Stamp

  function StripHeight(height: int): (rows: int)
    ensures 8 <= rows <= 96 && (height >= 8 ==> rows <= height)
  {
    var sixth := height / 6;
    var capped := if sixth < 96 then sixth else 96;
    if capped > 8 then capped else 8
  }

  function Level(bit: bool): byte { if bit then HIGH else LOW }

  function Fill(level: byte, n: nat): (s: seq<byte>)
    ensures |s| == n && forall i :: 0 <= i < n ==> s[i] == level
  {
    seq(n, i => level)
  }

  function Levels(bits: seq<bool>): (levels: seq<byte>)
    ensures |levels| == |bits|
  {
    seq(|bits|, i requires 0 <= i < |bits| => Level(bits[i]))
  }

  /** One block of `block` equal pixels per level. */
  function Blocks(levels: seq<byte>, block: nat): (s: seq<byte>)
    ensures |s| == |levels| * block
  {
    if levels == [] then [] else Blocks(levels[..|levels| - 1], block) + Fill(levels[|levels| - 1], block)
  }

  function StampRow(ms: nat, width: nat): (row: seq<byte>)
    ensures |row| == width
  {
    assert USED * (width / BLOCKS) <= width;
    Blocks(Levels(BitsFor(ms)), width / BLOCKS) + Fill(LOW, width - USED * (width / BLOCKS))
  }

  function Rows(row: seq<byte>, n: nat): (s: seq<byte>)
    ensures |s| == n * |row|
  {
    if n == 0 then [] else Rows(row, n - 1) + row
  }

  lemma ProductMonotone(a: nat, b: nat, c: nat)
    requires a <= b
    ensures a * c <= b * c
  {
  }

  function Min(a: nat, b: nat): (c: nat)
    ensures c <= a && c <= b
  {
    if a < b then a else b
  }

  /** The strip at the top filled with one row, everything below it kept; a plane that ends inside the strip grows. */
  function WithStrip(luma: seq<byte>, row: seq<byte>, height: int): (painted: seq<byte>)
    ensures |painted| == if |luma| < StripHeight(height) * |row| then StripHeight(height) * |row| else |luma|
    ensures painted[..StripHeight(height) * |row|] == Rows(row, StripHeight(height))
    ensures painted[StripHeight(height) * |row|..] == luma[Min(StripHeight(height) * |row|, |luma|)..]
  {
    var size := StripHeight(height) * |row|;
    Rows(row, StripHeight(height)) + luma[Min(size, |luma|)..]
  }

  /** The plane after `paint_stamp`. */
  function PaintedPlane(luma: seq<byte>, width: nat, height: int, ms: nat): seq<byte>
  {
    WithStrip(luma, StampRow(ms, width), height)
  }

  function StampProblem(width: int, ms: int): Option<StampError>
  {
    if width / BLOCKS < 4 then Some(TooNarrow)
    else if !(0 <= ms < TIME_LIMIT) then Some(TimeTooWide)
    else None
  }

  /** The CRC of a time, computed by the loops of `crc8`. */
  method TimeCheck(ms: nat) returns (check: nat)
    ensures check == Check(ms)
  {
    var crc := Crc8.Crc8(ToBytes(ms, 6));
    check := crc.Value();
  }

  /** `bits_for`. */
  method StampBits(ms: int) returns (bits: Result<seq<bool>, StampError>)
    ensures bits == if 0 <= ms < TIME_LIMIT then Ok(BitsFor(ms)) else Err(TimeTooWide)
  {
    if !(0 <= ms < TIME_LIMIT) {
      return Err(TimeTooWide);
    }
    var check := TimeCheck(ms);
    bits := Ok(SYNC + ShiftedBits(ms * 256 + check, 56));
  }

  lemma NextProduct(a: nat, c: nat)
    ensures (a + 1) * c == a * c + c
  {
  }

  lemma BlocksNone(block: nat)
    ensures Blocks([], block) == []
  {
  }

  lemma BlocksStep(levels: seq<byte>, block: nat, index: nat)
    requires index < |levels|
    ensures Blocks(levels[..index + 1], block) == Blocks(levels[..index], block) + Fill(levels[index], block)
  {
    assert levels[..index + 1][..index] == levels[..index];
  }

  /** The slice assignment row[start:end] = bytes([level]) * (end - start). */
  method SetBlock(row: array<byte>, start: nat, end: nat, level: byte)
    requires start <= end <= row.Length
    modifies row
    ensures row[..] == old(row[..start]) + Fill(level, end - start) + old(row[end..])
  {
    forall x | start <= x < end {
      row[x] := level;
    }
    assert row[start..end] == Fill(level, end - start);
    assert row[..] == row[..start] + row[start..end] + row[end..];
  }

  /** The row `paint_stamp` prepares: black, then one block after the other. */
  method StampedRow(bits: seq<bool>, width: nat) returns (row: array<byte>)
    requires |bits| == USED
    ensures fresh(row) && USED * (width / BLOCKS) <= width
    ensures row[..] == Blocks(Levels(bits), width / BLOCKS) + Fill(LOW, width - USED * (width / BLOCKS))
  {
    hide Blocks;
    var block := width / BLOCKS;
    ghost var levels := Levels(bits);
    BlocksNone(block);
    row := new byte[width](i => LOW);
    for index := 0 to USED
      invariant index * block <= USED * block <= width == row.Length
      invariant row[..] == Blocks(levels[..index], block) + Fill(LOW, width - index * block)
    {
      ProductMonotone(index + 1, USED, block);
      NextProduct(index, block);
      BlocksStep(levels, block, index);
      assert row[..index * block] == row[..][..index * block] == Blocks(levels[..index], block);
      assert row[(index + 1) * block..] == row[..][(index + 1) * block..] == Fill(LOW, width - (index + 1) * block);
      SetBlock(row, index * block, (index + 1) * block, Level(bits[index]));
    }
    assert levels[..USED] == levels;
  }

  /** A `bytearray`. */
  class Plane {
    var bytes: seq<byte>

    constructor (bytes: seq<byte>)
      ensures this.bytes == bytes
    {
      this.bytes := bytes;
    }

    /** The slice assignment self[a:b] = row: both ends are cut at the end of the plane. */
    method SetSlice(a: nat, b: nat, row: seq<byte>)
      requires a <= b
      modifies this
      ensures bytes == old(bytes[..Min(a, |bytes|)]) + row + old(bytes[Min(b, |bytes|)..])
    {
      bytes := bytes[..Min(a, |bytes|)] + row + bytes[Min(b, |bytes|)..];
    }
  }

  lemma NextSlice(rows: seq<byte>, row: seq<byte>, before: seq<byte>, start: nat, end: nat)
    requires |rows| == start && end == start + |row|
    ensures var bytes := rows + before[Min(start, |before|)..];
            bytes[..Min(start, |bytes|)] + row + bytes[Min(end, |bytes|)..] == rows + row + before[Min(end, |before|)..]
  {
  }

  /** One turn of the loop: the rows before it are in place, the plane after it is kept. */
  lemma NextRow(row: seq<byte>, before: seq<byte>, y: nat)
    ensures var bytes, start, end := Rows(row, y) + before[Min(y * |row|, |before|)..], y * |row|, (y + 1) * |row|;
            && start <= end
            && bytes[..Min(start, |bytes|)] + row + bytes[Min(end, |bytes|)..]
               == Rows(row, y + 1) + before[Min(end, |before|)..]
  {
    NextProduct(y, |row|);
    assert Rows(row, y + 1) == Rows(row, y) + row;
    NextSlice(Rows(row, y), row, before, y * |row|, (y + 1) * |row|);
  }

  /** The last loop of `paint_stamp`: the same row into each line of the strip. */
  method FillStrip(luma: Plane, row: seq<byte>, height: int)
    modifies luma
    ensures luma.bytes == WithStrip(old(luma.bytes), row, height)
  {
    hide Rows, Min;
    ghost var before := luma.bytes;
    for y := 0 to StripHeight(height)
      invariant luma.bytes == Rows(row, y) + before[Min(y * |row|, |before|)..]
    {
      NextRow(row, before, y);
      luma.SetSlice(y * |row|, (y + 1) * |row|, row);
    }
  }

  /** `paint_stamp`, in place. */
  method PaintStamp(luma: Plane, width: int, height: int, ms: int) returns (error: Option<StampError>)
    modifies luma
    ensures error == StampProblem(width, ms)
    ensures luma.bytes == if error.Some? then old(luma.bytes) else PaintedPlane(old(luma.bytes), width, height, ms)
  {
    if width / BLOCKS < 4 {
      return Some(TooNarrow);
    }
    var bits := StampBits(ms);
    if bits.Err? {
      return Some(bits.error);
    }
    var row := StampedRow(bits.value, width);
    assert row[..] == StampRow(ms, width);
    FillStrip(luma, row[..], height);
    error := None;
  }

  // ----- Reading -----

  /** A slice s[a:b] with nonnegative bounds, cut at the end of the sequence as the source's slices are. */
  function Slice(s: seq<byte>, a: nat, b: nat): seq<byte>
    requires a <= b
  {
    s[Min(a, |s|)..Min(b, |s|)]
  }

  function Sum(s: seq<byte>): nat
  {
    if s == [] then 0 else s[0] + Sum(s[1..])
  }

  /** The mean of the three pixels around the centre of a block, rounded down. */
  function Sample(row: seq<byte>, block: nat, index: nat): nat
    requires block >= 4
  {
    var centre := index * block + block / 2;
    Sum(Slice(row, centre - 1, centre + 2)) / 3
  }

  /** Four times the threshold: the mean of the two white and the two black sync blocks. */
  function Threshold4(row: seq<byte>, block: nat): nat
    requires block >= 4
  {
    Sample(row, block, 0) + Sample(row, block, 1) + Sample(row, block, 2) + Sample(row, block, 3)
  }

  function ReadBit(row: seq<byte>, block: nat, index: nat): bool
    requires block >= 4
  {
    4 * Sample(row, block, index) > Threshold4(row, block)
  }

  function ReadBits(row: seq<byte>, block: nat): (bits: seq<bool>)
    requires block >= 4
    ensures |bits| == USED
  {
    seq(USED, index requires 0 <= index < USED => ReadBit(row, block, index))
  }

  function ReadRow(row: seq<byte>, block: nat): Option<nat>
    requires block >= 4
  {
    if Sample(row, block, 0) + Sample(row, block, 2) - Sample(row, block, 1) - Sample(row, block, 3) < 96 then None
    else
      var bits := ReadBits(row, block);
      if bits[..4] != SYNC then None else Accept(bits[4..])
  }

  /** The row in the middle of the strip. */
  function MiddleRow(luma: seq<byte>, width: nat, height: int): seq<byte>
  {
    var y0 := StripHeight(height) / 2;
    Slice(luma, y0 * width, y0 * width + width)
  }

  function Read(luma: seq<byte>, width: int, height: int): Option<nat>
  {
    if width / BLOCKS < 4 || |luma| < width * height then None
    else ReadRow(MiddleRow(luma, width, height), width / BLOCKS)
  }

  /** `read_stamp`, with the value folded bit by bit. */
  method ReadStamp(luma: seq<byte>, width: int, height: int) returns (time: Option<nat>)
    ensures time == Read(luma, width, height)
  {
    var block := width / BLOCKS;
    if block < 4 || |luma| < width * height {
      return None;
    }
    time := ReadStampRow(MiddleRow(luma, width, height), block);
  }

  method ReadStampRow(row: seq<byte>, block: nat) returns (time: Option<nat>)
    requires block >= 4
    ensures time == ReadRow(row, block)
  {
    if Sample(row, block, 0) + Sample(row, block, 2) - Sample(row, block, 1) - Sample(row, block, 3) < 96 {
      return None;
    }
    var bits := ReadBits(row, block);
    if bits[..4] != SYNC {
      return None;
    }
    time := AcceptBits(bits[4..]);
  }

  /** The end of `read_stamp`: fold the received bits and check the CRC. */
  method AcceptBits(received: seq<bool>) returns (time: Option<nat>)
    requires |received| == 56
    ensures time == Accept(received)
  {
    var value := 0;
    for i := 0 to |received|
      invariant value == FromBits(received[..i])
    {
      assert received[..i + 1][..i] == received[..i];
      value := 2 * value + if received[i] then 1 else 0;
    }
    assert received[..|received|] == received;
    var ms, check := value / 256, value % 256;
    var expected := TimeCheck(ms);
    time := if expected == check then Some(ms) else None;
  }

  // ----- The round trip through noise -----

  ghost predicate Near(a: seq<byte>, b: seq<byte>, bound: nat)
  {
    |a| == |b| && forall i :: 0 <= i < |a| ==> b[i] as int - bound <= a[i] as int <= b[i] as int + bound
  }

  lemma SelfNear(a: seq<byte>, bound: nat)
    ensures Near(a, a, bound)
  {
  }

  lemma {:induction false} BlockPixel(levels: seq<byte>, block: nat, index: nat, x: nat)
    requires index < |levels| && x < block
    ensures index * block + x < |Blocks(levels, block)|
    ensures Blocks(levels, block)[index * block + x] == levels[index]
  {
    var n := |levels| - 1;
    ProductMonotone(index + 1, |levels|, block);
    if index >= n {
    } else {
      BlockPixel(levels[..n], block, index, x);
    }
  }

  lemma {:induction false} RowOf(row: seq<byte>, n: nat, y: nat)
    requires y < n
    ensures y * |row| + |row| <= |Rows(row, n)|
    ensures Rows(row, n)[y * |row|..y * |row| + |row|] == row
  {
    ProductMonotone(y + 1, n, |row|);
    if y >= n - 1 {
    } else {
      RowOf(row, n - 1, y);
    }
  }

  lemma NearSlice(a: seq<byte>, b: seq<byte>, bound: nat, start: nat, end: nat)
    requires Near(a, b, bound) && start <= end <= |a|
    ensures Near(a[start..end], b[start..end], bound)
  {
  }

  lemma SumOfThree(s: seq<byte>)
    requires |s| == 3
    ensures Sum(s) == s[0] as int + s[1] as int + s[2] as int
  {
    var t := s[1..];
    var u := t[1..];
    assert u[1..] == [] && Sum(u) == u[0] as int + Sum(u[1..]);
    assert Sum(t) == t[0] as int + Sum(u);
  }

  /** A block of a noisy row is sampled from its own pixels. */
  lemma SampleRange(row: seq<byte>, levels: seq<byte>, block: nat, index: nat, bound: nat)
    requires block >= 4 && index < |levels| && |Blocks(levels, block)| <= |row|
    requires Near(row[..|Blocks(levels, block)|], Blocks(levels, block), bound)
    ensures levels[index] as int - bound <= Sample(row, block, index) <= levels[index] as int + bound
    ensures Sample(row, block, index) <= 255
  {
    hide Blocks, Sum;
    var centre := index * block + block / 2;
    BlockPixel(levels, block, index, block / 2 - 1);
    BlockPixel(levels, block, index, block / 2);
    BlockPixel(levels, block, index, block / 2 + 1);
    var s := Slice(row, centre - 1, centre + 2);
    assert s == [row[centre - 1], row[centre], row[centre + 1]];
    SumOfThree(s);
    var a := row[..|Blocks(levels, block)|];
    assert a[centre - 1] == row[centre - 1] && a[centre] == row[centre] && a[centre + 1] == row[centre + 1];
  }

  /** No data block is white. */
  predicate AllBlack(bits: seq<bool>)
    requires |bits| == USED
  {
    forall index :: 4 <= index < USED ==> !bits[index]
  }

  /** How far every byte may be off: the exact bound for a time. */
  function NoiseBound(ms: nat): nat { if ms == 0 then 67 else 66 }

  lemma NoisyRowBits(row: seq<byte>, bits: seq<bool>, block: nat, bound: nat)
    requires block >= 4 && |bits| == USED && bits[..4] == SYNC && |Blocks(Levels(bits), block)| <= |row|
    requires bound <= 66 || (bound == 67 && AllBlack(bits))
    requires Near(row[..|Blocks(Levels(bits), block)|], Blocks(Levels(bits), block), bound)
    ensures ReadBits(row, block) == bits
    ensures Sample(row, block, 0) + Sample(row, block, 2) - Sample(row, block, 1) - Sample(row, block, 3) >= 96
  {
    hide Blocks, Sample;
    var levels := Levels(bits);
    assert bits[0] == bits[..4][0] && bits[1] == bits[..4][1] && bits[2] == bits[..4][2] && bits[3] == bits[..4][3];
    SampleRange(row, levels, block, 0, bound);
    SampleRange(row, levels, block, 1, bound);
    SampleRange(row, levels, block, 2, bound);
    SampleRange(row, levels, block, 3, bound);
    forall index | 0 <= index < USED
      ensures ReadBits(row, block)[index] == bits[index]
    {
      SampleRange(row, levels, block, index, bound);
    }
  }

  lemma ReadRowBits(row: seq<byte>, block: nat, ms: nat)
    requires block >= 4 && ms < TIME_LIMIT && ReadBits(row, block) == BitsFor(ms)
    requires Sample(row, block, 0) + Sample(row, block, 2) - Sample(row, block, 1) - Sample(row, block, 3) >= 96
    ensures ReadRow(row, block) == Some(ms)
  {
    BitsForIsCodeWord(ms);
    AcceptCodeWord(ms);
    assert (SYNC + CodeWord(ms))[4..] == CodeWord(ms);
  }

  /** The word of time zero is zero: the zero word is accepted, and no other word so near to it is. */
  lemma ZeroIsBlack()
    ensures AllBlack(BitsFor(0))
  {
    hide Accept, Remainder;
    var zero := seq(56, i => false);
    var word := CodeWord(0);
    WeightZero(zero);
    AcceptIffRemainderZero(zero);
    AcceptCodeWord(0);
    AcceptIffRemainderZero(word);
    ZeroFront(word);
    if word != zero {
      ErrorsDetected(0, zero, 48);
    }
    BitsForIsCodeWord(0);
  }

  lemma ZeroFront(word: seq<bool>)
    requires |word| == 56 && word[..48] == ToBits(0, 48)
    ensures forall i :: 0 <= i < 48 ==> !word[i]
    ensures Burst(Xor(word, seq(56, i => false)), 48, 8)
  {
    ZeroBits(48);
    assert forall i :: 0 <= i < 48 ==> word[i] == word[..48][i];
  }

  lemma {:induction false} ZeroBits(n: nat)
    ensures forall i :: 0 <= i < n ==> !ToBits(0, n)[i]
  {
    if n == 0 {
    } else {
      ZeroBits(n - 1);
    }
  }

  lemma NoisyRowReads(row: seq<byte>, width: nat, ms: nat)
    requires width >= 256 && ms < TIME_LIMIT && Near(row, StampRow(ms, width), NoiseBound(ms))
    ensures ReadRow(row, width / BLOCKS) == Some(ms)
  {
    var bits, block := BitsFor(ms), width / BLOCKS;
    var clean := Blocks(Levels(bits), block);
    NearSlice(row, StampRow(ms, width), NoiseBound(ms), 0, |clean|);
    assert StampRow(ms, width)[0..|clean|] == clean;
    assert row[0..|clean|] == row[..|clean|];
    assert bits[..4] == SYNC;
    if ms == 0 { ZeroIsBlack(); }
    NoisyRowBits(row, bits, block, NoiseBound(ms));
    ReadRowBits(row, block, ms);
  }

  /** The reader looks at one row of the strip. */
  lemma StripRow(luma: seq<byte>, noisy: seq<byte>, clean: seq<byte>, height: int, bound: nat)
    requires Near(noisy, WithStrip(luma, clean, height), bound)
    ensures Near(MiddleRow(noisy, |clean|, height), clean, bound)
  {
    hide Rows;
    var rows, width := StripHeight(height), |clean|;
    ProductMonotone(rows / 2 + 1, rows, width);
    RowOf(clean, rows, rows / 2);
    var start, painted := rows / 2 * width, WithStrip(luma, clean, height);
    assert painted[start..start + width] == Rows(clean, rows)[start..start + width];
    NearSlice(noisy, painted, bound, start, start + width);
    assert MiddleRow(noisy, width, height) == noisy[start..start + width];
  }

  /** Every byte of the frame may be off by 66, for time zero by 67: the reader still returns exactly the painted time,
      unless the frame is shorter than width times height. */
  lemma NoisyRoundTrip(luma: seq<byte>, noisy: seq<byte>, width: nat, height: int, ms: nat)
    requires width >= 256 && ms < TIME_LIMIT
    requires Near(noisy, PaintedPlane(luma, width, height, ms), NoiseBound(ms))
    ensures Read(noisy, width, height) == if |noisy| < width * height then None else Some(ms)
  {
    hide BitsFor, ReadRow, MiddleRow, WithStrip;
    StripRow(luma, noisy, StampRow(ms, width), height, NoiseBound(ms));
    NoisyRowReads(MiddleRow(noisy, width, height), width, ms);
  }

  /** A painted frame is too short only when the plane was and the picture is higher than its strip. */
  lemma PaintedReadsIff(luma: seq<byte>, width: nat, height: int, ms: nat)
    requires width >= 256 && ms < TIME_LIMIT
    ensures Read(PaintedPlane(luma, width, height, ms), width, height) == Some(ms)
            <==> height <= 8 || width * height <= |luma|
  {
    hide WithStrip, StampRow, Read;
    var painted := PaintedPlane(luma, width, height, ms);
    SelfNear(painted, NoiseBound(ms));
    NoisyRoundTrip(luma, painted, width, height, ms);
    PaintedLength(luma, StampRow(ms, width), height);
  }

  lemma StripCovers(width: nat, height: int)
    requires height <= 8
    ensures width * height <= StripHeight(height) * width
  {
    hide StripHeight;
    if height <= 0 {
    } else {
      ProductMonotone(height, StripHeight(height), width);
    }
  }

  lemma PaintedLength(luma: seq<byte>, row: seq<byte>, height: int)
    requires row != []
    ensures |WithStrip(luma, row, height)| < |row| * height <==> height > 8 && |luma| < |row| * height
  {
    hide WithStrip, Rows;
    if height <= 8 {
      StripCovers(|row|, height);
    } else {
      NextProduct(StripHeight(height), |row|);
      ProductMonotone(StripHeight(height) + 1, height, |row|);
    }
  }

  // ----- The bound is tight -----

  /** The levels of a stamp with one data block pushed to the other side of the threshold, and the sync blocks pushed so
      that the threshold meets it. */
  function Disturbed(bits: seq<bool>, place: nat): (levels: seq<byte>)
    requires |bits| == USED && 4 <= place < USED
    ensures |levels| == USED
  {
    if bits[place] then [255, 83, 255, 83] + Levels(bits)[4..][place - 4 := 168]
    else [167, 0, 167, 0] + Levels(bits)[4..][place - 4 := 84]
  }

  lemma {:induction false} NearBlocks(a: seq<byte>, b: seq<byte>, block: nat, bound: nat)
    requires Near(a, b, bound)
    ensures Near(Blocks(a, block), Blocks(b, block), bound)
  {
    if a == [] {
    } else {
      NearBlocks(a[..|a| - 1], b[..|b| - 1], block, bound);
    }
  }

  /** One white data block is read as black although its pixels are only 67 away, one black block as white from 68. */
  lemma DisturbedRowBits(bits: seq<bool>, place: nat, block: nat, row: seq<byte>)
    requires block >= 4 && |bits| == USED && bits[..4] == SYNC && 4 <= place < USED
    requires |Blocks(Disturbed(bits, place), block)| <= |row|
    requires row[..|Blocks(Disturbed(bits, place), block)|] == Blocks(Disturbed(bits, place), block)
    ensures ReadBits(row, block) == bits[place := !bits[place]]
    ensures Sample(row, block, 0) + Sample(row, block, 2) - Sample(row, block, 1) - Sample(row, block, 3) >= 96
  {
    hide Blocks, Sample;
    var levels := Disturbed(bits, place);
    assert bits[0] == bits[..4][0] && bits[1] == bits[..4][1] && bits[2] == bits[..4][2] && bits[3] == bits[..4][3];
    SampleRange(row, levels, block, 0, 0);
    SampleRange(row, levels, block, 1, 0);
    SampleRange(row, levels, block, 2, 0);
    SampleRange(row, levels, block, 3, 0);
    assert Threshold4(row, block) == if bits[place] then 676 else 334;
    forall index | 0 <= index < USED
      ensures ReadBits(row, block)[index] == bits[place := !bits[place]][index]
    {
      SampleRange(row, levels, block, index, 0);
      if index >= 4 && index != place {
        assert levels[index] == Levels(bits)[4..][index - 4] == Level(bits[index]);
      }
    }
  }

  /** A code word of a nonzero time has a white block. */
  lemma SetPlace(ms: nat) returns (place: nat)
    requires 0 < ms < TIME_LIMIT
    ensures 4 <= place < USED && BitsFor(ms)[place]
  {
    hide BitsFor, CodeWord, Accept;
    AcceptCodeWord(ms);
    AcceptTime(CodeWord(ms));
    FromBitsZero(CodeWord(ms));
    var i :| 0 <= i < 56 && CodeWord(ms)[i];
    place := i + 4;
    assert BitsFor(ms)[place] by {
      BitsForIsCodeWord(ms);
    }
  }

  lemma AcceptTime(bits: seq<bool>)
    requires |bits| == 56 && Accept(bits).Some?
    ensures Accept(bits).value == FromBits(bits) / 256
  {
  }

  /** The received word differs from the code word in one place, so it is rejected. */
  lemma OnePlaceRejected(ms: nat, place: nat, row: seq<byte>, block: nat)
    requires ms < TIME_LIMIT && 4 <= place < USED && block >= 4
    requires ReadBits(row, block) == BitsFor(ms)[place := !BitsFor(ms)[place]]
    ensures ReadRow(row, block) == None
  {
    hide BitsFor, CodeWord, Accept, ReadBits, Sample;
    BitsForIsCodeWord(ms);
    var flipped := !BitsFor(ms)[place];
    var received := CodeWord(ms)[place - 4 := flipped];
    assert BitsFor(ms)[place] == CodeWord(ms)[place - 4];
    assert BitsFor(ms)[place := flipped][4..] == received;
    OnePlace(CodeWord(ms), place - 4);
    assert received[place - 4] != CodeWord(ms)[place - 4];
    ErrorsDetected(ms, received, place - 4);
  }

  lemma OnePlace(word: seq<bool>, place: nat)
    requires place < |word|
    ensures Burst(Xor(word, word[place := !word[place]]), place, 8)
  {
  }

  lemma {:induction false} NearRows(a: seq<byte>, b: seq<byte>, n: nat, bound: nat)
    requires Near(a, b, bound)
    ensures Near(Rows(a, n), Rows(b, n), bound)
  {
    if n == 0 {
    } else {
      NearRows(a, b, n - 1, bound);
    }
  }

  lemma NearStrips(luma: seq<byte>, a: seq<byte>, b: seq<byte>, height: int, bound: nat)
    requires Near(a, b, bound)
    ensures Near(WithStrip(luma, a, height), WithStrip(luma, b, height), bound)
  {
    hide Rows;
    NearRows(a, b, StripHeight(height), bound);
  }

  lemma DisturbedNear(bits: seq<bool>, place: nat, block: nat)
    requires |bits| == USED && bits[..4] == SYNC && 4 <= place < USED
    ensures Near(Blocks(Disturbed(bits, place), block), Blocks(Levels(bits), block), if bits[place] then 67 else 68)
  {
    assert bits[0] == bits[..4][0] && bits[1] == bits[..4][1] && bits[2] == bits[..4][2] && bits[3] == bits[..4][3];
    NearBlocks(Disturbed(bits, place), Levels(bits), block, if bits[place] then 67 else 68);
  }

  /** The place that is disturbed: any block of time zero, a white one of another time. */
  lemma DisturbedPlace(ms: nat) returns (place: nat)
    requires ms < TIME_LIMIT
    ensures 4 <= place < USED && (BitsFor(ms)[place] <==> ms != 0)
  {
    hide BitsFor;
    if ms == 0 {
      ZeroIsBlack();
      place := 4;
    } else {
      place := SetPlace(ms);
    }
  }

  lemma StartsWithSync(ms: nat)
    requires ms < TIME_LIMIT
    ensures BitsFor(ms)[..4] == SYNC
  {
  }

  /** The row that is one step too noisy, and how it is read. */
  lemma TightRow(ms: nat, width: nat) returns (row: seq<byte>)
    requires width >= 256 && ms < TIME_LIMIT
    ensures Near(row, StampRow(ms, width), NoiseBound(ms) + 1) && ReadRow(row, width / BLOCKS) == None
  {
    hide BitsFor, Blocks, Disturbed, Levels, ReadBits, ReadRow, Sample;
    var bits, block := BitsFor(ms), width / BLOCKS;
    var place := DisturbedPlace(ms);
    StartsWithSync(ms);
    var blocks := Blocks(Disturbed(bits, place), block);
    DisturbedNear(bits, place, block);
    row := blocks + Fill(LOW, width - USED * block);
    assert row[..|blocks|] == blocks;
    DisturbedRowBits(bits, place, block, row);
    OnePlaceRejected(ms, place, row, block);
  }

  /** These bounds are exact: with one more, for every time some frame loses it. */
  lemma NoiseBoundTight(luma: seq<byte>, width: nat, height: int, ms: nat) returns (noisy: seq<byte>)
    requires width >= 256 && ms < TIME_LIMIT
    ensures Near(noisy, PaintedPlane(luma, width, height, ms), NoiseBound(ms) + 1)
    ensures Read(noisy, width, height) == None
  {
    hide WithStrip, MiddleRow, ReadRow, StampRow;
    var row := TightRow(ms, width);
    noisy := WithStrip(luma, row, height);
    NearStrips(luma, row, StampRow(ms, width), height, NoiseBound(ms) + 1);
    SelfNear(noisy, 0);
    StripRow(luma, noisy, row, height, 0);
    assert MiddleRow(noisy, width, height) == row;
  }
}
