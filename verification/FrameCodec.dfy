/**
 * One audio frame on the wire: the browser writes it (apps/web/src/audio.ts, `encodeFrame`,
 * `writeU64`), Core reads it back (crates/core-server/src/audio.rs, the parsing half of
 * `persist_frame`). The two sides share only the byte layout, so the results here are the
 * round trip and the fact that Core's size checks never refuse a frame the browser cuts.
 */
module FrameCodec {
  import opened Sequences

  newtype Byte = x: int | 0 <= x < 256

  const HEADER_BYTES: nat := 16
  const PCM_BYTES_PER_SECOND: nat := 32_000
  const MAX_FRAME_BYTES: nat := PCM_BYTES_PER_SECOND * 3 + HEADER_BYTES
  const FRAME_SAMPLES: nat := 16_000

  datatype Frame = Frame(sequence: nat, capturedAtMs: nat, pcm: seq<Byte>)

  datatype FrameError = InvalidSize | SequenceZero | OddPcm

  // Big-endian unsigned integers

  function BigEndian(value: nat, width: nat): (bytes: seq<Byte>)
    ensures |bytes| == width
  {
    if width == 0 then [] else BigEndian(value / 256, width - 1) + [(value % 256) as Byte]
  }

  function FromBigEndian(bytes: seq<Byte>): nat {
    if bytes == [] then 0 else FromBigEndian(bytes[..|bytes| - 1]) * 256 + bytes[|bytes| - 1] as int
  }

  function Power256(width: nat): (p: nat)
    ensures p > 0
  {
    if width == 0 then 1 else 256 * Power256(width - 1)
  }

  /** The first byte counts most. */
  lemma {:induction false} FirstByteIsHighest(bytes: seq<Byte>)
    requires bytes != []
    ensures FromBigEndian(bytes) == bytes[0] as int * Power256(|bytes| - 1) + FromBigEndian(bytes[1..])
  {
    if |bytes| > 1 {
      var n := |bytes| - 1;
      FirstByteIsHighest(bytes[..n]);
      assert bytes[..n][1..] == bytes[1..][..n - 1];
      var high := bytes[0] as int;
      assert high * Power256(n) == high * Power256(n - 1) * 256;
    }
  }

  lemma {:induction false} BigEndianRoundTrip(value: nat, width: nat)
    requires value < Power256(width)
    ensures FromBigEndian(BigEndian(value, width)) == value
  {
    if width > 0 {
      var bytes := BigEndian(value, width);
      var high, low := value / 256, value % 256;
      assert bytes[..width - 1] == BigEndian(high, width - 1) && bytes[width - 1] == low as Byte;
      assert high < Power256(width - 1);
      BigEndianRoundTrip(high, width - 1);
    }
  }

  lemma U64RoundTrip(value: nat)
    requires value < U64_LIMIT
    ensures FromBigEndian(BigEndian(value, 8)) == value
  {
    assert Power256(4) == 0x1_0000_0000;
    assert Power256(8) == U64_LIMIT;
    BigEndianRoundTrip(value, 8);
  }

  // Signed 16-bit PCM

  function Clip(sample: real): real {
    if sample < -1.0 then -1.0 else if sample > 1.0 then 1.0 else sample
  }

  /**
   * The PCM value of one sample: the nearest of 32768 steps below zero and of 32767 above it,
   * the upper one of two equally near; samples outside [-1, 1] become the ends of the range.
   */
  function Quantised(sample: real): (value: int)
    ensures -32768 <= value <= 32767
    ensures -1.0 <= sample <= 0.0 ==> value as real - 0.5 <= sample * 32768.0 < value as real + 0.5
    ensures 0.0 <= sample <= 1.0 ==> value as real - 0.5 <= sample * 32767.0 < value as real + 0.5
    ensures sample <= -1.0 ==> value == -32768
    ensures 1.0 <= sample ==> value == 32767
  {
    var clipped := Clip(sample);
    var pcm := if clipped < 0.0 then clipped * 32768.0 else clipped * 32767.0;
    (pcm + 0.5).Floor
  }

  /** A sample in range is heard within one step of the scale that both halves nearly share. */
  lemma QuantisedIsNear(sample: real)
    requires -1.0 <= sample <= 1.0
    ensures -1.0 <= Quantised(sample) as real - sample * 32767.5 <= 1.0
  {
    hide Clip;
  }

  /** A louder sample is never heard as a smaller value. */
  lemma QuantisedIsMonotone(s: real, t: real)
    requires s <= t
    ensures Quantised(s) <= Quantised(t)
  {
    hide Clip;
  }

  function LittleEndian16(value: int): (bytes: seq<Byte>)
    ensures |bytes| == 2
  {
    [(value % 256) as Byte, (value / 256 % 256) as Byte]
  }

  function FromLittleEndian16(low: Byte, high: Byte): int {
    var unsigned := low as int + 256 * high as int;
    if unsigned >= 32768 then unsigned - 65536 else unsigned
  }

  /** The low byte comes first, and the value is the signed one with these 16 bits. */
  lemma LittleEndian16Reads(low: Byte, high: Byte)
    ensures -32768 <= FromLittleEndian16(low, high) <= 32767
    ensures (FromLittleEndian16(low, high) - low as int) % 256 == 0
    ensures (FromLittleEndian16(low, high) - low as int - 256 * high as int) % 65536 == 0
  {
  }

  lemma LittleEndian16RoundTrip(value: int)
    requires -32768 <= value <= 32767
    ensures
      var bytes := LittleEndian16(value);
      FromLittleEndian16(bytes[0], bytes[1]) == value
  {
  }

  function PcmBytes(samples: seq<real>): (bytes: seq<Byte>)
    ensures |bytes| == 2 * |samples|
  {
    if samples == [] then [] else PcmBytes(samples[..|samples| - 1]) + LittleEndian16(Quantised(samples[|samples| - 1]))
  }

  /** The samples as Core hears them (`i16::from_le_bytes` over pairs). */
  function PcmSamples(bytes: seq<Byte>): (samples: seq<int>)
    requires |bytes| % 2 == 0
    ensures |samples| == |bytes| / 2
  {
    seq(|bytes| / 2, i requires 0 <= i < |bytes| / 2 => FromLittleEndian16(bytes[2 * i], bytes[2 * i + 1]))
  }

  lemma {:induction false} PcmRoundTrip(samples: seq<real>)
    ensures PcmSamples(PcmBytes(samples)) == seq(|samples|, i requires 0 <= i < |samples| => Quantised(samples[i]))
  {
    if samples != [] {
      var n := |samples| - 1;
      PcmRoundTrip(samples[..n]);
      var bytes := PcmBytes(samples);
      assert bytes[..2 * n] == PcmBytes(samples[..n]);
      forall i | 0 <= i < |samples|
        ensures PcmSamples(bytes)[i] == Quantised(samples[i])
      {
        if i < n {
          assert PcmSamples(bytes)[i] == PcmSamples(bytes[..2 * n])[i];
          assert samples[..n][i] == samples[i];
        } else {
          var value := Quantised(samples[n]);
          assert bytes[2 * n..] == LittleEndian16(value);
          assert bytes[2 * n] == LittleEndian16(value)[0] && bytes[2 * n + 1] == LittleEndian16(value)[1];
          LittleEndian16RoundTrip(value);
        }
      }
    }
  }

  /** What is heard of `samples`: every value is near its sample, and loud stays louder than soft. */
  ghost predicate SoundsLike(samples: seq<real>, values: seq<int>) {
    && |values| == |samples|
    && (forall i | 0 <= i < |samples| && -1.0 <= samples[i] <= 1.0 ::
          -1.0 <= values[i] as real - samples[i] * 32767.5 <= 1.0)
    && (forall i | 0 <= i < |samples| && 1.0 <= samples[i] :: values[i] == 32767)
    && (forall i | 0 <= i < |samples| && samples[i] <= -1.0 :: values[i] == -32768)
    && (forall i, j | 0 <= i < |samples| && 0 <= j < |samples| && samples[i] <= samples[j] :: values[i] <= values[j])
  }

  lemma DoubleIsEven(n: nat)
    ensures 2 * n % 2 == 0
  {
  }

  lemma PcmBytesEven(samples: seq<real>)
    ensures |PcmBytes(samples)| % 2 == 0
  {
    DoubleIsEven(|samples|);
  }

  lemma PcmIsHeard(samples: seq<real>)
    ensures |PcmBytes(samples)| % 2 == 0 && SoundsLike(samples, PcmSamples(PcmBytes(samples)))
  {
    PcmBytesEven(samples);
    PcmRoundTrip(samples);
    var values := PcmSamples(PcmBytes(samples));
    hide *;
    forall i | 0 <= i < |samples| && -1.0 <= samples[i] <= 1.0
      ensures -1.0 <= values[i] as real - samples[i] * 32767.5 <= 1.0
    {
      QuantisedIsNear(samples[i]);
    }
    forall i, j | 0 <= i < |samples| && 0 <= j < |samples| && samples[i] <= samples[j]
      ensures values[i] <= values[j]
    {
      QuantisedIsMonotone(samples[i], samples[j]);
    }
  }

  lemma {:induction false} PcmBytesAppend(a: seq<real>, b: seq<real>)
    ensures PcmBytes(a + b) == PcmBytes(a) + PcmBytes(b)
  {
    if b == [] {
      assert a + b == a;
    } else {
      var n := |b| - 1;
      PcmBytesAppend(a, b[..n]);
      assert (a + b)[..|a + b| - 1] == a + b[..n];
    }
  }

  // Whole frames

  function FrameBytes(sequence: nat, capturedAtMs: nat, samples: seq<real>): (bytes: seq<Byte>)
    ensures |bytes| == HEADER_BYTES + 2 * |samples|
  {
    BigEndian(sequence, 8) + BigEndian(capturedAtMs, 8) + PcmBytes(samples)
  }

  /** What Core accepts, in the order of its checks. */
  function ParseFrame(frame: seq<Byte>): Result<Frame, FrameError> {
    if |frame| <= HEADER_BYTES || |frame| > MAX_FRAME_BYTES then Err(InvalidSize)
    else if FromBigEndian(frame[..8]) == 0 then Err(SequenceZero)
    else if |frame[HEADER_BYTES..]| % 2 != 0 then Err(OddPcm)
    else Ok(Frame(FromBigEndian(frame[..8]), FromBigEndian(frame[8..16]), frame[HEADER_BYTES..]))
  }

  lemma ParseParts(sequence: seq<Byte>, capturedAtMs: seq<Byte>, pcm: seq<Byte>)
    requires |sequence| == 8 && |capturedAtMs| == 8 && FromBigEndian(sequence) != 0
    requires 0 < |pcm| <= MAX_FRAME_BYTES - HEADER_BYTES && |pcm| % 2 == 0
    ensures ParseFrame(sequence + capturedAtMs + pcm)
         == Ok(Frame(FromBigEndian(sequence), FromBigEndian(capturedAtMs), pcm))
  {
    var frame := sequence + capturedAtMs + pcm;
    assert frame[..8] == sequence && frame[8..16] == capturedAtMs && frame[16..] == pcm;
  }

  /** Core accepts every frame of up to three seconds and reads back exactly what was written. */
  lemma FrameRoundTrip(sequence: nat, capturedAtMs: nat, samples: seq<real>)
    requires 1 <= sequence < U64_LIMIT && capturedAtMs < U64_LIMIT
    requires 1 <= |samples| <= 48_000
    ensures ParseFrame(FrameBytes(sequence, capturedAtMs, samples))
         == Ok(Frame(sequence, capturedAtMs, PcmBytes(samples)))
  {
    U64RoundTrip(sequence);
    U64RoundTrip(capturedAtMs);
    PcmBytesEven(samples);
    ParseParts(BigEndian(sequence, 8), BigEndian(capturedAtMs, 8), PcmBytes(samples));
  }

  lemma {:induction false} FromBigEndianZeroIff(bytes: seq<Byte>)
    ensures FromBigEndian(bytes) == 0 <==> forall i | 0 <= i < |bytes| :: bytes[i] == 0
  {
    if bytes != [] {
      var n := |bytes| - 1;
      FromBigEndianZeroIff(bytes[..n]);
      assert forall i | 0 <= i < n :: bytes[..n][i] == bytes[i];
    }
  }

  lemma {:induction false} BigEndianOfRead(bytes: seq<Byte>)
    ensures BigEndian(FromBigEndian(bytes), |bytes|) == bytes
  {
    if bytes != [] {
      var n := |bytes| - 1;
      BigEndianOfRead(bytes[..n]);
      assert bytes == bytes[..n] + [bytes[n]];
    }
  }

  /**
   * Core refuses a frame exactly for its size (a header with up to three seconds behind it), for
   * the number zero, or for half a sample, in this order.
   */
  lemma RefusedIff(frame: seq<Byte>)
    ensures ParseFrame(frame) == Err(InvalidSize) <==> |frame| <= 16 || 96_016 < |frame|
    ensures ParseFrame(frame) == Err(SequenceZero)
       <==> 16 < |frame| <= 96_016 && forall i | 0 <= i < 8 :: frame[i] == 0
    ensures ParseFrame(frame) == Err(OddPcm)
       <==> 16 < |frame| <= 96_016 && |frame| % 2 == 1 && exists i | 0 <= i < 8 :: frame[i] != 0
  {
    if 16 < |frame| {
      FromBigEndianZeroIff(frame[..8]);
      assert forall i | 0 <= i < 8 :: frame[..8][i] == frame[i];
    }
  }

  /** A frame that is accepted is the three parts it is read as. */
  lemma AcceptedIsWritten(frame: seq<Byte>)
    requires ParseFrame(frame).Ok?
    ensures
      var parsed := ParseFrame(frame).value;
      frame == BigEndian(parsed.sequence, 8) + BigEndian(parsed.capturedAtMs, 8) + parsed.pcm
  {
    BigEndianOfRead(frame[..8]);
    BigEndianOfRead(frame[8..16]);
    assert frame == frame[..8] + frame[8..16] + frame[16..];
  }

  lemma {:induction false} FromBigEndianInjective(a: seq<Byte>, b: seq<Byte>)
    requires |a| == |b| && FromBigEndian(a) == FromBigEndian(b)
    ensures a == b
  {
    if a != [] {
      var n := |a| - 1;
      FromBigEndianInjective(a[..n], b[..n]);
      assert a == a[..n] + [a[n]] && b == b[..n] + [b[n]];
    }
  }

  /** Frames that Core reads as the same frame are the same bytes. */
  lemma ParseFrameInjective(a: seq<Byte>, b: seq<Byte>)
    requires ParseFrame(a).Ok? && ParseFrame(a) == ParseFrame(b)
    ensures a == b
  {
    FromBigEndianInjective(a[..8], b[..8]);
    FromBigEndianInjective(a[8..16], b[8..16]);
    assert a == a[..8] + a[8..16] + a[16..];
    assert b == b[..8] + b[8..16] + b[16..];
  }

  /** The eight bytes at `offset` become the big-endian `value`; nothing else changes. */
  method WriteU64(view: array<Byte>, offset: nat, value: nat)
    requires offset + 8 <= view.Length
    modifies view
    ensures view[..] == old(view[..offset]) + BigEndian(value, 8) + old(view[offset + 8..])
  {
    var rest := value;
    var i := 8;
    while i > 0
      invariant 0 <= i <= 8
      invariant BigEndian(value, 8) == BigEndian(rest, i) + view[offset + i..offset + 8]
      invariant view[..offset] == old(view[..offset])
      invariant view[offset + 8..] == old(view[offset + 8..])
    {
      i := i - 1;
      view[offset + i] := (rest % 256) as Byte;
      assert view[offset + i..offset + 8] == [(rest % 256) as Byte] + view[offset + i + 1..offset + 8];
      rest := rest / 256;
    }
  }

  /** The two bytes at `offset` become the little-endian `value`; nothing else changes. */
  method WriteI16(view: array<Byte>, offset: nat, value: int)
    requires offset + 2 <= view.Length
    modifies view
    ensures view[..] == old(view[..offset]) + LittleEndian16(value) + old(view[offset + 2..])
  {
    view[offset] := (value % 256) as Byte;
    view[offset + 1] := (value / 256 % 256) as Byte;
  }

  lemma EncodeStep(before: seq<Byte>, after: seq<Byte>, header: seq<Byte>, samples: seq<real>, index: nat)
    requires index < |samples| && |header| == 16 && |before| == 16 + 2 * |samples|
    requires before[..16 + index * 2] == header + PcmBytes(samples[..index])
    requires after
          == before[..16 + index * 2] + LittleEndian16(Quantised(samples[index])) + before[16 + index * 2 + 2..]
    ensures after[..16 + (index + 1) * 2] == header + PcmBytes(samples[..index + 1])
  {
    assert samples[..index + 1][..index] == samples[..index];
    assert PcmBytes(samples[..index + 1]) == PcmBytes(samples[..index]) + LittleEndian16(Quantised(samples[index]));
  }

  /** The browser's frame buffer: header, then one little-endian sample after the other. */
  method EncodeFrame(sequence: nat, capturedAtMs: nat, samples: seq<real>) returns (frame: array<Byte>)
    ensures fresh(frame) && frame[..] == FrameBytes(sequence, capturedAtMs, samples)
    ensures frame.Length >= 16 && |frame[16..]| % 2 == 0 && SoundsLike(samples, PcmSamples(frame[16..]))
  {
    hide SoundsLike, PcmSamples, BigEndian, Quantised, LittleEndian16;
    frame := new Byte[HEADER_BYTES + |samples| * 2](_ => 0);
    WriteU64(frame, 0, sequence);
    WriteU64(frame, 8, capturedAtMs);
    ghost var header := BigEndian(sequence, 8) + BigEndian(capturedAtMs, 8);
    for index := 0 to |samples|
      invariant frame[..16 + index * 2] == header + PcmBytes(samples[..index])
    {
      ghost var before := frame[..];
      var value := Quantised(samples[index]);
      WriteI16(frame, 16 + index * 2, value);
      EncodeStep(before, frame[..], header, samples, index);
    }
    assert samples[..|samples|] == samples;
    assert frame[16..] == PcmBytes(samples);
    PcmIsHeard(samples);
  }
}
