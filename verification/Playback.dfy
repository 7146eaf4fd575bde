/**
 * Whole-course playback (crates/core-server/src/course_content.rs, `playback_chunks`,
 * `pcm_wav_header`, `session_audio`, `session_audio_segment`): a WAV file that exists only as
 * a list of chunks, served by byte range and by time segment.
 */
module Playback {
  import opened Sequences
  import opened FrameCodec
  import opened ByteRange
  import opened Decimals

  const HEADER: nat := 44
  const U32_LIMIT: nat := 0x1_0000_0000
  const PCM_BYTES_PER_MS: nat := 32
  const MAX_PLAYBACK_SEGMENT_MS: nat := 120_000

  /** One row of the chunk table, and what the object store returns for its hash. */
  datatype Chunk = Chunk(
    capturedAtMs: nat, sampleRate: nat, channels: nat, encoding: string, sizeBytes: nat, stored: Option<seq<Byte>>)

  datatype PlaybackError =
    NoRecording | UnsupportedFormat | TooLong | Unreadable | BadRange(reason: RangeError) | OutOfRange

  // The WAV header

  function LittleEndian(value: nat, width: nat): (bytes: seq<Byte>)
    ensures |bytes| == width
  {
    if width == 0 then [] else [(value % 256) as Byte] + LittleEndian(value / 256, width - 1)
  }

  function FromLittleEndian(bytes: seq<Byte>): nat {
    if bytes == [] then 0 else bytes[0] as nat + 256 * FromLittleEndian(bytes[1..])
  }

  lemma {:induction false} LittleEndianRoundTrip(value: nat, width: nat)
    requires value < Power256(width)
    ensures FromLittleEndian(LittleEndian(value, width)) == value
  {
    if width > 0 {
      LittleEndianRoundTrip(value / 256, width - 1);
      assert LittleEndian(value, width)[1..] == LittleEndian(value / 256, width - 1);
    }
  }

  function Ascii(text: string): (bytes: seq<Byte>)
    requires forall i | 0 <= i < |text| :: text[i] as nat < 256
    ensures |bytes| == |text|
  {
    seq(|text|, i requires 0 <= i < |text| => text[i] as nat as Byte)
  }

  /** The part of the header that is the same for every recording. */
  function FormatChunk(): (bytes: seq<Byte>)
    ensures |bytes| == 32
  {
    Ascii("WAVEfmt ") + LittleEndian(16, 4) + LittleEndian(1, 2) + LittleEndian(1, 2)
    + LittleEndian(16_000, 4) + LittleEndian(32_000, 4) + LittleEndian(2, 2) + LittleEndian(16, 2) + Ascii("data")
  }

  function PcmWavHeader(size: nat): (header: seq<Byte>)
    ensures |header| == HEADER
  {
    Ascii("RIFF") + LittleEndian(size + 36, 4) + FormatChunk() + LittleEndian(size, 4)
  }

  lemma FourParts<T>(a: seq<T>, b: seq<T>, c: seq<T>, d: seq<T>)
    ensures
      var all := a + b + c + d;
      all[|a|..|a| + |b|] == b && all[|a| + |b| + |c|..|a| + |b| + |c| + |d|] == d
  {
  }

  /** The two length fields describe the file that follows, for every size that is served. */
  lemma HeaderDescribesFile(size: nat)
    requires size < U32_LIMIT - 36
    ensures FromLittleEndian(PcmWavHeader(size)[4..8]) == size + 36
    ensures FromLittleEndian(PcmWavHeader(size)[40..44]) == size
  {
    assert Power256(4) == U32_LIMIT;
    LittleEndianRoundTrip(size + 36, 4);
    LittleEndianRoundTrip(size, 4);
    hide LittleEndian, FormatChunk, Ascii, FromLittleEndian;
    FourParts(Ascii("RIFF"), LittleEndian(size + 36, 4), FormatChunk(), LittleEndian(size, 4));
  }

  /** The lowest byte comes first: a byte behind `low` counts as much as all of them together and one more. */
  lemma {:induction false} LastByteIsHighest(low: seq<Byte>, high: Byte)
    ensures FromLittleEndian(low + [high]) == FromLittleEndian(low) + high as nat * Power256(|low|)
  {
    if low != [] {
      LastByteIsHighest(low[1..], high);
      assert (low + [high])[1..] == low[1..] + [high];
      assert high as nat * Power256(|low|) == 256 * (high as nat * Power256(|low| - 1));
    }
  }

  // The four tags of a RIFF file, in bytes.
  const RIFF_TAG: seq<Byte> := [82, 73, 70, 70]
  const WAVE_TAG: seq<Byte> := [87, 65, 86, 69]
  const FORMAT_TAG: seq<Byte> := [102, 109, 116, 32]
  const DATA_TAG: seq<Byte> := [100, 97, 116, 97]

  /** What a player learns from a RIFF file with one format chunk of 16 bytes and one data chunk. */
  datatype Wave =
    Wave(format: nat, channels: nat, rate: nat, byteRate: nat, blockAlign: nat, bits: nat, pcm: seq<Byte>)

  function ReadWave(file: seq<Byte>): Option<Wave> {
    if |file| < 44 then None
    else if file[..4] != RIFF_TAG || FromLittleEndian(file[4..8]) + 8 != |file| then None
    else if file[8..12] != WAVE_TAG || file[12..16] != FORMAT_TAG then None
    else if FromLittleEndian(file[16..20]) != 16 || file[36..40] != DATA_TAG then None
    else if FromLittleEndian(file[40..44]) + 44 != |file| then None
    else
      Some(Wave(FromLittleEndian(file[20..22]), FromLittleEndian(file[22..24]), FromLittleEndian(file[24..28]),
                FromLittleEndian(file[28..32]), FromLittleEndian(file[32..34]), FromLittleEndian(file[34..36]),
                file[44..]))
  }

  lemma FormatSlices()
    ensures
      var chunk := FormatChunk();
      && chunk[..4] == WAVE_TAG && chunk[4..8] == FORMAT_TAG && chunk[28..32] == DATA_TAG
      && chunk[8..12] == LittleEndian(16, 4) && chunk[12..14] == LittleEndian(1, 2)
      && chunk[14..16] == LittleEndian(1, 2) && chunk[16..20] == LittleEndian(16_000, 4)
      && chunk[20..24] == LittleEndian(32_000, 4) && chunk[24..26] == LittleEndian(2, 2)
      && chunk[26..28] == LittleEndian(16, 2)
  {
    hide LittleEndian;
  }

  lemma FormatFields()
    ensures
      var chunk := FormatChunk();
      && FromLittleEndian(chunk[8..12]) == 16 && FromLittleEndian(chunk[12..14]) == 1
      && FromLittleEndian(chunk[14..16]) == 1 && FromLittleEndian(chunk[16..20]) == 16_000
      && FromLittleEndian(chunk[20..24]) == 32_000 && FromLittleEndian(chunk[24..26]) == 2
      && FromLittleEndian(chunk[26..28]) == 16
  {
    assert Power256(2) == 0x1_0000 && Power256(4) == U32_LIMIT;
    LittleEndianRoundTrip(16, 4);
    LittleEndianRoundTrip(1, 2);
    LittleEndianRoundTrip(16_000, 4);
    LittleEndianRoundTrip(32_000, 4);
    LittleEndianRoundTrip(2, 2);
    LittleEndianRoundTrip(16, 2);
    FormatSlices();
    hide *;
  }

  lemma TagInHeader(size: nat)
    ensures PcmWavHeader(size)[..4] == RIFF_TAG
  {
    hide LittleEndian, FormatChunk;
  }

  lemma InHeader(size: nat, from: nat, until: nat)
    requires from <= until <= 32
    ensures PcmWavHeader(size)[8 + from..8 + until] == FormatChunk()[from..until]
  {
    hide LittleEndian, FormatChunk, Ascii;
    assert PcmWavHeader(size)[8..40] == FormatChunk();
  }

  lemma HeadSlices<T>(head: seq<T>, rest: seq<T>)
    ensures (head + rest)[|head|..] == rest
    ensures forall from, until | 0 <= from <= until <= |head| :: (head + rest)[from..until] == head[from..until]
    ensures forall until | 0 <= until <= |head| :: (head + rest)[..until] == head[..until]
  {
  }

  /** The fields of the header, as a player reads them. */
  lemma HeaderFields(size: nat)
    ensures
      var header := PcmWavHeader(size);
      && header[..4] == RIFF_TAG && header[8..12] == WAVE_TAG && header[12..16] == FORMAT_TAG
      && FromLittleEndian(header[16..20]) == 16 && FromLittleEndian(header[20..22]) == 1
      && FromLittleEndian(header[22..24]) == 1 && FromLittleEndian(header[24..28]) == 16_000
      && FromLittleEndian(header[28..32]) == 32_000 && FromLittleEndian(header[32..34]) == 2
      && FromLittleEndian(header[34..36]) == 16 && header[36..40] == DATA_TAG
  {
    FormatFields();
    hide *;
    InHeader(size, 0, 4);
    InHeader(size, 4, 8);
    InHeader(size, 8, 12);
    InHeader(size, 12, 14);
    InHeader(size, 14, 16);
    InHeader(size, 16, 20);
    InHeader(size, 20, 24);
    InHeader(size, 24, 26);
    InHeader(size, 26, 28);
    InHeader(size, 28, 32);
    FormatSlices();
    TagInHeader(size);
  }

  /** A header and samples of the length it names are one readable file of 16-bit PCM. */
  lemma WaveIsRead(pcm: seq<Byte>)
    requires |pcm| < U32_LIMIT - 36
    ensures ReadWave(PcmWavHeader(|pcm|) + pcm) == Some(Wave(1, 1, 16_000, 32_000, 2, 16, pcm))
  {
    HeaderFields(|pcm|);
    HeaderDescribesFile(|pcm|);
    hide PcmWavHeader, Ascii, FromLittleEndian;
    var header := PcmWavHeader(|pcm|);
    HeadSlices(header, pcm);
  }

  // The chunk list

  const PCM_ENCODING: string := "pcm_s16le"

  predicate Supported(chunk: Chunk) {
    && chunk.sampleRate == 16_000 && chunk.channels == 1 && chunk.encoding == PCM_ENCODING
    && chunk.sizeBytes != 0 && chunk.sizeBytes % 2 == 0
  }

  /** The size of the first chunks together; the offset of the chunk behind them. */
  function Offset(chunks: seq<Chunk>, i: nat): nat
    requires i <= |chunks|
  {
    if i == 0 then 0 else Offset(chunks, i - 1) + chunks[i - 1].sizeBytes
  }

  lemma {:induction false} OffsetGrows(chunks: seq<Chunk>, i: nat, j: nat)
    requires i <= j <= |chunks|
    ensures Offset(chunks, i) <= Offset(chunks, j)
  {
    if i < j {
      OffsetGrows(chunks, i, j - 1);
    }
  }

  lemma OffsetStarts(chunks: seq<Chunk>)
    ensures Offset(chunks, 0) == 0
  {
  }

  lemma OffsetGoesOn(chunks: seq<Chunk>, i: nat)
    requires i < |chunks|
    ensures Offset(chunks, i + 1) == Offset(chunks, i) + chunks[i].sizeBytes
  {
  }

  /** What `playback_chunks` accepts. */
  predicate Playable(chunks: seq<Chunk>) {
    && chunks != []
    && (forall i | 0 <= i < |chunks| :: Supported(chunks[i]))
    && Offset(chunks, |chunks|) < U32_LIMIT - 36
  }

  /** Playable is whole 16 kHz mono samples in every chunk, as many as the length fields can name. */
  lemma PlayableIff(chunks: seq<Chunk>)
    ensures Playable(chunks)
       <==> && chunks != [] && Offset(chunks, |chunks|) + 36 < 0x1_0000_0000
            && forall chunk | chunk in chunks ::
                 && chunk.sampleRate == 16_000 && chunk.channels == 1 && chunk.encoding == "pcm_s16le"
                 && chunk.sizeBytes > 0 && chunk.sizeBytes % 2 == 0
  {
    assert forall i | 0 <= i < |chunks| :: chunks[i] in chunks;
  }

  /** The complaint names what is wrong with the list. */
  ghost predicate Complains(chunks: seq<Chunk>, error: PlaybackError) {
    match error
    case NoRecording => chunks == []
    case UnsupportedFormat => exists i | 0 <= i < |chunks| :: !Supported(chunks[i])
    case TooLong => Offset(chunks, |chunks|) >= U32_LIMIT - 36
    case _ => false
  }

  lemma FormatIsWrong(chunks: seq<Chunk>, i: nat)
    requires i < |chunks| && !Supported(chunks[i])
    ensures !Playable(chunks) && Complains(chunks, UnsupportedFormat)
  {
  }

  lemma LengthIsWrong(chunks: seq<Chunk>)
    requires Offset(chunks, |chunks|) >= U32_LIMIT - 36
    ensures !Playable(chunks) && Complains(chunks, TooLong)
  {
  }

  lemma NoChunksAreWrong(chunks: seq<Chunk>)
    requires chunks == []
    ensures !Playable(chunks) && Complains(chunks, NoRecording)
  {
  }

  /** The first `n` chunks are supported, and these are their offsets. */
  ghost predicate LaidOut(chunks: seq<Chunk>, offsets: seq<nat>, n: nat) {
    && n == |offsets| <= |chunks|
    && forall k | 0 <= k < n :: offsets[k] == Offset(chunks, k) && Supported(chunks[k])
  }

  lemma LaidOutNone(chunks: seq<Chunk>)
    ensures LaidOut(chunks, [], 0)
  {
  }

  lemma LaidOutMore(chunks: seq<Chunk>, offsets: seq<nat>, n: nat)
    requires LaidOut(chunks, offsets, n) && n < |chunks| && Supported(chunks[n])
    ensures LaidOut(chunks, offsets + [Offset(chunks, n)], n + 1)
  {
    hide Supported, Offset;
  }

  lemma NothingIsWrong(chunks: seq<Chunk>, offsets: seq<nat>)
    requires chunks != [] && Offset(chunks, |chunks|) < U32_LIMIT - 36 && LaidOut(chunks, offsets, |chunks|)
    ensures Playable(chunks)
    ensures |offsets| == |chunks| && forall i | 0 <= i < |chunks| :: offsets[i] == Offset(chunks, i)
  {
    hide Supported, Offset;
  }

  /** The offsets of the chunks and the size of the recording, or the first complaint. */
  method PlaybackChunks(chunks: seq<Chunk>) returns (result: Result<(seq<nat>, nat), PlaybackError>)
    ensures result.Ok? <==> Playable(chunks)
    ensures result.Ok? ==>
      && |result.value.0| == |chunks|
      && (forall i | 0 <= i < |chunks| :: result.value.0[i] == Offset(chunks, i))
      && result.value.1 == Offset(chunks, |chunks|)
    ensures result == Err(NoRecording) <==> chunks == []
    ensures result.Err? ==> Complains(chunks, result.error)
  {
    assert 36 < U32_LIMIT <= U64_LIMIT;
    hide *;
    if |chunks| == 0 {
      NoChunksAreWrong(chunks);
      return Err(NoRecording);
    }
    OffsetStarts(chunks);
    LaidOutNone(chunks);
    var offset: nat := 0;
    var offsets: seq<nat> := [];
    for i := 0 to |chunks|
      invariant offset == Offset(chunks, i) && LaidOut(chunks, offsets, i)
    {
      var chunk := chunks[i];
      if !Supported(chunk) {
        FormatIsWrong(chunks, i);
        return Err(UnsupportedFormat);
      }
      LaidOutMore(chunks, offsets, i);
      offsets := offsets + [offset];
      OffsetGoesOn(chunks, i);
      offset := offset + chunk.sizeBytes;
      if offset >= U64_LIMIT {
        OffsetGrows(chunks, i + 1, |chunks|);
        LengthIsWrong(chunks);
        return Err(TooLong);
      }
    }
    if offset > U32_LIMIT - 1 - 36 {
      LengthIsWrong(chunks);
      return Err(TooLong);
    }
    NothingIsWrong(chunks, offsets);
    return Ok((offsets, offset));
  }

  // The file that is served

  /** The object has the size its row says. */
  predicate Intact(chunk: Chunk) {
    chunk.stored.Some? && |chunk.stored.value| == chunk.sizeBytes
  }

  /** The bytes of a chunk; blanks stand for an object that cannot be read, which is never served. */
  function Content(chunk: Chunk): (bytes: seq<Byte>)
    ensures |bytes| == chunk.sizeBytes
  {
    if Intact(chunk) then chunk.stored.value else seq(chunk.sizeBytes, _ => 0)
  }

  lemma {:induction false} OffsetOfPrefix(chunks: seq<Chunk>, n: nat, i: nat)
    requires i <= n <= |chunks|
    ensures Offset(chunks[..n], i) == Offset(chunks, i)
  {
    if i > 0 {
      OffsetOfPrefix(chunks, n, i - 1);
    }
  }

  function Recording(chunks: seq<Chunk>): (pcm: seq<Byte>)
    ensures |pcm| == Offset(chunks, |chunks|)
  {
    if chunks == [] then []
    else
      OffsetOfPrefix(chunks, |chunks| - 1, |chunks| - 1);
      Recording(chunks[..|chunks| - 1]) + Content(chunks[|chunks| - 1])
  }

  /** The simple file: header and recording, one behind the other. */
  function WavFile(chunks: seq<Chunk>): (file: seq<Byte>)
    ensures |file| == HEADER + Offset(chunks, |chunks|)
  {
    PcmWavHeader(Offset(chunks, |chunks|)) + Recording(chunks)
  }

  /** Where a chunk lies in the recording. */
  lemma {:induction false} ChunkPlace(chunks: seq<Chunk>, i: nat)
    requires i < |chunks|
    ensures Offset(chunks, i) + chunks[i].sizeBytes == Offset(chunks, i + 1) <= Offset(chunks, |chunks|)
    ensures Recording(chunks)[Offset(chunks, i)..Offset(chunks, i + 1)] == Content(chunks[i])
    decreases |chunks|
  {
    hide Content;
    var n := |chunks| - 1;
    var init := chunks[..n];
    OffsetOfPrefix(chunks, n, n);
    OffsetGrows(chunks, i + 1, |chunks|);
    if i < n {
      ChunkPlace(init, i);
      OffsetOfPrefix(chunks, n, i);
      OffsetOfPrefix(chunks, n, i + 1);
      OffsetGrows(chunks, i + 1, n);
      assert Recording(chunks)[Offset(chunks, i)..Offset(chunks, i + 1)]
          == Recording(init)[Offset(chunks, i)..Offset(chunks, i + 1)];
    }
  }

  /**
   * What is served is the recording as a player understands it: its format is that of every
   * chunk, its rates agree with one another, and its samples are the chunks one behind the other.
   */
  lemma CourseIsReadable(chunks: seq<Chunk>, i: nat)
    requires Playable(chunks) && i < |chunks|
    ensures ReadWave(WavFile(chunks)).Some?
    ensures
      var wave := ReadWave(WavFile(chunks)).value;
      && wave.format == 1 && wave.channels == chunks[i].channels && wave.rate == chunks[i].sampleRate
      && wave.bits == 16 && wave.blockAlign == wave.channels * wave.bits / 8
      && wave.byteRate == wave.rate * wave.blockAlign
      && wave.pcm == Recording(chunks)
      && Offset(chunks, i) + chunks[i].sizeBytes <= |wave.pcm|
      && wave.pcm[Offset(chunks, i)..Offset(chunks, i) + chunks[i].sizeBytes] == Content(chunks[i])
  {
    hide PcmWavHeader, Recording, Offset, Content, ReadWave;
    WaveIsRead(Recording(chunks));
    ChunkPlace(chunks, i);
  }

  // Cutting a piece out of a file that is held in parts

  /** The part of `from`..`until` that lies before `upto`. */
  function Before<T>(file: seq<T>, from: nat, until: nat, upto: nat): seq<T>
    requires from <= until <= |file|
  {
    if upto <= from then [] else file[from..Least(until, upto)]
  }

  function Most(a: nat, b: nat): nat {
    if a < b then b else a
  }

  /** What the part `a`..`b` of the file contributes to the piece `from`..`until`. */
  function Share<T>(part: seq<T>, a: nat, from: nat, until: nat): seq<T>
    requires from <= until
  {
    if a >= until || a + |part| <= from then []
    else part[Most(from, a) - a..Least(until, a + |part|) - a]
  }

  lemma SliceJoins<T>(file: seq<T>, from: nat, mid: nat, until: nat)
    requires from <= mid <= until <= |file|
    ensures file[from..until] == file[from..mid] + file[mid..until]
  {
  }

  lemma SliceOfSlice<T>(file: seq<T>, a: nat, b: nat, lo: nat, hi: nat)
    requires a <= lo <= hi <= b <= |file|
    ensures file[a..b][lo - a..hi - a] == file[lo..hi]
  {
    forall i | 0 <= i < hi - lo
      ensures file[a..b][lo - a..hi - a][i] == file[lo..hi][i]
    {
    }
  }

  lemma ShareOfNone<T>(file: seq<T>, from: nat, until: nat, a: nat, part: seq<T>)
    requires from <= until <= |file| && (a >= until || a + |part| <= from)
    ensures Before(file, from, until, a + |part|) == Before(file, from, until, a)
    ensures Share(part, a, from, until) == []
  {
  }

  lemma ShareOfSome<T>(file: seq<T>, from: nat, until: nat, a: nat, part: seq<T>)
    requires from <= until <= |file| && a + |part| <= |file| && file[a..a + |part|] == part
    requires a < until && a + |part| > from
    ensures Share(part, a, from, until) == file[Most(from, a)..Least(until, a + |part|)]
  {
    SliceOfSlice(file, a, a + |part|, Most(from, a), Least(until, a + |part|));
  }

  /** One more part. */
  lemma ShareAdds<T>(file: seq<T>, from: nat, until: nat, a: nat, part: seq<T>)
    requires from <= until <= |file| && a + |part| <= |file| && file[a..a + |part|] == part
    ensures Before(file, from, until, a + |part|) == Before(file, from, until, a) + Share(part, a, from, until)
  {
    hide Share;
    if a < until && a + |part| > from {
      ShareOfSome(file, from, until, a, part);
      if a > from {
        SliceJoins(file, from, a, Least(until, a + |part|));
      }
    } else {
      ShareOfNone(file, from, until, a, part);
    }
  }

  /** The share, by the inclusive bounds that `session_audio` works with. */
  lemma ShareInclusive<T>(part: seq<T>, a: nat, start: nat, end: nat)
    requires start <= end && part != []
    ensures Share(part, a, start, end + 1)
         == if a > end || a + |part| - 1 < start then []
            else part[Most(start, a) - a..Least(end, a + |part| - 1) - a + 1]
  {
  }

  // Serving

  /** The chunk that begins at `a` has bytes in the piece `from`..`until`. */
  predicate Touches(chunk: Chunk, a: nat, from: nat, until: nat) {
    a < until && a + chunk.sizeBytes > from
  }

  /** Every chunk with bytes in the piece, counted from `base`, can be read. */
  ghost predicate CanServe(chunks: seq<Chunk>, base: nat, from: nat, until: nat) {
    forall i | 0 <= i < |chunks| ::
      Touches(chunks[i], base + Offset(chunks, i), from, until) ==> Intact(chunks[i])
  }

  predicate HoldsByte(chunk: Chunk, a: nat, p: nat) {
    a <= p < a + chunk.sizeBytes
  }

  /** A chunk is touched when one of its bytes is in the piece. */
  lemma TouchedByte(chunk: Chunk, a: nat, from: nat, until: nat) returns (p: nat)
    requires from < until && chunk.sizeBytes > 0 && Touches(chunk, a, from, until)
    ensures from <= p < until && HoldsByte(chunk, a, p)
  {
    p := if from < a then a else from;
  }

  lemma ByteTouches(chunk: Chunk, a: nat, from: nat, until: nat, p: nat)
    requires from <= p < until && HoldsByte(chunk, a, p)
    ensures Touches(chunk, a, from, until)
  {
  }

  /** Byte `p`, counted from `base`, belongs to a chunk that cannot be read. */
  ghost predicate IsMissing(chunks: seq<Chunk>, base: nat, p: nat) {
    exists i | 0 <= i < |chunks| :: HoldsByte(chunks[i], base + Offset(chunks, i), p) && !Intact(chunks[i])
  }

  ghost predicate NoneMissing(chunks: seq<Chunk>, base: nat, from: nat, until: nat) {
    forall p: nat | from <= p < until :: !IsMissing(chunks, base, p)
  }

  /** A piece can be served exactly when none of its bytes is missing; other broken objects do not matter. */
  lemma CanServeIff(chunks: seq<Chunk>, base: nat, from: nat, until: nat)
    requires from < until && forall i | 0 <= i < |chunks| :: chunks[i].sizeBytes > 0
    ensures CanServe(chunks, base, from, until)
       <==> NoneMissing(chunks, base, from, until)
  {
    hide Touches, HoldsByte, Intact, Offset;
    if CanServe(chunks, base, from, until) {
      forall p: nat | from <= p < until
        ensures !IsMissing(chunks, base, p)
      {
        if IsMissing(chunks, base, p) {
          var i :| 0 <= i < |chunks| && HoldsByte(chunks[i], base + Offset(chunks, i), p) && !Intact(chunks[i]);
          ByteTouches(chunks[i], base + Offset(chunks, i), from, until, p);
        }
      }
    } else {
      var i :| 0 <= i < |chunks| && Touches(chunks[i], base + Offset(chunks, i), from, until) && !Intact(chunks[i]);
      var p := TouchedByte(chunks[i], base + Offset(chunks, i), from, until);
      assert IsMissing(chunks, base, p);
    }
  }

  /** A piece of the file, collected chunk by chunk. */
  lemma PieceGrows(chunks: seq<Chunk>, head: seq<Byte>, i: nat, from: nat, until: nat)
    requires i < |chunks| && from <= until <= |head| + Offset(chunks, |chunks|)
    ensures
      var file := head + Recording(chunks);
      var a := |head| + Offset(chunks, i);
      Before(file, from, until, |head| + Offset(chunks, i + 1))
        == Before(file, from, until, a) + Share(Content(chunks[i]), a, from, until)
  {
    hide Recording, Content, Before, Share, Offset;
    var file := head + Recording(chunks);
    ChunkPlace(chunks, i);
    assert file[|head| + Offset(chunks, i)..|head| + Offset(chunks, i + 1)]
        == Recording(chunks)[Offset(chunks, i)..Offset(chunks, i + 1)];
    ShareAdds(file, from, until, |head| + Offset(chunks, i), Content(chunks[i]));
  }

  /** The reply by reference to the simple file. */
  ghost function AudioReply(chunks: seq<Chunk>, request: Option<string>): Result<(seq<Byte>, Range), PlaybackError> {
    var total := HEADER + Offset(chunks, |chunks|);
    match PlaybackRange(request, total)
    case Err(reason) => Err(BadRange(reason))
    case Ok(range) =>
      RangeIsBounded(request, total);
      if CanServe(chunks, HEADER, range.first, range.last + 1)
      then Ok((WavFile(chunks)[range.first..range.last + 1], range))
      else Err(Unreadable)
  }

  /** One turn of the loop in `session_audio`. */
  lemma AudioTurn(chunks: seq<Chunk>, i: nat, start: nat, end: nat)
    requires i < |chunks| && chunks[i].sizeBytes > 0 && start <= end < HEADER + Offset(chunks, |chunks|)
    ensures
      var file := WavFile(chunks);
      var a := HEADER + Offset(chunks, i);
      var b := a + chunks[i].sizeBytes - 1;
      if !Touches(chunks[i], a, start, end + 1)
      then Before(file, start, end + 1, HEADER + Offset(chunks, i + 1)) == Before(file, start, end + 1, a)
      else Intact(chunks[i]) ==>
             Before(file, start, end + 1, HEADER + Offset(chunks, i + 1))
               == Before(file, start, end + 1, a)
                + chunks[i].stored.value[Most(start, a) - a..Least(end, b) - a + 1]
  {
    hide PcmWavHeader, Recording, Before, Share, Offset;
    PieceGrows(chunks, PcmWavHeader(Offset(chunks, |chunks|)), i, start, end + 1);
    ShareInclusive(Content(chunks[i]), HEADER + Offset(chunks, i), start, end);
  }

  lemma HeadPart<T>(head: seq<T>, rest: seq<T>, from: nat, until: nat)
    requires from <= until <= |head| + |rest|
    ensures Before(head + rest, from, until, |head|) == if |head| <= from then [] else head[from..Least(until, |head|)]
  {
  }

  /** The part of the header in the piece. */
  lemma HeaderPart(chunks: seq<Chunk>, start: nat, end: nat)
    requires start <= end < HEADER + Offset(chunks, |chunks|)
    ensures Before(WavFile(chunks), start, end + 1, HEADER)
         == if start < HEADER
            then PcmWavHeader(Offset(chunks, |chunks|))[start..Least(end, HEADER - 1) + 1] else []
  {
    hide PcmWavHeader, Recording;
    HeadPart(PcmWavHeader(Offset(chunks, |chunks|)), Recording(chunks), start, end + 1);
  }

  /** The reply once every chunk has been looked at. */
  lemma WholePiece(chunks: seq<Chunk>, request: Option<string>)
    ensures PlaybackRange(request, HEADER + Offset(chunks, |chunks|)).Err? ==>
      AudioReply(chunks, request) == Err(BadRange(PlaybackRange(request, HEADER + Offset(chunks, |chunks|)).error))
    ensures PlaybackRange(request, HEADER + Offset(chunks, |chunks|)).Ok? ==>
      var range := PlaybackRange(request, HEADER + Offset(chunks, |chunks|)).value;
      && range.first <= range.last < |WavFile(chunks)| == HEADER + Offset(chunks, |chunks|)
      && var piece := Before(WavFile(chunks), range.first, range.last + 1, HEADER + Offset(chunks, |chunks|));
         && |piece| == range.last + 1 - range.first
         && AudioReply(chunks, request)
            == if CanServe(chunks, HEADER, range.first, range.last + 1) then Ok((piece, range)) else Err(Unreadable)
  {
    hide PcmWavHeader, Recording, PlaybackRange, Offset, CanServe;
    if PlaybackRange(request, HEADER + Offset(chunks, |chunks|)).Ok? {
      RangeIsBounded(request, HEADER + Offset(chunks, |chunks|));
    }
  }

  /**
   * The loop of `session_audio`: the bytes `start`..`end` of the file, taken from the header
   * and from each chunk in turn; nothing when a chunk in the range cannot be read.
   */
  method CollectBody(chunks: seq<Chunk>, offsets: seq<nat>, wavHeader: seq<Byte>, start: nat, end: nat)
      returns (result: Option<seq<Byte>>)
    requires wavHeader == PcmWavHeader(Offset(chunks, |chunks|)) && start <= end < HEADER + Offset(chunks, |chunks|)
    requires |offsets| == |chunks| && forall i | 0 <= i < |chunks| :: offsets[i] == Offset(chunks, i)
    requires forall i | 0 <= i < |chunks| :: chunks[i].sizeBytes > 0
    ensures result == if CanServe(chunks, HEADER, start, end + 1)
                      then Some(Before(WavFile(chunks), start, end + 1, HEADER + Offset(chunks, |chunks|))) else None
  {
    hide PcmWavHeader, Recording, Before, WavFile, Offset;
    var body := [];
    HeaderPart(chunks, start, end);
    if start < HEADER {
      body := body + wavHeader[start..Least(end, HEADER - 1) + 1];
    }
    OffsetStarts(chunks);
    for i := 0 to |chunks|
      invariant body == Before(WavFile(chunks), start, end + 1, HEADER + Offset(chunks, i))
      invariant forall k | 0 <= k < i ::
                  Touches(chunks[k], HEADER + Offset(chunks, k), start, end + 1) ==> Intact(chunks[k])
    {
      var chunkStart := HEADER + offsets[i];
      AudioTurn(chunks, i, start, end);
      if chunkStart > end || chunkStart + chunks[i].sizeBytes - 1 < start {
        continue;
      }
      if !Intact(chunks[i]) { return None; }
      var bytes := chunks[i].stored.value;
      var from := Most(start, chunkStart) - chunkStart;
      var until := Least(end, chunkStart + chunks[i].sizeBytes - 1) - chunkStart + 1;
      body := body + bytes[from..until];
    }
    result := Some(body);
  }

  lemma SizesArePositive(chunks: seq<Chunk>)
    requires Playable(chunks)
    ensures forall i | 0 <= i < |chunks| :: chunks[i].sizeBytes > 0
  {
  }

  /**
   * A byte range of the whole course. The reply is the slice of the simple file; it fails only
   * for a recording that is not playable, a bad range, or an object in the range that cannot
   * be read. The final check of the length never refuses anything.
   */
  method SessionAudio(chunks: seq<Chunk>, request: Option<string>)
      returns (result: Result<(seq<Byte>, Range), PlaybackError>)
    ensures !Playable(chunks) ==> result.Err?
    ensures Playable(chunks) ==> result == AudioReply(chunks, request)
  {
    hide Playable, Supported, AudioReply, CanServe, Before, WavFile, PcmWavHeader, PlaybackRange, Offset;
    var layout := PlaybackChunks(chunks);
    if layout.Err? { return Err(layout.error); }
    var offsets, size := layout.value.0, layout.value.1;
    var accepted := PlaybackRange(request, size + HEADER);
    WholePiece(chunks, request);
    if accepted.Err? { return Err(BadRange(accepted.error)); }
    SizesArePositive(chunks);
    var start, end := accepted.value.first, accepted.value.last;
    var body := CollectBody(chunks, offsets, PcmWavHeader(size), start, end);
    if body.None? || |body.value| != end - start + 1 { return Err(Unreadable); }
    return Ok((body.value, accepted.value));
  }

  lemma ReplyFails(chunks: seq<Chunk>, request: Option<string>, range: Range)
    requires PlaybackRange(request, HEADER + Offset(chunks, |chunks|)) == Ok(range)
    ensures AudioReply(chunks, request).Err? <==> !CanServe(chunks, HEADER, range.first, range.last + 1)
    ensures range.first <= range.last
  {
    hide *;
    WholePiece(chunks, request);
  }

  /** An accepted range fails exactly when one of its bytes is missing. */
  lemma UnreadableIff(chunks: seq<Chunk>, request: Option<string>, range: Range)
    requires Playable(chunks) && PlaybackRange(request, HEADER + Offset(chunks, |chunks|)) == Ok(range)
    ensures AudioReply(chunks, request).Err? <==> !NoneMissing(chunks, HEADER, range.first, range.last + 1)
  {
    hide *;
    SizesArePositive(chunks);
    ReplyFails(chunks, request, range);
    CanServeIff(chunks, HEADER, range.first, range.last + 1);
  }

  /** What a player has that asks again from where each reply ended. */
  ghost function FetchedAudio(chunks: seq<Chunk>, from: nat): seq<Byte>
    requires from <= HEADER + Offset(chunks, |chunks|)
    decreases HEADER + Offset(chunks, |chunks|) - from
  {
    match AudioReply(chunks, Some("bytes=" + (Decimal(from) + "-" + "")))
    case Err(_) => []
    case Ok((part, range)) =>
      if from <= range.last < HEADER + Offset(chunks, |chunks|)
      then part + FetchedAudio(chunks, range.last + 1) else []
  }

  lemma ServesAll(chunks: seq<Chunk>, base: nat, from: nat, until: nat)
    requires forall chunk | chunk in chunks :: Intact(chunk)
    ensures CanServe(chunks, base, from, until)
  {
  }

  lemma SliceFromStart<T>(file: seq<T>, from: nat, next: nat)
    requires from <= next <= |file|
    ensures file[from..] == file[from..next] + file[next..]
  {
  }

  lemma FitsHeader(chunks: seq<Chunk>)
    requires Playable(chunks)
    ensures Offset(chunks, |chunks|) < U32_LIMIT - 36
  {
  }

  /** When every object can be read, that is the whole file, from wherever it begins. */
  lemma {:induction false} CourseIsFetched(chunks: seq<Chunk>, from: nat)
    requires Playable(chunks) && (forall chunk | chunk in chunks :: Intact(chunk))
    requires from <= HEADER + Offset(chunks, |chunks|)
    ensures FetchedAudio(chunks, from) == WavFile(chunks)[from..]
    decreases HEADER + Offset(chunks, |chunks|) - from
  {
    hide WavFile, Offset, Playable, CanServe, PlaybackRange, Intact;
    var total := HEADER + Offset(chunks, |chunks|);
    FitsHeader(chunks);
    FromFirst(from, total);
    if from < total {
      var next := Least(total - 1, from + 4_194_304 - 1) + 1;
      ServesAll(chunks, HEADER, from, next);
      CourseIsFetched(chunks, next);
      SliceFromStart(WavFile(chunks), from, next);
    }
  }

  // Time segments

  function Clamp(n: nat, low: nat, high: nat): nat
    requires low <= high
  {
    if n < low then low else if n > high then high else n
  }

  /** The bytes of the recording that a segment request asks for. */
  function SegmentBounds(startMs: Option<nat>, durationMs: Option<nat>, size: nat): Result<(nat, nat), PlaybackError> {
    var start := PCM_BYTES_PER_MS * if startMs.Some? then startMs.value else 0;
    var duration := Clamp(if durationMs.Some? then durationMs.value else MAX_PLAYBACK_SEGMENT_MS,
                          1_000, MAX_PLAYBACK_SEGMENT_MS);
    if start >= U64_LIMIT || start >= size then Err(OutOfRange)
    else Ok((start, Least(start + PCM_BYTES_PER_MS * duration, size)))
  }

  /** The small file of a segment. */
  function SegmentFile(recording: seq<Byte>, from: nat, until: nat): seq<Byte>
    requires from <= until <= |recording|
  {
    PcmWavHeader(until - from) + recording[from..until]
  }

  /** A segment is a file of its own for a player. */
  lemma SegmentIsReadable(recording: seq<Byte>, from: nat, until: nat)
    requires from <= until <= |recording| < U32_LIMIT - 36
    ensures ReadWave(SegmentFile(recording, from, until))
         == Some(Wave(1, 1, 16_000, 32_000, 2, 16, recording[from..until]))
  {
    WaveIsRead(recording[from..until]);
  }

  /**
   * A segment begins at its time, at 32 bytes a millisecond, and is as long as asked for, though
   * at least one second and at most two minutes (two minutes without a wish), or ends with the recording.
   */
  lemma SegmentIsTimed(startMs: Option<nat>, durationMs: Option<nat>, size: nat)
    requires size < U64_LIMIT
    ensures
      var start := if startMs.Some? then startMs.value else 0;
      && (SegmentBounds(startMs, durationMs, size).Ok? <==> start * 32_000 < size * 1000)
      && (SegmentBounds(startMs, durationMs, size).Err? ==>
            SegmentBounds(startMs, durationMs, size) == Err(OutOfRange))
    ensures SegmentBounds(startMs, durationMs, size).Ok? ==>
      var (from, until) := SegmentBounds(startMs, durationMs, size).value;
      && from * 1000 == 32_000 * (if startMs.Some? then startMs.value else 0) && from < until <= size
      && (until - from) * 1000 <= 32_000 * 120_000
      && (durationMs.None? && until < size ==> (until - from) * 1000 == 32_000 * 120_000)
      && (durationMs.Some? && 1_000 <= durationMs.value ==> (until - from) * 1000 <= 32_000 * durationMs.value)
      && (durationMs.Some? && durationMs.value <= 120_000 && until < size ==>
            (until - from) * 1000 >= 32_000 * durationMs.value)
      && (until < size ==> (until - from) * 1000 >= 32_000 * 1_000)
      && (durationMs.Some? && durationMs.value <= 1_000 ==> (until - from) * 1000 <= 32_000 * 1_000)
  {
  }

  /** The reply to a segment request by reference to the recording. */
  ghost function SegmentReply(chunks: seq<Chunk>, startMs: Option<nat>, durationMs: Option<nat>,
                              request: Option<string>)
    : Result<(seq<Byte>, Range), PlaybackError>
  {
    match SegmentBounds(startMs, durationMs, Offset(chunks, |chunks|))
    case Err(error) => Err(error)
    case Ok((from, until)) =>
      if !CanServe(chunks, 0, from, until) then Err(Unreadable)
      else
        var file := SegmentFile(Recording(chunks), from, until);
        match PlaybackRange(request, HEADER + (until - from))
        case Err(reason) => Err(BadRange(reason))
        case Ok(range) =>
          RangeIsBounded(request, HEADER + (until - from));
          Ok((file[range.first..range.last + 1], range))
  }

  /** One turn of the loop in `session_audio_segment`. */
  lemma SegmentTurn(chunks: seq<Chunk>, i: nat, from: nat, until: nat)
    requires i < |chunks| && from <= until <= Offset(chunks, |chunks|)
    ensures
      var recording := Recording(chunks);
      var a := Offset(chunks, i);
      var b := a + chunks[i].sizeBytes;
      if a >= until || b <= from
      then Before(recording, from, until, Offset(chunks, i + 1)) == Before(recording, from, until, a)
      else Intact(chunks[i]) ==>
             Before(recording, from, until, Offset(chunks, i + 1))
               == Before(recording, from, until, a) + chunks[i].stored.value[Most(from, a) - a..Least(until, b) - a]
  {
    hide Recording, Before;
    PieceGrows(chunks, [], i, from, until);
    assert [] + Recording(chunks) == Recording(chunks);
  }

  lemma NothingBefore<T>(file: seq<T>, from: nat, until: nat)
    requires from <= until <= |file|
    ensures Before(file, from, until, 0) == []
  {
  }

  lemma AllBefore<T>(file: seq<T>, from: nat, until: nat)
    requires from <= until <= |file|
    ensures Before(file, from, until, |file|) == file[from..until]
  {
  }

  method CollectSegment(chunks: seq<Chunk>, offsets: seq<nat>, from: nat, until: nat)
      returns (result: Option<seq<Byte>>)
    requires from <= until <= Offset(chunks, |chunks|)
    requires |offsets| == |chunks| && forall i | 0 <= i < |chunks| :: offsets[i] == Offset(chunks, i)
    ensures result == if CanServe(chunks, 0, from, until) then Some(Recording(chunks)[from..until]) else None
  {
    hide Recording, Before, Offset;
    var pcm := [];
    OffsetStarts(chunks);
    assert pcm == Before(Recording(chunks), from, until, 0) by { NothingBefore(Recording(chunks), from, until); }
    for i := 0 to |chunks|
      invariant pcm == Before(Recording(chunks), from, until, Offset(chunks, i))
      invariant forall k | 0 <= k < i :: Touches(chunks[k], 0 + Offset(chunks, k), from, until) ==> Intact(chunks[k])
    {
      var chunkStart, chunkEnd := offsets[i], offsets[i] + chunks[i].sizeBytes;
      SegmentTurn(chunks, i, from, until);
      if chunkStart >= until || chunkEnd <= from { continue; }
      if !Intact(chunks[i]) { return None; }
      pcm := pcm + chunks[i].stored.value[Most(from, chunkStart) - chunkStart..Least(until, chunkEnd) - chunkStart];
    }
    AllBefore(Recording(chunks), from, until);
    result := Some(pcm);
  }

  /** A bounded, self-contained WAV file of a stretch of the course. */
  method SessionAudioSegment(chunks: seq<Chunk>, startMs: Option<nat>, durationMs: Option<nat>, request: Option<string>)
      returns (result: Result<(seq<Byte>, Range), PlaybackError>)
    ensures !Playable(chunks) ==> result.Err?
    ensures Playable(chunks) ==> result == SegmentReply(chunks, startMs, durationMs, request)
  {
    hide Playable, Supported, CanServe, Recording, PcmWavHeader, PlaybackRange, Offset, Complains;
    var layout := PlaybackChunks(chunks);
    if layout.Err? { return Err(layout.error); }
    var bounds := SegmentBounds(startMs, durationMs, layout.value.1);
    if bounds.Err? { return Err(bounds.error); }
    var from, until := bounds.value.0, bounds.value.1;
    var pcm := CollectSegment(chunks, layout.value.0, from, until);
    if pcm.None? || |pcm.value| != until - from { return Err(Unreadable); }
    var wav := PcmWavHeader(|pcm.value|) + pcm.value;
    var accepted := PlaybackRange(request, |wav|);
    if accepted.Err? { return Err(BadRange(accepted.error)); }
    RangeIsBounded(request, |wav|);
    return Ok((wav[accepted.value.first..accepted.value.last + 1], accepted.value));
  }

  /** What a player has of a segment of `size` bytes when it asks again from where each reply ended. */
  ghost function FetchedSegment(chunks: seq<Chunk>, startMs: Option<nat>, durationMs: Option<nat>,
                                size: nat, from: nat): seq<Byte>
    requires from <= size
    decreases size - from
  {
    match SegmentReply(chunks, startMs, durationMs, Some("bytes=" + (Decimal(from) + "-" + "")))
    case Err(_) => []
    case Ok((part, range)) =>
      if from <= range.last < size
      then part + FetchedSegment(chunks, startMs, durationMs, size, range.last + 1) else []
  }

  /** The reply of an accepted range of a segment that can be served. */
  lemma SegmentPart(chunks: seq<Chunk>, startMs: Option<nat>, durationMs: Option<nat>, request: Option<string>,
                    from: nat, until: nat)
    requires SegmentBounds(startMs, durationMs, Offset(chunks, |chunks|)) == Ok((from, until))
    requires CanServe(chunks, 0, from, until)
    ensures from <= until <= Offset(chunks, |chunks|)
    ensures
      var file := SegmentFile(Recording(chunks), from, until);
      match PlaybackRange(request, |file|)
      case Err(reason) => SegmentReply(chunks, startMs, durationMs, request) == Err(BadRange(reason))
      case Ok(range) =>
        && range.first <= range.last < |file|
        && SegmentReply(chunks, startMs, durationMs, request) == Ok((file[range.first..range.last + 1], range))
  {
    hide PcmWavHeader, Recording, CanServe, Offset, PlaybackRange;
    if PlaybackRange(request, HEADER + (until - from)).Ok? {
      RangeIsBounded(request, HEADER + (until - from));
    }
  }

  /** When every object can be read, that is the segment's whole file, from wherever it begins. */
  lemma {:induction false} SegmentIsFetched(chunks: seq<Chunk>, startMs: Option<nat>, durationMs: Option<nat>,
                                           from: nat, until: nat, at: nat)
    requires SegmentBounds(startMs, durationMs, Offset(chunks, |chunks|)) == Ok((from, until))
    requires Offset(chunks, |chunks|) < U32_LIMIT && forall chunk | chunk in chunks :: Intact(chunk)
    requires from <= until <= Offset(chunks, |chunks|) && at <= HEADER + (until - from)
    ensures FetchedSegment(chunks, startMs, durationMs, HEADER + (until - from), at)
         == SegmentFile(Recording(chunks), from, until)[at..]
    decreases HEADER + (until - from) - at
  {
    hide SegmentBounds, Recording, Offset, CanServe, PlaybackRange, Intact, PcmWavHeader, SegmentReply;
    var file := SegmentFile(Recording(chunks), from, until);
    ServesAll(chunks, 0, from, until);
    SegmentPart(chunks, startMs, durationMs, Some("bytes=" + (Decimal(at) + "-" + "")), from, until);
    FromFirst(at, |file|);
    if at < |file| {
      var next := Least(|file| - 1, at + 4_194_304 - 1) + 1;
      SegmentIsFetched(chunks, startMs, durationMs, from, until, next);
      SliceFromStart(file, at, next);
    }
  }

  /** Without a Range header a segment is never cut short: two minutes fit under the limit. */
  lemma UnrangedSegmentIsWhole(chunks: seq<Chunk>, startMs: Option<nat>, durationMs: Option<nat>)
    requires SegmentBounds(startMs, durationMs, Offset(chunks, |chunks|)).Ok?
    requires
      var (from, until) := SegmentBounds(startMs, durationMs, Offset(chunks, |chunks|)).value;
      CanServe(chunks, 0, from, until)
    ensures
      var (from, until) := SegmentBounds(startMs, durationMs, Offset(chunks, |chunks|)).value;
      var file := SegmentFile(Recording(chunks), from, until);
      SegmentReply(chunks, startMs, durationMs, None) == Ok((file, Range(0, |file| - 1, false)))
  {
    hide PcmWavHeader, Recording, CanServe, Offset;
    var (from, until) := SegmentBounds(startMs, durationMs, Offset(chunks, |chunks|)).value;
    var file := SegmentFile(Recording(chunks), from, until);
    assert file[0..|file|] == file;
  }

  /** The recording as a player walks through it, one segment of `durationMs` after the other. */
  function Walked(recording: seq<Byte>, durationMs: nat, k: nat): seq<Byte>
    requires 1_000 <= durationMs <= MAX_PLAYBACK_SEGMENT_MS
    decreases |recording| - k * durationMs
  {
    match SegmentBounds(Some(k * durationMs), Some(durationMs), |recording|)
    case Err(_) => []
    case Ok((from, until)) =>
      assert (k + 1) * durationMs == k * durationMs + durationMs;
      recording[from..until] + Walked(recording, durationMs, k + 1)
  }

  /** Consecutive segments of equal length tile the recording. */
  lemma {:induction false} SegmentsTile(recording: seq<Byte>, durationMs: nat, k: nat)
    requires 1_000 <= durationMs <= MAX_PLAYBACK_SEGMENT_MS && |recording| < U32_LIMIT
    ensures Walked(recording, durationMs, k)
         == var from := PCM_BYTES_PER_MS * (k * durationMs);
            if from < |recording| then recording[from..] else []
    decreases |recording| - k * durationMs
  {
    var from := PCM_BYTES_PER_MS * (k * durationMs);
    if from < |recording| {
      assert (k + 1) * durationMs == k * durationMs + durationMs;
      SegmentsTile(recording, durationMs, k + 1);
      var until := Least(from + PCM_BYTES_PER_MS * durationMs, |recording|);
      assert recording[from..] == recording[from..until] + recording[until..];
    }
  }
}
