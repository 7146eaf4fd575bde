/**
 * From capture time to playback time (crates/core-server/src/course_content.rs,
 * `session_audio_index`; apps/web/src/sessionPlayback.ts, `playbackTimeForCapture`). Capture
 * times may have gaps between recording runs; playback time has none.
 */
module PlaybackIndex {
  import opened Sequences
  import opened Playback

  datatype Entry = Entry(capturedAtMs: nat, durationMs: nat, startMs: nat, endMs: nat)

  datatype Index = Index(durationMs: nat, positions: seq<Entry>)

  /** Milliseconds of so many bytes, rounded down. */
  function Millis(bytes: nat): nat {
    bytes * 1000 / 32_000
  }

  function EntryOf(chunks: seq<Chunk>, i: nat): Entry
    requires i < |chunks|
  {
    Entry(chunks[i].capturedAtMs, Millis(chunks[i].sizeBytes), Millis(Offset(chunks, i)),
          Millis(Offset(chunks, i) + chunks[i].sizeBytes))
  }

  function IndexOf(chunks: seq<Chunk>): (index: Index)
    ensures |index.positions| == |chunks|
  {
    Index(Millis(Offset(chunks, |chunks|)), seq(|chunks|, i requires 0 <= i < |chunks| => EntryOf(chunks, i)))
  }

  /** The store lists the chunks by capture time. */
  ghost predicate InOrder(positions: seq<Entry>) {
    forall i, j | 0 <= i <= j < |positions| :: positions[i].capturedAtMs <= positions[j].capturedAtMs
  }

  ghost predicate Ends(index: Index, i: nat)
    requires i < |index.positions|
  {
    var entry := index.positions[i];
    entry.startMs + entry.durationMs
      <= if i + 1 < |index.positions| then index.positions[i + 1].startMs else index.durationMs
  }

  /** No entry ends later than the next one starts, or than the recording ends. */
  ghost predicate Joined(index: Index) {
    forall i | 0 <= i < |index.positions| :: Ends(index, i)
  }

  /** The chunks as the store lists them. */
  ghost predicate CaptureOrder(chunks: seq<Chunk>) {
    forall i, j | 0 <= i <= j < |chunks| :: chunks[i].capturedAtMs <= chunks[j].capturedAtMs
  }

  lemma MillisAdd(a: nat, b: nat)
    ensures Millis(a) + Millis(b) <= Millis(a + b)
  {
  }

  /** Whole milliseconds at 32000 bytes a second, and less than one is lost. */
  lemma MillisAreWhole(bytes: nat)
    ensures Millis(bytes) * 32_000 <= bytes * 1000 < (Millis(bytes) + 1) * 32_000
  {
  }

  /**
   * Entry `i` says when chunk `i` was captured, and in whole milliseconds where it begins and ends
   * in the recording and how long it is.
   */
  lemma EntryIsTimed(chunks: seq<Chunk>, i: nat)
    requires i < |chunks|
    ensures
      var entry := IndexOf(chunks).positions[i];
      var end := Offset(chunks, i + 1);
      && entry.capturedAtMs == chunks[i].capturedAtMs
      && entry.startMs * 32_000 <= Offset(chunks, i) * 1000 < (entry.startMs + 1) * 32_000
      && entry.endMs * 32_000 <= end * 1000 < (entry.endMs + 1) * 32_000
      && entry.durationMs * 32_000 <= chunks[i].sizeBytes * 1000 < (entry.durationMs + 1) * 32_000
    ensures
      var whole := IndexOf(chunks).durationMs;
      whole * 32_000 <= Offset(chunks, |chunks|) * 1000 < (whole + 1) * 32_000
  {
    OffsetGoesOn(chunks, i);
    MillisAreWhole(Offset(chunks, i));
    MillisAreWhole(Offset(chunks, i + 1));
    MillisAreWhole(chunks[i].sizeBytes);
    MillisAreWhole(Offset(chunks, |chunks|));
    hide Millis, Offset;
  }

  /** Rounding down never makes entries overlap. */
  lemma IndexIsJoined(chunks: seq<Chunk>)
    ensures Joined(IndexOf(chunks))
  {
    var index := IndexOf(chunks);
    forall i | 0 <= i < |index.positions|
      ensures Ends(index, i)
    {
      OffsetGoesOn(chunks, i);
      MillisAdd(Offset(chunks, i), chunks[i].sizeBytes);
    }
  }

  /** The index that the server makes of such a list is what the player's search needs. */
  lemma IndexIsSearchable(chunks: seq<Chunk>)
    requires CaptureOrder(chunks)
    ensures InOrder(IndexOf(chunks).positions) && Joined(IndexOf(chunks))
  {
    IndexIsJoined(chunks);
    hide Millis;
    var positions := IndexOf(chunks).positions;
    forall i, j | 0 <= i <= j < |positions|
      ensures positions[i].capturedAtMs <= positions[j].capturedAtMs
    {
      assert positions[i] == EntryOf(chunks, i) && positions[j] == EntryOf(chunks, j);
    }
  }

  /** A linear scan: how many entries lie before the first that was captured after `t`. */
  function Scan(positions: seq<Entry>, t: real, i: nat): (count: nat)
    requires i <= |positions|
    ensures i <= count <= |positions|
    decreases |positions| - i
  {
    if i < |positions| && positions[i].capturedAtMs as real <= t then Scan(positions, t, i + 1) else i
  }

  function AtLeast(a: real, b: real): real {
    if a < b then b else a
  }

  function AtMost(a: real, b: real): real {
    if a < b then a else b
  }

  /** How far into the entry `t` is. */
  function Elapsed(entry: Entry, t: real): real {
    AtLeast(0.0, AtMost(entry.durationMs as real, t - entry.capturedAtMs as real))
  }

  /** The entry that plays at `t`: the last one captured by then, or the first. */
  function EntryAt(positions: seq<Entry>, t: real): (k: nat)
    requires positions != []
    ensures k < |positions|
  {
    var count := Scan(positions, t, 0);
    if count == 0 then 0 else count - 1
  }

  /** The playback time in seconds, without the final clamp. */
  function PlaybackTime(index: Index, t: real): real
    requires index.positions != []
  {
    var entry := index.positions[EntryAt(index.positions, t)];
    (entry.startMs as real + Elapsed(entry, t)) / 1000.0
  }

  lemma {:induction false} ScanSplits(positions: seq<Entry>, t: real, i: nat, k: nat)
    requires InOrder(positions) && i <= k < |positions|
    ensures positions[k].capturedAtMs as real <= t <==> k < Scan(positions, t, i)
    decreases |positions| - i
  {
    if i < |positions| && positions[i].capturedAtMs as real <= t {
      if i < k {
        ScanSplits(positions, t, i + 1, k);
      }
    }
  }

  lemma {:induction false} StartsGrow(index: Index, i: nat, j: nat)
    requires Joined(index) && i <= j < |index.positions|
    ensures index.positions[i].startMs <= index.positions[j].startMs
    ensures i < j ==> index.positions[i].startMs + index.positions[i].durationMs <= index.positions[j].startMs
    decreases j
  {
    if i < j {
      StartsGrow(index, i, j - 1);
      assert Ends(index, j - 1);
    }
  }

  lemma {:induction false} EndsInside(index: Index, j: nat)
    requires Joined(index) && j < |index.positions|
    ensures index.positions[j].startMs + index.positions[j].durationMs <= index.durationMs
    decreases |index.positions| - j
  {
    assert Ends(index, j);
    if j + 1 < |index.positions| {
      EndsInside(index, j + 1);
    }
  }

  /** The mapped time lies within the recording: the final clamp never binds. */
  lemma TimeIsWithin(index: Index, t: real)
    requires Joined(index) && index.positions != []
    ensures 0.0 <= PlaybackTime(index, t) <= index.durationMs as real / 1000.0
  {
    var k := EntryAt(index.positions, t);
    EndsInside(index, k);
  }

  lemma {:induction false} ScanGrows(positions: seq<Entry>, early: real, late: real, i: nat)
    requires early <= late && i <= |positions|
    ensures Scan(positions, early, i) <= Scan(positions, late, i)
    decreases |positions| - i
  {
    if i < |positions| && positions[i].capturedAtMs as real <= early {
      ScanGrows(positions, early, late, i + 1);
    }
  }

  /** As capture time goes on, playback time never goes back. */
  lemma TimeNeverGoesBack(index: Index, early: real, late: real)
    requires Joined(index) && index.positions != [] && early <= late
    ensures PlaybackTime(index, early) <= PlaybackTime(index, late)
  {
    var i, j := EntryAt(index.positions, early), EntryAt(index.positions, late);
    ScanGrows(index.positions, early, late, 0);
    StartsGrow(index, i, j);
    hide Scan, Ends, Joined, EntryAt;
  }

  /** While an entry plays, playback time goes on with capture time; in a gap behind it, it stands still. */
  lemma TimeInEntry(index: Index, t: real, k: nat)
    requires InOrder(index.positions) && k < |index.positions|
    requires index.positions[k].capturedAtMs as real <= t
    requires k + 1 < |index.positions| ==> t < index.positions[k + 1].capturedAtMs as real
    ensures
      var entry := index.positions[k];
      var into := t - entry.capturedAtMs as real;
      PlaybackTime(index, t) * 1000.0
        == entry.startMs as real + if into <= entry.durationMs as real then into else entry.durationMs as real
  {
    ScanSplits(index.positions, t, 0, k);
    if k + 1 < |index.positions| {
      ScanSplits(index.positions, t, 0, k + 1);
    }
    hide Scan;
  }

  /** Before the first capture the player stands at the beginning of the first entry. */
  lemma TimeBeforeAll(index: Index, t: real)
    requires InOrder(index.positions) && index.positions != [] && t < index.positions[0].capturedAtMs as real
    ensures PlaybackTime(index, t) * 1000.0 == index.positions[0].startMs as real
  {
    ScanSplits(index.positions, t, 0, 0);
    hide Scan;
  }

  /** The search of the player; `None` stands for a time that is not a finite number. */
  method PlaybackTimeForCapture(index: Index, capturedAtMs: Option<real>) returns (seconds: Option<real>)
    requires InOrder(index.positions) && Joined(index)
    ensures seconds == if capturedAtMs.None? || index.positions == [] then None
                       else Some(PlaybackTime(index, capturedAtMs.value))
  {
    if capturedAtMs.None? || |index.positions| == 0 { return None; }
    var t := capturedAtMs.value;
    var positions := index.positions;
    var low, high := 0, |positions|;
    while low < high
      invariant low <= Scan(positions, t, 0) <= high <= |positions|
    {
      var middle := (low + high) / 2;
      ScanSplits(positions, t, 0, middle);
      if positions[middle].capturedAtMs as real <= t {
        low := middle + 1;
      } else {
        high := middle;
      }
    }
    var entry := positions[if low > 0 then low - 1 else 0];
    TimeIsWithin(index, t);
    return Some(AtMost(index.durationMs as real, entry.startMs as real + Elapsed(entry, t)) / 1000.0);
  }
}
