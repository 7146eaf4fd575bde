/**
 * The append-only event log (crates/core-server/src/app.rs, `emit_idempotent`;
 * crates/core-server/src/audio.rs, the locked part of `persist_frame`;
 * crates/event-store/src/lib.rs, `insert_audio_chunk_and_event`, `next_sequence`).
 *
 * Both emitters hold one lock from reading the next sequence to the insert, so each method is
 * one atomic step. The identity of a keyed event is its key; content stands for its hash.
 */
module EventLog {
  import opened Decimals
  import opened Sequences

  /** What an event says: the facts of an audio chunk, or anything else. */
  datatype Content = Other(text: string) | AudioFacts(sequence: nat, sizeBytes: nat, objectHash: string)

  datatype Lineage = Lineage(
    session: string, source: string, kind: string, correlation: string, causation: Option<string>, capturedNs: nat,
    content: Content)

  datatype Event = Event(id: string, sequence: nat, lineage: Lineage)

  datatype EmitError = DifferentLineage | DifferentAudio | DifferentIngestEvent

  /** Two events of one source. */
  predicate SameSource(a: Lineage, b: Lineage) {
    a.session == b.session && a.source == b.source
  }

  /** The highest sequence of a source so far, or 0. */
  function LastSequence(events: seq<Event>, of: Lineage): nat {
    if events == [] then 0
    else
      var n := |events| - 1;
      var before := LastSequence(events[..n], of);
      if SameSource(events[n].lineage, of) && events[n].sequence > before then events[n].sequence else before
  }

  function Find(events: seq<Event>, id: string): (found: Option<Event>) {
    if events == [] then None
    else if events[|events| - 1].id == id then Some(events[|events| - 1])
    else Find(events[..|events| - 1], id)
  }

  /** One event for each identity. */
  ghost predicate UniqueIds(events: seq<Event>) {
    forall i, j | 0 <= i < j < |events| :: events[i].id != events[j].id
  }

  /** Within a source, sequences grow as the log does. */
  ghost predicate Increasing(events: seq<Event>) {
    forall i, j | 0 <= i < j < |events| ::
      SameSource(events[i].lineage, events[j].lineage) ==> events[i].sequence < events[j].sequence
  }

  lemma {:induction false} FindFits(events: seq<Event>, id: string)
    ensures Find(events, id).Some? ==> Find(events, id).value in events && Find(events, id).value.id == id
    ensures Find(events, id).None? ==> forall event | event in events :: event.id != id
  {
    if events != [] {
      var n := |events| - 1;
      FindFits(events[..n], id);
      assert events == events[..n] + [events[n]];
    }
  }

  lemma {:induction false} LastSequenceBounds(events: seq<Event>, of: Lineage)
    ensures forall event | event in events ::
              SameSource(event.lineage, of) ==> event.sequence <= LastSequence(events, of)
  {
    if events != [] {
      var n := |events| - 1;
      LastSequenceBounds(events[..n], of);
      assert events == events[..n] + [events[n]];
    }
  }

  /** How many events this source of this session has. */
  function CountOf(events: seq<Event>, session: string, source: string): nat {
    if events == [] then 0
    else
      var last := events[|events| - 1];
      CountOf(events[..|events| - 1], session, source)
      + if last.lineage.session == session && last.lineage.source == source then 1 else 0
  }

  ghost predicate IsNumbered(events: seq<Event>, i: nat)
    requires i < |events|
  {
    var event := events[i];
    event.sequence == CountOf(events[..i], event.lineage.session, event.lineage.source) + 1
  }

  /** Every source numbers its events 1, 2, 3 and so on. */
  ghost predicate GapFree(events: seq<Event>) {
    forall i: nat | i < |events| :: IsNumbered(events, i)
  }

  lemma {:induction false} LastIsCount(events: seq<Event>, of: Lineage)
    requires GapFree(events)
    ensures LastSequence(events, of) == CountOf(events, of.session, of.source)
  {
    if events != [] {
      var n := |events| - 1;
      forall i: nat | i < n
        ensures IsNumbered(events[..n], i)
      {
        assert IsNumbered(events, i) && events[..n][..i] == events[..i];
      }
      LastIsCount(events[..n], of);
      assert IsNumbered(events, n);
    }
  }

  /** The next sequence leaves no gap. */
  lemma AppendIsGapFree(events: seq<Event>, event: Event)
    requires GapFree(events) && event.sequence == LastSequence(events, event.lineage) + 1
    ensures GapFree(events + [event])
  {
    LastIsCount(events, event.lineage);
    var more := events + [event];
    forall i: nat | i < |more|
      ensures IsNumbered(more, i)
    {
      assert more[..i] == events[..i];
      assert i < |events| ==> IsNumbered(events, i);
      assert events[..|events|] == events;
    }
  }

  /** The last sequence is that of an event of the same source of the same session, and of no other. */
  lemma {:induction false} LastSequenceIsOwn(events: seq<Event>, of: Lineage)
    ensures LastSequence(events, of) == 0
         || exists event | event in events ::
              && event.lineage.session == of.session && event.lineage.source == of.source
              && event.sequence == LastSequence(events, of)
    ensures forall event | event in events ::
              event.lineage.session == of.session && event.lineage.source == of.source
              ==> event.sequence <= LastSequence(events, of)
  {
    if events != [] {
      var n := |events| - 1;
      LastSequenceIsOwn(events[..n], of);
      assert events == events[..n] + [events[n]];
      assert events[n] in events;
    }
  }

  /** An event of a new identity, under the next sequence of its source, keeps the log in order. */
  lemma AppendKeeps(events: seq<Event>, event: Event)
    requires UniqueIds(events) && Increasing(events)
    requires Find(events, event.id).None? && event.sequence > LastSequence(events, event.lineage)
    ensures UniqueIds(events + [event]) && Increasing(events + [event])
  {
    FindFits(events, event.id);
    LastSequenceBounds(events, event.lineage);
    forall i | 0 <= i < |events|
      ensures events[i].id != event.id
      ensures SameSource(events[i].lineage, event.lineage) ==> events[i].sequence < event.sequence
    {
      assert events[i] in events;
    }
  }

  /** The manifest row of an audio chunk, without its key. */
  datatype Manifest = Manifest(capturedAtMs: nat, sizeBytes: nat, objectHash: string)

  datatype ChunkKey = ChunkKey(session: string, source: string, sequence: nat)

  const AUDIO_KIND: string := "audio.chunk.received"

  /** The stable key of a chunk's event. */
  function CommitKey(chunk: ChunkKey): string {
    "audio:" + chunk.session + ":" + chunk.source + ":" + Decimal(chunk.sequence)
  }

  /** Milliseconds as nanoseconds, saturating at 64 bits. */
  function Nanoseconds(milliseconds: nat): nat {
    if milliseconds * 1_000_000 < U64_LIMIT then milliseconds * 1_000_000 else U64_LIMIT - 1
  }

  /** What `persist_frame` says about a chunk. */
  function AudioLineage(chunk: ChunkKey, manifest: Manifest): Lineage {
    Lineage(chunk.session, chunk.source, AUDIO_KIND, CommitKey(chunk), None, Nanoseconds(manifest.capturedAtMs),
            AudioFacts(chunk.sequence, manifest.sizeBytes, manifest.objectHash))
  }

  /** Events are the same fact if they differ in their time at most. */
  predicate SameFact(a: Lineage, b: Lineage) {
    a.(capturedNs := b.capturedNs) == b
  }

  /** The facts of a chunk, and its capture time in nanoseconds unless that is out of range. */
  lemma AudioLineageKeeps(chunk: ChunkKey, manifest: Manifest)
    ensures
      var lineage := AudioLineage(chunk, manifest);
      && lineage.session == chunk.session && lineage.source == chunk.source
      && lineage.content == AudioFacts(chunk.sequence, manifest.sizeBytes, manifest.objectHash)
      && (manifest.capturedAtMs < 18_446_744_073_710 ==> lineage.capturedNs == manifest.capturedAtMs * 1_000_000)
      && (manifest.capturedAtMs >= 18_446_744_073_710 ==> lineage.capturedNs == 18_446_744_073_709_551_615)
  {
  }

  /** Two events are the same fact when nothing but their time differs. */
  lemma SameFactIff(a: Lineage, b: Lineage)
    ensures SameFact(a, b)
       <==> && a.session == b.session && a.source == b.source && a.kind == b.kind
            && a.correlation == b.correlation && a.causation == b.causation && a.content == b.content
  {
  }

  /** Of two ways to split at a colon, the shorter left part leaves a colon in the right one and the other way round. */
  lemma SplitsOverlap(a: string, b: string, c: string, d: string)
    requires a + ":" + b == c + ":" + d && |a| < |c|
    ensures ':' in c && ':' in b
  {
    var s := a + ":" + b;
    assert s == c + ":" + d;
    assert s[|a|] == ':' && s[|c|] == ':';
    assert s[|a|] == c[|a|] && s[|c|] == b[|c| - |a| - 1];
  }

  /** A text is split at a colon in one way when the parts on one side hold none. */
  lemma ColonSplits(a: string, b: string, c: string, d: string)
    requires a + ":" + b == c + ":" + d
    requires (':' !in a && ':' !in c) || (':' !in b && ':' !in d)
    ensures a == c && b == d
  {
    if |a| < |c| {
      SplitsOverlap(a, b, c, d);
    } else if |c| < |a| {
      SplitsOverlap(c, d, a, b);
    } else {
      var s := a + ":" + b;
      assert s == c + ":" + d;
      assert s[..|a|] == a && s[..|c|] == c && s[|a| + 1..] == b && s[|c| + 1..] == d;
    }
  }

  lemma DecimalHasNoColon(n: nat)
    ensures ':' !in Decimal(n)
  {
    DecimalDigits(n);
  }

  /** As long as no session name holds a colon, chunks have different keys. */
  lemma CommitKeyIsUnique(a: ChunkKey, b: ChunkKey)
    requires ':' !in a.session && ':' !in b.session
    ensures CommitKey(a) == CommitKey(b) <==> a == b
  {
    if CommitKey(a) == CommitKey(b) {
      var restA, restB := a.source + ":" + Decimal(a.sequence), b.source + ":" + Decimal(b.sequence);
      assert CommitKey(a) == "audio:" + (a.session + ":" + restA);
      assert CommitKey(b) == "audio:" + (b.session + ":" + restB);
      assert CommitKey(a)[6..] == a.session + ":" + restA && CommitKey(b)[6..] == b.session + ":" + restB;
      ColonSplits(a.session, restA, b.session, restB);
      DecimalHasNoColon(a.sequence);
      DecimalHasNoColon(b.sequence);
      ColonSplits(a.source, Decimal(a.sequence), b.source, Decimal(b.sequence));
      ParsesDecimal(a.sequence);
      ParsesDecimal(b.sequence);
    }
  }

  /** The chunk has its event. */
  predicate HasEvent(events: seq<Event>, chunk: ChunkKey, manifest: Manifest) {
    match Find(events, CommitKey(chunk))
    case None => false
    case Some(event) => SameFact(event.lineage, AudioLineage(chunk, manifest))
  }

  /** The event is that of a stored chunk. */
  ghost predicate HasChunk(chunks: map<ChunkKey, Manifest>, event: Event) {
    exists chunk | chunk in chunks ::
      event.id == CommitKey(chunk) && SameFact(event.lineage, AudioLineage(chunk, chunks[chunk]))
  }

  /** Manifest and ingest facts correspond. */
  ghost predicate Paired(events: seq<Event>, chunks: map<ChunkKey, Manifest>) {
    && (forall chunk | chunk in chunks :: HasEvent(events, chunk, chunks[chunk]))
    && (forall event | event in events && event.lineage.kind == AUDIO_KIND :: HasChunk(chunks, event))
  }

  /** The correspondence is one to one: a chunk has one event, and an event is that of one chunk. */
  lemma PairedOneToOne(events: seq<Event>, chunks: map<ChunkKey, Manifest>, chunk: ChunkKey, event: Event)
    requires UniqueIds(events) && Paired(events, chunks) && chunk in chunks && event in events
    ensures event.id == CommitKey(chunk) <==> Find(events, CommitKey(chunk)) == Some(event)
    ensures SameFact(event.lineage, AudioLineage(chunk, chunks[chunk])) ==> event.id == CommitKey(chunk)
    ensures forall other | other in chunks && CommitKey(other) == CommitKey(chunk) :: other == chunk
  {
    hide Decimal;
    FindFits(events, CommitKey(chunk));
    assert HasEvent(events, chunk, chunks[chunk]);
    if SameFact(event.lineage, AudioLineage(chunk, chunks[chunk])) {
      assert HasChunk(chunks, event);
    }
    forall other | other in chunks && CommitKey(other) == CommitKey(chunk)
      ensures other == chunk
    {
      assert HasEvent(events, other, chunks[other]);
    }
  }

  lemma {:induction false} FindGrows(events: seq<Event>, event: Event, id: string)
    ensures Find(events + [event], id) == if event.id == id then Some(event) else Find(events, id)
  {
    assert (events + [event])[..|events|] == events;
  }

  /** A chunk that gets its event joins the correspondence. */
  lemma PairMore(events: seq<Event>, chunks: map<ChunkKey, Manifest>, chunk: ChunkKey, manifest: Manifest, event: Event)
    requires Paired(events, chunks) && Find(events, CommitKey(chunk)).None?
    requires event.id == CommitKey(chunk) && event.lineage == AudioLineage(chunk, manifest)
    ensures Paired(events + [event], chunks[chunk := manifest])
  {
    hide CommitKey, Find;
    var more := chunks[chunk := manifest];
    assert chunk !in chunks by {
      assert chunk in chunks ==> HasEvent(events, chunk, chunks[chunk]);
    }
    forall other | other in more
      ensures HasEvent(events + [event], other, more[other])
    {
      FindGrows(events, event, CommitKey(other));
      assert other in chunks ==> HasEvent(events, other, chunks[other]);
    }
    forall e | e in events + [event] && e.lineage.kind == AUDIO_KIND
      ensures HasChunk(more, e)
    {
      if e in events {
        assert HasChunk(chunks, e);
        var other :| other in chunks && e.id == CommitKey(other)
                  && SameFact(e.lineage, AudioLineage(other, chunks[other]));
        assert other in more && more[other] == chunks[other];
      } else {
        assert chunk in more;
      }
    }
  }

  /** Other events do not touch it. */
  lemma PairOther(events: seq<Event>, chunks: map<ChunkKey, Manifest>, event: Event)
    requires Paired(events, chunks) && Find(events, event.id).None? && event.lineage.kind != AUDIO_KIND
    ensures Paired(events + [event], chunks)
  {
    hide CommitKey, Find, HasChunk, SameFact;
    forall chunk | chunk in chunks
      ensures HasEvent(events + [event], chunk, chunks[chunk])
    {
      FindGrows(events, event, CommitKey(chunk));
      assert HasEvent(events, chunk, chunks[chunk]);
    }
  }

  class Log {
    var events: seq<Event>
    var chunks: map<ChunkKey, Manifest>
    // What has been broadcast, in order.
    var sent: seq<Event>

    ghost predicate Valid()
      reads this
    {
      UniqueIds(events) && Increasing(events) && GapFree(events)
    }

    constructor ()
      ensures Valid() && Paired(events, chunks)
      ensures events == [] && chunks == map[] && sent == []
    {
      events, chunks, sent := [], map[], [];
    }

    /**
     * A key is used for one event. A retry gets the original back; reuse with other content or
     * lineage is rejected; in both cases the log stays as it is.
     */
    method EmitIdempotent(key: string, lineage: Lineage) returns (result: Result<Event, EmitError>)
      requires Valid()
      modifies this`events, this`sent
      ensures Valid()
      ensures old(Paired(events, chunks)) && lineage.kind != AUDIO_KIND ==> Paired(events, chunks)
      ensures match old(Find(events, key))
              case Some(existing) =>
                && events == old(events) && sent == old(sent)
                && result == if existing.lineage == lineage then Ok(existing) else Err(DifferentLineage)
              case None =>
                var event := Event(key, old(LastSequence(events, lineage)) + 1, lineage);
                events == old(events) + [event] && sent == old(sent) + [event] && result == Ok(event)
    {
      var existing := Find(events, key);
      if existing.Some? {
        if existing.value.lineage != lineage { return Err(DifferentLineage); }
        return Ok(existing.value);
      }
      var event := Event(key, LastSequence(events, lineage) + 1, lineage);
      AppendKeeps(events, event);
      AppendIsGapFree(events, event);
      if Paired(events, chunks) && lineage.kind != AUDIO_KIND {
        PairOther(events, chunks, event);
      }
      events := events + [event];
      sent := sent + [event];
      return Ok(event);
    }

    /**
     * A chunk and its ingest event commit together. A repeat inserts nothing; it restores the
     * event of a chunk that has none, as an older version may have left it. A chunk or an event
     * that differs is rejected, and then neither table changes. Whatever is accepted has its event.
     */
    method PersistAudio(chunk: ChunkKey, manifest: Manifest) returns (result: Result<bool, EmitError>)
      requires Valid()
      modifies this`events, this`chunks, this`sent
      ensures Valid()
      ensures old(Paired(events, chunks)) ==> Paired(events, chunks)
      ensures result.Ok? ==> chunk in chunks && chunks[chunk] == manifest && HasEvent(events, chunk, manifest)
      ensures
        var lineage := AudioLineage(chunk, manifest);
        var event := Event(CommitKey(chunk), old(LastSequence(events, lineage)) + 1, lineage);
        if chunk in old(chunks) && old(chunks)[chunk] != manifest then
          result == Err(DifferentAudio) && events == old(events) && chunks == old(chunks) && sent == old(sent)
        else match old(Find(events, CommitKey(chunk)))
          case Some(existing) =>
            && events == old(events) && chunks == old(chunks) && sent == old(sent)
            && result == if chunk in old(chunks) && SameFact(existing.lineage, lineage)
                         then Ok(false) else Err(DifferentIngestEvent)
          case None =>
            && result == Ok(true) && events == old(events) + [event] && sent == old(sent) + [event]
            && chunks == old(chunks)[chunk := manifest]
    {
      hide CommitKey, Decimal, Find, Paired, UniqueIds, Increasing, GapFree, LastSequence;
      var lineage := AudioLineage(chunk, manifest);
      var event := Event(CommitKey(chunk), LastSequence(events, lineage) + 1, lineage);
      var existing := Find(events, CommitKey(chunk));
      if chunk in chunks && chunks[chunk] != manifest { return Err(DifferentAudio); }
      if existing.Some? {
        if chunk in chunks && SameFact(existing.value.lineage, lineage) {
          return Ok(false);
        }
        return Err(DifferentIngestEvent);
      }
      AppendKeeps(events, event);
      AppendIsGapFree(events, event);
      if Paired(events, chunks) {
        PairMore(events, chunks, chunk, manifest, event);
      }
      FindGrows(events, event, CommitKey(chunk));
      assert chunk in chunks ==> chunks[chunk := manifest] == chunks;
      events, chunks, sent := events + [event], chunks[chunk := manifest], sent + [event];
      return Ok(true);
    }
  }
}
