/**
 * The input side of `BrowserCapture` (apps/web/src/audio.ts): worklet blocks are resampled,
 * collected and cut into one-second frames for the write chain; `stop` seals the tail.
 */
module Capture {
  import opened Sequences
  import opened Resampler
  import opened FrameCodec

  /** Every frame is one second long; only the last one may be shorter, and none is empty. */
  ghost predicate FrameSizes(frames: seq<seq<real>>) {
    forall i | 0 <= i < |frames| ::
      1 <= |frames[i]| <= 16_000 && (i + 1 < |frames| ==> |frames[i]| == 16_000)
  }

  ghost predicate FullFrames(frames: seq<seq<real>>) {
    forall i | 0 <= i < |frames| :: |frames[i]| == 16_000
  }

  /** The whole seconds of a stream, one frame each. */
  function Frames(stream: seq<real>): seq<seq<real>> {
    if |stream| < FRAME_SAMPLES then [] else [stream[..FRAME_SAMPLES]] + Frames(stream[FRAME_SAMPLES..])
  }

  /** The whole stream in frames, the last one shorter if need be. */
  function AllFrames(stream: seq<real>): seq<seq<real>> {
    if stream == [] then []
    else if |stream| <= FRAME_SAMPLES then [stream]
    else [stream[..FRAME_SAMPLES]] + AllFrames(stream[FRAME_SAMPLES..])
  }

  lemma FullCons(frame: seq<real>, rest: seq<seq<real>>)
    requires |frame| == FRAME_SAMPLES
    ensures FullFrames(rest) ==> FullFrames([frame] + rest)
    ensures FrameSizes(rest) ==> FrameSizes([frame] + rest)
  {
    var frames := [frame] + rest;
    forall i | 0 <= i < |frames|
      ensures frames[i] == if i == 0 then frame else rest[i - 1]
    {
    }
  }

  lemma NoneAreFull()
    ensures FullFrames([]) && FrameSizes([])
  {
  }

  lemma {:induction false} FramesAreFull(stream: seq<real>)
    ensures FullFrames(Frames(stream))
    decreases |stream|
  {
    hide FullFrames;
    if |stream| < FRAME_SAMPLES {
      NoneAreFull();
    } else {
      FramesAreFull(stream[FRAME_SAMPLES..]);
      FullCons(stream[..FRAME_SAMPLES], Frames(stream[FRAME_SAMPLES..]));
    }
  }

  lemma OneFrame(frame: seq<real>)
    requires 1 <= |frame| <= FRAME_SAMPLES
    ensures FrameSizes([frame])
  {
  }

  lemma {:induction false} AllFramesFit(stream: seq<real>)
    ensures FrameSizes(AllFrames(stream)) && Flatten(AllFrames(stream)) == stream
    decreases |stream|
  {
    hide FrameSizes, Flatten;
    if stream == [] {
      NoneAreFull();
      FlattenNone<real>();
    } else if |stream| <= FRAME_SAMPLES {
      FlattenOne(stream);
      assert FrameSizes([stream]) by { OneFrame(stream); }
    } else {
      var head, tail := stream[..FRAME_SAMPLES], stream[FRAME_SAMPLES..];
      AllFramesFit(tail);
      FullCons(head, AllFrames(tail));
      FlattenCons(head, AllFrames(tail));
      assert stream == head + tail;
    }
  }

  /** The sizes determine the frames: there is one way to cut whole seconds off a stream. */
  lemma {:induction false} FramesAreUnique(frames: seq<seq<real>>, rest: seq<real>)
    requires FullFrames(frames) && |rest| < 16_000
    ensures Frames(Flatten(frames) + rest) == frames
  {
    if frames == [] {
      assert Flatten(frames) + rest == rest;
    } else {
      var stream := Flatten(frames) + rest;
      var head, tail := frames[0], frames[1..];
      assert FullFrames(tail);
      FramesAreUnique(tail, rest);
      assert stream == head + (Flatten(tail) + rest);
      assert stream[..FRAME_SAMPLES] == head && stream[FRAME_SAMPLES..] == Flatten(tail) + rest;
      assert frames == [head] + tail;
    }
  }

  lemma SomeSamples(frames: seq<seq<real>>)
    requires FrameSizes(frames) && frames != []
    ensures Flatten(frames) != []
  {
    assert Flatten(frames) == frames[0] + Flatten(frames[1..]);
  }

  lemma {:induction false} AllFramesAreUnique(frames: seq<seq<real>>)
    requires FrameSizes(frames)
    ensures AllFrames(Flatten(frames)) == frames
  {
    if frames == [] {
    } else {
      var head, tail := frames[0], frames[1..];
      forall i | 0 <= i < |tail|
        ensures tail[i] == frames[i + 1]
      {
      }
      assert FrameSizes(tail);
      AllFramesAreUnique(tail);
      assert Flatten(frames) == head + Flatten(tail);
      if tail == [] {
        assert Flatten(frames) == head && frames == [head];
      } else {
        SomeSamples(tail);
        assert Flatten(frames)[..FRAME_SAMPLES] == head && Flatten(frames)[FRAME_SAMPLES..] == Flatten(tail);
        assert frames == [head] + tail;
      }
    }
  }

  /** More of a stream only adds frames behind the whole seconds. */
  lemma {:induction false} FramesGrow(early: seq<real>, late: seq<real>)
    requires early <= late
    ensures Frames(early) <= Frames(late) && Frames(early) <= AllFrames(late)
    decreases |early|
  {
    if |early| >= FRAME_SAMPLES {
      assert late[..FRAME_SAMPLES] == early[..FRAME_SAMPLES];
      assert late[FRAME_SAMPLES..][..|early| - FRAME_SAMPLES] == early[FRAME_SAMPLES..];
      FramesGrow(early[FRAME_SAMPLES..], late[FRAME_SAMPLES..]);
      if |late| == FRAME_SAMPLES {
        assert late[FRAME_SAMPLES..] == [] && late == late[..FRAME_SAMPLES];
      }
    }
  }

  /** Moving the head of the first chunk to the output keeps the stream. */
  lemma TakeStep(output: seq<real>, chunks: seq<seq<real>>, consumed: nat)
    requires chunks != [] && consumed <= |chunks[0]|
    ensures
      var rest := chunks[0 := chunks[0][consumed..]];
      (output + chunks[0][..consumed]) + Flatten(rest) == output + Flatten(chunks)
    ensures consumed == |chunks[0]| ==>
      (output + chunks[0][..consumed]) + Flatten(chunks[1..]) == output + Flatten(chunks)
  {
    var current := chunks[0];
    assert current == current[..consumed] + current[consumed..];
    assert chunks[0 := current[consumed..]][1..] == chunks[1..];
  }

  class BrowserCapture {
    const resampler: StreamingResampler
    var activated: bool
    var stopped: bool
    var stopping: bool
    var inputSealed: bool
    // The input has been disposed of, and the resampler with it.
    var revoked: bool
    var sampleChunks: seq<seq<real>>
    var sampleCount: nat
    // Frames handed to the write chain so far, in order.
    var writeQueue: seq<seq<real>>
    // Every sample the capture has accepted since it was created.
    ghost var accepted: seq<real>

    ghost predicate Valid()
      reads this, resampler
    {
      && resampler.Valid() && resampler.sourceRate > 0.0
      && sampleCount == |Flatten(sampleChunks)|
      && if inputSealed then
           && stopping && !activated && sampleCount == 0
           && FrameSizes(writeQueue)
           && Flatten(writeQueue) == Recorded()
         else
           && sampleCount < FRAME_SAMPLES
           && FullFrames(writeQueue)
           && resampler.history == accepted
           && Flatten(writeQueue) + Flatten(sampleChunks) == resampler.emitted
    }

    /** What a stop queues: the last output is missing when the resampler has gone before. */
    ghost function Recorded(): seq<real>
      requires resampler.sourceRate > 0.0
      reads this
    {
      if revoked then Pushed(accepted, resampler.sourceRate) else Direct(accepted, resampler.sourceRate)
    }

    /** The frames handed over so far are determined by the samples accepted. */
    lemma QueueIsFrames()
      requires Valid() && !inputSealed
      ensures writeQueue == Frames(Pushed(accepted, resampler.sourceRate))
    {
      resampler.EmittedIsPushed();
      FramesAreUnique(writeQueue, Flatten(sampleChunks));
    }

    constructor (rate: real)
      requires rate > 0.0
      ensures Valid() && fresh(resampler) && resampler.sourceRate == rate
      ensures !activated && !stopped && !stopping && !inputSealed && !revoked
      ensures accepted == [] && writeQueue == []
    {
      resampler := new StreamingResampler(rate);
      activated, stopped, stopping, inputSealed, revoked := false, false, false, false, false;
      sampleChunks, sampleCount, writeQueue, accepted := [], 0, [], [];
    }

    /** A capture that has been stopped or revoked is never activated again; the result says so. */
    method Activate() returns (accepts: bool)
      requires Valid()
      modifies this`activated, this`stopped
      ensures Valid()
      ensures accepts == !(stopping || inputSealed || revoked)
      ensures accepts ==> activated && (old(activated) || !stopped)
      ensures !accepts ==> activated == old(activated) && stopped == old(stopped)
    {
      if stopping || inputSealed || revoked { return false; }
      if activated { return true; }
      stopped := false;
      activated := true;
      return true;
    }

    /** Blocks that arrive outside a recording leave no trace. */
    method AcceptSamples(samples: seq<real>)
      requires Valid()
      modifies this`sampleChunks, this`sampleCount, this`writeQueue, this`accepted, resampler
      ensures Valid()
      ensures accepted == if activated && !stopped && !stopping then old(accepted) + samples else old(accepted)
      ensures old(writeQueue) <= writeQueue
      ensures !inputSealed ==> writeQueue == Frames(Pushed(accepted, resampler.sourceRate))
    {
      if !activated || stopped || stopping {
        if !inputSealed {
          QueueIsFrames();
        }
        return;
      }
      var resampled := resampler.Push(samples);
      accepted := accepted + samples;
      AppendSamples(resampled);
      QueueIsFrames();
    }

    /** `revoke`: the input is given up; what has been collected stays for a later stop. */
    method Revoke()
      requires Valid()
      modifies this`activated, this`stopped, this`revoked
      ensures Valid() && !activated && stopped
      ensures revoked == (old(revoked) || !inputSealed)
    {
      stopped := true;
      activated := false;
      if !inputSealed {
        revoked := true;
      }
    }

    method AppendSamples(samples: seq<real>)
      requires sampleCount == |Flatten(sampleChunks)|
      requires FullFrames(writeQueue)
      modifies this`sampleChunks, this`sampleCount, this`writeQueue
      ensures sampleCount == |Flatten(sampleChunks)|
      ensures old(sampleCount) < FRAME_SAMPLES ==> sampleCount < FRAME_SAMPLES
      ensures FullFrames(writeQueue) && old(writeQueue) <= writeQueue
      ensures Flatten(writeQueue) + Flatten(sampleChunks)
           == old(Flatten(writeQueue) + Flatten(sampleChunks)) + samples
    {
      if |samples| == 0 { return; }
      FlattenSnoc(sampleChunks, samples);
      sampleChunks := sampleChunks + [samples];
      sampleCount := sampleCount + |samples|;
      ghost var stream := Flatten(writeQueue) + Flatten(sampleChunks);
      while sampleCount >= FRAME_SAMPLES
        invariant sampleCount == |Flatten(sampleChunks)|
        invariant FullFrames(writeQueue) && old(writeQueue) <= writeQueue
        invariant Flatten(writeQueue) + Flatten(sampleChunks) == stream
      {
        var chunk := TakeSamples(FRAME_SAMPLES);
        FlattenSnoc(writeQueue, chunk);
        writeQueue := writeQueue + [chunk];
      }
    }

    /** The first `count` collected samples, taken from however many chunks they span. */
    method TakeSamples(count: nat) returns (output: seq<real>)
      requires sampleCount == |Flatten(sampleChunks)| && count <= sampleCount
      modifies this`sampleChunks, this`sampleCount
      ensures sampleCount == |Flatten(sampleChunks)|
      ensures |output| == count
      ensures output + Flatten(sampleChunks) == old(Flatten(sampleChunks))
    {
      output := [];
      ghost var stream := Flatten(sampleChunks);
      while |output| < count
        invariant |output| <= count
        invariant output + Flatten(sampleChunks) == stream
        invariant sampleCount == |stream|
        decreases count - |output|, |sampleChunks|
      {
        var current := sampleChunks[0];
        var consumed := if |current| < count - |output| then |current| else count - |output|;
        TakeStep(output, sampleChunks, consumed);
        output := output + current[..consumed];
        if consumed == |current| {
          sampleChunks := sampleChunks[1..];
        } else {
          sampleChunks := sampleChunks[0 := current[consumed..]];
        }
      }
      sampleCount := sampleCount - count;
    }

    /**
     * The part of `stop` before its first await. Afterwards the queued frames are exactly the
     * resampled recording, cut into seconds, with the shorter tail last. After a revocation the
     * outputs are missing for which a neighbour never came.
     */
    method SealInput()
      requires Valid()
      modifies this, resampler
      ensures Valid() && inputSealed && stopping
      ensures accepted == old(accepted)
      ensures FrameSizes(writeQueue) && old(writeQueue) <= writeQueue
      ensures Flatten(writeQueue) == Recorded() && revoked == old(revoked)
      ensures !revoked ==> writeQueue == AllFrames(Direct(accepted, resampler.sourceRate))
      ensures revoked ==> writeQueue == AllFrames(Pushed(accepted, resampler.sourceRate))
    {
      hide AllFrames, Frames, Flatten, Direct, Pushed, FrameSizes, FullFrames;
      stopping := true;
      if inputSealed {
        AllFramesAreUnique(writeQueue);
        return;
      }
      activated := false;
      resampler.EmittedIsPushed();
      var last := [];
      if !revoked {
        last := resampler.Flush();
      }
      AppendSamples(last);
      QueueTail();
      inputSealed := true;
      AllFramesAreUnique(writeQueue);
    }

    method QueueTail()
      requires sampleCount == |Flatten(sampleChunks)| < FRAME_SAMPLES && FullFrames(writeQueue)
      modifies this`sampleChunks, this`sampleCount, this`writeQueue
      ensures sampleCount == |Flatten(sampleChunks)| == 0
      ensures FrameSizes(writeQueue) && old(writeQueue) <= writeQueue
      ensures Flatten(writeQueue) == old(Flatten(writeQueue) + Flatten(sampleChunks))
    {
      if sampleCount > 0 {
        var tail := TakeSamples(sampleCount);
        FlattenSnoc(writeQueue, tail);
        writeQueue := writeQueue + [tail];
      }
    }
  }
}
