/**
 * The streaming 16 kHz resampler of the browser capture path
 * (apps/web/src/audio.ts, `StreamingResampler` and `resample`), over exact reals.
 *
 * `Direct` is the reference: the linear interpolation of one whole recording.
 * The class keeps a phase and one retained sample between worklet blocks; the
 * results below say that no split into blocks can be heard in the output.
 */
module Resampler {
  import opened Sequences

  const TARGET_RATE: real := 16000.0

  /** Where output sample `k` falls on the axis of input samples. */
  function Position(k: nat, rate: real): real {
    k as real * rate / TARGET_RATE
  }

  /** The remainder of `x` by the target rate, for the non-negative `x` of the drain loop. */
  function Remainder(x: real): real {
    x - TARGET_RATE * (x / TARGET_RATE).Floor as real
  }

  lemma PositionNonNegative(k: nat, rate: real)
    requires rate > 0.0
    ensures Position(k, rate) >= 0.0
  {
    assert k as real * rate >= 0.0;
  }

  /** Linear interpolation of `input` at output `k`; past the last pair the end sample is held. */
  function Interpolated(input: seq<real>, rate: real, k: nat): real
    requires rate > 0.0 && Position(k, rate) < |input| as real
  {
    var at := Position(k, rate);
    PositionNonNegative(k, rate);
    var left := at.Floor;
    var fraction := at - left as real;
    var right := if left + 1 < |input| then left + 1 else |input| - 1;
    input[left] * (1.0 - fraction) + input[right] * fraction
  }

  lemma QuotientNonNegative(n: nat, rate: real)
    requires rate > 0.0
    ensures n as real * TARGET_RATE / rate >= 0.0
  {
    var quotient := n as real * TARGET_RATE / rate;
    assert quotient * rate == n as real * TARGET_RATE;
    assert quotient < 0.0 ==> quotient * rate < 0.0;
  }

  /** ceil(n * 16000 / rate). */
  function OutputCount(n: nat, rate: real): (count: nat)
    requires rate > 0.0
  {
    QuotientNonNegative(n, rate);
    -(-(n as real * TARGET_RATE / rate)).Floor
  }

  /** The output count is exactly the number of positions inside the input. */
  lemma CountExact(k: nat, n: nat, rate: real)
    requires rate > 0.0
    ensures k < OutputCount(n, rate) <==> Position(k, rate) < n as real
    ensures k < OutputCount(n, rate) <==> k as real * rate < n as real * TARGET_RATE
  {
    var quotient := n as real * TARGET_RATE / rate;
    assert quotient * rate == n as real * TARGET_RATE;
    if k as real < quotient {
      assert (quotient - k as real) * rate > 0.0;
      assert k as real * rate < quotient * rate;
    } else {
      assert (k as real - quotient) * rate >= 0.0;
      assert k as real * rate >= quotient * rate;
    }
  }

  /** The resampled recording, computed in one piece. */
  function Direct(input: seq<real>, rate: real): (output: seq<real>)
    requires rate > 0.0
    ensures |output| == OutputCount(|input|, rate)
  {
    seq(OutputCount(|input|, rate), k requires 0 <= k < OutputCount(|input|, rate) =>
      CountExact(k, |input|, rate); Interpolated(input, rate, k))
  }

  lemma PositionMonotone(j: nat, k: nat, rate: real)
    requires rate > 0.0 && j <= k
    ensures Position(j, rate) <= Position(k, rate)
    ensures Position(j, rate).Floor <= Position(k, rate).Floor
  {
    assert (k as real - j as real) * rate >= 0.0;
    assert j as real * rate <= k as real * rate;
  }

  /** The whole input sample at or before output `k`. */
  function SourceIndex(k: nat, rate: real): int {
    Position(k, rate).Floor
  }

  /** The drain guard of the source, and what it says about positions. */
  predicate Behind(count: nat, n: nat, rate: real) {
    count as real * rate < n as real * TARGET_RATE
  }

  lemma BehindIsPosition(count: nat, n: nat, rate: real)
    ensures Behind(count, n, rate) <==> Position(count, rate) < n as real
  {
  }

  /** Later input cannot change an output whose two neighbours have both arrived. */
  lemma InterpolatedIsLocal(input: seq<real>, more: seq<real>, rate: real, k: nat)
    requires rate > 0.0 && SourceIndex(k, rate) + 1 < |input|
    ensures Position(k, rate) < |input| as real
    ensures Interpolated(input + more, rate, k) == Interpolated(input, rate, k)
  {
    PositionNonNegative(k, rate);
    var left := Position(k, rate).Floor;
    assert (input + more)[left] == input[left] && (input + more)[left + 1] == input[left + 1];
  }

  /** At 16 kHz interpolation is the identity. */
  lemma DirectAtTargetRate(input: seq<real>)
    ensures Direct(input, TARGET_RATE) == input
  {
    var output := Direct(input, TARGET_RATE);
    assert OutputCount(|input|, TARGET_RATE) == |input|;
    forall k | 0 <= k < |input|
      ensures output[k] == input[k]
    {
      assert Position(k, TARGET_RATE) == k as real;
    }
  }

  // What the reference sounds like

  /** The samples that a straight line `a + b * t` over the time `t` in seconds has at `rate`. */
  ghost predicate OnLine(samples: seq<real>, a: real, b: real, rate: real)
    requires rate > 0.0
  {
    forall i | 0 <= i < |samples| :: samples[i] == a + b * (i as real / rate)
  }

  /** The last moment for which there is an input sample is not before output `k`. */
  predicate Inside(k: nat, n: nat, rate: real) {
    k as real * rate <= (n - 1) as real * 16000.0
  }

  lemma InsideIsOutput(k: nat, n: nat, rate: real)
    requires rate > 0.0 && Inside(k, n, rate)
    ensures 0 < n && k < OutputCount(n, rate)
    ensures 0 <= SourceIndex(k, rate) < n && Position(k, rate) <= (n - 1) as real
  {
    PositionNonNegative(k, rate);
    assert k as real * rate >= 0.0;
    CountExact(k, n, rate);
  }

  lemma LineBetween(a: real, b: real, left: int, fraction: real, rate: real)
    requires rate > 0.0
    ensures (a + b * (left as real / rate)) * (1.0 - fraction) + (a + b * ((left + 1) as real / rate)) * fraction
         == a + b * ((left as real + fraction) / rate)
  {
    var step := 1.0 / rate;
    assert left as real / rate == left as real * step;
    assert (left + 1) as real / rate == (left as real + 1.0) * step;
    assert (left as real + fraction) / rate == (left as real + fraction) * step;
  }

  lemma TimeOfOutput(k: nat, rate: real)
    requires rate > 0.0
    ensures Position(k, rate) / rate == k as real / 16000.0
  {
    var at := Position(k, rate);
    assert k as real * rate == at * 16000.0;
    assert k as real == at * 16000.0 / rate;
  }

  lemma OnLineAt(input: seq<real>, a: real, b: real, rate: real, i: nat)
    requires rate > 0.0 && OnLine(input, a, b, rate) && i < |input|
    ensures input[i] == a + b * (i as real / rate)
  {
  }

  lemma InterpolatedOnLine(input: seq<real>, a: real, b: real, rate: real, k: nat)
    requires rate > 0.0 && OnLine(input, a, b, rate)
    requires 0 < |input| && Position(k, rate) <= (|input| - 1) as real
    ensures Interpolated(input, rate, k) == a + b * (Position(k, rate) / rate)
  {
    PositionNonNegative(k, rate);
    hide OnLine, Position;
    var at := Position(k, rate);
    var left := at.Floor;
    OnLineAt(input, a, b, rate, left);
    if left + 1 < |input| {
      OnLineAt(input, a, b, rate, left + 1);
      LineBetween(a, b, left, at - left as real, rate);
    } else {
      assert at - left as real == 0.0;
    }
  }

  /** Output `k` is heard `k / 16000` seconds after the beginning: a line stays the same line. */
  lemma LineIsKept(input: seq<real>, a: real, b: real, rate: real, k: nat)
    requires rate > 0.0 && OnLine(input, a, b, rate)
    requires Inside(k, |input|, rate)
    ensures k < |Direct(input, rate)| && Direct(input, rate)[k] == a + b * (k as real / 16000.0)
  {
    InsideIsOutput(k, |input|, rate);
    InterpolatedOnLine(input, a, b, rate, k);
    TimeOfOutput(k, rate);
    hide Interpolated, Position, Inside, OutputCount;
  }

  /** Behind the last input sample the output holds it. */
  lemma EndIsHeld(input: seq<real>, rate: real, k: nat)
    requires rate > 0.0 && k < |Direct(input, rate)|
    requires k as real * rate >= (|input| - 1) as real * 16000.0
    ensures input != [] && Direct(input, rate)[k] == input[|input| - 1]
  {
    CountExact(k, |input|, rate);
    PositionNonNegative(k, rate);
    assert Position(k, rate).Floor == |input| - 1;
  }

  /** Output `k` depends on no sample that is one sample period or more away from it. */
  lemma OnlyNeighboursMatter(input: seq<real>, other: seq<real>, rate: real, k: nat)
    requires rate > 0.0 && |input| == |other| && k < |Direct(input, rate)|
    requires forall i | 0 <= i < |input| && (i - 1) as real * 16000.0 < k as real * rate < (i + 1) as real * 16000.0 ::
      input[i] == other[i]
    ensures Direct(input, rate)[k] == Direct(other, rate)[k]
  {
    CountExact(k, |input|, rate);
    PositionNonNegative(k, rate);
    var at := Position(k, rate);
    var left := at.Floor;
    assert k as real * rate == at * 16000.0;
    assert input[left] == other[left];
    if left + 1 < |input| {
      if at == left as real {
        assert input[left + 1] * (at - left as real) == 0.0 == other[left + 1] * (at - left as real);
      } else {
        assert input[left + 1] == other[left + 1];
      }
    }
  }

  /** `s` times the one recording and `t` times the other, played together. */
  function Mixed(x: seq<real>, y: seq<real>, s: real, t: real): (mixed: seq<real>)
    requires |x| == |y|
  {
    seq(|x|, i requires 0 <= i < |x| => s * x[i] + t * y[i])
  }

  lemma MixedBetween(x0: real, x1: real, y0: real, y1: real, s: real, t: real, fraction: real)
    ensures (s * x0 + t * y0) * (1.0 - fraction) + (s * x1 + t * y1) * fraction
         == s * (x0 * (1.0 - fraction) + x1 * fraction) + t * (y0 * (1.0 - fraction) + y1 * fraction)
  {
  }

  lemma MixtureAt(x: seq<real>, y: seq<real>, s: real, t: real, rate: real, k: nat)
    requires rate > 0.0 && |x| == |y| && k < OutputCount(|x|, rate)
    ensures Direct(Mixed(x, y, s, t), rate)[k] == s * Direct(x, rate)[k] + t * Direct(y, rate)[k]
  {
    hide OutputCount, Position;
    CountExact(k, |x|, rate);
    PositionNonNegative(k, rate);
    var at := Position(k, rate);
    var left := at.Floor;
    var right := if left + 1 < |x| then left + 1 else |x| - 1;
    MixedBetween(x[left], x[right], y[left], y[right], s, t, at - left as real);
  }

  /** Resampling is linear: a mixture of recordings becomes the mixture of what they become. */
  lemma MixtureIsKept(x: seq<real>, y: seq<real>, s: real, t: real, rate: real)
    requires rate > 0.0 && |x| == |y|
    ensures |Direct(x, rate)| == |Direct(y, rate)|
    ensures Direct(Mixed(x, y, s, t), rate) == Mixed(Direct(x, rate), Direct(y, rate), s, t)
  {
    hide OutputCount, Interpolated;
    var whole, parts := Direct(Mixed(x, y, s, t), rate), Mixed(Direct(x, rate), Direct(y, rate), s, t);
    assert |whole| == |parts|;
    forall k | 0 <= k < |whole|
      ensures whole[k] == parts[k]
    {
      MixtureAt(x, y, s, t, rate, k);
    }
  }

  /** One second of input at a whole rate becomes one second of output. */
  lemma SecondIsSecond(rate: nat, seconds: nat)
    requires rate > 0
    ensures OutputCount(seconds * rate, rate as real) == seconds * 16_000
  {
    var count := seconds * 16_000;
    CountExact(count, seconds * rate, rate as real);
    assert (seconds * rate) as real == seconds as real * rate as real;
    assert count as real * rate as real == (seconds * rate) as real * 16000.0;
    if count > 0 {
      CountExact(count - 1, seconds * rate, rate as real);
      assert (count - 1) as real * rate as real == count as real * rate as real - rate as real;
    }
  }

  /** Every output in `emitted` is the reference sample for `input`. */
  ghost predicate MatchesReference(emitted: seq<real>, input: seq<real>, rate: real)
    requires rate > 0.0
  {
    forall k | 0 <= k < |emitted| ::
      Position(k, rate) < |input| as real && emitted[k] == Interpolated(input, rate, k)
  }

  /** Both neighbours of the first `count` outputs have arrived. */
  ghost predicate Settled(count: nat, input: seq<real>, rate: real) {
    forall k | 0 <= k < count :: SourceIndex(k, rate) + 1 < |input|
  }

  lemma MatchesAfterMore(emitted: seq<real>, input: seq<real>, more: seq<real>, rate: real)
    requires rate > 0.0
    requires MatchesReference(emitted, input, rate) && Settled(|emitted|, input, rate)
    ensures MatchesReference(emitted, input + more, rate) && Settled(|emitted|, input + more, rate)
  {
    forall k | 0 <= k < |emitted|
      ensures Position(k, rate) < |input + more| as real
      ensures emitted[k] == Interpolated(input + more, rate, k)
    {
      InterpolatedIsLocal(input, more, rate, k);
    }
  }

  lemma MatchesSnoc(emitted: seq<real>, input: seq<real>, rate: real)
    requires rate > 0.0 && MatchesReference(emitted, input, rate)
    requires Position(|emitted|, rate) < |input| as real
    ensures MatchesReference(emitted + [Interpolated(input, rate, |emitted|)], input, rate)
  {
  }

  /** The streaming state as values: what the retained buffer is and what has been produced. */
  ghost predicate StreamState(rate: real, buffer: seq<real>, offset: int, count: nat,
                              input: seq<real>, emitted: seq<real>)
  {
    && rate > 0.0
    && count == |emitted|
    && 0 <= offset <= |input|
    && buffer == input[offset..]
    && offset <= SourceIndex(count, rate)
    && MatchesReference(emitted, input, rate)
  }

  /** The sample that one iteration of the drain loop computes from the retained buffer. */
  function DrainSample(buffer: seq<real>, left: nat, count: nat, rate: real): real
    requires left < |buffer|
  {
    var right := if left + 1 < |buffer| - 1 then left + 1 else |buffer| - 1;
    var fraction := Remainder(count as real * rate) / TARGET_RATE;
    buffer[left] * (1.0 - fraction) + buffer[right] * fraction
  }

  /** One iteration of the drain loop reads inside the buffer and emits the reference sample. */
  lemma DrainStep(rate: real, buffer: seq<real>, offset: int, count: nat,
                  input: seq<real>, emitted: seq<real>)
    requires StreamState(rate, buffer, offset, count, input, emitted)
    requires Behind(count, |input|, rate)
    ensures 0 <= SourceIndex(count, rate) - offset < |buffer|
    ensures
      var sample := DrainSample(buffer, SourceIndex(count, rate) - offset, count, rate);
      StreamState(rate, buffer, offset, count + 1, input, emitted + [sample])
  {
    BehindIsPosition(count, |input|, rate);
    PositionNonNegative(count, rate);
    PositionMonotone(count, count + 1, rate);
    var at := Position(count, rate);
    assert count as real * rate / TARGET_RATE == at;
    assert Remainder(count as real * rate) == TARGET_RATE * (at - at.Floor as real);
    assert DrainSample(buffer, at.Floor - offset, count, rate) == Interpolated(input, rate, count);
    MatchesSnoc(emitted, input, rate);
  }

  lemma SettledSnoc(count: nat, input: seq<real>, rate: real)
    requires Settled(count, input, rate) && SourceIndex(count, rate) + 1 < |input|
    ensures Settled(count + 1, input, rate)
  {
  }

  /** A complete agreeing output is the reference output. */
  lemma MatchIsDirect(emitted: seq<real>, input: seq<real>, rate: real)
    requires rate > 0.0
    requires MatchesReference(emitted, input, rate)
    requires Position(|emitted|, rate) >= |input| as real
    ensures emitted == Direct(input, rate)
  {
    CountExact(|emitted|, |input|, rate);
    if |emitted| > 0 {
      CountExact(|emitted| - 1, |input|, rate);
    }
    assert |emitted| == |Direct(input, rate)|;
  }

  // What has been produced before the flush

  /** How many outputs have both their neighbours among the first `n` input samples. */
  function SettledCount(n: nat, rate: real): (count: nat)
    requires rate > 0.0
  {
    if rate == TARGET_RATE then n else if n == 0 then 0 else OutputCount(n - 1, rate)
  }

  lemma SettledCountExact(k: nat, n: nat, rate: real)
    requires rate > 0.0 && rate != TARGET_RATE
    ensures k < SettledCount(n, rate) <==> SourceIndex(k, rate) + 1 < n
  {
    PositionNonNegative(k, rate);
    if n > 0 {
      CountExact(k, n - 1, rate);
    }
  }

  lemma SettledAtMost(n: nat, rate: real)
    requires rate > 0.0
    ensures SettledCount(n, rate) <= OutputCount(n, rate)
  {
    if rate == TARGET_RATE {
      assert n as real * TARGET_RATE / rate == n as real;
    } else if SettledCount(n, rate) > 0 {
      var k := SettledCount(n, rate) - 1;
      SettledCountExact(k, n, rate);
      CountExact(k, n, rate);
    }
  }

  /** The outputs that are fixed before the flush: a beginning of the reference. */
  function Pushed(input: seq<real>, rate: real): (output: seq<real>)
    requires rate > 0.0
    ensures output <= Direct(input, rate) && |output| == SettledCount(|input|, rate)
  {
    SettledAtMost(|input|, rate);
    Direct(input, rate)[..SettledCount(|input|, rate)]
  }

  lemma PushedAt(input: seq<real>, rate: real, k: nat)
    requires rate > 0.0 && k < SettledCount(|input|, rate)
    ensures Position(k, rate) < |input| as real
    ensures Pushed(input, rate)[k] == Interpolated(input, rate, k)
  {
    SettledAtMost(|input|, rate);
    CountExact(k, |input|, rate);
    hide SettledCount, OutputCount, Interpolated;
  }

  lemma SettledCountGrows(n: nat, m: nat, rate: real)
    requires rate > 0.0 && rate != TARGET_RATE && n <= m
    ensures SettledCount(n, rate) <= SettledCount(m, rate)
  {
    hide SettledCount, SourceIndex;
    if SettledCount(n, rate) > 0 {
      SettledCountExact(SettledCount(n, rate) - 1, n, rate);
      SettledCountExact(SettledCount(n, rate) - 1, m, rate);
    }
  }

  /** Whatever comes later only adds to them. */
  lemma PushedGrows(input: seq<real>, more: seq<real>, rate: real)
    requires rate > 0.0
    ensures Pushed(input, rate) <= Pushed(input + more, rate)
  {
    if rate == TARGET_RATE {
      DirectAtTargetRate(input);
      DirectAtTargetRate(input + more);
    } else {
      hide Pushed, SettledCount, Interpolated, SourceIndex, Position;
      var early, late := Pushed(input, rate), Pushed(input + more, rate);
      assert |early| <= |late| by { SettledCountGrows(|input|, |input + more|, rate); }
      forall k | 0 <= k < |early|
        ensures early[k] == late[k]
      {
        SettledCountExact(k, |input|, rate);
        PushedAt(input, rate, k);
        PushedAt(input + more, rate, k);
        InterpolatedIsLocal(input, more, rate, k);
      }
    }
  }

  /** Settled outputs that leave nothing out are those. */
  lemma SettledIsPushed(emitted: seq<real>, input: seq<real>, rate: real)
    requires rate > 0.0 && rate != TARGET_RATE
    requires MatchesReference(emitted, input, rate) && Settled(|emitted|, input, rate)
    requires input == [] ==> emitted == []
    requires input != [] ==> |input| <= SourceIndex(|emitted|, rate) + 1
    ensures emitted == Pushed(input, rate)
  {
    hide Pushed, SettledCount, Interpolated, SourceIndex, Position;
    SettledCountExact(|emitted|, |input|, rate);
    if |emitted| > 0 {
      SettledCountExact(|emitted| - 1, |input|, rate);
    }
    if input == [] {
      SettledCountExact(0, 0, rate);
    }
    forall k | 0 <= k < |emitted|
      ensures emitted[k] == Pushed(input, rate)[k]
    {
      PushedAt(input, rate, k);
    }
  }

  class StreamingResampler {
    const sourceRate: real
    var buffer: seq<real>
    var bufferOffset: int
    var inputSamples: nat
    var outputSamples: nat
    // Everything pushed and everything returned since construction or the last flush.
    ghost var history: seq<real>
    ghost var emitted: seq<real>

    /** What holds at every point of the streaming path, also inside `Drain`. */
    ghost predicate Streaming()
      reads this
    {
      && inputSamples == |history|
      && StreamState(sourceRate, buffer, bufferOffset, outputSamples, history, emitted)
    }

    /** Between calls one sample is retained and every output that can be settled is out. */
    ghost predicate Valid()
      reads this
    {
      if sourceRate == TARGET_RATE then
        emitted == history && buffer == [] && bufferOffset == 0 && inputSamples == 0 && outputSamples == 0
      else
        && Streaming()
        && Settled(outputSamples, history, sourceRate)
        && (history == [] ==> emitted == [] && bufferOffset == 0)
        && (history != [] ==>
          |buffer| == 1 && |history| <= SourceIndex(outputSamples, sourceRate) + 1)
    }

    /** What has been returned so far is determined by what has been pushed. */
    lemma EmittedIsPushed()
      requires Valid()
      ensures emitted == Pushed(history, sourceRate)
    {
      if sourceRate == TARGET_RATE {
        DirectAtTargetRate(history);
      } else {
        SettledIsPushed(emitted, history, sourceRate);
      }
    }

    constructor (rate: real)
      requires rate > 0.0
      ensures Valid() && sourceRate == rate
      ensures history == [] && emitted == []
    {
      sourceRate := rate;
      buffer, bufferOffset, inputSamples, outputSamples := [], 0, 0, 0;
      history, emitted := [], [];
    }

    method Push(input: seq<real>) returns (output: seq<real>)
      requires Valid()
      modifies this
      ensures Valid()
      ensures history == old(history) + input
      ensures emitted == old(emitted) + output
      ensures emitted == Pushed(history, sourceRate)
      ensures sourceRate != TARGET_RATE && input != [] ==> buffer == [input[|input| - 1]]
    {
      hide MatchesReference, Interpolated, Pushed, SettledCount, Direct, Position;
      if |input| == 0 {
        assert history == history + input;
        EmittedIsPushed();
        return [];
      }
      history := history + input;
      if sourceRate == TARGET_RATE {
        emitted := emitted + input;
        EmittedIsPushed();
        return input;
      }
      MatchesAfterMore(emitted, old(history), input, sourceRate);
      buffer := buffer + input;
      inputSamples := inputSamples + |input|;
      output := Drain(false);
      EmittedIsPushed();
    }

    method Drain(final: bool) returns (output: seq<real>)
      requires Streaming() && buffer != []
      requires Settled(outputSamples, history, sourceRate)
      modifies this
      ensures Streaming() && history == old(history) && |buffer| == 1
      ensures emitted == old(emitted) + output
      ensures final ==> Position(outputSamples, sourceRate) >= |history| as real
      ensures !final ==>
        && Settled(outputSamples, history, sourceRate)
        && |history| <= SourceIndex(outputSamples, sourceRate) + 1
    {
      output := [];
      ghost var total := OutputCount(inputSamples, sourceRate);
      while Behind(outputSamples, inputSamples, sourceRate)
        invariant Streaming() && history == old(history) && buffer == old(buffer)
        invariant bufferOffset == old(bufferOffset)
        invariant emitted == old(emitted) + output
        invariant !final ==> Settled(outputSamples, history, sourceRate)
        decreases total - outputSamples
      {
        CountExact(outputSamples, inputSamples, sourceRate);
        DrainStep(sourceRate, buffer, bufferOffset, outputSamples, history, emitted);
        var left := SourceIndex(outputSamples, sourceRate) - bufferOffset;
        if !final && left + 1 >= |buffer| { break; }
        if !final {
          SettledSnoc(outputSamples, history, sourceRate);
        }
        var sample := DrainSample(buffer, left, outputSamples, sourceRate);
        output := output + [sample];
        emitted := emitted + [sample];
        outputSamples := outputSamples + 1;
      }
      BehindIsPosition(outputSamples, inputSamples, sourceRate);
      Compact();
    }

    /** A held final endpoint completes the output; the object is then as new. */
    method Flush() returns (output: seq<real>)
      requires Valid()
      modifies this
      ensures Valid() && history == [] && emitted == []
      ensures old(emitted) + output == Direct(old(history), sourceRate)
    {
      if sourceRate == TARGET_RATE || |buffer| == 0 {
        output := [];
        if sourceRate == TARGET_RATE {
          DirectAtTargetRate(history);
        } else {
          CountExact(0, 0, sourceRate);
        }
        history, emitted := [], [];
        return;
      }
      output := Drain(true);
      MatchIsDirect(emitted, history, sourceRate);
      buffer, bufferOffset, inputSamples, outputSamples := [], 0, 0, 0;
      history, emitted := [], [];
    }

    method Compact()
      requires Streaming() && buffer != []
      requires |history| <= SourceIndex(outputSamples, sourceRate) + 1
      modifies this`buffer, this`bufferOffset
      ensures Streaming() && |buffer| == 1
    {
      var nextPosition := SourceIndex(outputSamples, sourceRate) - bufferOffset;
      var consumed := if nextPosition < |buffer| - 1 then nextPosition else |buffer| - 1;
      assert |buffer| == |history| - bufferOffset;
      assert consumed == |buffer| - 1;
      if consumed == 0 { return; }
      buffer := buffer[consumed..];
      bufferOffset := bufferOffset + consumed;
    }
  }

  /** A one-shot conversion is a push and a flush (the source's `resample`). */
  method Resample(input: seq<real>, sourceRate: real) returns (output: Option<seq<real>>)
    ensures output == if sourceRate > 0.0 then Some(Direct(input, sourceRate)) else None
  {
    if sourceRate <= 0.0 { return None; }
    var streaming := new StreamingResampler(sourceRate);
    var pushed := streaming.Push(input);
    assert streaming.history == input && streaming.emitted == pushed;
    var flushed := streaming.Flush();
    return Some(pushed + flushed);
  }

  /**
   * Block invariance: however the worklet splits a recording into blocks, the pushed outputs
   * and the flush together are the reference output. A rate that is not positive is refused.
   */
  method ResampleBlocks(blocks: seq<seq<real>>, sourceRate: real) returns (output: Option<seq<real>>)
    ensures output == if sourceRate > 0.0 then Some(Direct(Flatten(blocks), sourceRate)) else None
  {
    if sourceRate <= 0.0 { return None; }
    var streaming := new StreamingResampler(sourceRate);
    var joined := [];
    for i := 0 to |blocks|
      invariant streaming.Valid() && streaming.sourceRate == sourceRate
      invariant streaming.history == Flatten(blocks[..i]) && streaming.emitted == joined
      invariant fresh(streaming)
    {
      var pushed := streaming.Push(blocks[i]);
      joined := joined + pushed;
      FlattenSnoc(blocks[..i], blocks[i]);
      assert blocks[..i + 1] == blocks[..i] + [blocks[i]];
    }
    assert blocks[..|blocks|] == blocks;
    var flushed := streaming.Flush();
    return Some(joined + flushed);
  }
}
