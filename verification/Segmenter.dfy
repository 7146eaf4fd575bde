/**
 * How a growing sequence of chunks is cut into groups, one group for each ASR window
 * (the two nested loops of `assemble_source`, crates/core-server/src/audio.rs).
 *
 * `Closed` and `Sealed` are the one-shot cut of a whole recording. The incremental assembler
 * is compared with them; what makes that possible is `ClosedExtends`: more chunks never move
 * a cut that has been made. Nothing here depends on what a chunk is or on which rule says
 * that a group is complete; the rule of the source is in `Windows`.
 */
module Segmenter {
  import opened Sequences

  /** Says whether the chunks collected so far make a complete group. */
  type Rule<!T> = seq<T> -> bool

  /** The end of the first group, looking for it after `n` chunks that do not complete one. */
  function CutAfter<T>(rule: Rule<T>, chunks: seq<T>, n: nat): (end: Option<nat>)
    requires n <= |chunks|
    ensures end.Some? ==> n < end.value <= |chunks|
    decreases |chunks| - n
  {
    if n == |chunks| then None
    else if rule(chunks[..n + 1]) then Some(n + 1)
    else CutAfter(rule, chunks, n + 1)
  }

  function FirstCut<T>(rule: Rule<T>, chunks: seq<T>): (end: Option<nat>)
    ensures end.Some? ==> 0 < end.value <= |chunks|
  {
    CutAfter(rule, chunks, 0)
  }

  /** The groups that are complete with what has been recorded so far. */
  function Closed<T>(rule: Rule<T>, chunks: seq<T>): seq<seq<T>>
    decreases |chunks|
  {
    match FirstCut(rule, chunks)
    case None => []
    case Some(end) => [chunks[..end]] + Closed(rule, chunks[end..])
  }

  /** The chunks that no complete group holds. */
  function Rest<T>(rule: Rule<T>, chunks: seq<T>): seq<T>
    decreases |chunks|
  {
    match FirstCut(rule, chunks)
    case None => chunks
    case Some(end) => Rest(rule, chunks[end..])
  }

  /** The groups of a finished recording: the complete ones and the sealed tail. */
  function Sealed<T>(rule: Rule<T>, chunks: seq<T>): seq<seq<T>> {
    Closed(rule, chunks) + if Rest(rule, chunks) == [] then [] else [Rest(rule, chunks)]
  }

  /** The first cut is where the rule first holds. */
  lemma {:induction false} CutIsFirst<T>(rule: Rule<T>, chunks: seq<T>, n: nat, k: nat)
    requires n < k <= |chunks|
    ensures CutAfter(rule, chunks, n) == Some(k) ==> rule(chunks[..k])
    ensures (CutAfter(rule, chunks, n).Some? ==> k < CutAfter(rule, chunks, n).value) ==> !rule(chunks[..k])
    decreases |chunks| - n
  {
    if k > n + 1 && !rule(chunks[..n + 1]) {
      CutIsFirst(rule, chunks, n + 1, k);
    }
  }

  /** A cut that has been found stays where it is when chunks are added. */
  lemma {:induction false} CutExtends<T>(rule: Rule<T>, chunks: seq<T>, more: seq<T>, n: nat)
    requires n <= |chunks| && CutAfter(rule, chunks, n).Some?
    ensures CutAfter(rule, chunks + more, n) == CutAfter(rule, chunks, n)
    decreases |chunks| - n
  {
    assert (chunks + more)[..n + 1] == chunks[..n + 1];
    if !rule(chunks[..n + 1]) {
      CutExtends(rule, chunks, more, n + 1);
    }
  }

  /** Where nothing was complete before, a cut found later lies in what was added. */
  lemma {:induction false} CutIsLater<T>(rule: Rule<T>, chunks: seq<T>, more: seq<T>, n: nat)
    requires n <= |chunks| && CutAfter(rule, chunks, n).None?
    ensures CutAfter(rule, chunks + more, n) == CutAfter(rule, chunks + more, |chunks|)
    decreases |chunks| - n
  {
    if n < |chunks| {
      assert (chunks + more)[..n + 1] == chunks[..n + 1];
      CutIsLater(rule, chunks, more, n + 1);
    }
  }

  /** The first group of an extended recording, when it was complete before. */
  lemma FirstGroupExtends<T>(rule: Rule<T>, chunks: seq<T>, more: seq<T>)
    requires FirstCut(rule, chunks).Some?
    ensures FirstCut(rule, chunks + more) == FirstCut(rule, chunks)
    ensures
      var end := FirstCut(rule, chunks).value;
      (chunks + more)[..end] == chunks[..end] && (chunks + more)[end..] == chunks[end..] + more
  {
    CutExtends(rule, chunks, more, 0);
  }

  lemma JoinAssociates<T>(a: seq<T>, b: seq<T>, c: seq<T>)
    ensures (a + b) + c == a + (b + c)
  {
  }

  /** Segmentation can stop anywhere and go on from the rest: no group depends on when it ran. */
  lemma {:induction false} ClosedExtends<T>(rule: Rule<T>, chunks: seq<T>, more: seq<T>)
    ensures Closed(rule, chunks + more) == Closed(rule, chunks) + Closed(rule, Rest(rule, chunks) + more)
    ensures Rest(rule, chunks + more) == Rest(rule, Rest(rule, chunks) + more)
    decreases |chunks|
  {
    match FirstCut(rule, chunks)
    case None =>
    case Some(end) =>
      FirstGroupExtends(rule, chunks, more);
      ClosedExtends(rule, chunks[end..], more);
      JoinAssociates([chunks[..end]], Closed(rule, chunks[end..]), Closed(rule, Rest(rule, chunks) + more));
  }

  lemma SealedExtends<T>(rule: Rule<T>, chunks: seq<T>, more: seq<T>)
    ensures Sealed(rule, chunks + more) == Closed(rule, chunks) + Sealed(rule, Rest(rule, chunks) + more)
  {
    ClosedExtends(rule, chunks, more);
  }

  lemma {:induction false} RestHasNoCut<T>(rule: Rule<T>, chunks: seq<T>)
    ensures FirstCut(rule, Rest(rule, chunks)).None?
    decreases |chunks|
  {
    match FirstCut(rule, chunks)
    case None =>
    case Some(end) => RestHasNoCut(rule, chunks[end..]);
  }

  /** The complete groups and the rest hold every chunk once, in order. */
  lemma {:induction false} ClosedTiles<T>(rule: Rule<T>, chunks: seq<T>)
    ensures Flatten(Closed(rule, chunks)) + Rest(rule, chunks) == chunks
    decreases |chunks|
  {
    hide CutAfter, Flatten;
    match FirstCut(rule, chunks)
    case None => FlattenNone<T>();
    case Some(end) =>
      ClosedTiles(rule, chunks[end..]);
      FlattenCons(chunks[..end], Closed(rule, chunks[end..]));
      JoinAssociates(chunks[..end], Flatten(Closed(rule, chunks[end..])), Rest(rule, chunks[end..]));
  }

  /** The groups of a finished recording join to the recording. */
  lemma SealedTiles<T>(rule: Rule<T>, chunks: seq<T>)
    ensures Flatten(Sealed(rule, chunks)) == chunks
  {
    ClosedTiles(rule, chunks);
    if Rest(rule, chunks) == [] {
      assert Sealed(rule, chunks) == Closed(rule, chunks);
    } else {
      FlattenSnoc(Closed(rule, chunks), Rest(rule, chunks));
    }
  }

  ghost predicate NoneEmpty<T>(groups: seq<seq<T>>) {
    forall i | 0 <= i < |groups| :: groups[i] != []
  }

  lemma {:induction false} ClosedNoneEmpty<T>(rule: Rule<T>, chunks: seq<T>)
    ensures NoneEmpty(Closed(rule, chunks))
    decreases |chunks|
  {
    match FirstCut(rule, chunks)
    case None =>
    case Some(end) => ClosedNoneEmpty(rule, chunks[end..]);
  }

  lemma SealedNoneEmpty<T>(rule: Rule<T>, chunks: seq<T>)
    ensures NoneEmpty(Sealed(rule, chunks))
  {
    ClosedNoneEmpty(rule, chunks);
  }

  /** Where the first group of a finished recording ends. */
  function FirstEnd<T>(rule: Rule<T>, chunks: seq<T>): (end: nat)
    requires chunks != []
    ensures 0 < end <= |chunks|
  {
    match FirstCut(rule, chunks)
    case None => |chunks|
    case Some(end) => end
  }

  lemma FirstSealed<T>(rule: Rule<T>, chunks: seq<T>)
    requires chunks != []
    ensures Sealed(rule, chunks) == [chunks[..FirstEnd(rule, chunks)]] + Sealed(rule, chunks[FirstEnd(rule, chunks)..])
  {
    if FirstCut(rule, chunks).None? {
      assert chunks[..|chunks|] == chunks && chunks[|chunks|..] == [];
    }
  }

  /** Each group ends at the first chunk with which it is complete; only the last may never be complete. */
  ghost predicate CutByRule<T>(rule: Rule<T>, groups: seq<seq<T>>) {
    && NoneEmpty(groups)
    && (forall i, k | 0 <= i < |groups| && 0 < k < |groups[i]| :: !rule(groups[i][..k]))
    && (forall i | 0 <= i < |groups| - 1 :: rule(groups[i]))
  }

  lemma EndOfFirst<T>(rule: Rule<T>, group: seq<T>, more: seq<T>)
    requires group != [] && forall k | 0 < k < |group| :: !rule(group[..k])
    requires more != [] ==> rule(group)
    ensures FirstEnd(rule, group + more) == |group|
  {
    var chunks := group + more;
    var end := FirstEnd(rule, chunks);
    assert forall k | 0 < k <= |group| :: chunks[..k] == group[..k];
    assert group[..|group|] == group;
    if FirstCut(rule, chunks).Some? {
      CutIsFirst(rule, chunks, 0, end);
    }
    CutIsFirst(rule, chunks, 0, |group|);
  }

  lemma CutOfCons<T>(rule: Rule<T>, group: seq<T>, groups: seq<seq<T>>)
    requires CutByRule(rule, groups)
    requires group != [] && forall k | 0 < k < |group| :: !rule(group[..k])
    requires groups != [] ==> rule(group)
    ensures CutByRule(rule, [group] + groups)
  {
  }

  lemma FirstIsCut<T>(rule: Rule<T>, chunks: seq<T>)
    requires chunks != []
    ensures
      var group := chunks[..FirstEnd(rule, chunks)];
      && group != [] && (forall k | 0 < k < |group| :: !rule(group[..k]))
      && (chunks[FirstEnd(rule, chunks)..] != [] ==> rule(group))
  {
    var end := FirstEnd(rule, chunks);
    forall k | 0 < k < end
      ensures !rule(chunks[..end][..k])
    {
      CutIsFirst(rule, chunks, 0, k);
      assert chunks[..end][..k] == chunks[..k];
    }
    CutIsFirst(rule, chunks, 0, end);
  }

  lemma {:induction false} SealedIsCut<T>(rule: Rule<T>, chunks: seq<T>)
    ensures CutByRule(rule, Sealed(rule, chunks))
    decreases |chunks|
  {
    if chunks != [] {
      hide CutByRule, FirstEnd;
      FirstIsCut(rule, chunks);
      var rest := chunks[FirstEnd(rule, chunks)..];
      SealedIsCut(rule, rest);
      FirstSealed(rule, chunks);
      SealedTiles(rule, rest);
      CutOfCons(rule, chunks[..FirstEnd(rule, chunks)], Sealed(rule, rest));
    }
  }

  lemma {:induction false} CutIsSealed<T>(rule: Rule<T>, groups: seq<seq<T>>)
    requires CutByRule(rule, groups)
    ensures groups == Sealed(rule, Flatten(groups))
    decreases |groups|
  {
    if groups == [] {
      assert Flatten(groups) == [];
    } else {
      var group, rest := groups[0], groups[1..];
      assert groups == [group] + rest;
      FlattenCons(group, rest);
      assert CutByRule(rule, rest);
      CutIsSealed(rule, rest);
      if rest != [] {
        assert rest[0] != [] && groups[0] == group;
      }
      EndOfFirst(rule, group, Flatten(rest));
      var chunks := group + Flatten(rest);
      assert chunks[..|group|] == group && chunks[|group|..] == Flatten(rest);
      FirstSealed(rule, chunks);
    }
  }

  /** The one-shot cut is the only way to cut the recording by the rule. */
  lemma SealedIff<T>(rule: Rule<T>, chunks: seq<T>, groups: seq<seq<T>>)
    ensures groups == Sealed(rule, chunks) <==> CutByRule(rule, groups) && Flatten(groups) == chunks
  {
    if groups == Sealed(rule, chunks) {
      SealedIsCut(rule, chunks);
      SealedTiles(rule, chunks);
    } else if CutByRule(rule, groups) && Flatten(groups) == chunks {
      CutIsSealed(rule, groups);
    }
  }

  lemma GroupDiffers<T>(common: seq<seq<T>>, tail: seq<T>, other: seq<seq<T>>)
    requires other != [] && |other[0]| > |tail|
    ensures !(common + [tail] <= common + other)
  {
    assert (common + [tail])[|common|] == tail;
    assert (common + other)[|common|] == other[0];
  }

  /**
   * Sealing is the one cut that later audio can contradict. The groups of a sealed recording
   * are still groups after `more` arrives exactly when no tail was sealed or nothing arrives.
   */
  lemma SealIsStableIff<T>(rule: Rule<T>, chunks: seq<T>, more: seq<T>)
    ensures Sealed(rule, chunks) <= Sealed(rule, chunks + more) <==> (Rest(rule, chunks) == [] || more == [])
  {
    var rest := Rest(rule, chunks);
    SealedExtends(rule, chunks, more);
    if more == [] {
      assert chunks + more == chunks;
    } else if rest == [] {
      assert rest + more == more;
    } else {
      RestHasNoCut(rule, chunks);
      CutIsLater(rule, rest, more, 0);
      FirstSealed(rule, rest + more);
      GroupDiffers(Closed(rule, chunks), rest, Sealed(rule, rest + more));
    }
  }

  // Places where an assembler can stand

  /**
   * `p` chunks are covered by whole groups; once the recording is final the sealed tail
   * counts as one.
   */
  ghost predicate IsBoundary<T>(rule: Rule<T>, chunks: seq<T>, p: nat, final: bool)
    decreases |chunks|
  {
    p == 0 ||
    match FirstCut(rule, chunks)
    case None => final && p == |chunks|
    case Some(end) => end <= p && IsBoundary(rule, chunks[end..], p - end, final)
  }

  /** The groups that cover the first `p` chunks. */
  ghost function GroupsTo<T>(rule: Rule<T>, chunks: seq<T>, p: nat): seq<seq<T>>
    decreases |chunks|
  {
    if p == 0 then []
    else match FirstCut(rule, chunks)
      case None => [chunks]
      case Some(end) => if end <= p then [chunks[..end]] + GroupsTo(rule, chunks[end..], p - end) else []
  }

  lemma {:induction false} BoundaryFinal<T>(rule: Rule<T>, chunks: seq<T>, p: nat)
    requires IsBoundary(rule, chunks, p, false)
    ensures IsBoundary(rule, chunks, p, true)
    decreases |chunks|
  {
    if p > 0 {
      var end := FirstCut(rule, chunks).value;
      BoundaryFinal(rule, chunks[end..], p - end);
    }
  }

  /** A boundary stays one, with the same groups before it, when the recording goes on. */
  lemma {:induction false} BoundaryExtends<T>(rule: Rule<T>, chunks: seq<T>, more: seq<T>, p: nat)
    requires IsBoundary(rule, chunks, p, false)
    ensures IsBoundary(rule, chunks + more, p, false)
    ensures GroupsTo(rule, chunks + more, p) == GroupsTo(rule, chunks, p)
    decreases |chunks|
  {
    if p > 0 {
      var end := FirstCut(rule, chunks).value;
      FirstGroupExtends(rule, chunks, more);
      BoundaryExtends(rule, chunks[end..], more, p - end);
    }
  }

  lemma SliceShift<T>(chunks: seq<T>, end: nat, p: nat, q: nat)
    requires end <= p <= q <= |chunks|
    ensures chunks[end..][p - end..] == chunks[p..]
    ensures chunks[end..][p - end..q - end] == chunks[p..q]
  {
  }

  /** From a boundary, the next group leads to the next boundary. */
  lemma {:induction false} NextBoundary<T>(rule: Rule<T>, chunks: seq<T>, p: nat, final: bool)
    requires IsBoundary(rule, chunks, p, final) && p < |chunks|
    requires FirstCut(rule, chunks[p..]).Some? || final
    ensures
      var q := p + FirstEnd(rule, chunks[p..]);
      && IsBoundary(rule, chunks, q, final)
      && GroupsTo(rule, chunks, q) == GroupsTo(rule, chunks, p) + [chunks[p..q]]
    decreases |chunks|
  {
    if p == 0 {
      assert chunks[0..] == chunks;
      match FirstCut(rule, chunks)
      case None => assert chunks[0..|chunks|] == chunks;
      case Some(end) =>
        assert GroupsTo(rule, chunks[end..], 0) == [];
        assert chunks[0..end] == chunks[..end];
    } else {
      var end := FirstCut(rule, chunks).value;
      var q := p + FirstEnd(rule, chunks[p..]);
      SliceShift(chunks, end, p, q);
      NextBoundary(rule, chunks[end..], p - end, final);
      JoinAssociates([chunks[..end]], GroupsTo(rule, chunks[end..], p - end), [chunks[p..q]]);
    }
  }

  /** A boundary past `p` lies at or past the end of the group that starts at `p`. */
  lemma {:induction false} GroupBefore<T>(rule: Rule<T>, chunks: seq<T>, p: nat, c: nat, final: bool)
    requires IsBoundary(rule, chunks, p, final) && IsBoundary(rule, chunks, c, final) && p < c <= |chunks|
    ensures p + FirstEnd(rule, chunks[p..]) <= c
    ensures chunks[p..p + FirstEnd(rule, chunks[p..])] in GroupsTo(rule, chunks, c)
    decreases |chunks|
  {
    if p == 0 {
      assert chunks[0..] == chunks && chunks[0..|chunks|] == chunks;
    } else {
      var end := FirstCut(rule, chunks).value;
      SliceShift(chunks, end, p, p + FirstEnd(rule, chunks[p..]));
      GroupBefore(rule, chunks[end..], p - end, c - end, final);
    }
  }

  lemma TakeSplits<T>(chunks: seq<T>, end: nat, p: nat)
    requires end <= p <= |chunks|
    ensures chunks[..p] == chunks[..end] + chunks[end..][..p - end]
  {
  }

  lemma {:induction false} GroupsJoin<T>(rule: Rule<T>, chunks: seq<T>, p: nat, final: bool)
    requires IsBoundary(rule, chunks, p, final)
    ensures p <= |chunks| && Flatten(GroupsTo(rule, chunks, p)) == chunks[..p]
    ensures NoneEmpty(GroupsTo(rule, chunks, p))
    decreases |chunks|
  {
    if p > 0 {
      match FirstCut(rule, chunks)
      case None =>
        FlattenOne(chunks);
        assert chunks[..|chunks|] == chunks;
      case Some(end) =>
        GroupsJoin(rule, chunks[end..], p - end, final);
        FlattenCons(chunks[..end], GroupsTo(rule, chunks[end..], p - end));
        TakeSplits(chunks, end, p);
    }
  }

  lemma PrefixCons<T>(head: T, a: seq<T>, b: seq<T>)
    requires a <= b
    ensures [head] + a <= [head] + b
  {
  }

  /** The groups before a boundary are the first groups of the one-shot cut. */
  lemma {:induction false} GroupsAreOneShot<T>(rule: Rule<T>, chunks: seq<T>, p: nat, final: bool)
    requires IsBoundary(rule, chunks, p, final)
    ensures GroupsTo(rule, chunks, p) <= if final then Sealed(rule, chunks) else Closed(rule, chunks)
    ensures p == |chunks| ==> GroupsTo(rule, chunks, p) == Sealed(rule, chunks)
    decreases |chunks|
  {
    if p > 0 && FirstCut(rule, chunks).Some? {
      var end := FirstCut(rule, chunks).value;
      GroupsAreOneShot(rule, chunks[end..], p - end, final);
      PrefixCons(chunks[..end], GroupsTo(rule, chunks[end..], p - end),
                 if final then Sealed(rule, chunks[end..]) else Closed(rule, chunks[end..]));
      FirstSealed(rule, chunks);
    }
  }
}
