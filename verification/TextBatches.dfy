/**
 * Splitting and batching by UTF-8 size (workers/gpu_agent/teaching.py, `source_pieces` and
 * `teaching_chunks`; workers/gpu_agent/course_summary.py, `note_batches`).
 */
module TextBatches {
  import opened Sequences

  const MAX_SOURCE_CHUNK_BYTES: nat := 2800
  const NOTE_BATCH_BYTES: nat := 3500
  const MAX_CHARACTER_BYTES: nat := 4
  const SEPARATOR_BYTES: nat := 2

  /** The length of a character in UTF-8. */
  function Utf8(c: char): (size: nat)
    ensures 1 <= size <= MAX_CHARACTER_BYTES
  {
    var code := c as nat;
    if code < 0x80 then 1 else if code < 0x800 then 2 else if code < 0x10000 then 3 else 4
  }

  function Bytes(text: string): (size: nat)
    ensures size >= |text|
  {
    if text == "" then 0 else Utf8(text[0]) + Bytes(text[1..])
  }

  lemma {:induction false} BytesAppend(a: string, b: string)
    ensures Bytes(a + b) == Bytes(a) + Bytes(b)
  {
    if a == "" {
      assert a + b == b;
    } else {
      assert (a + b)[1..] == a[1..] + b;
      BytesAppend(a[1..], b);
    }
  }

  // Pieces

  /** How many characters, from `end` on, still fit. */
  function Fitting(text: string, capacity: nat, end: nat, used: nat): (count: nat)
    requires end <= |text|
    ensures end <= count <= |text|
    decreases |text| - end
  {
    if end == |text| || used + Utf8(text[end]) > capacity then end
    else Fitting(text, capacity, end + 1, used + Utf8(text[end]))
  }

  /** The characters after which a text is best cut. A full stop counts by the blank behind it. */
  predicate IsBoundary(c: char) {
    c == ' ' || c == '\n' || c == '。' || c == '，'
  }

  /** The last boundary before `end`, plus one; 0 when there is none. */
  function AfterBoundary(text: string, end: nat): (cut: nat)
    requires end <= |text|
    ensures cut <= end
  {
    if end == 0 then 0 else if IsBoundary(text[end - 1]) then end else AfterBoundary(text, end - 1)
  }

  /** Where the next piece ends: behind a boundary in the second half of what fits, or where that ends. */
  function Cut(text: string, capacity: nat): (cut: nat)
    ensures cut <= |text|
  {
    var end := Fitting(text, capacity, 0, 0);
    var boundary := AfterBoundary(text, end);
    if boundary > 0 && boundary - 1 >= end / 2 then boundary else end
  }

  lemma OneCharacter(c: char)
    ensures Bytes([c]) == Utf8(c)
  {
    assert [c][1..] == "";
  }

  lemma {:induction false} FittingFits(text: string, capacity: nat, end: nat)
    requires end <= |text| && Bytes(text[..end]) <= capacity
    ensures
      var count := Fitting(text, capacity, end, Bytes(text[..end]));
      && Bytes(text[..count]) <= capacity
      && (count < |text| ==> Bytes(text[..count + 1]) > capacity)
    decreases |text| - end
  {
    if end < |text| {
      assert text[..end + 1] == text[..end] + [text[end]];
      BytesAppend(text[..end], [text[end]]);
      OneCharacter(text[end]);
      if Bytes(text[..end + 1]) <= capacity {
        FittingFits(text, capacity, end + 1);
      }
    }
  }

  lemma BytesOfPrefix(text: string, k: nat)
    requires k <= |text|
    ensures Bytes(text) == Bytes(text[..k]) + Bytes(text[k..])
  {
    assert text == text[..k] + text[k..];
    BytesAppend(text[..k], text[k..]);
  }

  /** Splitting makes progress exactly when the next character fits at all. */
  lemma CutProgressIff(text: string, capacity: nat)
    requires text != ""
    ensures Cut(text, capacity) > 0 <==> Utf8(text[0]) <= capacity
  {
  }

  lemma CutFits(text: string, capacity: nat)
    requires Bytes(text) > capacity
    ensures Bytes(text[..Cut(text, capacity)]) <= capacity
  {
    assert text[..0] == "";
    FittingFits(text, capacity, 0);
    var end, cut := Fitting(text, capacity, 0, 0), Cut(text, capacity);
    BytesOfPrefix(text[..end], cut);
    assert text[..end][..cut] == text[..cut];
  }

  /** UTF-8 stores 7, 11, 16 or 21 bits of a code point in one, two, three or four bytes. */
  lemma Utf8Length(c: char)
    ensures Utf8(c) <= 1 <==> c as nat < 128
    ensures Utf8(c) <= 2 <==> c as nat < 2048
    ensures Utf8(c) <= 3 <==> c as nat < 65536
  {
  }

  /** A blank, the end of a line, and the Chinese full stop and comma. */
  predicate IsBreak(c: char) {
    c in " \n。，"
  }

  lemma {:induction false} BoundaryIsLast(text: string, end: nat)
    requires end <= |text|
    ensures forall i | AfterBoundary(text, end) <= i < end :: !IsBreak(text[i])
    ensures AfterBoundary(text, end) > 0 ==> IsBreak(text[AfterBoundary(text, end) - 1])
  {
    if end > 0 && !IsBoundary(text[end - 1]) {
      BoundaryIsLast(text, end - 1);
    }
  }

  /** `n` characters fit and one more does not. */
  predicate FitsAt(text: string, capacity: nat, n: nat) {
    n < |text| && Bytes(text[..n]) <= capacity < Bytes(text[..n + 1])
  }

  lemma {:induction false} LongerIsLarger(text: string, i: nat, j: nat)
    requires i <= j <= |text|
    ensures Bytes(text[..i]) <= Bytes(text[..j])
  {
    assert text[..j] == text[..i] + text[i..j];
    BytesAppend(text[..i], text[i..j]);
  }

  lemma FittingIs(text: string, capacity: nat, n: nat)
    requires FitsAt(text, capacity, n)
    ensures Fitting(text, capacity, 0, 0) == n
  {
    assert text[..0] == "";
    FittingFits(text, capacity, 0);
    var count := Fitting(text, capacity, 0, 0);
    hide Bytes, Fitting;
    if count < n {
      LongerIsLarger(text, count + 1, n);
    } else if n < count {
      LongerIsLarger(text, n + 1, count);
    }
  }

  /**
   * Of the `n` characters that fit, the piece takes all up to the last break in their second half,
   * with the break, or all of them when there is none.
   */
  lemma CutIff(text: string, capacity: nat, n: nat, cut: nat)
    requires FitsAt(text, capacity, n) && cut <= |text|
    ensures cut == Cut(text, capacity)
       <==> (if exists i | n / 2 <= i < n :: IsBreak(text[i])
             then n / 2 < cut <= n && IsBreak(text[cut - 1]) && forall i | cut <= i < n :: !IsBreak(text[i])
             else cut == n)
  {
    FittingIs(text, capacity, n);
    BoundaryIsLast(text, n);
    hide Fitting, AfterBoundary, IsBreak;
  }

  function Pieces(text: string, capacity: nat): (pieces: seq<string>)
    requires capacity >= MAX_CHARACTER_BYTES
    decreases |text|
  {
    if Bytes(text) <= capacity then (if text == "" then [] else [text])
    else
      CutProgressIff(text, capacity);
      var cut := Cut(text, capacity);
      [text[..cut]] + Pieces(text[cut..], capacity)
  }

  ghost predicate AllFit(pieces: seq<string>, capacity: nat) {
    forall i | 0 <= i < |pieces| :: pieces[i] != "" && Bytes(pieces[i]) <= capacity
  }

  lemma AllFitCons(piece: string, rest: seq<string>, capacity: nat)
    requires piece != "" && Bytes(piece) <= capacity && AllFit(rest, capacity)
    ensures AllFit([piece] + rest, capacity)
  {
    hide Bytes;
  }

  lemma NoneIsFit(capacity: nat)
    ensures AllFit([], capacity)
  {
  }

  lemma OneFits(piece: string, capacity: nat)
    requires piece != "" && Bytes(piece) <= capacity
    ensures AllFit([piece], capacity)
  {
  }

  /** Splitting loses nothing, every piece fits, and none is empty. */
  lemma {:induction false} PiecesJoin(text: string, capacity: nat)
    requires capacity >= MAX_CHARACTER_BYTES
    ensures Flatten(Pieces(text, capacity)) == text
    ensures AllFit(Pieces(text, capacity), capacity)
    decreases |text|
  {
    hide Bytes, Cut, AllFit, Utf8, Flatten;
    if Bytes(text) <= capacity {
      if text != "" {
        FlattenOne(text);
        OneFits(text, capacity);
      } else {
        NoneIsFit(capacity);
        FlattenNone<char>();
      }
    } else {
      CutFits(text, capacity);
      var cut := Cut(text, capacity);
      assert cut > 0 by { CutProgressIff(text, capacity); }
      PiecesJoin(text[cut..], capacity);
      FlattenCons(text[..cut], Pieces(text[cut..], capacity));
      AllFitCons(text[..cut], Pieces(text[cut..], capacity), capacity);
    }
  }

  lemma SliceOfRest(text: string, cut: nat, k: nat)
    requires cut <= |text| && k <= |text| - cut
    ensures text[cut..][k..] == text[cut + k..]
  {
  }

  /** Something is left behind a cut. */
  lemma PiecesNotEmpty(text: string, capacity: nat)
    requires capacity >= MAX_CHARACTER_BYTES && Bytes(text) > capacity
    ensures |Pieces(text, capacity)| > 1
  {
    CutFits(text, capacity);
    var cut := Cut(text, capacity);
    assert cut > 0 by { CutProgressIff(text, capacity); }
    assert text[..|text|] == text;
    hide Bytes, Cut;
  }

  /** Each piece is cut off what the earlier ones have left, as long as that is too long. */
  lemma {:induction false} PieceIsCut(text: string, capacity: nat, i: nat)
    requires capacity >= MAX_CHARACTER_BYTES && i < |Pieces(text, capacity)|
    ensures |Flatten(Pieces(text, capacity)[..i])| <= |text|
    ensures
      var rest := text[|Flatten(Pieces(text, capacity)[..i])|..];
      && (Bytes(rest) > capacity <==> i + 1 < |Pieces(text, capacity)|)
      && Pieces(text, capacity)[i] == if Bytes(rest) > capacity then rest[..Cut(rest, capacity)] else rest
    decreases |text|
  {
    hide Bytes, Cut, Flatten, Utf8;
    var pieces := Pieces(text, capacity);
    assert pieces[..0] == [];
    FlattenNone<char>();
    if Bytes(text) > capacity {
      var cut := Cut(text, capacity);
      assert cut > 0 by { CutProgressIff(text, capacity); }
      if i > 0 {
        PieceIsCut(text[cut..], capacity, i - 1);
        var later := Pieces(text[cut..], capacity);
        assert pieces[..i] == [text[..cut]] + later[..i - 1];
        FlattenCons(text[..cut], later[..i - 1]);
        SliceOfRest(text, cut, |Flatten(later[..i - 1])|);
      } else {
        PiecesNotEmpty(text, capacity);
      }
    }
  }

  /** The loop that finds the end of a piece. */
  method CountFitting(text: string, capacity: nat) returns (end: nat)
    ensures end == Fitting(text, capacity, 0, 0)
  {
    end := 0;
    var used: nat := 0;
    while end < |text|
      invariant end <= |text|
      invariant Fitting(text, capacity, 0, 0) == Fitting(text, capacity, end, used)
    {
      var size := Utf8(text[end]);
      if used + size > capacity { break; }
      used := used + size;
      end := end + 1;
    }
  }

  method SourcePieces(text: string, capacity: nat) returns (pieces: seq<string>)
    requires capacity >= MAX_CHARACTER_BYTES
    ensures pieces == Pieces(text, capacity)
  {
    pieces := [];
    var remaining := text;
    while Bytes(remaining) > capacity
      invariant Pieces(text, capacity) == pieces + Pieces(remaining, capacity)
      decreases |remaining|
    {
      CutProgressIff(remaining, capacity);
      var end := CountFitting(remaining, capacity);
      var boundary := AfterBoundary(remaining, end);
      if boundary > 0 && boundary - 1 >= end / 2 {
        end := boundary;
      }
      pieces := pieces + [remaining[..end]];
      remaining := remaining[end..];
    }
    if remaining != "" {
      pieces := pieces + [remaining];
    }
  }

  // Batches

  /** `"\n\n".join(pieces)`. */
  function Join(pieces: seq<string>): string {
    if |pieces| == 0 then ""
    else if |pieces| == 1 then pieces[0]
    else Join(pieces[..|pieces| - 1]) + "\n\n" + pieces[|pieces| - 1]
  }

  /** What a piece adds to a batch that already holds something or nothing. */
  function Added(started: bool, piece: string): nat {
    Bytes(piece) + if started then SEPARATOR_BYTES else 0
  }

  lemma JoinOne(piece: string)
    ensures Join([piece]) == piece
  {
  }

  lemma JoinSnoc(pieces: seq<string>, piece: string)
    ensures Bytes(Join(pieces + [piece])) == Bytes(Join(pieces)) + Added(pieces != [], piece)
  {
    var all := pieces + [piece];
    assert all[..|all| - 1] == pieces;
    if pieces != [] {
      assert "\n\n"[1..] == "\n" && "\n"[1..] == "";
      assert Bytes("\n\n") == 2;
      BytesAppend(Join(pieces) + "\n\n", piece);
      BytesAppend(Join(pieces), "\n\n");
    }
  }

  /** Batch `i` is full: the first piece of the next one would not have fitted. */
  ghost predicate Full(batches: seq<seq<string>>, i: nat, capacity: nat)
    requires i < |batches|
  {
    i + 1 < |batches| && batches[i + 1] != [] ==>
      Bytes(Join(batches[i])) + Added(true, batches[i + 1][0]) > capacity
  }

  ghost predicate Fits(batches: seq<seq<string>>, i: nat, capacity: nat)
    requires i < |batches|
  {
    batches[i] != [] && Bytes(Join(batches[i])) <= capacity
  }

  /**
   * The pieces in order, batched so that each batch fits its capacity when it is joined and
   * none is closed before it has to be.
   */
  ghost predicate Batched(batches: seq<seq<string>>, pieces: seq<string>, capacity: nat) {
    && Flatten(batches) == pieces
    && (forall i {:trigger Fits(batches, i, capacity)} | 0 <= i < |batches| :: Fits(batches, i, capacity))
    && (forall i {:trigger Full(batches, i, capacity)} | 0 <= i < |batches| :: Full(batches, i, capacity))
  }

  lemma NothingBatched(capacity: nat)
    ensures Batched([], [], capacity)
  {
  }

  /** A piece that does not fit into the last batch starts a new one. */
  lemma BatchStarts(batches: seq<seq<string>>, pieces: seq<string>, piece: string, capacity: nat)
    requires Batched(batches, pieces, capacity) && Bytes(piece) <= capacity
    requires batches != [] ==> Bytes(Join(batches[|batches| - 1])) + Added(true, piece) > capacity
    ensures Batched(batches + [[piece]], pieces + [piece], capacity)
  {
    hide Bytes, Added, Join;
    var next := batches + [[piece]];
    FlattenSnoc(batches, [piece]);
    assert Join([piece]) == piece by { JoinOne(piece); }
    forall i | 0 <= i < |next|
      ensures Fits(next, i, capacity) && Full(next, i, capacity)
    {
      if i < |batches| {
        assert Fits(batches, i, capacity) && Full(batches, i, capacity);
      }
    }
  }

  /** A piece that fits goes into the last batch. */
  lemma BatchGrows(batches: seq<seq<string>>, pieces: seq<string>, piece: string, capacity: nat)
    requires Batched(batches, pieces, capacity) && batches != []
    requires Bytes(Join(batches[|batches| - 1])) + Added(true, piece) <= capacity
    ensures Batched(batches[..|batches| - 1] + [batches[|batches| - 1] + [piece]], pieces + [piece], capacity)
  {
    hide Bytes, Added, Join;
    var n := |batches| - 1;
    var last := batches[n];
    var next := batches[..n] + [last + [piece]];
    assert Fits(batches, n, capacity);
    JoinSnoc(last, piece);
    assert batches == batches[..n] + [last];
    FlattenSnoc(batches[..n], last);
    FlattenSnoc(batches[..n], last + [piece]);
    forall i | 0 <= i < |next|
      ensures Fits(next, i, capacity) && Full(next, i, capacity)
    {
      assert Fits(batches, i, capacity) && Full(batches, i, capacity);
    }
  }

  lemma {:induction false} JoinPrefix(pieces: seq<string>, k: nat)
    requires k <= |pieces|
    ensures Bytes(Join(pieces[..k])) <= Bytes(Join(pieces))
    decreases |pieces| - k
  {
    hide Bytes, Join, Added;
    if k == |pieces| {
      assert pieces[..k] == pieces;
    } else {
      assert pieces[..k + 1] == pieces[..k] + [pieces[k]];
      JoinSnoc(pieces[..k], pieces[k]);
      JoinPrefix(pieces, k + 1);
    }
  }

  lemma BatchedTail(batches: seq<seq<string>>, pieces: seq<string>, capacity: nat)
    requires Batched(batches, pieces, capacity) && batches != []
    ensures |batches[0]| <= |pieces| && batches[0] == pieces[..|batches[0]|]
    ensures Batched(batches[1..], pieces[|batches[0]|..], capacity)
  {
    hide Bytes, Added, Join;
    var rest := batches[1..];
    forall i | 0 <= i < |rest|
      ensures Fits(rest, i, capacity) && Full(rest, i, capacity)
    {
      assert Fits(batches, i + 1, capacity) && Full(batches, i + 1, capacity);
    }
  }

  lemma SecondBatch(batches: seq<seq<string>>, pieces: seq<string>, capacity: nat)
    requires Batched(batches, pieces, capacity) && batches != [] && |batches[0]| < |pieces|
    ensures |batches| > 1 && batches[1] != [] && pieces[|batches[0]|] == batches[1][0]
  {
    hide Bytes, Added, Join;
    BatchedTail(batches, pieces, capacity);
    var rest := batches[1..];
    if rest != [] {
      assert Fits(rest, 0, capacity);
      BatchedTail(rest, pieces[|batches[0]|..], capacity);
    }
  }

  /** Of two batchings of the same pieces, the first batch cannot be shorter than the other one. */
  lemma FirstBatchIsLongest(a: seq<seq<string>>, b: seq<seq<string>>, pieces: seq<string>, capacity: nat)
    requires Batched(a, pieces, capacity) && Batched(b, pieces, capacity) && a != [] && b != []
    ensures |a[0]| >= |b[0]|
  {
    hide Bytes, Added, Join;
    assert Fits(a, 0, capacity) && Full(a, 0, capacity) && Fits(b, 0, capacity);
    var k := |a[0]|;
    BatchedTail(a, pieces, capacity);
    BatchedTail(b, pieces, capacity);
    if k < |b[0]| {
      SecondBatch(a, pieces, capacity);
      assert b[0][..k] == a[0] && b[0][..k + 1] == a[0] + [pieces[k]];
      JoinSnoc(a[0], pieces[k]);
      JoinPrefix(b[0], k + 1);
    }
  }

  lemma NothingToBatch(batches: seq<seq<string>>, capacity: nat)
    requires Batched(batches, [], capacity)
    ensures batches == []
  {
    hide Bytes, Join, Added;
    assert batches != [] ==> Fits(batches, 0, capacity);
  }

  /** The first batch takes at least what fits. */
  lemma FirstHolds(batches: seq<seq<string>>, pieces: seq<string>, capacity: nat, m: nat)
    requires Batched(batches, pieces, capacity) && 1 <= m <= |pieces| && Bytes(Join(pieces[..m])) <= capacity
    ensures batches != [] && |batches[0]| >= m
  {
    hide Bytes, Added, Join;
    if batches == [] {
      FlattenNone<string>();
    } else {
      var k := |batches[0]|;
      assert Fits(batches, 0, capacity) && Full(batches, 0, capacity);
      BatchedTail(batches, pieces, capacity);
      if k < m {
        SecondBatch(batches, pieces, capacity);
        assert pieces[..m][..k + 1] == pieces[..k + 1] == batches[0] + [pieces[k]];
        JoinSnoc(batches[0], pieces[k]);
        JoinPrefix(pieces[..m], k + 1);
      }
    }
  }

  /** A joined text is no smaller than one of its pieces, or two neighbours with what separates them. */
  lemma JoinHolds(pieces: seq<string>, i: nat)
    requires i < |pieces|
    ensures Bytes(Join(pieces)) >= Bytes(pieces[i])
    ensures i + 1 < |pieces| ==> Bytes(Join(pieces)) >= Bytes(pieces[i]) + Added(true, pieces[i + 1])
  {
    hide Bytes, Join;
    assert pieces[..i + 1] == pieces[..i] + [pieces[i]];
    JoinSnoc(pieces[..i], pieces[i]);
    JoinPrefix(pieces, i + 1);
    if i + 1 < |pieces| {
      assert pieces[..i + 2] == pieces[..i + 1] + [pieces[i + 1]];
      JoinSnoc(pieces[..i + 1], pieces[i + 1]);
      JoinPrefix(pieces, i + 2);
    }
  }

  /** Two neighbours that do not fit together end up in two neighbouring batches. */
  lemma {:induction false} Separated(batches: seq<seq<string>>, pieces: seq<string>, capacity: nat, i: nat)
      returns (j: nat)
    requires Batched(batches, pieces, capacity) && i + 1 < |pieces|
    requires Bytes(pieces[i]) + Added(true, pieces[i + 1]) > capacity
    ensures j + 1 < |batches|
    ensures Bytes(Join(batches[j])) >= Bytes(pieces[i]) && Bytes(Join(batches[j + 1])) >= Bytes(pieces[i + 1])
    decreases |batches|
  {
    hide Bytes, Added, Join;
    FlattenNone<string>();
    assert batches != [];
    BatchedTail(batches, pieces, capacity);
    var first, m := batches[0], |batches[0]|;
    assert Fits(batches, 0, capacity);
    if i < m {
      JoinHolds(first, i);
      assert i + 1 == m;
      SecondBatch(batches, pieces, capacity);
      JoinHolds(batches[1], 0);
      j := 0;
    } else {
      var k := Separated(batches[1..], pieces[m..], capacity, i - m);
      j := k + 1;
    }
  }

  /** There is only one such batching: the predicate says all about it. */
  lemma {:induction false} BatchingIsUnique(a: seq<seq<string>>, b: seq<seq<string>>, pieces: seq<string>,
                                            capacity: nat)
    requires Batched(a, pieces, capacity) && Batched(b, pieces, capacity)
    ensures a == b
    decreases |a|
  {
    if pieces == [] {
      NothingToBatch(a, capacity);
      NothingToBatch(b, capacity);
    } else {
      FirstBatchIsLongest(a, b, pieces, capacity);
      FirstBatchIsLongest(b, a, pieces, capacity);
      BatchedTail(a, pieces, capacity);
      BatchedTail(b, pieces, capacity);
      BatchingIsUnique(a[1..], b[1..], pieces[|a[0]|..], capacity);
      assert a == [a[0]] + a[1..] && b == [b[0]] + b[1..];
    }
  }

  /** The pieces of all texts, in order. */
  function AllPieces(texts: seq<string>, capacity: nat): seq<string>
    requires capacity >= MAX_CHARACTER_BYTES
  {
    if texts == [] then []
    else AllPieces(texts[..|texts| - 1], capacity) + Pieces(texts[|texts| - 1], capacity)
  }

  function Joined(batches: seq<seq<string>>): (texts: seq<string>)
    ensures |texts| == |batches|
  {
    seq(|batches|, i requires 0 <= i < |batches| => Join(batches[i]))
  }

  lemma AllFitAppend(a: seq<string>, b: seq<string>, capacity: nat)
    requires AllFit(a, capacity) && AllFit(b, capacity)
    ensures AllFit(a + b, capacity)
  {
    hide Bytes;
  }

  /** Cutting texts loses nothing, and every piece fits. */
  lemma {:induction false} AllPiecesJoin(texts: seq<string>, capacity: nat)
    requires capacity >= MAX_CHARACTER_BYTES
    ensures Flatten(AllPieces(texts, capacity)) == Flatten(texts)
    ensures AllFit(AllPieces(texts, capacity), capacity)
  {
    hide AllFit, Pieces;
    if texts == [] {
      NoneIsFit(capacity);
    } else {
      var n := |texts| - 1;
      AllPiecesJoin(texts[..n], capacity);
      PiecesJoin(texts[n], capacity);
      FlattenAppend(AllPieces(texts[..n], capacity), Pieces(texts[n], capacity));
      assert texts == texts[..n] + [texts[n]];
      FlattenSnoc(texts[..n], texts[n]);
      AllFitAppend(AllPieces(texts[..n], capacity), Pieces(texts[n], capacity), capacity);
    }
  }

  /** The batching, piece by piece. */
  function Grouped(pieces: seq<string>, capacity: nat): seq<seq<string>> {
    if pieces == [] then []
    else
      var n := |pieces| - 1;
      var before := Grouped(pieces[..n], capacity);
      if before == [] || Bytes(Join(before[|before| - 1])) + Added(true, pieces[n]) > capacity
      then before + [[pieces[n]]]
      else before[..|before| - 1] + [before[|before| - 1] + [pieces[n]]]
  }

  lemma {:induction false} GroupedIsBatched(pieces: seq<string>, capacity: nat)
    requires AllFit(pieces, capacity)
    ensures Batched(Grouped(pieces, capacity), pieces, capacity)
  {
    hide Bytes, Join, Added, Batched;
    if pieces == [] {
      NothingBatched(capacity);
    } else {
      var n := |pieces| - 1;
      var before := Grouped(pieces[..n], capacity);
      GroupedIsBatched(pieces[..n], capacity);
      assert pieces == pieces[..n] + [pieces[n]];
      if before == [] || Bytes(Join(before[|before| - 1])) + Added(true, pieces[n]) > capacity {
        BatchStarts(before, pieces[..n], pieces[n], capacity);
      } else {
        BatchGrows(before, pieces[..n], pieces[n], capacity);
      }
    }
  }

  /** The result of `note_batches` as a value. */
  function Batches(notes: seq<string>, capacity: nat): seq<string>
    requires capacity >= MAX_CHARACTER_BYTES
  {
    Joined(Grouped(AllPieces(notes, capacity), capacity))
  }

  lemma NoEmptyPiece(groups: seq<seq<string>>, pieces: seq<string>, capacity: nat, i: nat)
    requires i < |groups| && Flatten(groups) == pieces && AllFit(pieces, capacity) && groups[i] != []
    ensures groups[i][0] != ""
  {
    PartPlace(groups, i);
    assert pieces[|Flatten(groups[..i])|] == groups[i][0];
  }

  lemma {:induction false} JoinNonEmpty(pieces: seq<string>)
    requires pieces != [] && pieces[0] != ""
    ensures Join(pieces) != ""
  {
  }

  /** Every batch is a nonempty text that fits. */
  lemma BatchesFit(notes: seq<string>, capacity: nat, i: nat)
    requires capacity >= MAX_CHARACTER_BYTES && i < |Batches(notes, capacity)|
    ensures Batches(notes, capacity)[i] != "" && Bytes(Batches(notes, capacity)[i]) <= capacity
  {
    var groups := Grouped(AllPieces(notes, capacity), capacity);
    AllPiecesJoin(notes, capacity);
    GroupedIsBatched(AllPieces(notes, capacity), capacity);
    hide Bytes, Grouped, AllPieces;
    assert Fits(groups, i, capacity);
    NoEmptyPiece(groups, AllPieces(notes, capacity), capacity, i);
    JoinNonEmpty(groups[i]);
  }

  /** Texts that fit already are their own pieces. */
  lemma {:induction false} WholePieces(texts: seq<string>, capacity: nat)
    requires capacity >= MAX_CHARACTER_BYTES && AllFit(texts, capacity)
    ensures AllPieces(texts, capacity) == texts
  {
    hide Bytes;
    if texts != [] {
      var n := |texts| - 1;
      WholePieces(texts[..n], capacity);
      assert texts == texts[..n] + [texts[n]];
    }
  }

  lemma JoinLast(pieces: seq<string>)
    requires pieces != []
    ensures
      var n := |pieces| - 1;
      Join(pieces) == if n == 0 then pieces[0] else Join(pieces[..n]) + "\n\n" + pieces[n]
  {
  }

  lemma JoinedText(a: string, b: string, c: string)
    ensures a + "\n\n" + b + "\n\n" + c == a + "\n\n" + (b + "\n\n" + c)
  {
  }

  lemma {:induction false} JoinAppend(a: seq<string>, b: seq<string>)
    requires a != [] && b != []
    ensures Join(a + b) == Join(a) + "\n\n" + Join(b)
  {
    var n := |b| - 1;
    JoinLast(a + b);
    JoinLast(b);
    hide Join;
    assert (a + b)[..|a| + n] == a + b[..n] && (a + b)[|a| + n] == b[n];
    if n == 0 {
      assert a + b[..n] == a;
    } else {
      JoinAppend(a, b[..n]);
      JoinedText(Join(a), Join(b[..n]), b[n]);
    }
  }

  /** Joining the joined batches is joining all their pieces. */
  lemma {:induction false} JoinOfJoins(groups: seq<seq<string>>)
    requires forall i | 0 <= i < |groups| :: groups[i] != []
    ensures Join(Joined(groups)) == Join(Flatten(groups))
  {
    hide Join;
    FlattenNone<string>();
    if groups == [] {
    } else {
      var n := |groups| - 1;
      var last := groups[n];
      assert groups == groups[..n] + [last];
      FlattenSnoc(groups[..n], last);
      assert Joined(groups) == Joined(groups[..n]) + [Join(last)];
      JoinOne(Join(last));
      if n == 0 {
        assert Joined(groups) == [Join(last)] && groups[..0] == [] && [] + last == last;
      } else {
        JoinOfJoins(groups[..n]);
        assert Flatten(groups[..n]) != [] by { FlattenCons(groups[0], groups[1..n]); }
        JoinAppend(Joined(groups[..n]), [Join(last)]);
        JoinAppend(Flatten(groups[..n]), last);
      }
    }
  }

  /** As long as nothing has to be cut, batching keeps the joined text. */
  lemma BatchesJoin(notes: seq<string>, capacity: nat)
    requires capacity >= MAX_CHARACTER_BYTES && AllFit(notes, capacity)
    ensures Join(Batches(notes, capacity)) == Join(notes)
  {
    hide Bytes, Join, AllFit, Flatten;
    WholePieces(notes, capacity);
    GroupedIsBatched(notes, capacity);
    var groups := Grouped(notes, capacity);
    forall i | 0 <= i < |groups|
      ensures groups[i] != []
    {
      assert Fits(groups, i, capacity);
    }
    JoinOfJoins(groups);
  }

  // The two loops

  /** The batches that are closed, and the one being filled. */
  function WithPending(closed: seq<seq<string>>, pending: seq<string>): seq<seq<string>> {
    if pending == [] then closed else closed + [pending]
  }

  /** What the loops know: the batches so far, and the size of the one being filled. */
  ghost predicate Filling(closed: seq<seq<string>>, pending: seq<string>, used: nat, pieces: seq<string>,
                          capacity: nat)
  {
    && Batched(WithPending(closed, pending), pieces, capacity)
    && used == Bytes(Join(pending))
    && (pending == [] ==> closed == [])
  }

  /** Taking one more piece, into the batch being filled or into a new one. */
  lemma FillStep(closed: seq<seq<string>>, pending: seq<string>, used: nat, pieces: seq<string>, piece: string,
                 capacity: nat)
    requires Filling(closed, pending, used, pieces, capacity) && Bytes(piece) <= capacity
    ensures
      if pending != [] && used + Added(true, piece) > capacity
      then Filling(closed + [pending], [piece], Added(false, piece), pieces + [piece], capacity)
      else Filling(closed, pending + [piece], used + Added(pending != [], piece), pieces + [piece], capacity)
  {
    hide Bytes, Join, Batched;
    var batches := WithPending(closed, pending);
    JoinOne(piece);
    assert Added(false, piece) == Bytes(piece);
    JoinSnoc(pending, piece);
    if pending == [] {
      BatchStarts(batches, pieces, piece, capacity);
      assert [] + [piece] == [piece];
    } else if used + Added(true, piece) > capacity {
      BatchStarts(batches, pieces, piece, capacity);
    } else {
      BatchGrows(batches, pieces, piece, capacity);
      assert batches[..|batches| - 1] == closed;
    }
  }

  /** What one text adds to the pieces. */
  lemma OneMoreText(texts: seq<string>, i: nat, capacity: nat)
    requires i < |texts| && capacity >= MAX_CHARACTER_BYTES
    ensures AllPieces(texts[..i + 1], capacity) == AllPieces(texts[..i], capacity) + Pieces(texts[i], capacity)
  {
    assert texts[..i + 1][..i] == texts[..i];
  }

  lemma OneMorePiece(before: seq<string>, pieces: seq<string>, j: nat)
    requires j < |pieces|
    ensures before + pieces[..j + 1] == before + pieces[..j] + [pieces[j]]
  {
  }

  lemma NothingFilled(texts: seq<string>, capacity: nat)
    requires capacity >= MAX_CHARACTER_BYTES
    ensures Filling([], [], 0, AllPieces(texts[..0], capacity), capacity)
  {
    NothingBatched(capacity);
  }

  /**
   * `note_batches`: the notes, cut into pieces that fit and joined again as far as they fit.
   */
  method NoteBatches(notes: seq<string>, capacity: nat) returns (batches: seq<string>)
    requires capacity >= MAX_CHARACTER_BYTES
    ensures batches == Batches(notes, capacity)
    ensures Batched(Grouped(AllPieces(notes, capacity), capacity), AllPieces(notes, capacity), capacity)
  {
    hide Bytes, Join, Batched, Pieces, Flatten, AllPieces, Grouped;
    ghost var closed: seq<seq<string>> := [];
    batches := [];
    var pending: seq<string> := [];
    var used: nat := 0;
    assert Filling([], [], 0, AllPieces(notes[..0], capacity), capacity) by { NothingFilled(notes, capacity); }
    for i := 0 to |notes|
      invariant batches == Joined(closed)
      invariant Filling(closed, pending, used, AllPieces(notes[..i], capacity), capacity)
    {
      var pieces := SourcePieces(notes[i], capacity);
      PiecesJoin(notes[i], capacity);
      ghost var before := AllPieces(notes[..i], capacity);
      assert before + pieces[..0] == before;
      for j := 0 to |pieces|
        invariant batches == Joined(closed)
        invariant Filling(closed, pending, used, before + pieces[..j], capacity)
      {
        var piece := pieces[j];
        OneMorePiece(before, pieces, j);
        FillStep(closed, pending, used, before + pieces[..j], piece, capacity);
        var size := Bytes(piece) + if pending != [] then SEPARATOR_BYTES else 0;
        if pending != [] && used + size > capacity {
          batches := batches + [Join(pending)];
          closed := closed + [pending];
          pending, used := [], 0;
        }
        assert [] + [piece] == [piece];
        pending := pending + [piece];
        used := used + Bytes(piece) + if |pending| > 1 then SEPARATOR_BYTES else 0;
      }
      OneMoreText(notes, i, capacity);
      assert pieces[..|pieces|] == pieces;
    }
    assert notes[..|notes|] == notes;
    if pending != [] {
      batches := batches + [Join(pending)];
    }
    AllPiecesJoin(notes, capacity);
    GroupedIsBatched(AllPieces(notes, capacity), capacity);
    BatchingIsUnique(WithPending(closed, pending), Grouped(AllPieces(notes, capacity), capacity),
                     AllPieces(notes, capacity), capacity);
  }

  /** A transcript segment or a material page. */
  datatype Source = Source(id: string, text: string)

  function Texts(sources: seq<Source>): (texts: seq<string>)
    ensures |texts| == |sources|
  {
    seq(|sources|, i requires 0 <= i < |sources| => sources[i].text)
  }

  function ChunkTexts(chunks: seq<seq<Source>>): (texts: seq<seq<string>>)
    ensures |texts| == |chunks|
  {
    seq(|chunks|, i requires 0 <= i < |chunks| => Texts(chunks[i]))
  }

  function Tagged(id: string, pieces: seq<string>): seq<Source> {
    seq(|pieces|, i requires 0 <= i < |pieces| => Source(id, pieces[i]))
  }

  /** The pieces of all records, each under the record it comes from. */
  function AllTagged(records: seq<Source>): seq<Source> {
    if records == [] then []
    else
      var n := |records| - 1;
      AllTagged(records[..n]) + Tagged(records[n].id, Pieces(records[n].text, MAX_SOURCE_CHUNK_BYTES))
  }

  lemma TextsSnoc(sources: seq<Source>, source: Source)
    ensures Texts(sources + [source]) == Texts(sources) + [source.text]
  {
  }

  lemma ChunkTextsSnoc(chunks: seq<seq<Source>>, chunk: seq<Source>)
    ensures ChunkTexts(chunks + [chunk]) == ChunkTexts(chunks) + [Texts(chunk)]
  {
  }

  lemma OneMoreRecord(records: seq<Source>, i: nat)
    requires i < |records|
    ensures Texts(records[..i + 1]) == Texts(records[..i]) + [records[i].text]
    ensures AllPieces(Texts(records[..i + 1]), MAX_SOURCE_CHUNK_BYTES)
         == AllPieces(Texts(records[..i]), MAX_SOURCE_CHUNK_BYTES) + Pieces(records[i].text, MAX_SOURCE_CHUNK_BYTES)
    ensures AllTagged(records[..i + 1])
         == AllTagged(records[..i]) + Tagged(records[i].id, Pieces(records[i].text, MAX_SOURCE_CHUNK_BYTES))
  {
    assert records[..i + 1][..i] == records[..i];
    var texts := Texts(records[..i + 1]);
    assert texts == Texts(records[..i]) + [records[i].text];
    assert texts[..i] == Texts(records[..i]);
  }

  lemma OneMoreTagged(before: seq<Source>, id: string, pieces: seq<string>, j: nat)
    requires j < |pieces|
    ensures before + Tagged(id, pieces[..j + 1]) == before + Tagged(id, pieces[..j]) + [Source(id, pieces[j])]
  {
  }

  lemma NoTags(id: string, pieces: seq<string>)
    ensures Tagged(id, pieces[..0]) == []
  {
  }

  lemma NoTexts()
    ensures Texts([]) == []
  {
  }

  lemma NothingChunked(records: seq<Source>)
    ensures Filling(ChunkTexts([]), Texts([]), 0,
                    AllPieces(Texts(records[..0]), MAX_SOURCE_CHUNK_BYTES), MAX_SOURCE_CHUNK_BYTES)
    ensures Flatten<Source>([]) + [] == AllTagged(records[..0])
  {
    NothingBatched(MAX_SOURCE_CHUNK_BYTES);
    assert Texts([]) == [] && ChunkTexts([]) == [];
  }

  /**
   * `teaching_chunks`: adjacent statements stay together as far as they fit, each piece under
   * its own segment.
   */
  method TeachingChunks(records: seq<Source>) returns (chunks: seq<seq<Source>>)
    ensures Batched(ChunkTexts(chunks), AllPieces(Texts(records), 2800), 2800)
    ensures Flatten(chunks) == AllTagged(records)
  {
    hide Bytes, Join, Batched, Pieces, Flatten, AllPieces, AllTagged, Tagged, Texts, ChunkTexts;
    chunks := [];
    var pending: seq<Source> := [];
    var used: nat := 0;
    NothingChunked(records);
    for i := 0 to |records|
      invariant Filling(ChunkTexts(chunks), Texts(pending), used,
                        AllPieces(Texts(records[..i]), MAX_SOURCE_CHUNK_BYTES), MAX_SOURCE_CHUNK_BYTES)
      invariant Flatten(chunks) + pending == AllTagged(records[..i])
    {
      var id := records[i].id;
      var pieces := SourcePieces(records[i].text, MAX_SOURCE_CHUNK_BYTES);
      PiecesJoin(records[i].text, MAX_SOURCE_CHUNK_BYTES);
      ghost var before := AllPieces(Texts(records[..i]), MAX_SOURCE_CHUNK_BYTES);
      ghost var tagged := AllTagged(records[..i]);
      assert before + pieces[..0] == before;
      NoTags(id, pieces);
      for j := 0 to |pieces|
        invariant Filling(ChunkTexts(chunks), Texts(pending), used, before + pieces[..j], MAX_SOURCE_CHUNK_BYTES)
        invariant Flatten(chunks) + pending == tagged + Tagged(id, pieces[..j])
      {
        var piece := pieces[j];
        OneMorePiece(before, pieces, j);
        OneMoreTagged(tagged, id, pieces, j);
        FillStep(ChunkTexts(chunks), Texts(pending), used, before + pieces[..j], piece, MAX_SOURCE_CHUNK_BYTES);
        var size := Bytes(piece) + if pending != [] then SEPARATOR_BYTES else 0;
        if pending != [] && used + size > MAX_SOURCE_CHUNK_BYTES {
          ChunkTextsSnoc(chunks, pending);
          FlattenSnoc(chunks, pending);
          chunks := chunks + [pending];
          pending, used := [], 0;
          NoTexts();
        }
        used := used + Bytes(piece) + if pending != [] then SEPARATOR_BYTES else 0;
        TextsSnoc(pending, Source(id, piece));
        assert [] + [piece] == [piece];
        pending := pending + [Source(id, piece)];
      }
      OneMoreRecord(records, i);
      assert pieces[..|pieces|] == pieces;
    }
    assert records[..|records|] == records;
    if pending != [] {
      ChunkTextsSnoc(chunks, pending);
      FlattenSnoc(chunks, pending);
      chunks := chunks + [pending];
    }
  }
}
