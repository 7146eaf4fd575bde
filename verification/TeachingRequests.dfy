/**
 * The requests of a teaching card (workers/gpu_agent/teaching.py, `assemble_explanation`)
 * against what the receiver enforces (workers/model_worker/teaching.py, `TeachingPartRequest`,
 * `bounded_evidence` and `source_surface`): sizes, and for definitions also the terms.
 */
module TeachingRequests {
  import opened Sequences
  import opened TextBatches

  const REQUEST_BYTES: nat := 6500
  const REQUEST_CHARACTERS: nat := 4000
  const MAX_SYNTHESIS_INPUT_BYTES: nat := 6200
  const MAX_CONTEXT: nat := 3
  const MAX_MATERIALS: nat := 4
  const MAX_GROUP_TERMS: nat := 8
  const MAX_DEFINITION_BATCH: nat := 2
  const TERM_CHARACTERS: nat := 160
  const MAX_TERMS: nat := 4

  function TotalBytes(texts: seq<string>): nat {
    if texts == [] then 0 else TotalBytes(texts[..|texts| - 1]) + Bytes(texts[|texts| - 1])
  }

  lemma {:induction false} AsciiBytes(text: string)
    requires forall i | 0 <= i < |text| :: text[i] as nat < 0x80
    ensures Bytes(text) == |text|
  {
    if text != "" {
      AsciiBytes(text[1..]);
    }
  }

  /** What the receiver accepts of text, context and pages. */
  predicate Accepted(text: string, context: seq<string>, materials: seq<string>) {
    && 1 <= |text| <= REQUEST_CHARACTERS
    && |context| <= MAX_CONTEXT && |materials| <= MAX_MATERIALS
    && Bytes(text) + TotalBytes(context) + TotalBytes(materials) <= REQUEST_BYTES
  }

  /** The limits of the receiver, one by one. */
  lemma AcceptedIff(text: string, context: seq<string>, materials: seq<string>)
    ensures Accepted(text, context, materials)
       <==> && 1 <= |text| <= 4000 && |context| <= 3 && |materials| <= 4
            && Bytes(text) + TotalBytes(context) + TotalBytes(materials) <= 6500
  {
    hide Bytes, TotalBytes;
  }

  lemma {:induction false} AlikeBytes(text: string, width: nat)
    requires forall c | c in text :: Utf8(c) == width
    ensures Bytes(text) == width * |text|
  {
    if text != "" {
      assert text[0] in text;
      AlikeBytes(text[1..], width);
      assert width * |text| == width + width * |text[1..]|;
    }
  }

  /** Plain ASCII is refused from 4001 characters on, a text of three bytes a character from 2167 on. */
  lemma AlikeIsAcceptedIff(text: string, width: nat)
    requires 1 <= width <= 3 && forall c | c in text :: Utf8(c) == width
    ensures Accepted(text, [], []) <==> 1 <= |text| <= if width == 1 then 4000 else 6500 / width
  {
    AlikeBytes(text, width);
    hide Bytes;
  }

  /** A chunk text as `teaching_chunks` makes it. */
  predicate IsChunkText(text: string) {
    text != "" && Bytes(text) <= 2800
  }

  /** The texts of the chunks that `TeachingChunks` makes are such texts. */
  lemma ChunksAreChunkTexts(records: seq<Source>, chunks: seq<seq<Source>>, i: nat)
    requires Batched(ChunkTexts(chunks), AllPieces(Texts(records), MAX_SOURCE_CHUNK_BYTES), MAX_SOURCE_CHUNK_BYTES)
    requires i < |chunks|
    ensures IsChunkText(Join(Texts(chunks[i])))
  {
    var pieces := AllPieces(Texts(records), MAX_SOURCE_CHUNK_BYTES);
    AllPiecesJoin(Texts(records), MAX_SOURCE_CHUNK_BYTES);
    hide Bytes, AllPieces, Join;
    var groups := ChunkTexts(chunks);
    assert Fits(groups, i, MAX_SOURCE_CHUNK_BYTES);
    NoEmptyPiece(groups, pieces, MAX_SOURCE_CHUNK_BYTES, i);
    JoinNonEmpty(groups[i]);
  }

  lemma ChunkTextIsShort(text: string)
    requires IsChunkText(text)
    ensures 1 <= |text| <= REQUEST_CHARACTERS && Bytes(text) <= REQUEST_BYTES
  {
  }

  // The prose request

  /** The texts before and behind a chunk. */
  function Neighbours(texts: seq<string>, index: nat): (around: seq<string>)
    requires index < |texts|
    ensures |around| <= 2
  {
    (if index > 0 then [texts[index - 1]] else []) + (if index + 1 < |texts| then [texts[index + 1]] else [])
  }

  /** The candidates, in order, that fit into what the earlier ones leave, `room` at most. */
  function Greedy(candidates: seq<string>, capacity: nat, room: nat): (chosen: seq<string>)
    ensures |chosen| <= room && |chosen| <= |candidates|
  {
    if candidates == [] || room == 0 then []
    else if Bytes(candidates[0]) <= capacity
    then [candidates[0]] + Greedy(candidates[1..], capacity - Bytes(candidates[0]), room - 1)
    else Greedy(candidates[1..], capacity, room)
  }

  lemma {:induction false} TotalBytesCons(text: string, rest: seq<string>)
    ensures TotalBytes([text] + rest) == Bytes(text) + TotalBytes(rest)
  {
    hide Bytes;
    if rest == [] {
      assert [text] + rest == [text] && [text][..0] == [];
    } else {
      var n := |rest| - 1;
      assert ([text] + rest)[..n + 1] == [text] + rest[..n];
      TotalBytesCons(text, rest[..n]);
    }
  }

  lemma {:induction false} GreedyFits(candidates: seq<string>, capacity: nat, room: nat)
    ensures TotalBytes(Greedy(candidates, capacity, room)) <= capacity
    ensures forall text | text in Greedy(candidates, capacity, room) :: text in candidates
  {
    hide Bytes;
    if candidates != [] && room > 0 {
      var size := Bytes(candidates[0]);
      if size <= capacity {
        GreedyFits(candidates[1..], capacity - size, room - 1);
        TotalBytesCons(candidates[0], Greedy(candidates[1..], capacity - size, room - 1));
      } else {
        GreedyFits(candidates[1..], capacity, room);
      }
    }
  }

  /** One more candidate is taken exactly when there is room for it and it fits beside those taken so far. */
  lemma {:induction false} GreedyTakes(candidates: seq<string>, text: string, capacity: nat, room: nat)
    ensures
      var chosen := Greedy(candidates, capacity, room);
      Greedy(candidates + [text], capacity, room)
        == if |chosen| < room && TotalBytes(chosen) + Bytes(text) <= capacity then chosen + [text] else chosen
  {
    hide Bytes;
    if candidates == [] {
      assert candidates + [text] == [text] && [text][1..] == [];
    } else if room > 0 {
      var head, tail := candidates[0], candidates[1..];
      assert (candidates + [text])[1..] == tail + [text];
      if Bytes(head) <= capacity {
        var later := Greedy(tail, capacity - Bytes(head), room - 1);
        GreedyTakes(tail, text, capacity - Bytes(head), room - 1);
        TotalBytesCons(head, later);
        assert [head] + (later + [text]) == [head] + later + [text];
      } else {
        GreedyTakes(tail, text, capacity, room);
      }
    }
  }

  /** The context that fits beside a chunk. */
  function Context(texts: seq<string>, index: nat): seq<string>
    requires index < |texts| && Bytes(texts[index]) <= REQUEST_BYTES
  {
    Greedy(Neighbours(texts, index), REQUEST_BYTES - Bytes(texts[index]), 2)
  }

  /** The chunk before comes along if it fits beside this one, then the one behind if it fits as well. */
  lemma ContextIs(texts: seq<string>, index: nat)
    requires index < |texts| && Bytes(texts[index]) <= 6500
    ensures
      var used := Bytes(texts[index]);
      var before := index > 0 && used + Bytes(texts[index - 1]) <= 6500;
      var more := used + if before then Bytes(texts[index - 1]) else 0;
      var behind := index + 1 < |texts| && more + Bytes(texts[index + 1]) <= 6500;
      Context(texts, index)
        == (if before then [texts[index - 1]] else []) + if behind then [texts[index + 1]] else []
  {
    hide Bytes;
    if index > 0 && index + 1 < |texts| {
      var a, b := texts[index - 1], texts[index + 1];
      GreedyTakes([a], b, 6500 - Bytes(texts[index]), 2);
      assert Neighbours(texts, index) == [a] + [b] && [a][1..] == [] && [a][..0] == [];
    } else if index > 0 {
      assert Neighbours(texts, index) == [texts[index - 1]] && [texts[index - 1]][1..] == [];
    } else if index + 1 < |texts| {
      assert Neighbours(texts, index) == [texts[index + 1]] && [texts[index + 1]][1..] == [];
    }
  }

  lemma ContextFits(texts: seq<string>, index: nat)
    requires index < |texts| && IsChunkText(texts[index])
    ensures Bytes(texts[index]) <= REQUEST_BYTES
    ensures Accepted(texts[index], Context(texts, index), [])
    ensures Bytes(texts[index]) + TotalBytes(Context(texts, index)) <= REQUEST_BYTES
  {
    ChunkTextIsShort(texts[index]);
    hide Bytes;
    GreedyFits(Neighbours(texts, index), REQUEST_BYTES - Bytes(texts[index]), 2);
  }

  /** The loop that fills a request: candidates are taken as long as they fit, `room` at most. */
  method Choose(candidates: seq<string>, capacity: nat, room: nat) returns (chosen: seq<string>, left: nat)
    ensures chosen == Greedy(candidates, capacity, room)
    ensures left + TotalBytes(chosen) == capacity
  {
    hide Bytes;
    chosen, left := [], capacity;
    for i := 0 to |candidates|
      invariant |chosen| <= room && left + TotalBytes(chosen) == capacity
      invariant Greedy(candidates, capacity, room) == chosen + Greedy(candidates[i..], left, room - |chosen|)
    {
      var size := Bytes(candidates[i]);
      assert candidates[i..][0] == candidates[i] && candidates[i..][1..] == candidates[i + 1..];
      if size <= left && |chosen| < room {
        assert (chosen + [candidates[i]])[..|chosen|] == chosen;
        chosen := chosen + [candidates[i]];
        left := left - size;
      }
    }
  }

  /** A prose request: the chunk, what fits of its neighbours, then up to four pages that fit. */
  method ProseRequest(texts: seq<string>, index: nat, pages: seq<string>)
      returns (context: seq<string>, materials: seq<string>)
    requires index < |texts| && IsChunkText(texts[index])
    ensures Bytes(texts[index]) + TotalBytes(context) <= 6500
    ensures context == Context(texts, index)
    ensures materials == Greedy(pages, 6500 - Bytes(texts[index]) - TotalBytes(context), 4)
    ensures Accepted(texts[index], context, materials)
  {
    hide Bytes, Greedy, TotalBytes;
    ChunkTextIsShort(texts[index]);
    ContextFits(texts, index);
    var left;
    context, left := Choose(Neighbours(texts, index), REQUEST_BYTES - Bytes(texts[index]), 2);
    materials, left := Choose(pages, left, MAX_MATERIALS);
  }

  /** All prose requests of a card: whatever the segments and pages are, each is within the limits. */
  method ProseRequests(records: seq<Source>, pages: seq<string>)
      returns (chunks: seq<seq<Source>>, texts: seq<string>, contexts: seq<seq<string>>, materials: seq<seq<string>>)
    ensures Flatten(chunks) == AllTagged(records) && texts == Joined(ChunkTexts(chunks))
    ensures |contexts| == |materials| == |texts|
    ensures forall i | 0 <= i < |texts| :: IsChunkText(texts[i]) && Accepted(texts[i], contexts[i], materials[i])
  {
    hide Bytes, Accepted, IsChunkText, Greedy, TotalBytes, Flatten, AllTagged, Join, Batched, Texts;
    chunks := TeachingChunks(records);
    texts, contexts, materials := Joined(ChunkTexts(chunks)), [], [];
    for i := 0 to |texts|
      invariant |contexts| == |materials| == i
      invariant forall k | 0 <= k < i :: IsChunkText(texts[k]) && Accepted(texts[k], contexts[k], materials[k])
    {
      ChunksAreChunkTexts(records, chunks, i);
      var context, material := ProseRequest(texts, i, pages);
      contexts, materials := contexts + [context], materials + [material];
    }
  }

  // Terms

  /**
   * Case folding and blanks are fixed functions of characters. `kept` stands for the tests that
   * drop names of persons and terms of no single source, `reviewed` for the reviewed glossary.
   */
  datatype Lexicon = Lexicon(
    fold: char -> char,
    blank: char -> bool,
    kept: (string, string) -> bool,
    reviewed: (string, string, seq<string>) -> bool)

  predicate IsAlphanumeric(c: char) {
    'a' <= c <= 'z' || 'A' <= c <= 'Z' || '0' <= c <= '9'
  }

  /** The character class of the word boundaries, with or without case. */
  predicate IsWord(fold: char -> char, c: char) {
    IsAlphanumeric(c) || c == '_' || IsAlphanumeric(fold(c))
  }

  function Folded(fold: char -> char, text: string): (folded: string)
    ensures |folded| == |text|
  {
    seq(|text|, i requires 0 <= i < |text| => fold(text[i]))
  }

  /** `term` stands at `p`, and not inside a longer Latin word. */
  predicate OccursAt(fold: char -> char, term: string, text: string, p: nat) {
    && term != "" && p + |term| <= |text|
    && Folded(fold, text[p..p + |term|]) == Folded(fold, term)
    && (IsAlphanumeric(term[0]) && p > 0 ==> !IsWord(fold, text[p - 1]))
    && (IsAlphanumeric(term[|term| - 1]) && p + |term| < |text| ==> !IsWord(fold, text[p + |term|]))
  }

  /** The first occurrence from `p` on. */
  function Search(fold: char -> char, term: string, text: string, p: nat): (found: Option<nat>)
    ensures found.Some? ==> OccursAt(fold, term, text, found.value)
    decreases |text| - p
  {
    if p >= |text| then None
    else if OccursAt(fold, term, text, p) then Some(p)
    else Search(fold, term, text, p + 1)
  }

  lemma OccursInside(fold: char -> char, term: string, text: string, p: nat)
    requires OccursAt(fold, term, text, p)
    ensures p < |text|
  {
  }

  lemma {:induction false} SearchFinds(fold: char -> char, term: string, text: string, p: nat, at: nat)
    requires p <= at && OccursAt(fold, term, text, at)
    ensures Search(fold, term, text, p).Some?
    decreases at - p
  {
    hide OccursAt;
    assert at < |text| by { OccursInside(fold, term, text, at); }
    if p < at && !OccursAt(fold, term, text, p) {
      SearchFinds(fold, term, text, p + 1, at);
    }
  }

  predicate NotBlank(lexicon: Lexicon, term: string) {
    exists i | 0 <= i < |term| :: !lexicon.blank(term[i])
  }

  function Identity(): char -> char {
    c => c
  }

  /** The sender's test: the term occurs exactly as it is spelled. */
  predicate ContainsTerm(lexicon: Lexicon, term: string, text: string) {
    NotBlank(lexicon, term) && Search(Identity(), term, text, 0).Some?
  }

  /** A letter, a digit or an underscore of ASCII. */
  predicate IsLatin(c: char) {
    ('a' <= c <= 'z') || ('A' <= c <= 'Z') || ('0' <= c <= '9') || c == '_'
  }

  /** The term is spelled out at `p`, and where it begins or ends with a Latin letter or digit, so does a word. */
  ghost predicate StandsAt(term: string, text: string, p: nat) {
    && p + |term| <= |text| && text[p..p + |term|] == term
    && (term != "" && p > 0 && IsLatin(text[p - 1]) ==> term[0] == '_' || !IsLatin(term[0]))
    && (term != "" && p + |term| < |text| && IsLatin(text[p + |term|]) ==>
          term[|term| - 1] == '_' || !IsLatin(term[|term| - 1]))
  }

  lemma SameSpelling(fold: char -> char, a: string, b: string)
    requires Folded(Identity(), a) == Folded(Identity(), b)
    ensures a == b && Folded(fold, a) == Folded(fold, b)
  {
    assert |Folded(Identity(), a)| == |Folded(Identity(), b)|;
    forall i | 0 <= i < |a|
      ensures a[i] == b[i]
    {
      assert Folded(Identity(), a)[i] == a[i] && Folded(Identity(), b)[i] == b[i];
    }
  }

  lemma OccursIff(term: string, text: string, p: nat)
    requires term != ""
    ensures OccursAt(Identity(), term, text, p) <==> StandsAt(term, text, p)
  {
    if p + |term| <= |text| {
      if Folded(Identity(), text[p..p + |term|]) == Folded(Identity(), term) {
        SameSpelling(Identity(), text[p..p + |term|], term);
      }
    }
  }

  /** The sender finds a term exactly when it is not blank and stands somewhere in the text. */
  lemma ContainsIff(lexicon: Lexicon, term: string, text: string)
    ensures ContainsTerm(lexicon, term, text)
       <==> (exists i | 0 <= i < |term| :: !lexicon.blank(term[i])) && exists p: nat :: StandsAt(term, text, p)
  {
    if term != "" {
      if Search(Identity(), term, text, 0).Some? {
        OccursIff(term, text, Search(Identity(), term, text, 0).value);
      }
      forall p: nat | StandsAt(term, text, p)
        ensures Search(Identity(), term, text, 0).Some?
      {
        OccursIff(term, text, p);
        SearchFinds(Identity(), term, text, 0, p);
      }
    }
    hide OccursAt, StandsAt, Search;
  }

  /** The receiver's test: the spelling of the source, whatever the case. */
  function SourceSurface(lexicon: Lexicon, term: string, text: string): (surface: Option<string>)
    ensures surface.Some? ==> Folded(lexicon.fold, surface.value) == Folded(lexicon.fold, term)
  {
    if !NotBlank(lexicon, term) then None
    else
      match Search(lexicon.fold, term, text, 0)
      case None => None
      case Some(p) => Some(text[p..p + |term|])
  }

  predicate IsLatinFolded(fold: char -> char, c: char) {
    IsLatin(c) || (IsLatin(fold(c)) && fold(c) != '_')
  }

  /** The same for the receiver: characters are compared, and word characters recognized, without case. */
  ghost predicate StandsFolded(fold: char -> char, term: string, text: string, p: nat) {
    && p + |term| <= |text|
    && (forall i | 0 <= i < |term| :: fold(text[p + i]) == fold(term[i]))
    && (term != "" && p > 0 && IsLatinFolded(fold, text[p - 1]) ==> term[0] == '_' || !IsLatin(term[0]))
    && (term != "" && p + |term| < |text| && IsLatinFolded(fold, text[p + |term|]) ==>
          term[|term| - 1] == '_' || !IsLatin(term[|term| - 1]))
  }

  lemma OccursFoldedIff(fold: char -> char, term: string, text: string, p: nat)
    requires term != ""
    ensures OccursAt(fold, term, text, p) <==> StandsFolded(fold, term, text, p)
  {
    if p + |term| <= |text| {
      var there := Folded(fold, text[p..p + |term|]);
      assert forall i | 0 <= i < |term| :: there[i] == fold(text[p + i]) && Folded(fold, term)[i] == fold(term[i]);
    }
  }

  /** The receiver finds a term exactly when it is not blank and stands somewhere, whatever the case. */
  lemma SurfaceIff(lexicon: Lexicon, term: string, text: string)
    ensures SourceSurface(lexicon, term, text).Some?
       <==> && (exists i | 0 <= i < |term| :: !lexicon.blank(term[i]))
            && exists p: nat :: StandsFolded(lexicon.fold, term, text, p)
  {
    if term != "" {
      var found := Search(lexicon.fold, term, text, 0);
      if found.Some? {
        OccursFoldedIff(lexicon.fold, term, text, found.value);
      }
      forall p: nat | StandsFolded(lexicon.fold, term, text, p)
        ensures found.Some?
      {
        OccursFoldedIff(lexicon.fold, term, text, p);
        SearchFinds(lexicon.fold, term, text, 0, p);
      }
    }
    hide OccursAt, StandsFolded, Search;
  }

  /** No character outside ASCII folds into it, as U+017F and U+212A do. */
  predicate Plain(lexicon: Lexicon, text: string) {
    forall i | 0 <= i < |text| :: IsAlphanumeric(lexicon.fold(text[i])) ==> IsAlphanumeric(text[i])
  }

  /** In plain text the receiver finds what the sender has found. */
  lemma ContainedHasSurface(lexicon: Lexicon, term: string, text: string)
    requires ContainsTerm(lexicon, term, text) && Plain(lexicon, text)
    ensures SourceSurface(lexicon, term, text).Some?
  {
    var p := Search(Identity(), term, text, 0).value;
    SameSpelling(lexicon.fold, term, text[p..p + |term|]);
    assert OccursAt(lexicon.fold, term, text, p);
    SearchFinds(lexicon.fold, term, text, 0, p);
  }

  /** `" ".join(term.split())`. */
  function Squeezed(lexicon: Lexicon, term: string): string {
    if term == "" then ""
    else
      var n := |term| - 1;
      var before := Squeezed(lexicon, term[..n]);
      if lexicon.blank(term[n]) then before
      else if before != "" && lexicon.blank(term[n - 1]) then before + " " + [term[n]]
      else before + [term[n]]
  }

  ghost predicate AllBlank(lexicon: Lexicon, text: string) {
    forall i | 0 <= i < |text| :: lexicon.blank(text[i])
  }

  /** What one more character adds to the squeezed text. */
  function Mark(lexicon: Lexicon, text: string, c: char): string {
    if lexicon.blank(c) then ""
    else if Squeezed(lexicon, text) != "" && text != "" && lexicon.blank(text[|text| - 1]) then " " + [c]
    else [c]
  }

  lemma SqueezedSnoc(lexicon: Lexicon, text: string, c: char)
    ensures Squeezed(lexicon, text + [c]) == Squeezed(lexicon, text) + Mark(lexicon, text, c)
  {
    assert (text + [c])[..|text|] == text;
  }

  /** Blanks at the end disappear. */
  lemma {:induction false} SqueezedGap(lexicon: Lexicon, text: string, gap: string)
    requires AllBlank(lexicon, gap)
    ensures Squeezed(lexicon, text + gap) == Squeezed(lexicon, text)
  {
    if gap == "" {
      assert text + gap == text;
    } else {
      var n := |gap| - 1;
      SqueezedGap(lexicon, text, gap[..n]);
      assert text + gap == text + gap[..n] + [gap[n]];
      SqueezedSnoc(lexicon, text + gap[..n], gap[n]);
    }
  }

  lemma {:induction false} NothingLeftIff(lexicon: Lexicon, text: string)
    ensures Squeezed(lexicon, text) == "" <==> AllBlank(lexicon, text)
  {
    if text != "" {
      var n := |text| - 1;
      NothingLeftIff(lexicon, text[..n]);
      assert text == text[..n] + [text[n]];
      SqueezedSnoc(lexicon, text[..n], text[n]);
      assert forall i | 0 <= i < n :: text[..n][i] == text[i];
    }
  }

  /** A word without blanks stays as it is. */
  lemma {:induction false} SqueezedWord(lexicon: Lexicon, word: string)
    requires forall i | 0 <= i < |word| :: !lexicon.blank(word[i])
    ensures Squeezed(lexicon, word) == word
  {
    if word != "" {
      var n := |word| - 1;
      SqueezedWord(lexicon, word[..n]);
      assert word == word[..n] + [word[n]];
      SqueezedSnoc(lexicon, word[..n], word[n]);
    }
  }

  /** However many blanks stand before a word, one is left between it and what stands before them. */
  lemma {:induction false} SqueezedWords(lexicon: Lexicon, text: string, gap: string, word: string)
    requires gap != "" && AllBlank(lexicon, gap)
    requires word != "" && forall i | 0 <= i < |word| :: !lexicon.blank(word[i])
    ensures Squeezed(lexicon, text + gap + word)
         == (if AllBlank(lexicon, text) then "" else Squeezed(lexicon, text) + " ") + word
  {
    var n := |word| - 1;
    var front := text + gap + word[..n];
    assert text + gap + word == front + [word[n]] && word == word[..n] + [word[n]];
    assert front[|front| - 1] == if n == 0 then gap[|gap| - 1] else word[n - 1];
    NothingLeftIff(lexicon, text);
    SqueezedSnoc(lexicon, front, word[n]);
    hide Squeezed;
    if n == 0 {
      assert front == text + gap;
      SqueezedGap(lexicon, text, gap);
    } else {
      SqueezedWords(lexicon, text, gap, word[..n]);
    }
  }

  /** Under this key a term enters the inventory. */
  function Key(lexicon: Lexicon, term: string): string {
    Folded(lexicon.fold, Squeezed(lexicon, term))
  }

  /** What folds together is blank together. */
  ghost predicate FoldsBlanks(lexicon: Lexicon) {
    forall a: char, b: char | lexicon.fold(a) == lexicon.fold(b) :: lexicon.blank(a) == lexicon.blank(b)
  }

  lemma FoldedAppend(fold: char -> char, a: string, b: string)
    ensures Folded(fold, a + b) == Folded(fold, a) + Folded(fold, b)
  {
  }

  /** The key of a term from that of all but its last character. */
  lemma KeySnoc(lexicon: Lexicon, term: string)
    requires term != ""
    ensures
      var n := |term| - 1;
      var before := Key(lexicon, term[..n]);
      Key(lexicon, term)
      == if lexicon.blank(term[n]) then before
         else if before != "" && lexicon.blank(term[n - 1])
         then before + [lexicon.fold(' ')] + [lexicon.fold(term[n])]
         else before + [lexicon.fold(term[n])]
  {
    var n := |term| - 1;
    var before := Squeezed(lexicon, term[..n]);
    FoldedAppend(lexicon.fold, before, [term[n]]);
    FoldedAppend(lexicon.fold, before + " ", [term[n]]);
    FoldedAppend(lexicon.fold, before, " ");
    assert Folded(lexicon.fold, [term[n]]) == [lexicon.fold(term[n])];
    assert Folded(lexicon.fold, " ") == [lexicon.fold(' ')];
    assert |Key(lexicon, term[..n])| == |before|;
  }

  /** Terms that fold together have one key. */
  lemma {:induction false} FoldedHaveOneKey(lexicon: Lexicon, a: string, b: string)
    requires FoldsBlanks(lexicon) && Folded(lexicon.fold, a) == Folded(lexicon.fold, b)
    ensures Key(lexicon, a) == Key(lexicon, b)
    decreases |a|
  {
    assert |a| == |Folded(lexicon.fold, a)| == |Folded(lexicon.fold, b)| == |b|;
    if a != "" {
      var n := |a| - 1;
      forall i | 0 <= i <= n
        ensures lexicon.fold(a[i]) == lexicon.fold(b[i])
      {
        assert Folded(lexicon.fold, a)[i] == Folded(lexicon.fold, b)[i];
      }
      assert Folded(lexicon.fold, a[..n]) == Folded(lexicon.fold, b[..n]);
      FoldedHaveOneKey(lexicon, a[..n], b[..n]);
      KeySnoc(lexicon, a);
      KeySnoc(lexicon, b);
    }
  }

  // Definitions

  /** A term of the card with the chunk and the context it was found in. */
  datatype Entry = Entry(term: string, text: string, context: seq<string>)

  predicate Resolved(lexicon: Lexicon, entry: Entry) {
    lexicon.reviewed(entry.term, entry.text, entry.context)
  }

  /** The term is in the chunk, and a request for it is within the limits or never has to be made. */
  predicate Answerable(lexicon: Lexicon, entry: Entry) {
    && ContainsTerm(lexicon, entry.term, entry.text)
    && (Resolved(lexicon, entry) || Accepted(entry.text, entry.context, []))
  }

  ghost predicate DistinctKeys(lexicon: Lexicon, entries: seq<Entry>) {
    forall i, j | 0 <= i < j < |entries| :: Key(lexicon, entries[i].term) != Key(lexicon, entries[j].term)
  }

  /** An inventory: one entry for each key, all of them answerable. */
  ghost predicate Inventory(lexicon: Lexicon, entries: seq<Entry>) {
    && (forall k | 0 <= k < |entries| :: Answerable(lexicon, entries[k]))
    && DistinctKeys(lexicon, entries)
  }

  predicate Known(lexicon: Lexicon, entries: seq<Entry>, term: string) {
    exists k | 0 <= k < |entries| :: Key(lexicon, entries[k].term) == Key(lexicon, term)
  }

  /** `setdefault`: the first entry of a term stays. */
  function WithEntry(lexicon: Lexicon, entries: seq<Entry>, entry: Entry): seq<Entry> {
    if Known(lexicon, entries, entry.term) then entries else entries + [entry]
  }

  lemma EntryAdded(lexicon: Lexicon, entries: seq<Entry>, entry: Entry)
    requires Inventory(lexicon, entries) && Answerable(lexicon, entry)
    ensures Inventory(lexicon, WithEntry(lexicon, entries, entry))
  {
    hide Key, Answerable;
  }

  lemma NoEntries(lexicon: Lexicon)
    ensures Inventory(lexicon, [])
  {
  }

  /** The inventory that a list of offered entries leads to. */
  function FromOffers(lexicon: Lexicon, offers: seq<Entry>): seq<Entry> {
    if offers == [] then []
    else WithEntry(lexicon, FromOffers(lexicon, offers[..|offers| - 1]), offers[|offers| - 1])
  }

  /** The first offer under its key. */
  ghost predicate IsFirst(lexicon: Lexicon, offers: seq<Entry>, k: nat)
    requires k < |offers|
  {
    forall j | 0 <= j < k :: Key(lexicon, offers[j].term) != Key(lexicon, offers[k].term)
  }

  lemma KnownMore(lexicon: Lexicon, entries: seq<Entry>, entry: Entry, term: string)
    ensures Known(lexicon, WithEntry(lexicon, entries, entry), term)
       <==> Known(lexicon, entries, term) || Key(lexicon, entry.term) == Key(lexicon, term)
  {
    hide Key;
    if Known(lexicon, entries, entry.term) {
      assert Key(lexicon, entry.term) == Key(lexicon, term) ==> Known(lexicon, entries, term);
    } else {
      var more := entries + [entry];
      assert more[|entries|] == entry;
      assert forall k | 0 <= k < |entries| :: more[k] == entries[k];
    }
  }

  lemma PrefixOffers(lexicon: Lexicon, offers: seq<Entry>, term: string)
    requires offers != []
    ensures
      var n := |offers| - 1;
      (exists k | 0 <= k < |offers| :: Key(lexicon, offers[k].term) == Key(lexicon, term))
      <==> || (exists k | 0 <= k < n :: Key(lexicon, offers[..n][k].term) == Key(lexicon, term))
           || Key(lexicon, offers[n].term) == Key(lexicon, term)
  {
    hide Key;
    var n := |offers| - 1;
    assert forall k | 0 <= k < n :: offers[..n][k] == offers[k];
  }

  /** A key is known exactly when it was offered. */
  lemma {:induction false} KnownIff(lexicon: Lexicon, offers: seq<Entry>, term: string)
    ensures Known(lexicon, FromOffers(lexicon, offers), term)
       <==> exists k | 0 <= k < |offers| :: Key(lexicon, offers[k].term) == Key(lexicon, term)
  {
    hide Key;
    if offers != [] {
      var n := |offers| - 1;
      var entries := FromOffers(lexicon, offers[..n]);
      KnownIff(lexicon, offers[..n], term);
      KnownIff(lexicon, offers[..n], offers[n].term);
      KnownMore(lexicon, entries, offers[n], term);
      PrefixOffers(lexicon, offers, term);
    }
  }

  /** The first offer of every key enters the inventory. */
  lemma {:induction false} FirstOfferEnters(lexicon: Lexicon, offers: seq<Entry>, k: nat)
    requires k < |offers| && IsFirst(lexicon, offers, k)
    ensures offers[k] in FromOffers(lexicon, offers)
  {
    hide Key;
    var n := |offers| - 1;
    if k == n {
      KnownIff(lexicon, offers[..n], offers[n].term);
    } else {
      FirstOfferEnters(lexicon, offers[..n], k);
    }
  }

  /** Nothing else does. */
  lemma {:induction false} EntryIsFirst(lexicon: Lexicon, offers: seq<Entry>, entry: Entry) returns (k: nat)
    requires entry in FromOffers(lexicon, offers)
    ensures k < |offers| && IsFirst(lexicon, offers, k) && offers[k] == entry
  {
    hide Key;
    var n := |offers| - 1;
    if entry in FromOffers(lexicon, offers[..n]) {
      k := EntryIsFirst(lexicon, offers[..n], entry);
    } else {
      k := n;
      KnownIff(lexicon, offers[..n], offers[n].term);
      assert forall j | 0 <= j < n :: offers[..n][j] == offers[j];
    }
  }

  /** What the model names for a chunk is offered if the chunk contains it and it is kept. */
  function NamedOffers(lexicon: Lexicon, text: string, context: seq<string>, terms: seq<string>): seq<Entry> {
    if terms == [] then []
    else
      var n := |terms| - 1;
      var before := NamedOffers(lexicon, text, context, terms[..n]);
      if ContainsTerm(lexicon, terms[n], text) && lexicon.kept(terms[n], text)
      then before + [Entry(terms[n], text, context)] else before
  }

  function AllNamedOffers(lexicon: Lexicon, texts: seq<string>, named: seq<seq<string>>, count: nat): seq<Entry>
    requires count <= |texts| == |named|
    requires forall i | 0 <= i < |texts| :: IsChunkText(texts[i])
  {
    if count == 0 then []
    else
      var index := count - 1;
      AllNamedOffers(lexicon, texts, named, index)
      + NamedOffers(lexicon, texts[index], Context(texts, index), named[index])
  }

  /** A term of the glossary is offered with each chunk that contains it if the glossary answers it there. */
  function GlossaryOffers(lexicon: Lexicon, texts: seq<string>, term: string, count: nat): seq<Entry>
    requires count <= |texts|
  {
    if count == 0 then []
    else
      var index := count - 1;
      var entry := Entry(term, texts[index], Neighbours(texts, index));
      var before := GlossaryOffers(lexicon, texts, term, index);
      if ContainsTerm(lexicon, term, texts[index]) && Resolved(lexicon, entry) then before + [entry] else before
  }

  function AllGlossaryOffers(lexicon: Lexicon, texts: seq<string>, glossary: seq<string>): seq<Entry> {
    if glossary == [] then []
    else
      var n := |glossary| - 1;
      AllGlossaryOffers(lexicon, texts, glossary[..n]) + GlossaryOffers(lexicon, texts, glossary[n], |texts|)
  }

  lemma {:induction false} NamedOffersAre(lexicon: Lexicon, text: string, context: seq<string>, terms: seq<string>)
    ensures forall entry ::
      entry in NamedOffers(lexicon, text, context, terms)
      <==> && entry.text == text && entry.context == context && entry.term in terms
           && ContainsTerm(lexicon, entry.term, text) && lexicon.kept(entry.term, text)
  {
    hide ContainsTerm;
    if terms != [] {
      var n := |terms| - 1;
      NamedOffersAre(lexicon, text, context, terms[..n]);
      assert terms == terms[..n] + [terms[n]];
    }
  }

  /** Every term that the model names for a chunk and the chunk contains is offered with the context that fitted. */
  lemma {:induction false} NamedIsOffered(lexicon: Lexicon, texts: seq<string>, named: seq<seq<string>>, count: nat,
                                         index: nat, term: string)
    requires index < count <= |texts| == |named| && term in named[index]
    requires forall i | 0 <= i < |texts| :: IsChunkText(texts[i])
    requires ContainsTerm(lexicon, term, texts[index]) && lexicon.kept(term, texts[index])
    ensures Bytes(texts[index]) <= REQUEST_BYTES
    ensures Entry(term, texts[index], Context(texts, index)) in AllNamedOffers(lexicon, texts, named, count)
  {
    if index == count - 1 {
      NamedOffersAre(lexicon, texts[index], Context(texts, index), named[index]);
    } else {
      NamedIsOffered(lexicon, texts, named, count - 1, index, term);
    }
  }

  lemma {:induction false} TermIsOffered(lexicon: Lexicon, texts: seq<string>, term: string, count: nat, index: nat)
    requires index < count <= |texts|
    requires ContainsTerm(lexicon, term, texts[index])
    requires lexicon.reviewed(term, texts[index], Neighbours(texts, index))
    ensures Entry(term, texts[index], Neighbours(texts, index)) in GlossaryOffers(lexicon, texts, term, count)
  {
    hide ContainsTerm;
    if index < count - 1 {
      TermIsOffered(lexicon, texts, term, count - 1, index);
    }
  }

  /** So is every term of the glossary that it answers for a chunk, with both neighbours. */
  lemma {:induction false} GlossaryIsOffered(lexicon: Lexicon, texts: seq<string>, glossary: seq<string>,
                                            k: nat, index: nat)
    requires k < |glossary| && index < |texts| && ContainsTerm(lexicon, glossary[k], texts[index])
    requires lexicon.reviewed(glossary[k], texts[index], Neighbours(texts, index))
    ensures Entry(glossary[k], texts[index], Neighbours(texts, index)) in AllGlossaryOffers(lexicon, texts, glossary)
  {
    hide ContainsTerm, GlossaryOffers;
    var n := |glossary| - 1;
    if k == n {
      TermIsOffered(lexicon, texts, glossary[n], |texts|, index);
    } else {
      GlossaryIsOffered(lexicon, texts, glossary[..n], k, index);
    }
  }

  lemma OffersSnoc(lexicon: Lexicon, offers: seq<Entry>, entry: Entry)
    ensures FromOffers(lexicon, offers + [entry]) == WithEntry(lexicon, FromOffers(lexicon, offers), entry)
  {
    assert (offers + [entry])[..|offers|] == offers;
  }

  lemma NoOffers(lexicon: Lexicon)
    ensures FromOffers(lexicon, []) == []
  {
  }

  lemma OffersJoin(lexicon: Lexicon, offers: seq<Entry>, more: seq<Entry>, entry: Entry)
    ensures FromOffers(lexicon, offers + (more + [entry]))
         == WithEntry(lexicon, FromOffers(lexicon, offers + more), entry)
  {
    assert offers + (more + [entry]) == offers + more + [entry];
    OffersSnoc(lexicon, offers + more, entry);
  }

  lemma NothingMore(offers: seq<Entry>)
    ensures offers + [] == offers
  {
  }

  lemma NamedSnoc(lexicon: Lexicon, text: string, context: seq<string>, terms: seq<string>, k: nat)
    requires k < |terms|
    ensures NamedOffers(lexicon, text, context, terms[..k + 1])
         == NamedOffers(lexicon, text, context, terms[..k])
          + if ContainsTerm(lexicon, terms[k], text) && lexicon.kept(terms[k], text)
            then [Entry(terms[k], text, context)] else []
  {
    assert terms[..k + 1][..k] == terms[..k];
  }

  /** The inner loop over the terms that the model names for one chunk. */
  method CollectNamed(lexicon: Lexicon, text: string, context: seq<string>, terms: seq<string>,
                      entries: seq<Entry>, ghost offers: seq<Entry>)
      returns (more: seq<Entry>)
    requires Inventory(lexicon, entries) && entries == FromOffers(lexicon, offers)
    requires Accepted(text, context, [])
    ensures Inventory(lexicon, more)
    ensures more == FromOffers(lexicon, offers + NamedOffers(lexicon, text, context, terms))
  {
    hide Bytes, Accepted, ContainsTerm, Inventory, WithEntry, FromOffers;
    more := entries;
    assert terms[..0] == [] && NamedOffers(lexicon, text, context, terms[..0]) == [];
    NothingMore(offers);
    for k := 0 to |terms|
      invariant Inventory(lexicon, more)
      invariant more == FromOffers(lexicon, offers + NamedOffers(lexicon, text, context, terms[..k]))
    {
      NamedSnoc(lexicon, text, context, terms, k);
      NothingMore(NamedOffers(lexicon, text, context, terms[..k]));
      if ContainsTerm(lexicon, terms[k], text) && lexicon.kept(terms[k], text) {
        var entry := Entry(terms[k], text, context);
        EntryAdded(lexicon, more, entry);
        OffersJoin(lexicon, offers, NamedOffers(lexicon, text, context, terms[..k]), entry);
        more := WithEntry(lexicon, more, entry);
      }
    }
    assert terms[..|terms|] == terms;
  }

  /** The inner loop over the chunks for one term of the glossary. */
  method CollectReviewed(lexicon: Lexicon, texts: seq<string>, term: string, entries: seq<Entry>,
                         ghost offers: seq<Entry>)
      returns (more: seq<Entry>)
    requires Inventory(lexicon, entries) && entries == FromOffers(lexicon, offers)
    ensures Inventory(lexicon, more)
    ensures more == FromOffers(lexicon, offers + GlossaryOffers(lexicon, texts, term, |texts|))
  {
    hide Bytes, Accepted, Neighbours, ContainsTerm, Inventory, WithEntry, FromOffers;
    more := entries;
    NothingMore(offers);
    for index := 0 to |texts|
      invariant Inventory(lexicon, more)
      invariant more == FromOffers(lexicon, offers + GlossaryOffers(lexicon, texts, term, index))
    {
      var entry := Entry(term, texts[index], Neighbours(texts, index));
      if ContainsTerm(lexicon, entry.term, entry.text) && Resolved(lexicon, entry) {
        EntryAdded(lexicon, more, entry);
        OffersJoin(lexicon, offers, GlossaryOffers(lexicon, texts, term, index), entry);
        more := WithEntry(lexicon, more, entry);
      }
    }
  }

  lemma Regroup(a: seq<Entry>, b: seq<Entry>, c: seq<Entry>)
    ensures a + (b + c) == a + b + c
  {
  }

  /**
   * The inventory of the card. Terms named by the model come with the context that fitted their
   * request. Terms that only the glossary knows come with both neighbours, which may be too
   * large for any request; they are added only when the glossary answers them itself.
   */
  method CollectEntries(lexicon: Lexicon, texts: seq<string>, named: seq<seq<string>>, glossary: seq<string>)
      returns (entries: seq<Entry>)
    requires |named| == |texts| && forall i | 0 <= i < |texts| :: IsChunkText(texts[i])
    ensures Inventory(lexicon, entries)
    ensures entries == FromOffers(lexicon, AllNamedOffers(lexicon, texts, named, |texts|)
                                           + AllGlossaryOffers(lexicon, texts, glossary))
  {
    hide Bytes, Accepted, Neighbours, Context, IsChunkText, Inventory, NamedOffers, GlossaryOffers, FromOffers;
    entries := [];
    assert Inventory(lexicon, entries) by { NoEntries(lexicon); }
    assert entries == FromOffers(lexicon, []) by { NoOffers(lexicon); }
    for index := 0 to |texts|
      invariant Inventory(lexicon, entries)
      invariant entries == FromOffers(lexicon, AllNamedOffers(lexicon, texts, named, index))
    {
      ContextFits(texts, index);
      entries := CollectNamed(lexicon, texts[index], Context(texts, index), named[index], entries,
                              AllNamedOffers(lexicon, texts, named, index));
    }
    ghost var before := AllNamedOffers(lexicon, texts, named, |texts|);
    NothingMore(before);
    assert glossary[..0] == [];
    for k := 0 to |glossary|
      invariant Inventory(lexicon, entries)
      invariant entries == FromOffers(lexicon, before + AllGlossaryOffers(lexicon, texts, glossary[..k]))
    {
      assert glossary[..k + 1][..k] == glossary[..k];
      Regroup(before, AllGlossaryOffers(lexicon, texts, glossary[..k]),
              GlossaryOffers(lexicon, texts, glossary[k], |texts|));
      entries := CollectReviewed(lexicon, texts, glossary[k], entries,
                                 before + AllGlossaryOffers(lexicon, texts, glossary[..k]));
    }
    assert glossary[..|glossary|] == glossary;
  }

  /** Entries that a definition request is made for: of the first eight, those not reviewed. */
  function Unresolved(lexicon: Lexicon, entries: seq<Entry>): seq<Entry> {
    if entries == [] then []
    else
      var n := |entries| - 1;
      var before := Unresolved(lexicon, entries[..n]);
      if n >= MAX_GROUP_TERMS || Resolved(lexicon, entries[n]) then before else before + [entries[n]]
  }

  /** Of the first eight entries exactly those are asked for that the glossary does not answer. */
  lemma {:induction false} UnresolvedIff(lexicon: Lexicon, entries: seq<Entry>, entry: Entry)
    ensures entry in Unresolved(lexicon, entries)
       <==> exists k | 0 <= k < |entries| ::
              k < 8 && entries[k] == entry && !lexicon.reviewed(entry.term, entry.text, entry.context)
  {
    if entries != [] {
      var n := |entries| - 1;
      UnresolvedIff(lexicon, entries[..n], entry);
      assert forall k | 0 <= k < n :: entries[..n][k] == entries[k];
    }
  }

  /** Every unresolved entry can be asked for within the limits of size. */
  lemma {:induction false} DefinitionsAreAccepted(lexicon: Lexicon, entries: seq<Entry>)
    requires Inventory(lexicon, entries)
    ensures Inventory(lexicon, Unresolved(lexicon, entries))
    ensures forall entry | entry in Unresolved(lexicon, entries) ::
              && entry in entries && ContainsTerm(lexicon, entry.term, entry.text)
              && Accepted(entry.text, entry.context, [])
    ensures |Unresolved(lexicon, entries)| <= 8
    ensures |Unresolved(lexicon, entries)| <= |entries|
  {
    hide Accepted, Key, ContainsTerm, Resolved;
    if entries != [] {
      var n := |entries| - 1;
      DefinitionsAreAccepted(lexicon, entries[..n]);
      var before := Unresolved(lexicon, entries[..n]);
      assert Answerable(lexicon, entries[n]);
      forall i | 0 <= i < |before|
        ensures Key(lexicon, before[i].term) != Key(lexicon, entries[n].term)
      {
        assert before[i] in entries[..n];
      }
    }
  }

  /** One request of the definition phase: the terms that share a chunk and a context. */
  ghost predicate SameEvidence(batch: seq<Entry>) {
    forall k | 0 <= k < |batch| :: batch[k].text == batch[0].text && batch[k].context == batch[0].context
  }

  /** None of the entries shares its evidence. */
  ghost predicate Alone(entry: Entry, entries: seq<Entry>) {
    forall other | other in entries :: other.text != entry.text || other.context != entry.context
  }

  /** The first entry that shares the evidence of `first`, or the end of the list. */
  method FindPartner(first: Entry, entries: seq<Entry>) returns (k: nat)
    ensures k <= |entries|
    ensures k < |entries| ==> entries[k].text == first.text && entries[k].context == first.context
    ensures forall j | 0 <= j < k :: entries[j].text != first.text || entries[j].context != first.context
  {
    k := 0;
    while k < |entries| && !(entries[k].text == first.text && entries[k].context == first.context)
      invariant k <= |entries|
      invariant forall j | 0 <= j < k :: entries[j].text != first.text || entries[j].context != first.context
    {
      k := k + 1;
    }
  }

  lemma TakeOut(entries: seq<Entry>, k: nat)
    requires k < |entries|
    ensures multiset(entries) == multiset([entries[k]]) + multiset(entries[..k] + entries[k + 1..])
  {
    assert entries == entries[..k] + [entries[k]] + entries[k + 1..];
  }

  lemma TakeFirst(entries: seq<Entry>)
    requires entries != []
    ensures multiset(entries) == multiset([entries[0]]) + multiset(entries[1..])
  {
    TakeOut(entries, 0);
    assert entries[..0] + entries[1..] == entries[1..];
  }

  lemma TakeSecond(entries: seq<Entry>, k: nat)
    requires entries != [] && k < |entries[1..]|
    ensures
      var rest := entries[1..];
      multiset(entries) == multiset([entries[0]] + [rest[k]]) + multiset(rest[..k] + rest[k + 1..])
  {
    TakeFirst(entries);
    TakeOut(entries[1..], k);
  }

  /** One turn of the loop: the oldest entry, with one more that shares its evidence if there is any. */
  method NextBatch(lexicon: Lexicon, unresolved: seq<Entry>) returns (batch: seq<Entry>, rest: seq<Entry>)
    requires unresolved != []
    ensures multiset(unresolved) == multiset(batch) + multiset(rest) && |rest| < |unresolved|
    ensures 1 <= |batch| <= 2 && SameEvidence(batch)
    ensures batch[0] == unresolved[0]
    ensures |batch| == 1 ==> Alone(batch[0], rest)
    ensures forall other | Alone(other, unresolved) :: Alone(other, rest)
    ensures forall other | Alone(other, unresolved) :: Alone(other, batch)
    ensures DistinctKeys(lexicon, unresolved) ==> DistinctKeys(lexicon, batch) && DistinctKeys(lexicon, rest)
  {
    hide Key;
    var first := unresolved[0];
    batch, rest := [first], unresolved[1..];
    var k := FindPartner(first, rest);
    TakeFirst(unresolved);
    if k < |rest| {
      TakeSecond(unresolved, k);
      batch, rest := batch + [rest[k]], rest[..k] + rest[k + 1..];
    }
  }

  /** Every unresolved entry is asked for once, in requests of at most two terms with one evidence. */
  method DefinitionBatches(lexicon: Lexicon, entries: seq<Entry>) returns (batches: seq<seq<Entry>>)
    requires DistinctKeys(lexicon, entries)
    ensures multiset(Flatten(batches)) == multiset(entries)
    ensures forall b | 0 <= b < |batches| ::
              && 1 <= |batches[b]| <= 2
              && SameEvidence(batches[b]) && DistinctKeys(lexicon, batches[b])
    ensures forall a, b | 0 <= a < b < |batches| && |batches[a]| == 1 :: Alone(batches[a][0], batches[b])
  {
    hide Flatten, SameEvidence, DistinctKeys, Alone;
    FlattenNone<Entry>();
    batches := [];
    var unresolved := entries;
    while unresolved != []
      invariant multiset(Flatten(batches)) + multiset(unresolved) == multiset(entries)
      invariant DistinctKeys(lexicon, unresolved)
      invariant forall b | 0 <= b < |batches| ::
                  && 1 <= |batches[b]| <= 2
                  && SameEvidence(batches[b]) && DistinctKeys(lexicon, batches[b])
      invariant forall a | 0 <= a < |batches| && |batches[a]| == 1 :: Alone(batches[a][0], unresolved)
      invariant forall a, b | 0 <= a < b < |batches| && |batches[a]| == 1 :: Alone(batches[a][0], batches[b])
      decreases |unresolved|
    {
      var batch;
      batch, unresolved := NextBatch(lexicon, unresolved);
      FlattenSnoc(batches, batch);
      batches := batches + [batch];
    }
  }

  // What the receiver says to a definition request

  function TermsOf(batch: seq<Entry>): (terms: seq<string>)
    ensures |terms| == |batch|
  {
    seq(|batch|, i requires 0 <= i < |batch| => batch[i].term)
  }

  /** A request for one term. */
  predicate AcceptedDefinition(lexicon: Lexicon, text: string, context: seq<string>, term: string) {
    Accepted(text, context, []) && |term| <= TERM_CHARACTERS && SourceSurface(lexicon, term, text).Some?
  }

  /** A request for several: each is attested, and no two are the same but for case. */
  predicate AcceptedDefinitions(lexicon: Lexicon, text: string, context: seq<string>, terms: seq<string>) {
    && Accepted(text, context, []) && 1 <= |terms| <= MAX_TERMS
    && (forall i | 0 <= i < |terms| :: SourceSurface(lexicon, terms[i], text).Some?)
    && forall i, j | 0 <= i < j < |terms| ::
         Folded(lexicon.fold, SourceSurface(lexicon, terms[i], text).value)
         != Folded(lexicon.fold, SourceSurface(lexicon, terms[j], text).value)
  }

  predicate BatchAccepted(lexicon: Lexicon, batch: seq<Entry>)
    requires batch != []
  {
    if |batch| == 1 then AcceptedDefinition(lexicon, batch[0].text, batch[0].context, batch[0].term)
    else AcceptedDefinitions(lexicon, batch[0].text, batch[0].context, TermsOf(batch))
  }

  /**
   * A definition request is accepted exactly when it asks for two terms, or for one of at most
   * 160 characters: only the field for a single term is limited.
   */
  lemma DefinitionRequestIff(lexicon: Lexicon, batch: seq<Entry>)
    requires 1 <= |batch| <= 2 && SameEvidence(batch) && DistinctKeys(lexicon, batch)
    requires forall k | 0 <= k < |batch| ::
               ContainsTerm(lexicon, batch[k].term, batch[k].text) && Accepted(batch[k].text, batch[k].context, [])
    requires FoldsBlanks(lexicon) && Plain(lexicon, batch[0].text)
    ensures BatchAccepted(lexicon, batch) <==> |batch| == 2 || |batch[0].term| <= 160
  {
    hide Accepted, Key, ContainsTerm, Plain, SourceSurface, FoldsBlanks;
    var text := batch[0].text;
    forall k | 0 <= k < |batch|
      ensures SourceSurface(lexicon, batch[k].term, text).Some?
    {
      ContainedHasSurface(lexicon, batch[k].term, text);
    }
    if |batch| == 2 {
      var a, b := batch[0].term, batch[1].term;
      assert Key(lexicon, a) != Key(lexicon, b);
      if Folded(lexicon.fold, a) == Folded(lexicon.fold, b) {
        FoldedHaveOneKey(lexicon, a, b);
      }
    }
  }

  ghost predicate AllFound(lexicon: Lexicon, text: string, terms: seq<string>) {
    forall i | 0 <= i < |terms| :: SourceSurface(lexicon, terms[i], text).Some?
  }

  /** Two of the terms are the same but for case. */
  ghost predicate SomeTwice(lexicon: Lexicon, terms: seq<string>) {
    exists i, j | 0 <= i < j < |terms| :: Folded(lexicon.fold, terms[i]) == Folded(lexicon.fold, terms[j])
  }

  /** A request for several terms is accepted for one to four that are found, none of them twice, within the limits. */
  lemma DefinitionsAcceptedIff(lexicon: Lexicon, text: string, context: seq<string>, terms: seq<string>)
    ensures AcceptedDefinitions(lexicon, text, context, terms)
       <==> && Accepted(text, context, []) && 1 <= |terms| <= 4
            && AllFound(lexicon, text, terms) && !SomeTwice(lexicon, terms)
    ensures |terms| == 1 ==>
      (AcceptedDefinition(lexicon, text, context, terms[0])
       <==> Accepted(text, context, []) && |terms[0]| <= 160 && AllFound(lexicon, text, terms))
  {
    hide Accepted;
  }

  /** A surface is a stretch of the text. */
  lemma SurfaceIsInText(lexicon: Lexicon, term: string, text: string) returns (p: nat)
    requires SourceSurface(lexicon, term, text).Some?
    ensures p + |term| <= |text| && SourceSurface(lexicon, term, text).value == text[p..p + |term|]
  {
    p := Search(lexicon.fold, term, text, 0).value;
  }

  function LongTerm(): string {
    seq(161, _ => 'a')
  }

  /** A chunk that is one word of 161 letters: the sender finds the term, the receiver refuses it. */
  lemma LongTermIsRefused(lexicon: Lexicon)
    requires !lexicon.blank('a')
    ensures ContainsTerm(lexicon, LongTerm(), LongTerm()) && Accepted(LongTerm(), [], [])
    ensures !BatchAccepted(lexicon, [Entry(LongTerm(), LongTerm(), [])])
  {
    var term := LongTerm();
    AsciiBytes(term);
    assert !lexicon.blank(term[0]);
    hide Bytes;
    assert term[0..0 + |term|] == term;
    assert OccursAt(Identity(), term, term, 0);
    SearchFinds(Identity(), term, term, 0, 0);
  }

  // The synthesis request

  /** Whether the drafts are sent for synthesis, and as what text. */
  function GroupRequest(drafts: seq<string>): Option<string> {
    var text := Join(drafts);
    if |drafts| > 1 && Bytes(text) <= MAX_SYNTHESIS_INPUT_BYTES then Some(text) else None
  }

  /**
   * The one request that can break a limit: the byte guard admits up to 6200 bytes, the
   * receiver at most 4000 characters. It is accepted exactly when the drafts together have no
   * more than 4000 characters.
   */
  lemma GroupRequestIff(drafts: seq<string>)
    requires drafts != [] && drafts[0] != ""
    ensures GroupRequest(drafts)
         == if |drafts| > 1 && Bytes(Join(drafts)) <= 6200 then Some(Join(drafts)) else None
    ensures GroupRequest(drafts).Some? ==>
      (Accepted(GroupRequest(drafts).value, [], []) <==> |Join(drafts)| <= 4000)
  {
    hide Bytes;
    JoinNonEmpty(drafts);
  }

  function PlainDraft(): string {
    seq(2100, _ => 'a')
  }

  lemma TwoPlainDrafts()
    ensures |PlainDraft()| == 2100
    ensures Bytes(PlainDraft() + "\n\n" + PlainDraft()) == |PlainDraft() + "\n\n" + PlainDraft()| == 4202
  {
    AsciiBytes(PlainDraft() + "\n\n" + PlainDraft());
    hide Bytes;
  }

  lemma JoinOfTwo(a: string, b: string)
    ensures Join([a, b]) == a + "\n\n" + b
  {
    assert [a, b][..1] == [a];
  }

  /** Two drafts of ordinary ASCII prose, 2100 characters each, are sent and refused. */
  lemma LongDraftsAreRefused()
    ensures PlainDraft() != ""
    ensures GroupRequest([PlainDraft(), PlainDraft()]).Some?
    ensures !Accepted(GroupRequest([PlainDraft(), PlainDraft()]).value, [], [])
  {
    hide Bytes, PlainDraft, Join;
    TwoPlainDrafts();
    JoinOfTwo(PlainDraft(), PlainDraft());
    GroupRequestIff([PlainDraft(), PlainDraft()]);
  }
}
