/**
 * The Range header of a playback request (crates/core-server/src/course_content.rs,
 * `playback_range`; section 14.1.2 of RFC 9110 gives the three forms).
 */
module ByteRange {
  import opened Decimals
  import opened Sequences

  const MAX_PLAYBACK_RANGE: nat := 4 * 1024 * 1024

  /** The bytes `first`..`last`, both included; `partial` says that the reply is marked so. */
  datatype Range = Range(first: nat, last: nat, partial: bool)

  datatype RangeError = Invalid | Several

  // The header

  /** What stands before and behind the first dash. */
  function SplitOnce(s: string): Option<(string, string)> {
    if s == [] then None
    else if s[0] == '-' then Some(("", s[1..]))
    else
      match SplitOnce(s[1..])
      case None => None
      case Some((before, behind)) => Some(([s[0]] + before, behind))
  }

  const UNIT: string := "bytes="

  function Least(a: nat, b: nat): nat {
    if a < b then a else b
  }

  function Bounded(start: nat, end: nat, total: nat): Result<Range, RangeError>
    requires total > 0
  {
    if start >= total || end < start then Err(Invalid)
    else Ok(Range(start, Least(Least(end, total - 1), start + MAX_PLAYBACK_RANGE - 1), true))
  }

  function Selected(first: string, last: string, total: nat): Result<Range, RangeError>
    requires total > 0
  {
    if first == "" then
      match ParseU64(last)
      case None => Err(Invalid)
      case Some(count) =>
        if count == 0 then Err(Invalid)
        else Bounded(if count < total then total - count else 0, total - 1, total)
    else
      match (ParseU64(first), if last == "" then Some(total - 1) else ParseU64(last))
      case (Some(start), Some(end)) => Bounded(start, end, total)
      case _ => Err(Invalid)
  }

  function PlaybackRange(request: Option<string>, total: nat): Result<Range, RangeError>
    requires total > 0
  {
    match request
    case None =>
      Ok(Range(0, (if total < MAX_PLAYBACK_RANGE then total else MAX_PLAYBACK_RANGE) - 1, total > MAX_PLAYBACK_RANGE))
    case Some(value) =>
      if !(UNIT <= value) then Err(Invalid)
      else
        var part := value[|UNIT|..];
        match SplitOnce(part)
        case None => Err(Invalid)
        case Some((first, last)) => if ',' in part then Err(Several) else Selected(first, last, total)
  }

  /** Every accepted range is nonempty, inside the file and at most four MiB. */
  lemma RangeIsBounded(request: Option<string>, total: nat)
    requires total > 0 && PlaybackRange(request, total).Ok?
    ensures
      var range := PlaybackRange(request, total).value;
      range.first <= range.last < total && range.last - range.first < 4_194_304
  {
  }

  /** Without a header the file is sent from its beginning, and marked as a part when it is cut at four MiB. */
  lemma WithoutHeader(total: nat)
    requires total > 0
    ensures PlaybackRange(None, total).Ok?
    ensures
      var range := PlaybackRange(None, total).value;
      && range.first == 0
      && (total <= 4_194_304 ==> range.last == total - 1 && !range.partial)
      && (total > 4_194_304 ==> range.last == 4_194_303 && range.partial)
  {
  }

  lemma {:induction false} SplitsIff(s: string)
    ensures SplitOnce(s).Some? <==> '-' in s
    ensures SplitOnce(s).Some? ==>
      var (before, behind) := SplitOnce(s).value;
      s == before + "-" + behind && '-' !in before
  {
    if s != [] && s[0] != '-' {
      SplitsIff(s[1..]);
      assert s == [s[0]] + s[1..];
    }
  }

  /** A number of the header: digits, with an optional plus sign, below 2 to the 64. */
  ghost predicate IsNumber(s: string) {
    ParseU64(s).Some?
  }

  /** A header is accepted only in one of the three forms; several ranges are named as such. */
  lemma OnlyOneRange(value: string, total: nat)
    requires total > 0
    ensures PlaybackRange(Some(value), total) == Err(Several)
       <==> UNIT <= value && '-' in value[|UNIT|..] && ',' in value[|UNIT|..]
    ensures PlaybackRange(Some(value), total).Ok? ==>
      && UNIT <= value && SplitOnce(value[|UNIT|..]).Some?
      && var (first, last) := SplitOnce(value[|UNIT|..]).value;
      && value == "bytes=" + (first + "-" + last) && ',' !in value[|UNIT|..]
      && (first == "" || IsNumber(first)) && (last == "" || IsNumber(last)) && (first != "" || last != "")
      && PlaybackRange(Some(value), total).value.partial
  {
    if UNIT <= value {
      SplitsIff(value[|UNIT|..]);
    }
  }

  lemma {:induction false} SplitsAtDash(before: string, behind: string)
    requires '-' !in before
    ensures SplitOnce(before + "-" + behind) == Some((before, behind))
  {
    var s := before + "-" + behind;
    if before == "" {
      assert s[1..] == behind;
    } else {
      assert s[1..] == before[1..] + "-" + behind;
      SplitsAtDash(before[1..], behind);
      assert before == [before[0]] + before[1..];
    }
  }

  /** A header made of two strings of digits is read back as those two strings. */
  lemma HeaderIsRead(first: string, last: string, total: nat)
    requires total > 0
    requires (forall c | c in first :: IsDigit(c)) && (forall c | c in last :: IsDigit(c))
    ensures PlaybackRange(Some("bytes=" + (first + "-" + last)), total) == Selected(first, last, total)
  {
    var value := "bytes=" + (first + "-" + last);
    assert value[|UNIT|..] == first + "-" + last;
    SplitsAtDash(first, last);
  }

  /**
   * The form `first-last`: satisfiable exactly when it starts inside the file and does not run
   * backwards. A last position that does not fit into 64 bits is refused, too.
   */
  lemma FirstAndLast(first: nat, last: nat, total: nat)
    requires 0 < total <= U64_LIMIT
    ensures PlaybackRange(Some("bytes=" + (Decimal(first) + "-" + Decimal(last))), total)
         == if first < total && first <= last < U64_LIMIT
            then Ok(Range(first, Least(Least(last, total - 1), first + 4_194_304 - 1), true))
            else Err(Invalid)
  {
    DecimalDigits(first);
    DecimalDigits(last);
    HeaderIsRead(Decimal(first), Decimal(last), total);
    DecimalRoundTrip(first);
    DecimalRoundTrip(last);
  }

  /** The form `first-`: to the end of the file, four MiB at most. */
  lemma FromFirst(first: nat, total: nat)
    requires 0 < total <= U64_LIMIT
    ensures PlaybackRange(Some("bytes=" + (Decimal(first) + "-" + "")), total)
         == if first < total then Ok(Range(first, Least(total - 1, first + 4_194_304 - 1), true))
            else Err(Invalid)
  {
    DecimalDigits(first);
    HeaderIsRead(Decimal(first), "", total);
    DecimalRoundTrip(first);
  }

  /** The form `-count`: the last `count` bytes, of which the first four MiB are sent. */
  lemma LastBytes(count: nat, total: nat)
    requires 0 < total <= U64_LIMIT
    ensures PlaybackRange(Some("bytes=" + ("" + "-" + Decimal(count))), total)
         == if 0 < count < U64_LIMIT
            then
              var first := if count < total then total - count else 0;
              Ok(Range(first, Least(total - 1, first + 4_194_304 - 1), true))
            else Err(Invalid)
  {
    DecimalDigits(count);
    HeaderIsRead("", Decimal(count), total);
    DecimalRoundTrip(count);
  }

  /** What repeated requests fetch, each from where the last reply ended. */
  function Fetched<T>(file: seq<T>, from: nat): seq<T>
    requires from <= |file|
    decreases |file| - from
  {
    if from == |file| then []
    else
      match PlaybackRange(Some("bytes=" + (Decimal(from) + "-" + "")), |file|)
      case Ok(range) =>
        if from <= range.last < |file| then file[from..range.last + 1] + Fetched(file, range.last + 1) else []
      case Err(_) => []
  }

  /** They reassemble the file. */
  lemma {:induction false} RangesReassemble<T>(file: seq<T>, from: nat)
    requires from <= |file| <= U64_LIMIT
    ensures Fetched(file, from) == file[from..]
    decreases |file| - from
  {
    if from < |file| {
      FromFirst(from, |file|);
      var next := Least(|file| - 1, from + 4_194_304 - 1) + 1;
      RangesReassemble(file, next);
      assert file[from..] == file[from..next] + file[next..];
    }
  }
}
