/**
 * The course compiler (workers/gpu_agent/course_summary.py, `compile_course`): a course is
 * tiled by groups that are complete already and by fresh ones. Generated prose is arbitrary
 * nonempty text.
 */
module CourseCompiler {
  const MAX_FRESH_SEGMENTS: nat := 20

  datatype Term = Term(segmentIds: set<string>, pageIds: set<string>)

  /**
   * A group offered for reuse. `complete` says that it carries the contract "all_sources_v1",
   * a result object and a summary that is not blank.
   */
  datatype Offered = Offered(complete: bool, ids: seq<string>, pageIds: set<string>, terms: seq<Term>)

  /** One tile of the course: a group reused, or the segments `from`..`until` written afresh. */
  datatype Tile = Reused(group: Offered) | Fresh(from: nat, until: nat)

  predicate Distinct(ids: seq<string>) {
    forall i, j | 0 <= i < j < |ids| :: ids[i] != ids[j]
  }

  function Positions(ids: seq<string>): map<string, nat>
    requires Distinct(ids)
  {
    map i | 0 <= i < |ids| :: ids[i] := i
  }

  predicate TermsWithin(group: Offered) {
    forall k | 0 <= k < |group.terms| ::
      group.terms[k].segmentIds <= (set id | id in group.ids) && group.terms[k].pageIds <= group.pageIds
  }

  /** The group covers adjacent segments in order, and cites nothing unknown. */
  predicate Usable(group: Offered, positions: map<string, nat>, pages: set<string>) {
    && group.complete
    && group.ids != []
    && (forall k | 0 <= k < |group.ids| :: group.ids[k] in positions)
    && (forall k | 0 <= k < |group.ids| :: positions[group.ids[k]] == positions[group.ids[0]] + k)
    && group.pageIds <= pages
    && TermsWithin(group)
  }

  /** Every group kept for reuse stands at the place of its first segment. */
  ghost predicate Reusable(reusable: map<nat, Offered>, positions: map<string, nat>, pages: set<string>) {
    forall start | start in reusable ::
      Usable(reusable[start], positions, pages) && positions[reusable[start].ids[0]] == start
  }

  /** Where a fresh tile that starts at `from` ends: before a reusable group, or after twenty segments. */
  function FreshEnd(reusable: map<nat, Offered>, count: nat, from: nat, end: nat): (until: nat)
    requires from < end <= count
    ensures end <= until <= count
    decreases count - end
  {
    if end < count && end !in reusable && end - from < MAX_FRESH_SEGMENTS
    then FreshEnd(reusable, count, from, end + 1) else end
  }

  lemma {:induction false} FreshEndFits(reusable: map<nat, Offered>, count: nat, from: nat, end: nat)
    requires from < end <= count && end - from <= 20
    ensures
      var until := FreshEnd(reusable, count, from, end);
      && until - from <= 20
      && (forall p | end <= p < until :: p !in reusable)
      && (until == count || until in reusable || until - from == 20)
    decreases count - end
  {
    if end < count && end !in reusable && end - from < MAX_FRESH_SEGMENTS {
      FreshEndFits(reusable, count, from, end + 1);
    }
  }

  /** The tiles from `cursor` on. */
  function Tiles(reusable: map<nat, Offered>, count: nat, cursor: nat): seq<Tile>
    decreases count - cursor
  {
    if cursor >= count then []
    else if cursor in reusable && reusable[cursor].ids != [] then
      [Reused(reusable[cursor])] + Tiles(reusable, count, cursor + |reusable[cursor].ids|)
    else
      var until := FreshEnd(reusable, count, cursor, cursor + 1);
      [Fresh(cursor, until)] + Tiles(reusable, count, until)
  }

  function Evidence(tile: Tile, ids: seq<string>): seq<string> {
    match tile
    case Reused(group) => group.ids
    case Fresh(from, until) => if from <= until <= |ids| then ids[from..until] else []
  }

  function AllEvidence(tiles: seq<Tile>, ids: seq<string>): seq<string> {
    if tiles == [] then [] else Evidence(tiles[0], ids) + AllEvidence(tiles[1..], ids)
  }

  /** A usable group is a slice of the course. */
  lemma UsableIsSlice(group: Offered, ids: seq<string>, pages: set<string>)
    requires Distinct(ids) && Usable(group, Positions(ids), pages)
    ensures
      var start := Positions(ids)[group.ids[0]];
      start + |group.ids| <= |ids| && group.ids == ids[start..start + |group.ids|]
  {
    var positions := Positions(ids);
    var start := positions[group.ids[0]];
    forall k | 0 <= k < |group.ids|
      ensures start + k < |ids| && group.ids[k] == ids[start + k]
    {
      assert group.ids[k] in positions && positions[group.ids[k]] == start + k;
    }
    var last := |group.ids| - 1;
    assert group.ids[last] in positions && positions[group.ids[last]] == start + last;
  }

  ghost predicate StandsAt(group: seq<string>, ids: seq<string>, start: nat) {
    start + |group| <= |ids| && group == ids[start..start + |group|]
  }

  lemma SliceIsPlaced(group: seq<string>, ids: seq<string>, start: nat)
    requires Distinct(ids) && group != [] && StandsAt(group, ids, start)
    ensures forall k | 0 <= k < |group| :: group[k] in Positions(ids)
    ensures forall k | 0 <= k < |group| :: Positions(ids)[group[k]] == Positions(ids)[group[0]] + k
  {
    var positions := Positions(ids);
    forall k | 0 <= k < |group|
      ensures group[k] in positions && positions[group[k]] == start + k
    {
      assert group[k] == ids[start + k];
    }
  }

  /** The cited segments and pages of every term are the group's own. */
  ghost predicate CitesItself(group: Offered) {
    forall term | term in group.terms ::
      && (forall id | id in term.segmentIds :: id in group.ids)
      && (forall page | page in term.pageIds :: page in group.pageIds)
  }

  lemma TermsWithinIff(group: Offered)
    ensures TermsWithin(group) <==> CitesItself(group)
  {
    assert forall k | 0 <= k < |group.terms| :: group.terms[k] in group.terms;
  }

  /** Usable is what is complete, is a slice of the course, and cites nothing but itself and known pages. */
  lemma UsableIff(group: Offered, ids: seq<string>, pages: set<string>)
    requires Distinct(ids)
    ensures Usable(group, Positions(ids), pages)
       <==> && group.complete && group.ids != [] && (exists start: nat :: StandsAt(group.ids, ids, start))
            && (forall page | page in group.pageIds :: page in pages) && CitesItself(group)
  {
    TermsWithinIff(group);
    if Usable(group, Positions(ids), pages) {
      UsableIsSlice(group, ids, pages);
      assert StandsAt(group.ids, ids, Positions(ids)[group.ids[0]]);
    }
    hide Positions, TermsWithin, CitesItself;
    forall start: nat | group.ids != [] && StandsAt(group.ids, ids, start)
      ensures forall k | 0 <= k < |group.ids| :: group.ids[k] in Positions(ids)
      ensures forall k | 0 <= k < |group.ids| ::
                Positions(ids)[group.ids[k]] == Positions(ids)[group.ids[0]] + k
    {
      SliceIsPlaced(group.ids, ids, start);
    }
  }

  lemma KeptIsSlice(reusable: map<nat, Offered>, ids: seq<string>, pages: set<string>, cursor: nat)
    requires Distinct(ids) && Reusable(reusable, Positions(ids), pages) && cursor in reusable
    ensures reusable[cursor].ids != [] && cursor + |reusable[cursor].ids| <= |ids|
    ensures reusable[cursor].ids == ids[cursor..cursor + |reusable[cursor].ids|]
  {
    UsableIsSlice(reusable[cursor], ids, pages);
  }

  lemma NoEvidence(ids: seq<string>)
    ensures AllEvidence([], ids) == []
  {
  }

  lemma EvidenceCons(tile: Tile, rest: seq<Tile>, ids: seq<string>)
    ensures AllEvidence([tile] + rest, ids) == Evidence(tile, ids) + AllEvidence(rest, ids)
  {
    assert ([tile] + rest)[1..] == rest;
  }

  /**
   * Whatever groups are offered, overlapping, repeated or broken, the tiles name every segment
   * once, in order: the check that follows can never fail.
   */
  lemma {:induction false} TilesCover(ids: seq<string>, reusable: map<nat, Offered>, pages: set<string>, cursor: nat)
    requires Distinct(ids) && Reusable(reusable, Positions(ids), pages) && cursor <= |ids|
    ensures AllEvidence(Tiles(reusable, |ids|, cursor), ids) == ids[cursor..]
    decreases |ids| - cursor
  {
    hide Distinct, Usable, Positions, Reusable, AllEvidence, FreshEnd;
    if cursor == |ids| {
      NoEvidence(ids);
    } else if cursor in reusable {
      KeptIsSlice(reusable, ids, pages, cursor);
      var next := cursor + |reusable[cursor].ids|;
      TilesCover(ids, reusable, pages, next);
      EvidenceCons(Reused(reusable[cursor]), Tiles(reusable, |ids|, next), ids);
      assert ids[cursor..] == ids[cursor..next] + ids[next..];
    } else {
      var next := FreshEnd(reusable, |ids|, cursor, cursor + 1);
      TilesCover(ids, reusable, pages, next);
      EvidenceCons(Fresh(cursor, next), Tiles(reusable, |ids|, next), ids);
      assert ids[cursor..] == ids[cursor..next] + ids[next..];
    }
  }

  lemma EvidenceOfPrefix(tiles: seq<Tile>, ids: seq<string>, i: nat)
    requires 0 < i <= |tiles|
    ensures |AllEvidence(tiles[..i], ids)| == |Evidence(tiles[0], ids)| + |AllEvidence(tiles[1..][..i - 1], ids)|
  {
    assert tiles[..i] == [tiles[0]] + tiles[1..][..i - 1];
    EvidenceCons(tiles[0], tiles[1..][..i - 1], ids);
  }

  /** The tile takes what stands at its place: the kept group, or up to twenty segments that end before one. */
  ghost predicate Takes(tile: Tile, reusable: map<nat, Offered>, count: nat, at: nat) {
    if at in reusable then tile == Reused(reusable[at])
    else
      && tile.Fresh? && tile.from == at < tile.until <= count && tile.until - at <= 20
      && (forall p | at < p < tile.until :: p !in reusable)
      && (tile.until == count || tile.until in reusable || tile.until - at == 20)
  }

  lemma FirstTile(ids: seq<string>, reusable: map<nat, Offered>, pages: set<string>, cursor: nat)
    requires Distinct(ids) && Reusable(reusable, Positions(ids), pages) && cursor < |ids|
    ensures
      var tiles := Tiles(reusable, |ids|, cursor);
      && tiles != [] && Takes(tiles[0], reusable, |ids|, cursor)
      && var next := cursor + |Evidence(tiles[0], ids)|;
      && cursor < next <= |ids| && tiles[1..] == Tiles(reusable, |ids|, next)
  {
    hide Distinct, Usable, Positions, Reusable, FreshEnd;
    if cursor in reusable {
      KeptIsSlice(reusable, ids, pages, cursor);
    } else {
      FreshEndFits(reusable, |ids|, cursor, cursor + 1);
    }
  }

  lemma NoTiles(reusable: map<nat, Offered>, count: nat, cursor: nat)
    requires cursor >= count
    ensures Tiles(reusable, count, cursor) == []
  {
  }

  /** Every tile takes what stands at its place, which is where the evidence of the earlier ones ends. */
  lemma {:induction false} TileIs(ids: seq<string>, reusable: map<nat, Offered>, pages: set<string>,
                                 cursor: nat, i: nat)
    requires Distinct(ids) && Reusable(reusable, Positions(ids), pages) && cursor <= |ids|
    requires i < |Tiles(reusable, |ids|, cursor)|
    ensures
      var tiles := Tiles(reusable, |ids|, cursor);
      var at := cursor + |AllEvidence(tiles[..i], ids)|;
      at < |ids| && Takes(tiles[i], reusable, |ids|, at)
    decreases |ids| - cursor
  {
    hide *;
    if cursor == |ids| {
      NoTiles(reusable, |ids|, cursor);
    } else {
      FirstTile(ids, reusable, pages, cursor);
      var tiles := Tiles(reusable, |ids|, cursor);
      if i == 0 {
        assert tiles[..i] == [];
        NoEvidence(ids);
      } else {
        TileIs(ids, reusable, pages, cursor + |Evidence(tiles[0], ids)|, i - 1);
        EvidenceOfPrefix(tiles, ids, i);
      }
    }
  }

  /** Where a usable group begins. */
  function Place(group: Offered, positions: map<string, nat>): nat {
    if group.ids != [] && group.ids[0] in positions then positions[group.ids[0]] else 0
  }

  /** A usable group among the first `count` with no later one of them at its place. */
  ghost predicate StandsLast(offered: seq<Offered>, count: nat, k: nat, positions: map<string, nat>, pages: set<string>)
    requires k < count <= |offered|
  {
    && Usable(offered[k], positions, pages)
    && forall j | k < j < count && Usable(offered[j], positions, pages) ::
         Place(offered[j], positions) != Place(offered[k], positions)
  }

  ghost predicate IsKept(group: Offered, offered: seq<Offered>, count: nat,
                         positions: map<string, nat>, pages: set<string>)
    requires count <= |offered|
  {
    exists k | 0 <= k < count :: StandsLast(offered, count, k, positions, pages) && group == offered[k]
  }

  /** What is kept of the first `count` groups: for each place the last usable one that begins there. */
  ghost predicate Kept(reusable: map<nat, Offered>, offered: seq<Offered>, count: nat,
                       positions: map<string, nat>, pages: set<string>)
    requires count <= |offered|
  {
    && (forall k | 0 <= k < count && StandsLast(offered, count, k, positions, pages) ::
          Place(offered[k], positions) in reusable && reusable[Place(offered[k], positions)] == offered[k])
    && (forall start | start in reusable :: IsKept(reusable[start], offered, count, positions, pages))
  }

  lemma StandsLastStep(offered: seq<Offered>, i: nat, k: nat, positions: map<string, nat>, pages: set<string>)
    requires k < i < |offered|
    ensures StandsLast(offered, i + 1, k, positions, pages)
       <==> StandsLast(offered, i, k, positions, pages)
            && (Usable(offered[i], positions, pages) ==> Place(offered[i], positions) != Place(offered[k], positions))
  {
    hide Usable, Place;
  }

  lemma KeepsReusable(reusable: map<nat, Offered>, group: Offered, positions: map<string, nat>, pages: set<string>)
    requires Reusable(reusable, positions, pages)
    ensures Usable(group, positions, pages) ==> Reusable(reusable[Place(group, positions) := group], positions, pages)
    ensures forall start | start in reusable :: Place(reusable[start], positions) == start
  {
    hide TermsWithin;
  }

  /** A group that is not usable changes nothing. */
  lemma KeptOther(reusable: map<nat, Offered>, offered: seq<Offered>, i: nat,
                  positions: map<string, nat>, pages: set<string>)
    requires i < |offered| && Kept(reusable, offered, i, positions, pages)
    requires !Usable(offered[i], positions, pages)
    ensures Kept(reusable, offered, i + 1, positions, pages)
  {
    hide Usable, Place;
    forall k: nat | k < i
      ensures StandsLast(offered, i + 1, k, positions, pages) <==> StandsLast(offered, i, k, positions, pages)
    {
      StandsLastStep(offered, i, k, positions, pages);
    }
  }

  /** A usable group replaces the one at its place. */
  lemma KeptUsable(reusable: map<nat, Offered>, offered: seq<Offered>, i: nat,
                   positions: map<string, nat>, pages: set<string>)
    requires i < |offered| && Kept(reusable, offered, i, positions, pages)
    requires Usable(offered[i], positions, pages)
    requires forall start | start in reusable :: Place(reusable[start], positions) == start
    ensures Kept(reusable[Place(offered[i], positions) := offered[i]], offered, i + 1, positions, pages)
  {
    hide Usable, Place;
    var place := Place(offered[i], positions);
    var next := reusable[place := offered[i]];
    assert StandsLast(offered, i + 1, i, positions, pages);
    hide StandsLast;
    forall k: nat | k < i
      ensures StandsLast(offered, i + 1, k, positions, pages)
         <==> StandsLast(offered, i, k, positions, pages) && place != Place(offered[k], positions)
    {
      StandsLastStep(offered, i, k, positions, pages);
    }
    forall start | start in next
      ensures IsKept(next[start], offered, i + 1, positions, pages)
    {
      if start == place {
        assert StandsLast(offered, i + 1, i, positions, pages);
      } else {
        assert IsKept(reusable[start], offered, i, positions, pages);
        var k :| 0 <= k < i && StandsLast(offered, i, k, positions, pages) && reusable[start] == offered[k];
        assert StandsLast(offered, i + 1, k, positions, pages);
      }
    }
  }

  lemma KeepStep(reusable: map<nat, Offered>, offered: seq<Offered>, i: nat,
                 positions: map<string, nat>, pages: set<string>)
    requires i < |offered| && Kept(reusable, offered, i, positions, pages) && Reusable(reusable, positions, pages)
    ensures
      var next := if Usable(offered[i], positions, pages)
                  then reusable[Place(offered[i], positions) := offered[i]] else reusable;
      Kept(next, offered, i + 1, positions, pages) && Reusable(next, positions, pages)
  {
    KeepsReusable(reusable, offered[i], positions, pages);
    hide Usable, Place, Reusable;
    if Usable(offered[i], positions, pages) {
      KeptUsable(reusable, offered, i, positions, pages);
    } else {
      KeptOther(reusable, offered, i, positions, pages);
    }
  }

  lemma NothingKept(offered: seq<Offered>, positions: map<string, nat>, pages: set<string>)
    ensures Kept(map[], offered, 0, positions, pages) && Reusable(map[], positions, pages)
  {
  }

  lemma UsableHasPlace(group: Offered, positions: map<string, nat>, pages: set<string>)
    requires Usable(group, positions, pages)
    ensures group.ids != [] && group.ids[0] in positions && positions[group.ids[0]] == Place(group, positions)
  {
  }

  /** The loop over the offered groups: a later usable group replaces an earlier one at its place. */
  method KeepUsable(ids: seq<string>, pages: set<string>, offered: seq<Offered>) returns (reusable: map<nat, Offered>)
    requires Distinct(ids)
    ensures Reusable(reusable, Positions(ids), pages)
    ensures Kept(reusable, offered, |offered|, Positions(ids), pages)
  {
    hide Positions, Usable, Kept, Reusable, Place;
    reusable := map[];
    var positions := Positions(ids);
    NothingKept(offered, positions, pages);
    for i := 0 to |offered|
      invariant Reusable(reusable, positions, pages) && Kept(reusable, offered, i, positions, pages)
    {
      KeepStep(reusable, offered, i, positions, pages);
      if Usable(offered[i], positions, pages) {
        UsableHasPlace(offered[i], positions, pages);
        reusable := reusable[positions[offered[i].ids[0]] := offered[i]];
      }
    }
  }

  lemma TilesTurn(reusable: map<nat, Offered>, count: nat, cursor: nat, done: seq<Tile>)
    requires cursor < count && (cursor in reusable ==> reusable[cursor].ids != [])
    ensures
      var tile := if cursor in reusable then Reused(reusable[cursor])
                  else Fresh(cursor, FreshEnd(reusable, count, cursor, cursor + 1));
      var next := if cursor in reusable then cursor + |reusable[cursor].ids| else tile.until;
      done + Tiles(reusable, count, cursor) == done + [tile] + Tiles(reusable, count, next)
  {
    hide FreshEnd;
  }

  /** The inner loop: how far the segments without a reusable group reach. */
  method FindFreshEnd(reusable: map<nat, Offered>, count: nat, from: nat) returns (end: nat)
    requires from < count
    ensures end == FreshEnd(reusable, count, from, from + 1)
  {
    end := from + 1;
    while end < count && end !in reusable && end - from < MAX_FRESH_SEGMENTS
      invariant from < end <= count
      invariant FreshEnd(reusable, count, from, from + 1) == FreshEnd(reusable, count, from, end)
    {
      end := end + 1;
    }
  }

  /** The tiling loop of `compile_course`. Its result passes the coverage check. */
  method TileCourse(ids: seq<string>, pages: set<string>, reusable: map<nat, Offered>) returns (tiles: seq<Tile>)
    requires Distinct(ids) && Reusable(reusable, Positions(ids), pages)
    ensures tiles == Tiles(reusable, |ids|, 0)
    ensures AllEvidence(tiles, ids) == ids
  {
    hide Distinct, Usable, Positions, Evidence, AllEvidence, FreshEnd, Reusable, Tiles;
    tiles := [];
    var cursor := 0;
    while cursor < |ids|
      invariant cursor <= |ids|
      invariant Tiles(reusable, |ids|, 0) == tiles + Tiles(reusable, |ids|, cursor)
    {
      if cursor in reusable {
        KeptIsSlice(reusable, ids, pages, cursor);
        TilesTurn(reusable, |ids|, cursor, tiles);
        tiles := tiles + [Reused(reusable[cursor])];
        cursor := cursor + |reusable[cursor].ids|;
      } else {
        var end := FindFreshEnd(reusable, |ids|, cursor);
        TilesTurn(reusable, |ids|, cursor, tiles);
        tiles := tiles + [Fresh(cursor, end)];
        cursor := end;
      }
    }
    NoTiles(reusable, |ids|, cursor);
    TilesCover(ids, reusable, pages, 0);
    assert ids[0..] == ids;
  }
}
