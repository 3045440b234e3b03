/**
 * The intermediate tables of the loops inside `ObjectTracker.update`
 * (tracker.py), and how one more iteration extends them.  The class methods
 * in tracker.dfy keep their fields equal to these values.
 */
module LoopSteps {
  import opened Wrappers
  import opened Boxes
  import opened Tracks
  import opened Association
  import opened Table

  // ---------------------------------------------------------------------
  // Step 1: predict every track
  // ---------------------------------------------------------------------

  /** The table after the tracks in `done` have been predicted. */
  function PredictSome(m: map<int, Track>, cfg: Config, done: set<int>): (r: map<int, Track>)
    ensures r.Keys == m.Keys
  {
    map id | id in m :: if id in done then PredictTrack(m[id], cfg) else m[id]
  }

  lemma {:induction false} PredictOneMore(m: map<int, Track>, cfg: Config, done: set<int>, id: int)
    requires id in m && id !in done
    ensures PredictSome(m, cfg, done)[id := PredictTrack(PredictSome(m, cfg, done)[id], cfg)] == PredictSome(m, cfg, done + {id})
  {
  }

  lemma {:induction false} PredictAllDone(m: map<int, Track>, cfg: Config)
    ensures PredictSome(m, cfg, m.Keys) == PredictAll(m, cfg)
  {
  }

  /** The table after the prediction loop has visited `ids`, in that order. */
  function PredictEach(m: map<int, Track>, cfg: Config, ids: seq<int>): (r: map<int, Track>)
    ensures r.Keys == m.Keys
  {
    if ids == [] then m
    else
      var r := PredictEach(m, cfg, ids[..|ids| - 1]);
      var id := ids[|ids| - 1];
      if id in r then r[id := PredictTrack(r[id], cfg)] else r
  }

  /** One more iteration of the prediction loop predicts the next visited track. */
  lemma {:induction false} PredictEachNext(m: map<int, Track>, cfg: Config, ids: seq<int>, k: int)
    requires 0 <= k < |ids| && ids[k] in m
    ensures var r := PredictEach(m, cfg, ids[..k]);
      PredictEach(m, cfg, ids[..k + 1]) == r[ids[k] := PredictTrack(r[ids[k]], cfg)]
  {
    assert ids[..k + 1][..k] == ids[..k];
  }

  /** Visiting distinct ids one by one predicts exactly the visited tracks. */
  lemma {:induction false} PredictEachSome(m: map<int, Track>, cfg: Config, ids: seq<int>)
    requires Distinct(ids)
    ensures PredictEach(m, cfg, ids) == PredictSome(m, cfg, Elements(ids))
  {
    if ids != [] {
      var n := |ids| - 1;
      var id := ids[n];
      assert Distinct(ids[..n]);
      PredictEachSome(m, cfg, ids[..n]);
      assert Elements(ids) == Elements(ids[..n]) + {id} by {
        assert ids == ids[..n] + [id];
      }
      if id in m {
        assert id !in Elements(ids[..n]);
        PredictOneMore(m, cfg, Elements(ids[..n]), id);
      } else {
        assert PredictSome(m, cfg, Elements(ids)) == PredictSome(m, cfg, Elements(ids[..n]));
      }
    }
  }

  /** Visiting every id of the table, in ascending order, predicts the whole table. */
  lemma {:induction false} PredictEachAll(m: map<int, Track>, cfg: Config)
    ensures PredictEach(m, cfg, SortedIds(m.Keys)) == PredictAll(m, cfg)
  {
    var order := SortedIds(m.Keys);
    SortedIdsIncreasing(m.Keys);
    assert Distinct(order);
    PredictEachSome(m, cfg, order);
    assert Elements(order) == m.Keys;
    PredictAllDone(m, cfg);
  }

  // ---------------------------------------------------------------------
  // Step 3: apply the matches of detections 0 .. d-1
  // ---------------------------------------------------------------------

  /** The table after the matches of detections below `d` have been applied. */
  ghost function MatchesBefore(m: map<int, Track>, cfg: Config, boxes: seq<Box>, frame: int, assign: map<int, int>, d: int)
    : (r: map<int, Track>)
    requires WellFormedAssignment(assign, |boxes|, m.Keys)
    ensures r.Keys == m.Keys
  {
    map id | id in m ::
      if id in TakenBefore(assign, d) then MatchTrack(m[id], boxes[DetOf(assign, id)], frame, cfg) else m[id]
  }

  lemma {:induction false} MatchesNone(m: map<int, Track>, cfg: Config, boxes: seq<Box>, frame: int, assign: map<int, int>)
    requires WellFormedAssignment(assign, |boxes|, m.Keys)
    ensures MatchesBefore(m, cfg, boxes, frame, assign, 0) == m
  {
    assert WellFormedAssignment(assign, |boxes|, m.Keys);
    assert TakenBefore(assign, 0) == {};
  }

  /** Detection `d` takes its track, which no earlier detection took. */
  lemma {:induction false} MatchOneMore(m: map<int, Track>, cfg: Config, boxes: seq<Box>, frame: int, assign: map<int, int>, d: int)
    requires WellFormedAssignment(assign, |boxes|, m.Keys)
    ensures d in assign ==>
      && assign[d] !in TakenBefore(assign, d)
      && MatchesBefore(m, cfg, boxes, frame, assign, d + 1) ==
           MatchesBefore(m, cfg, boxes, frame, assign, d)[assign[d] :=
             MatchTrack(MatchesBefore(m, cfg, boxes, frame, assign, d)[assign[d]], boxes[d], frame, cfg)]
    ensures d !in assign ==>
      MatchesBefore(m, cfg, boxes, frame, assign, d + 1) == MatchesBefore(m, cfg, boxes, frame, assign, d)
  {
    TakenBeforeNext(assign, d);
    if d in assign {
      DetOfInjective(assign, |boxes|, m.Keys, d);
      forall e | e in assign && e < d
        ensures assign[e] != assign[d]
      {
      }
    }
  }

  lemma {:induction false} MatchesAllDone(m: map<int, Track>, cfg: Config, boxes: seq<Box>, frame: int, assign: map<int, int>)
    requires WellFormedAssignment(assign, |boxes|, m.Keys)
    ensures TakenBefore(assign, |boxes|) == MatchedIds(assign)
    ensures MatchesBefore(m, cfg, boxes, frame, assign, |boxes|) == ApplyMatches(m, cfg, boxes, frame, assign)
  {
    TakenBeforeAll(assign, |boxes|);
  }

  // ---------------------------------------------------------------------
  // Step 4: coast the unmatched tracks among `done`
  // ---------------------------------------------------------------------

  /** The table after the unmatched tracks in `done` have coasted. */
  function CoastSome(m: map<int, Track>, cfg: Config, frame: int, matched: set<int>, done: set<int>): (r: map<int, Track>)
    ensures r.Keys == m.Keys
  {
    map id | id in m :: if id in done && id !in matched then CoastTrack(m[id], frame, cfg) else m[id]
  }

  lemma {:induction false} CoastNone(m: map<int, Track>, cfg: Config, frame: int, matched: set<int>)
    ensures CoastSome(m, cfg, frame, matched, {}) == m
  {
  }

  lemma {:induction false} CoastOneMore(m: map<int, Track>, cfg: Config, frame: int, matched: set<int>, done: set<int>, id: int)
    requires id in m && id !in done
    ensures CoastSome(m, cfg, frame, matched, done)[id] == m[id]
    ensures id !in matched ==>
      CoastSome(m, cfg, frame, matched, done)[id := CoastTrack(m[id], frame, cfg)] == CoastSome(m, cfg, frame, matched, done + {id})
    ensures id in matched ==>
      CoastSome(m, cfg, frame, matched, done) == CoastSome(m, cfg, frame, matched, done + {id})
  {
  }

  lemma {:induction false} CoastAllDone(m: map<int, Track>, cfg: Config, frame: int, matched: set<int>)
    ensures CoastSome(m, cfg, frame, matched, m.Keys) == ApplyCoasting(m, cfg, frame, matched)
  {
  }

  /** Iteration `k` of the ageing loop over the ids in ascending order. */
  lemma {:induction false} CoastAt(m: map<int, Track>, cfg: Config, frame: int, matched: set<int>, order: seq<int>, k: int)
    requires order == SortedIds(m.Keys) && 0 <= k < |order|
    ensures order[k] in m
    ensures CoastSome(m, cfg, frame, matched, Elements(order[..k]))[order[k]] == m[order[k]]
    ensures order[k] !in matched ==>
      CoastSome(m, cfg, frame, matched, Elements(order[..k]))[order[k] := CoastTrack(m[order[k]], frame, cfg)]
        == CoastSome(m, cfg, frame, matched, Elements(order[..k + 1]))
    ensures order[k] in matched ==>
      CoastSome(m, cfg, frame, matched, Elements(order[..k])) == CoastSome(m, cfg, frame, matched, Elements(order[..k + 1]))
  {
    SortedIdsIncreasing(m.Keys);
    PrefixGrows(order, k);
    CoastOneMore(m, cfg, frame, matched, Elements(order[..k]), order[k]);
  }

  /** After the last iteration, every unmatched track has coasted. */
  lemma {:induction false} CoastEnd(m: map<int, Track>, cfg: Config, frame: int, matched: set<int>, order: seq<int>)
    requires order == SortedIds(m.Keys)
    ensures order[..|order|] == order
    ensures CoastSome(m, cfg, frame, matched, Elements(order[..|order|])) == ApplyCoasting(m, cfg, frame, matched)
  {
    PrefixAll(order);
    CoastAllDone(m, cfg, frame, matched);
  }

  /** The coasted table at an unmatched id. */
  lemma {:induction false} CoastedAt(m: map<int, Track>, cfg: Config, frame: int, matched: set<int>, id: int)
    requires id in m && id !in matched
    ensures ApplyCoasting(m, cfg, frame, matched)[id] == CoastTrack(m[id], frame, cfg)
  {
  }

  /** One more id visited by the ageing loop extends `to_finish` as the loop does. */
  lemma {:induction false} ExpiringOneMore(ids: seq<int>, k: int, upd: map<int, Track>, matched: set<int>, maxMissed: int)
    requires 0 <= k < |ids|
    ensures Expiring(ids[..k + 1], upd, matched, maxMissed) ==
      Expiring(ids[..k], upd, matched, maxMissed)
        + (if ids[k] !in matched && ids[k] in upd && upd[ids[k]].missed > maxMissed then [ids[k]] else [])
  {
    assert ids[..k + 1][..k] == ids[..k];
  }

  // ---------------------------------------------------------------------
  // Archiving and spawning
  // ---------------------------------------------------------------------

  lemma {:induction false} RemoveOneMore(m: map<int, Track>, s: seq<int>, id: int)
    ensures (m - Elements(s)) - {id} == m - Elements(s + [id])
  {
    assert Elements(s + [id]) == Elements(s) + {id};
  }

  lemma {:induction false} CollectOneMore(m: map<int, Track>, s: seq<int>, id: int)
    requires (forall k :: 0 <= k < |s| ==> s[k] in m) && id in m
    ensures Collect(m, s + [id]) == Collect(m, s) + [m[id]]
  {
  }

  /** The tracks the spawn loop has started after visiting detections 0 .. d-1. */
  function SpawnedBefore(nextId: int, boxes: seq<Box>, assign: map<int, int>, frame: int, d: nat): map<int, Track>
    requires d <= |boxes|
  {
    Spawn(nextId, boxes, Unassigned(assign, d), frame)
  }

  /** How many tracks the spawn loop has started after visiting detections 0 .. d-1. */
  function CountBefore(assign: map<int, int>, d: nat): nat
  {
    |Unassigned(assign, d)|
  }

  /** Visiting an assigned detection starts nothing. */
  lemma {:induction false} SpawnSkip(m: map<int, Track>, nextId: int, boxes: seq<Box>, assign: map<int, int>, frame: int, d: int,
                                     r: map<int, Track>, next: int, created: set<int>)
    requires 0 <= d < |boxes| && d in assign
    requires r == m + SpawnedBefore(nextId, boxes, assign, frame, d)
    requires next == nextId + CountBefore(assign, d)
    requires created == SpawnedBefore(nextId, boxes, assign, frame, d).Keys
    ensures r == m + SpawnedBefore(nextId, boxes, assign, frame, d + 1)
    ensures next == nextId + CountBefore(assign, d + 1)
    ensures created == SpawnedBefore(nextId, boxes, assign, frame, d + 1).Keys
  {
    assert Unassigned(assign, d + 1) == Unassigned(assign, d);
  }

  /** Visiting a leftover detection starts the next track. */
  lemma {:induction false} SpawnTake(m: map<int, Track>, nextId: int, boxes: seq<Box>, assign: map<int, int>, frame: int, d: int,
                                     r: map<int, Track>, next: int, created: set<int>)
    requires 0 <= d < |boxes| && d !in assign
    requires r == m + SpawnedBefore(nextId, boxes, assign, frame, d)
    requires next == nextId + CountBefore(assign, d)
    requires created == SpawnedBefore(nextId, boxes, assign, frame, d).Keys
    ensures r[next := NewTrack(next, boxes[d], frame)] == m + SpawnedBefore(nextId, boxes, assign, frame, d + 1)
    ensures next + 1 == nextId + CountBefore(assign, d + 1)
    ensures created + {next} == SpawnedBefore(nextId, boxes, assign, frame, d + 1).Keys
  {
    var seeds := Unassigned(assign, d);
    assert Unassigned(assign, d + 1) == seeds + [d];
    SpawnOneMore(m, nextId, boxes, seeds, frame, d);
  }

  /** Spawning from one more seed stores one more track, under the next id. */
  lemma {:induction false} SpawnOneMore(m: map<int, Track>, nextId: int, boxes: seq<Box>, seeds: seq<int>, frame: int, d: int)
    requires forall k :: 0 <= k < |seeds| ==> 0 <= seeds[k] < |boxes|
    requires 0 <= d < |boxes|
    ensures (m + Spawn(nextId, boxes, seeds, frame))[nextId + |seeds| := NewTrack(nextId + |seeds|, boxes[d], frame)]
      == m + Spawn(nextId, boxes, seeds + [d], frame)
    ensures Spawn(nextId, boxes, seeds + [d], frame).Keys == Spawn(nextId, boxes, seeds, frame).Keys + {nextId + |seeds|}
  {
    assert (seeds + [d])[..|seeds|] == seeds;
  }

  // ---------------------------------------------------------------------
  // The loops themselves, on table values
  // ---------------------------------------------------------------------

  /** Step 1 of `update`: `_kalman_predict` on every live track, in table order. */
  method PredictPass(m: map<int, Track>, cfg: Config) returns (r: map<int, Track>)
    ensures r == PredictAll(m, cfg)
  {
    r := m;
    var order := SortedIds(m.Keys);
    for k := 0 to |order|
      invariant r == PredictEach(m, cfg, order[..k])
    {
      var id := order[k];
      PredictEachNext(m, cfg, order, k);
      r := r[id := PredictTrack(r[id], cfg)];
    }
    assert order[..|order|] == order;
    PredictEachAll(m, cfg);
  }

  /**
   * Step 3 of `update`: each assigned detection, in detection order, corrects
   * its track's filter and updates its bookkeeping; `active` collects the
   * matched ids.
   */
  method MatchPass(m: map<int, Track>, cfg: Config, boxes: seq<Box>, frame: int, assign: map<int, int>)
    returns (r: map<int, Track>, active: set<int>)
    requires WellFormedAssignment(assign, |boxes|, m.Keys)
    ensures r == ApplyMatches(m, cfg, boxes, frame, assign)
    ensures active == MatchedIds(assign)
  {
    r := m;
    active := {};
    MatchesNone(m, cfg, boxes, frame, assign);
    for d := 0 to |boxes|
      invariant r == MatchesBefore(m, cfg, boxes, frame, assign, d)
      invariant active == TakenBefore(assign, d)
    {
      MatchOneMore(m, cfg, boxes, frame, assign, d);
      TakenBeforeNext(assign, d);
      if d in assign {
        var id := assign[d];
        r := r[id := MatchTrack(r[id], boxes[d], frame, cfg)];
        active := active + {id};
      }
    }
    MatchesAllDone(m, cfg, boxes, frame, assign);
  }

  /** One iteration of the aging loop, on the intermediate table and on `to_finish`. */
  lemma {:induction false} AgeStep(m: map<int, Track>, cfg: Config, frame: int, matched: set<int>, order: seq<int>, k: int,
                                   final: map<int, Track>)
    requires order == SortedIds(m.Keys) && 0 <= k < |order|
    requires final == ApplyCoasting(m, cfg, frame, matched)
    ensures var r := CoastSome(m, cfg, frame, matched, Elements(order[..k]));
      var id := order[k];
      && id in r && r[id] == m[id]
      && CoastSome(m, cfg, frame, matched, Elements(order[..k + 1]))
         == (if id in matched then r else r[id := CoastTrack(r[id], frame, cfg)])
      && Expiring(order[..k + 1], final, matched, cfg.maxMissed)
         == Expiring(order[..k], final, matched, cfg.maxMissed)
            + (if id !in matched && r[id].missed + 1 > cfg.maxMissed then [id] else [])
  {
    var id := order[k];
    CoastAt(m, cfg, frame, matched, order, k);
    ExpiringOneMore(order, k, final, matched, cfg.maxMissed);
    if id !in matched {
      CoastedAt(m, cfg, frame, matched, id);
      assert final[id].missed == m[id].missed + 1;
    }
  }

  /** Before the aging loop nothing has coasted and nothing is listed. */
  lemma {:induction false} AgeBegin(m: map<int, Track>, cfg: Config, frame: int, matched: set<int>, order: seq<int>,
                                    final: map<int, Track>)
    ensures m == CoastSome(m, cfg, frame, matched, Elements(order[..0]))
    ensures [] == Expiring(order[..0], final, matched, cfg.maxMissed)
  {
    assert order[..0] == [];
    assert Elements(order[..0]) == {};
    CoastNone(m, cfg, frame, matched);
  }

  /** After the aging loop the whole table has coasted and `to_finish` is complete. */
  lemma {:induction false} AgeEnd(m: map<int, Track>, cfg: Config, frame: int, matched: set<int>, order: seq<int>,
                                  final: map<int, Track>, r: map<int, Track>, toFinish: seq<int>)
    requires order == SortedIds(m.Keys)
    requires final == ApplyCoasting(m, cfg, frame, matched)
    requires r == CoastSome(m, cfg, frame, matched, Elements(order[..|order|]))
    requires toFinish == Expiring(order[..|order|], final, matched, cfg.maxMissed)
    ensures r == ApplyCoasting(m, cfg, frame, matched)
    ensures toFinish == Expiring(SortedIds(m.Keys), r, matched, cfg.maxMissed)
  {
    CoastEnd(m, cfg, frame, matched, order);
  }

  /**
   * Step 4 of `update`: in table order, every track outside `matched` coasts;
   * `toFinish` lists, in that order, the ids whose `missed` now exceeds the limit.
   */
  method AgePass(m: map<int, Track>, cfg: Config, frame: int, matched: set<int>)
    returns (r: map<int, Track>, toFinish: seq<int>)
    ensures r == ApplyCoasting(m, cfg, frame, matched)
    ensures toFinish == Expiring(SortedIds(m.Keys), r, matched, cfg.maxMissed)
  {
    r := m;
    var order := SortedIds(m.Keys);
    ghost var final := ApplyCoasting(m, cfg, frame, matched);
    toFinish := [];
    AgeBegin(m, cfg, frame, matched, order, final);
    for k := 0 to |order|
      invariant r == CoastSome(m, cfg, frame, matched, Elements(order[..k]))
      invariant toFinish == Expiring(order[..k], final, matched, cfg.maxMissed)
    {
      var id := order[k];
      AgeStep(m, cfg, frame, matched, order, k, final);
      if id !in matched {
        var t := r[id];
        r := r[id := CoastTrack(t, frame, cfg)];
        if t.missed + 1 > cfg.maxMissed {
          toFinish := toFinish + [id];
        }
      }
    }
    AgeEnd(m, cfg, frame, matched, order, final, r, toFinish);
  }

  /** Step 5 of `update`: archive each id of `toFinish`, in order, removing its track from the table. */
  method RetirePass(m: map<int, Track>, archive: seq<Track>, toFinish: seq<int>)
    returns (r: map<int, Track>, archived: seq<Track>)
    requires forall k :: 0 <= k < |toFinish| ==> toFinish[k] in m
    requires Distinct(toFinish)
    ensures r == m - Elements(toFinish)
    ensures archived == archive + Collect(m, toFinish)
  {
    r := m;
    archived := archive;
    assert Elements(toFinish[..0]) == {};
    for k := 0 to |toFinish|
      invariant r == m - Elements(toFinish[..k])
      invariant archived == archive + Collect(m, toFinish[..k])
    {
      var id := toFinish[k];
      assert id !in Elements(toFinish[..k]);
      assert toFinish[..k + 1] == toFinish[..k] + [id];
      RemoveOneMore(m, toFinish[..k], id);
      CollectOneMore(m, toFinish[..k], id);
      var t := r[id];
      r := r - {id};
      archived := archived + [t];
    }
    assert toFinish[..|toFinish|] == toFinish;
  }

  /** Before the spawn loop no detection has been visited. */
  lemma {:induction false} SpawnBegin(m: map<int, Track>, nextId: int, boxes: seq<Box>, assign: map<int, int>, frame: int)
    ensures m == m + SpawnedBefore(nextId, boxes, assign, frame, 0)
    ensures nextId == nextId + CountBefore(assign, 0)
    ensures {} == SpawnedBefore(nextId, boxes, assign, frame, 0).Keys
  {
    assert Unassigned(assign, 0) == [];
    assert Spawn(nextId, boxes, [], frame) == map[];
  }

  /** After the spawn loop every detection has been visited. */
  lemma {:induction false} SpawnEnd(m: map<int, Track>, nextId: int, boxes: seq<Box>, assign: map<int, int>, frame: int,
                                    r: map<int, Track>, next: int, created: set<int>)
    requires r == m + SpawnedBefore(nextId, boxes, assign, frame, |boxes|)
    requires next == nextId + CountBefore(assign, |boxes|)
    requires created == SpawnedBefore(nextId, boxes, assign, frame, |boxes|).Keys
    ensures r == m + Births(nextId, boxes, assign, frame)
    ensures next == nextId + BirthCount(assign, |boxes|)
    ensures created == Births(nextId, boxes, assign, frame).Keys
  {
  }

  /**
   * Step 5 of `update`: every detection without a track, in detection order,
   * starts a new one (`_start_new_track`) under the next id; `created` holds
   * the new ids.
   */
  method SpawnPass(m: map<int, Track>, nextId: int, boxes: seq<Box>, frame: int, assign: map<int, int>)
    returns (r: map<int, Track>, next: int, created: set<int>)
    ensures r == m + Births(nextId, boxes, assign, frame)
    ensures next == nextId + BirthCount(assign, |boxes|)
    ensures created == Births(nextId, boxes, assign, frame).Keys
  {
    r := m;
    next := nextId;
    created := {};
    SpawnBegin(m, nextId, boxes, assign, frame);
    for d := 0 to |boxes|
      invariant r == m + SpawnedBefore(nextId, boxes, assign, frame, d)
      invariant next == nextId + CountBefore(assign, d)
      invariant created == SpawnedBefore(nextId, boxes, assign, frame, d).Keys
    {
      if d in assign {
        SpawnSkip(m, nextId, boxes, assign, frame, d, r, next, created);
      } else {
        SpawnTake(m, nextId, boxes, assign, frame, d, r, next, created);
        r := r[next := NewTrack(next, boxes[d], frame)];
        created := created + {next};
        next := next + 1;
      }
    }
    SpawnEnd(m, nextId, boxes, assign, frame, r, next, created);
  }

  // ---------------------------------------------------------------------
  // The whole busy-table step
  // ---------------------------------------------------------------------

  /** The three passes of steps 1, 3 and 4 compute `Upd`. */
  lemma {:induction false} BusyUpd(tb: TrackTable, cfg: Config, boxes: seq<Box>, frame: int, assign: map<int, int>,
                pred: map<int, Track>, corrected: map<int, Track>, upd: map<int, Track>)
    requires WellFormedAssignment(assign, |boxes|, tb.tracks.Keys)
    requires pred == PredictAll(tb.tracks, cfg)
    requires corrected == ApplyMatches(pred, cfg, boxes, frame, assign)
    requires upd == ApplyCoasting(corrected, cfg, frame, MatchedIds(assign))
    ensures upd == Upd(tb, cfg, boxes, frame, assign)
  {
  }

  /** The ageing pass over the corrected table lists `Gone`. */
  lemma {:induction false} BusyGone(tb: TrackTable, cfg: Config, boxes: seq<Box>, frame: int, assign: map<int, int>,
                 upd: map<int, Track>, gone: seq<int>)
    requires WellFormedAssignment(assign, |boxes|, tb.tracks.Keys)
    requires upd == Upd(tb, cfg, boxes, frame, assign)
    requires gone == Expiring(SortedIds(tb.tracks.Keys), upd, MatchedIds(assign), cfg.maxMissed)
    ensures gone == Gone(tb, cfg, boxes, frame, assign)
  {
  }
}
