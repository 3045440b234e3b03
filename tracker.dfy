/**
 * `ObjectTracker` (tracker.py) as a class: the track table lives in three
 * fields. The loops of `update` run, in the source's order, on the table
 * value, each proved against the value-level description in Table;
 * `Update` stores the result in the three fields at the end.
 */
module Tracker {
  import opened Wrappers
  import opened Boxes
  import opened Kalman
  import opened Tracks
  import opened Association
  import opened Table
  import opened StepFacts
  import opened LoopSteps

  /** One entry of `get_object_summaries`. */
  datatype Summary = Summary(id: int, dwellFrames: int, pathLength: real, avgSpeedPerFrame: real)

  /** The summary of one track: dwell in frames (at least one) and mean path per frame step. */
  function Summarize(t: Track): (s: Summary)
    ensures s.id == t.id && s.pathLength == t.pathLength
    ensures s.dwellFrames >= 1
    ensures s.dwellFrames == Max(1, t.lastFrame - t.firstFrame + 1)
    ensures s.dwellFrames > 1 ==> s.avgSpeedPerFrame * (s.dwellFrames - 1) as real == t.pathLength
    ensures s.dwellFrames == 1 ==> s.avgSpeedPerFrame == 0.0
    ensures t.pathLength >= 0.0 ==> s.avgSpeedPerFrame >= 0.0
  {
    var dwell := Max(1, t.lastFrame - t.firstFrame + 1);
    var avg := if dwell > 1 then t.pathLength / (dwell - 1) as real else 0.0;
    Summary(t.id, dwell, t.pathLength, avg)
  }

  /** The short views of the empty-table path, in table order. */
  method BriefViews(m: map<int, Track>) returns (views: seq<TrackView>)
    ensures |views| == |m|
    ensures forall k :: 0 <= k < |views| ==> views[k] == Brief(m[SortedIds(m.Keys)[k]])
  {
    var order := SortedIds(m.Keys);
    views := [];
    for k := 0 to |order|
      invariant |views| == k
      invariant forall j :: 0 <= j < k ==> views[j] == Brief(m[order[j]])
    {
      views := views + [Brief(m[order[k]])];
    }
  }

  /**
   * The full views of the live tracks among `ids`, in set-iteration order,
   * which the model leaves open: `order` is the order that was taken.
   */
  method FullViews(m: map<int, Track>, ids: set<int>) returns (views: seq<TrackView>, ghost order: seq<int>)
    ensures Distinct(order)
    ensures forall id :: id in order <==> id in ids && id in m
    ensures |views| == |order|
    ensures forall k :: 0 <= k < |order| ==> order[k] in m && views[k] == Full(m[order[k]])
  {
    views := [];
    order := [];
    var rest := ids;
    while rest != {}
      invariant rest <= ids
      invariant Distinct(order)
      invariant forall id :: id in order <==> id in ids - rest && id in m
      invariant |views| == |order|
      invariant forall k :: 0 <= k < |order| ==> order[k] in m && views[k] == Full(m[order[k]])
      decreases |rest|
    {
      HasElement(rest);
      var id :| id in rest;
      rest := rest - {id};
      if id in m {
        views := views + [Full(m[id])];
        order := order + [id];
      }
    }
  }

  /**
   * What one call of `update` promises, from the table `tb` to the table
   * `st`, when the association loop chose `assign`: the new table is `Step`
   * of the old one; on an empty table nothing is associated and the short
   * views of the new tracks come back in table order; otherwise the
   * association is the greedy one and the full views of the tracks matched
   * or created now come back, in the set-iteration order `order`.
   */
  ghost predicate Updates(tb: TrackTable, cfg: Config, boxes: seq<Box>, frame: int,
                          st: TrackTable, views: seq<TrackView>, assign: map<int, int>, order: seq<int>)
  {
    && WellFormedAssignment(assign, |boxes|, tb.tracks.Keys)
    && st == Step(tb, cfg, boxes, frame, assign)
    && (tb.tracks == map[] ==>
          && assign == map[]
          && |views| == |st.tracks|
          && forall k :: 0 <= k < |views| ==> views[k] == Brief(st.tracks[SortedIds(st.tracks.Keys)[k]]))
    && (tb.tracks != map[] ==>
          && Greedy(boxes, PredictAll(tb.tracks, cfg), assign, cfg)
          && Distinct(order)
          && (forall id :: id in order <==> id in Reported(tb, boxes, assign))
          && |views| == |order|
          && forall k :: 0 <= k < |order| ==> order[k] in st.tracks && views[k] == Full(st.tracks[order[k]]))
  }

  /** A frame without detections reports nothing, matches nothing and starts no track. */
  lemma {:induction false} NoDetectionsNoViews(tb: TrackTable, cfg: Config, frame: int,
                                               st: TrackTable, views: seq<TrackView>, assign: map<int, int>, order: seq<int>)
    requires Updates(tb, cfg, [], frame, st, views, assign, order)
    ensures assign == map[] && views == [] && st.nextId == tb.nextId
  {
    NoBoxesNoAssignment(assign, tb.tracks.Keys);
    StepNextId(tb, cfg, [], frame, assign);
    NoBirths(tb.nextId, assign, frame);
    if tb.tracks == map[] {
      StepShape(tb, cfg, [], frame, assign);
      assert st.tracks == map[];
      assert |views| == |st.tracks| == 0;
    } else {
      NoBirths(tb.nextId, assign, 0);
      assert Reported(tb, [], assign) == {};
      WithinEmpty(order, Reported(tb, [], assign));
    }
  }

  lemma {:induction false} NoBirths(nextId: int, assign: map<int, int>, frame: int)
    requires assign == map[]
    ensures Births(nextId, [], assign, frame) == map[]
    ensures BirthCount(assign, 0) == 0
  {
    BirthsSpec(nextId, [], assign, frame);
  }

  /** The empty-table path of `update`: one new track per detection, short views in table order. */
  method UpdateEmpty(tb: TrackTable, cfg: Config, boxes: seq<Box>, frame: int) returns (st: TrackTable, views: seq<TrackView>)
    requires WellFormed(tb, cfg.maxMissed) && tb.tracks == map[]
    ensures WellFormed(st, cfg.maxMissed)
    ensures Updates(tb, cfg, boxes, frame, st, views, map[], [])
  {
    var none: map<int, int> := map[];
    var grown, next, created := SpawnPass(tb.tracks, tb.nextId, boxes, frame, none);
    st := TrackTable(grown, tb.finished, next);
    views := BriefViews(grown);
    StepKeepsWellFormed(tb, cfg, boxes, frame, none);
  }

  /**
   * Steps 1-4 of `update` on a non-empty table: predict, associate, correct
   * the matched tracks and age the others; `toFinish` lists the ids to archive.
   */
  method MatchAndAge(tb: TrackTable, cfg: Config, boxes: seq<Box>, frame: int)
    returns (assign: map<int, int>, upd: map<int, Track>, toFinish: seq<int>, active: set<int>)
    ensures Greedy(boxes, PredictAll(tb.tracks, cfg), assign, cfg)
    ensures WellFormedAssignment(assign, |boxes|, tb.tracks.Keys)
    ensures upd == Upd(tb, cfg, boxes, frame, assign)
    ensures toFinish == Gone(tb, cfg, boxes, frame, assign)
    ensures active == MatchedIds(assign)
  {
    var pred := PredictPass(tb.tracks, cfg);
    assign := Associate(boxes, pred, cfg);
    GreedyIsInjective(boxes, pred, assign, cfg);
    GreedyFitsTable(boxes, tb.tracks, assign, cfg);
    var corrected;
    corrected, active := MatchPass(pred, cfg, boxes, frame, assign);
    upd, toFinish := AgePass(corrected, cfg, frame, MatchedIds(assign));
    BusyUpd(tb, cfg, boxes, frame, assign, pred, corrected, upd);
    BusyGone(tb, cfg, boxes, frame, assign, upd, toFinish);
  }

  /** The rest of `update` on a non-empty table: archive `to_finish`, then start the unassigned detections. */
  method RetireAndSpawn(tb: TrackTable, boxes: seq<Box>, frame: int, assign: map<int, int>,
                        upd: map<int, Track>, toFinish: seq<int>)
    returns (st: TrackTable, created: set<int>)
    requires forall k :: 0 <= k < |toFinish| ==> toFinish[k] in upd
    requires Distinct(toFinish)
    ensures st == Retire(tb, upd, toFinish, Births(tb.nextId, boxes, assign, frame), tb.nextId + BirthCount(assign, |boxes|))
    ensures created == Births(tb.nextId, boxes, assign, frame).Keys
  {
    var live, archived := RetirePass(upd, tb.finished, toFinish);
    var grown, next;
    grown, next, created := SpawnPass(live, tb.nextId, boxes, frame, assign);
    st := TrackTable(grown, archived, next);
  }

  /** The non-empty-table path of `update`. */
  method UpdateBusy(tb: TrackTable, cfg: Config, boxes: seq<Box>, frame: int)
    returns (st: TrackTable, views: seq<TrackView>, ghost assign: map<int, int>, ghost order: seq<int>)
    requires WellFormed(tb, cfg.maxMissed) && tb.tracks != map[]
    ensures WellFormed(st, cfg.maxMissed)
    ensures Updates(tb, cfg, boxes, frame, st, views, assign, order)
  {
    var a, upd, toFinish, active := MatchAndAge(tb, cfg, boxes, frame);
    GoneSpec(tb, cfg, boxes, frame, a);
    IncreasingDistinct(toFinish);
    var created;
    st, created := RetireAndSpawn(tb, boxes, frame, a, upd, toFinish);
    assign := a;
    RetireIsStep(tb, cfg, boxes, frame, a, upd, toFinish, st);
    StepKeepsWellFormed(tb, cfg, boxes, frame, a);
    StepReportedLive(tb, cfg, boxes, frame, a);
    ReportedKeys(tb, boxes, frame, a);
    views, order := FullViews(st.tracks, active + created);
  }

  /** One call of `update` on the table as a value: the empty-table path or the general one. */
  method Advance(tb: TrackTable, cfg: Config, boxes: seq<Box>, frame: int)
    returns (st: TrackTable, views: seq<TrackView>, ghost assign: map<int, int>, ghost order: seq<int>)
    requires WellFormed(tb, cfg.maxMissed)
    ensures WellFormed(st, cfg.maxMissed)
    ensures Updates(tb, cfg, boxes, frame, st, views, assign, order)
  {
    if tb.tracks == map[] {
      st, views := UpdateEmpty(tb, cfg, boxes, frame);
      assign := map[];
      order := [];
    } else {
      st, views, assign, order := UpdateBusy(tb, cfg, boxes, frame);
    }
  }

  class ObjectTracker {
    const cfg: Config
    var tracks: map<int, Track>
    var finished: seq<Track>
    var nextId: int

    /** The fields as one value. */
    ghost function State(): TrackTable
      reads this
    {
      TrackTable(tracks, finished, nextId)
    }

    ghost predicate Valid()
      reads this
    {
      WellFormed(State(), cfg.maxMissed)
    }

    /** `__init__`: no tracks, nothing archived, the first id is 1. */
    constructor (frameWidth: int, frameHeight: int, maxDistance: real, maxMissed: int, minIou: real,
                 hypot: Metric, correct: Correction)
      ensures cfg == Config(frameWidth, frameHeight, maxDistance, maxMissed, minIou, hypot, correct)
      ensures State() == TrackTable(map[], [], 1)
      ensures Valid()
    {
      cfg := Config(frameWidth, frameHeight, maxDistance, maxMissed, minIou, hypot, correct);
      tracks := map[];
      finished := [];
      nextId := 1;
    }

    /**
     * `_start_new_track`: store a fresh track under `nextId`, then advance
     * `nextId`. `Update` does not call it; it spawns through `SpawnPass`.
     */
    method StartNewTrack(box: Box, frame: int)
      modifies this
      ensures tracks == old(tracks)[old(nextId) := NewTrack(old(nextId), box, frame)]
      ensures nextId == old(nextId) + 1
      ensures finished == old(finished)
    {
      tracks := tracks[nextId := NewTrack(nextId, box, frame)];
      nextId := nextId + 1;
    }

    /**
     * `update(boxes, frame_index)`.  The table moves to `Step` of its old
     * value under the association `assign` that the greedy loop chose; the
     * returned views are the short views of the new tracks on an empty
     * table, and otherwise the full views of the tracks matched or created
     * now, in the set-iteration order `order`.
     */
    method Update(boxes: seq<Box>, frame: int) returns (views: seq<TrackView>, ghost assign: map<int, int>, ghost order: seq<int>)
      requires Valid()
      modifies this
      ensures Valid()
      ensures Updates(old(State()), cfg, boxes, frame, State(), views, assign, order)
    {
      var st: TrackTable;
      st, views, assign, order := Advance(TrackTable(tracks, finished, nextId), cfg, boxes, frame);
      tracks, finished, nextId := st.tracks, st.finished, st.nextId;
    }

    /** `get_all_tracks`: the archive first, then the live tracks in table order. */
    function AllTracks(): (r: seq<Track>)
      reads this
      ensures |r| == |finished| + |tracks|
      ensures r[..|finished|] == finished
      ensures forall k :: 0 <= k < |tracks| ==> r[|finished| + k] == tracks[SortedIds(tracks.Keys)[k]]
    {
      finished + Collect(tracks, SortedIds(tracks.Keys))
    }

    /** `get_object_summaries`: one summary per track, in `AllTracks` order; nothing changes. */
    method ObjectSummaries() returns (summaries: seq<Summary>)
      ensures |summaries| == |AllTracks()|
      ensures forall k :: 0 <= k < |summaries| ==> summaries[k] == Summarize(AllTracks()[k])
    {
      var all := AllTracks();
      summaries := [];
      for k := 0 to |all|
        invariant |summaries| == k
        invariant forall j :: 0 <= j < k ==> summaries[j] == Summarize(all[j])
      {
        summaries := summaries + [Summarize(all[k])];
      }
    }
  }
}
