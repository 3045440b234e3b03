/**
 * What one `ObjectTracker.update` call (tracker.py) does to the track table,
 * stated track by track about `Table.Step`: the table invariant is kept,
 * matched tracks take their detection, unmatched tracks coast and retire
 * once `missed` exceeds `max_missed`, every unused detection starts a track
 * under a fresh consecutive id, and the archive only grows.
 */
module StepFacts {
  import opened Wrappers
  import opened Boxes
  import opened Kalman
  import opened Tracks
  import opened Association
  import opened Table

  // ---------------------------------------------------------------------
  // Unfolding helpers
  // ---------------------------------------------------------------------

  lemma {:induction false} UpdAt(tb: TrackTable, cfg: Config, boxes: seq<Box>, frame: int, assign: map<int, int>, id: int)
    requires WellFormedAssignment(assign, |boxes|, tb.tracks.Keys) && id in tb.tracks
    ensures Upd(tb, cfg, boxes, frame, assign)[id] ==
      if id in MatchedIds(assign) then MatchTrack(PredictTrack(tb.tracks[id], cfg), boxes[DetOf(assign, id)], frame, cfg)
      else CoastTrack(PredictTrack(tb.tracks[id], cfg), frame, cfg)
  {
  }

  /** What steps 1-4 keep and change in a live track, in a form cheap to use. */
  lemma {:induction false} UpdFacts(tb: TrackTable, cfg: Config, boxes: seq<Box>, frame: int, assign: map<int, int>, id: int)
    requires WellFormedAssignment(assign, |boxes|, tb.tracks.Keys) && id in tb.tracks
    ensures var u := Upd(tb, cfg, boxes, frame, assign)[id];
      && u.id == tb.tracks[id].id
      && u.pathLength >= tb.tracks[id].pathLength
      && u.missed == if id in MatchedIds(assign) then 0 else tb.tracks[id].missed + 1
  {
    UpdAt(tb, cfg, boxes, frame, assign, id);
  }

  /** The ids archived this frame: unmatched tracks past the limit, in increasing order. */
  lemma {:induction false} GoneSpec(tb: TrackTable, cfg: Config, boxes: seq<Box>, frame: int, assign: map<int, int>)
    requires WellFormedAssignment(assign, |boxes|, tb.tracks.Keys)
    ensures forall x :: x in Gone(tb, cfg, boxes, frame, assign) <==>
      x in tb.tracks && x !in MatchedIds(assign) && Upd(tb, cfg, boxes, frame, assign)[x].missed > cfg.maxMissed
    ensures StrictlyIncreasing(Gone(tb, cfg, boxes, frame, assign))
  {
    SortedIdsIncreasing(tb.tracks.Keys);
    ExpiringWithin(SortedIds(tb.tracks.Keys), Upd(tb, cfg, boxes, frame, assign), MatchedIds(assign), cfg.maxMissed);
  }

  /** Every unassigned detection consumes one id. */
  lemma {:induction false} StepNextId(tb: TrackTable, cfg: Config, boxes: seq<Box>, frame: int, assign: map<int, int>)
    requires WellFormedAssignment(assign, |boxes|, tb.tracks.Keys)
    ensures Step(tb, cfg, boxes, frame, assign).nextId == tb.nextId + BirthCount(assign, |boxes|)
  {
  }

  /**
   * On a non-empty table, archiving the ids `Gone` from the corrected tracks
   * `Upd` and then starting the new tracks is `Step`.
   */
  lemma {:induction false} RetireIsStep(tb: TrackTable, cfg: Config, boxes: seq<Box>, frame: int, assign: map<int, int>,
                                        upd: map<int, Track>, gone: seq<int>, st: TrackTable)
    requires WellFormedAssignment(assign, |boxes|, tb.tracks.Keys) && tb.tracks != map[]
    requires upd == Upd(tb, cfg, boxes, frame, assign) && gone == Gone(tb, cfg, boxes, frame, assign)
    requires forall k :: 0 <= k < |gone| ==> gone[k] in upd
    requires st == Retire(tb, upd, gone, Births(tb.nextId, boxes, assign, frame), tb.nextId + BirthCount(assign, |boxes|))
    ensures st == Step(tb, cfg, boxes, frame, assign)
  {
  }

  /** The reported ids are the matched ones and the keys of the new tracks, whatever their first frame. */
  lemma {:induction false} ReportedKeys(tb: TrackTable, boxes: seq<Box>, frame: int, assign: map<int, int>)
    ensures Reported(tb, boxes, assign) == MatchedIds(assign) + Births(tb.nextId, boxes, assign, frame).Keys
  {
    var seeds := Unassigned(assign, |boxes|);
    SpawnSpec(tb.nextId, boxes, seeds, frame);
    SpawnSpec(tb.nextId, boxes, seeds, 0);
    assert Births(tb.nextId, boxes, assign, frame).Keys == Births(tb.nextId, boxes, assign, 0).Keys by {
      forall id ensures id in Births(tb.nextId, boxes, assign, frame) <==> id in Births(tb.nextId, boxes, assign, 0) {
      }
    }
  }

  /** A well-formed assignment into an empty table is empty. */
  lemma {:induction false} NothingToAssign(assign: map<int, int>, n: int)
    requires WellFormedAssignment(assign, n, {})
    ensures assign == map[]
  {
    if assign != map[] {
      HasElement(assign.Keys);
      assert false;
    }
  }

  /** The new table's tracks: the updated ones not archived, plus the spawned ones. */
  lemma {:induction false} StepShape(tb: TrackTable, cfg: Config, boxes: seq<Box>, frame: int, assign: map<int, int>)
    requires WellFormedAssignment(assign, |boxes|, tb.tracks.Keys)
    ensures var spawned := Births(tb.nextId, boxes, assign, frame);
      Step(tb, cfg, boxes, frame, assign).tracks ==
        if tb.tracks == map[] then spawned
        else (Upd(tb, cfg, boxes, frame, assign) - Elements(Gone(tb, cfg, boxes, frame, assign))) + spawned
  {
  }

  /** A track that was live before the call is live after it exactly when it is not archived. */
  lemma {:induction false} StepKeeps(tb: TrackTable, cfg: Config, boxes: seq<Box>, frame: int, assign: map<int, int>, id: int)
    requires WellFormed(tb, cfg.maxMissed) && WellFormedAssignment(assign, |boxes|, tb.tracks.Keys)
    requires id in tb.tracks
    ensures id in Step(tb, cfg, boxes, frame, assign).tracks <==> id !in Gone(tb, cfg, boxes, frame, assign)
    ensures id in Step(tb, cfg, boxes, frame, assign).tracks ==>
      Step(tb, cfg, boxes, frame, assign).tracks[id] == Upd(tb, cfg, boxes, frame, assign)[id]
  {
    BirthsSpec(tb.nextId, boxes, assign, frame);
    StepShape(tb, cfg, boxes, frame, assign);
    assert id !in Births(tb.nextId, boxes, assign, frame);
  }

  /** An id not live before the call is live after it exactly when it was just allocated. */
  lemma {:induction false} StepNew(tb: TrackTable, cfg: Config, boxes: seq<Box>, frame: int, assign: map<int, int>, id: int)
    requires WellFormed(tb, cfg.maxMissed) && WellFormedAssignment(assign, |boxes|, tb.tracks.Keys)
    requires id !in tb.tracks
    ensures id in Step(tb, cfg, boxes, frame, assign).tracks <==>
      tb.nextId <= id < tb.nextId + BirthCount(assign, |boxes|)
    ensures id in Step(tb, cfg, boxes, frame, assign).tracks ==>
      Step(tb, cfg, boxes, frame, assign).tracks[id] ==
        NewTrack(id, boxes[Unassigned(assign, |boxes|)[id - tb.nextId]], frame)
  {
    var spawned := Births(tb.nextId, boxes, assign, frame);
    BirthsSpec(tb.nextId, boxes, assign, frame);
    StepShape(tb, cfg, boxes, frame, assign);
    var st := Step(tb, cfg, boxes, frame, assign);
    assert id in st.tracks <==> id in spawned;
    if id in spawned {
      assert st.tracks[id] == spawned[id];
      assert spawned[tb.nextId + (id - tb.nextId)] == NewTrack(id, boxes[Unassigned(assign, |boxes|)[id - tb.nextId]], frame);
    }
  }

  /** Where a track of the new table comes from. */
  lemma {:induction false} StepTracksAt(tb: TrackTable, cfg: Config, boxes: seq<Box>, frame: int, assign: map<int, int>, id: int)
    requires WellFormed(tb, cfg.maxMissed) && WellFormedAssignment(assign, |boxes|, tb.tracks.Keys)
    ensures id in tb.tracks ==>
      (id in Step(tb, cfg, boxes, frame, assign).tracks <==> id !in Gone(tb, cfg, boxes, frame, assign))
    ensures id in tb.tracks && id in Step(tb, cfg, boxes, frame, assign).tracks ==>
      Step(tb, cfg, boxes, frame, assign).tracks[id] == Upd(tb, cfg, boxes, frame, assign)[id]
    ensures id !in tb.tracks ==>
      (id in Step(tb, cfg, boxes, frame, assign).tracks <==>
        tb.nextId <= id < tb.nextId + BirthCount(assign, |boxes|))
    ensures id !in tb.tracks && id in Step(tb, cfg, boxes, frame, assign).tracks ==>
      Step(tb, cfg, boxes, frame, assign).tracks[id] ==
        NewTrack(id, boxes[Unassigned(assign, |boxes|)[id - tb.nextId]], frame)
  {
    if id in tb.tracks {
      StepKeeps(tb, cfg, boxes, frame, assign, id);
    } else {
      StepNew(tb, cfg, boxes, frame, assign, id);
    }
  }

  // ---------------------------------------------------------------------
  // The table invariant
  // ---------------------------------------------------------------------

  /** Each live track of the new table satisfies the per-track invariant. */
  lemma {:induction false} StepTrackOk(tb: TrackTable, cfg: Config, boxes: seq<Box>, frame: int, assign: map<int, int>, id: int)
    requires WellFormed(tb, cfg.maxMissed) && WellFormedAssignment(assign, |boxes|, tb.tracks.Keys)
    requires id in Step(tb, cfg, boxes, frame, assign).tracks
    ensures TrackOk(Step(tb, cfg, boxes, frame, assign).tracks[id], id, Step(tb, cfg, boxes, frame, assign).nextId, cfg.maxMissed)
  {
    StepNextId(tb, cfg, boxes, frame, assign);
    if id in tb.tracks {
      StepKeeps(tb, cfg, boxes, frame, assign, id);
      UpdAt(tb, cfg, boxes, frame, assign, id);
      GoneSpec(tb, cfg, boxes, frame, assign);
    } else {
      StepNew(tb, cfg, boxes, frame, assign, id);
    }
  }

  /** The archive of the new table: the old one followed by the archived tracks, stored under `Gone`. */
  lemma {:induction false} StepFinished(tb: TrackTable, cfg: Config, boxes: seq<Box>, frame: int, assign: map<int, int>)
    requires WellFormedAssignment(assign, |boxes|, tb.tracks.Keys)
    ensures tb.tracks == map[] ==> Step(tb, cfg, boxes, frame, assign).finished == tb.finished
    ensures tb.tracks != map[] ==>
      Step(tb, cfg, boxes, frame, assign).finished ==
        tb.finished + Collect(Upd(tb, cfg, boxes, frame, assign), Gone(tb, cfg, boxes, frame, assign))
  {
  }

  /**
   * Appending archived tracks keeps the archive invariant when every archived
   * track is stored under its id, the archived ids ascend, were live before
   * and are live no more.
   */
  lemma {:induction false} ArchiveExtend(before: seq<Track>, archived: seq<Track>, gone: seq<int>, live: set<int>, after: set<int>,
                      oldNextId: int, nextId: int)
    requires ArchiveOk(before, live, oldNextId) && oldNextId <= nextId
    requires forall k :: 0 <= k < |before| ==> before[k].id !in after
    requires |archived| == |gone| && StrictlyIncreasing(gone)
    requires forall k :: 0 <= k < |gone| ==>
      archived[k].id == gone[k] && gone[k] in live && gone[k] !in after && 1 <= gone[k] < nextId && archived[k].pathLength >= 0.0
    ensures ArchiveOk(before + archived, after, nextId)
  {
    var all := before + archived;
    var n := |before|;
    forall k | 0 <= k < |all|
      ensures 1 <= all[k].id < nextId && all[k].id !in after && all[k].pathLength >= 0.0
    {
      if k >= n { assert all[k] == archived[k - n]; }
    }
    forall j, k | 0 <= j < k < |all| ensures all[j].id != all[k].id {
      if j >= n {
        assert all[j] == archived[j - n] && all[k] == archived[k - n];
      } else if k >= n {
        assert all[k] == archived[k - n];
      }
    }
  }

  /** The old archive entries stay clear of the new table's live ids. */
  lemma {:induction false} OldArchiveClear(tb: TrackTable, cfg: Config, boxes: seq<Box>, frame: int, assign: map<int, int>)
    requires WellFormed(tb, cfg.maxMissed) && WellFormedAssignment(assign, |boxes|, tb.tracks.Keys)
    ensures forall k :: 0 <= k < |tb.finished| ==> tb.finished[k].id !in Step(tb, cfg, boxes, frame, assign).tracks
  {
    forall k | 0 <= k < |tb.finished| ensures tb.finished[k].id !in Step(tb, cfg, boxes, frame, assign).tracks {
      StepNew(tb, cfg, boxes, frame, assign, tb.finished[k].id);
    }
  }

  /** The tracks archived on a busy frame are stored under their ids, which leave the table. */
  lemma {:induction false} ArchivedClear(tb: TrackTable, cfg: Config, boxes: seq<Box>, frame: int, assign: map<int, int>)
    requires WellFormed(tb, cfg.maxMissed) && WellFormedAssignment(assign, |boxes|, tb.tracks.Keys)
    requires tb.tracks != map[]
    ensures var gone := Gone(tb, cfg, boxes, frame, assign);
      var archived := Collect(Upd(tb, cfg, boxes, frame, assign), gone);
      forall k :: 0 <= k < |gone| ==>
        && archived[k].id == gone[k] && gone[k] in tb.tracks && archived[k].pathLength >= 0.0
        && gone[k] !in Step(tb, cfg, boxes, frame, assign).tracks
  {
    var gone := Gone(tb, cfg, boxes, frame, assign);
    GoneSpec(tb, cfg, boxes, frame, assign);
    forall k | 0 <= k < |gone|
      ensures gone[k] in tb.tracks && gone[k] !in Step(tb, cfg, boxes, frame, assign).tracks
      ensures Upd(tb, cfg, boxes, frame, assign)[gone[k]].id == gone[k]
      ensures Upd(tb, cfg, boxes, frame, assign)[gone[k]].pathLength >= 0.0
    {
      UpdFacts(tb, cfg, boxes, frame, assign, gone[k]);
      StepKeeps(tb, cfg, boxes, frame, assign, gone[k]);
    }
  }

  /** The archive part of the table invariant survives the call. */
  lemma {:induction false} StepFinishedOk(tb: TrackTable, cfg: Config, boxes: seq<Box>, frame: int, assign: map<int, int>)
    requires WellFormed(tb, cfg.maxMissed) && WellFormedAssignment(assign, |boxes|, tb.tracks.Keys)
    ensures var st := Step(tb, cfg, boxes, frame, assign);
      ArchiveOk(st.finished, st.tracks.Keys, st.nextId)
  {
    var st := Step(tb, cfg, boxes, frame, assign);
    StepFinished(tb, cfg, boxes, frame, assign);
    OldArchiveClear(tb, cfg, boxes, frame, assign);
    if tb.tracks == map[] {
      assert st.finished == tb.finished + [];
      ArchiveExtend(tb.finished, [], [], tb.tracks.Keys, st.tracks.Keys, tb.nextId, st.nextId);
    } else {
      var gone := Gone(tb, cfg, boxes, frame, assign);
      ArchivedClear(tb, cfg, boxes, frame, assign);
      GoneSpec(tb, cfg, boxes, frame, assign);
      ArchiveExtend(tb.finished, Collect(Upd(tb, cfg, boxes, frame, assign), gone), gone,
        tb.tracks.Keys, st.tracks.Keys, tb.nextId, st.nextId);
    }
  }

  /** `update` keeps the table well formed. */
  lemma {:induction false} StepKeepsWellFormed(tb: TrackTable, cfg: Config, boxes: seq<Box>, frame: int, assign: map<int, int>)
    requires WellFormed(tb, cfg.maxMissed) && WellFormedAssignment(assign, |boxes|, tb.tracks.Keys)
    ensures WellFormed(Step(tb, cfg, boxes, frame, assign), cfg.maxMissed)
  {
    var st := Step(tb, cfg, boxes, frame, assign);
    forall id | id in st.tracks ensures TrackOk(st.tracks[id], id, st.nextId, cfg.maxMissed) {
      StepTrackOk(tb, cfg, boxes, frame, assign, id);
    }
    assert LiveOk(st.tracks, st.nextId, cfg.maxMissed);
    StepFinishedOk(tb, cfg, boxes, frame, assign);
  }

  // ---------------------------------------------------------------------
  // Track by track
  // ---------------------------------------------------------------------

  /**
   * Step 3: the track given detection `d` stays live, is reset to zero
   * misses, takes the measured box, the corrected filter position as its
   * centre, and one more history entry; its path grows by the distance moved.
   */
  lemma {:induction false} StepMatched(tb: TrackTable, cfg: Config, boxes: seq<Box>, frame: int, assign: map<int, int>, d: int)
    requires WellFormed(tb, cfg.maxMissed) && WellFormedAssignment(assign, |boxes|, tb.tracks.Keys)
    requires d in assign
    ensures assign[d] in Step(tb, cfg, boxes, frame, assign).tracks
    ensures var t := tb.tracks[assign[d]];
      var n := Step(tb, cfg, boxes, frame, assign).tracks[assign[d]];
      && n.id == t.id
      && n.missed == 0
      && n.box == boxes[d]
      && n.filter == cfg.correct(Predict(t.filter), CenterOf(boxes[d]))
      && n.center == Position(n.filter)
      && n.lastCenter == n.center
      && n.firstFrame == t.firstFrame
      && n.lastFrame == frame
      && n.history == t.history + [(frame, boxes[d])]
      && n.pathLength == t.pathLength + Distance(cfg.hypot, n.center, t.lastCenter)
      && n.pathLength >= t.pathLength
  {
    var id := assign[d];
    assert id in MatchedIds(assign);
    DetOfInjective(assign, |boxes|, tb.tracks.Keys, d);
    GoneSpec(tb, cfg, boxes, frame, assign);
    StepTracksAt(tb, cfg, boxes, frame, assign, id);
    UpdAt(tb, cfg, boxes, frame, assign, id);
  }

  /** The coasted version of a track that got no detection this frame (steps 1 and 4). */
  function Coasted(t: Track, frame: int, cfg: Config): (c: Track)
    ensures c.id == t.id && c.missed == t.missed + 1
    ensures c.center == Position(Predict(t.filter)) == c.lastCenter
    ensures c.box == PredictedBox(c.center, t.box, cfg.frameWidth, cfg.frameHeight)
    ensures c.filter == Predict(t.filter)
    ensures c.firstFrame == t.firstFrame && c.lastFrame == frame && c.history == t.history
    ensures c.pathLength == t.pathLength + Distance(cfg.hypot, c.center, t.lastCenter) >= t.pathLength
  {
    CoastTrack(PredictTrack(t, cfg), frame, cfg)
  }

  /**
   * Step 4: a track without a detection coasts on its prediction; it stays
   * live exactly while its `missed` count is within `max_missed`, and is
   * otherwise moved, coasted, to the end of the archive.
   */
  lemma {:induction false} StepUnmatched(tb: TrackTable, cfg: Config, boxes: seq<Box>, frame: int, assign: map<int, int>, id: int)
    requires WellFormed(tb, cfg.maxMissed) && WellFormedAssignment(assign, |boxes|, tb.tracks.Keys)
    requires id in tb.tracks && id !in MatchedIds(assign)
    ensures var st := Step(tb, cfg, boxes, frame, assign);
      var c := Coasted(tb.tracks[id], frame, cfg);
      && (id in st.tracks <==> c.missed <= cfg.maxMissed)
      && (id in st.tracks ==> st.tracks[id] == c)
      && (id !in st.tracks ==> c in st.finished[|tb.finished|..])
  {
    var st := Step(tb, cfg, boxes, frame, assign);
    GoneSpec(tb, cfg, boxes, frame, assign);
    StepTracksAt(tb, cfg, boxes, frame, assign, id);
    UpdAt(tb, cfg, boxes, frame, assign, id);
    if id !in st.tracks {
      var upd := Upd(tb, cfg, boxes, frame, assign);
      var gone := Gone(tb, cfg, boxes, frame, assign);
      var k :| 0 <= k < |gone| && gone[k] == id;
      var archived := Collect(upd, gone);
      assert st.finished == tb.finished + archived;
      assert st.finished[|tb.finished|..] == archived;
      assert archived[k] == upd[id];
    }
  }

  /**
   * The archive only grows: the old archive is a prefix, and what is
   * appended are unmatched tracks past the limit, in increasing id order.
   */
  lemma {:induction false} StepArchive(tb: TrackTable, cfg: Config, boxes: seq<Box>, frame: int, assign: map<int, int>)
    requires WellFormed(tb, cfg.maxMissed) && WellFormedAssignment(assign, |boxes|, tb.tracks.Keys)
    ensures var st := Step(tb, cfg, boxes, frame, assign);
      && |tb.finished| <= |st.finished|
      && st.finished[..|tb.finished|] == tb.finished
      && (forall k :: |tb.finished| <= k < |st.finished| ==>
            && st.finished[k].id in tb.tracks
            && st.finished[k].id !in MatchedIds(assign)
            && st.finished[k] == Coasted(tb.tracks[st.finished[k].id], frame, cfg)
            && st.finished[k].missed > cfg.maxMissed)
      && (forall j, k :: |tb.finished| <= j < k < |st.finished| ==> st.finished[j].id < st.finished[k].id)
  {
    var st := Step(tb, cfg, boxes, frame, assign);
    if tb.tracks != map[] {
      var upd := Upd(tb, cfg, boxes, frame, assign);
      var gone := Gone(tb, cfg, boxes, frame, assign);
      GoneSpec(tb, cfg, boxes, frame, assign);
      var archived := Collect(upd, gone);
      assert st.finished == tb.finished + archived;
      forall k | |tb.finished| <= k < |st.finished|
        ensures st.finished[k].id == gone[k - |tb.finished|]
        ensures st.finished[k].id in tb.tracks && st.finished[k].id !in MatchedIds(assign)
        ensures st.finished[k] == Coasted(tb.tracks[st.finished[k].id], frame, cfg)
        ensures st.finished[k].missed > cfg.maxMissed
      {
        var g := gone[k - |tb.finished|];
        assert st.finished[k] == upd[g];
        UpdAt(tb, cfg, boxes, frame, assign, g);
      }
    }
  }

  // ---------------------------------------------------------------------
  // New tracks and ids
  // ---------------------------------------------------------------------

  /**
   * Step 5: the k-th detection left without a track (in detection order)
   * starts track `nextId + k`, and `nextId` moves past them; no id is reused.
   */
  lemma {:induction false} StepCreates(tb: TrackTable, cfg: Config, boxes: seq<Box>, frame: int, assign: map<int, int>)
    requires WellFormed(tb, cfg.maxMissed) && WellFormedAssignment(assign, |boxes|, tb.tracks.Keys)
    ensures var st := Step(tb, cfg, boxes, frame, assign);
      var seeds := Unassigned(assign, |boxes|);
      && (forall d :: d in seeds <==> 0 <= d < |boxes| && d !in assign)
      && StrictlyIncreasing(seeds)
      && st.nextId == tb.nextId + |seeds|
      && (forall id :: tb.nextId <= id < st.nextId ==>
            id in st.tracks && st.tracks[id] == NewTrack(id, boxes[seeds[id - tb.nextId]], frame))
      && (forall id :: id in st.tracks && id !in tb.tracks ==> tb.nextId <= id < st.nextId)
  {
    UnassignedMembers(assign, |boxes|);
    UnassignedIncreasing(assign, |boxes|);
    StepSpawned(tb, cfg, boxes, frame, assign);
    StepNewRange(tb, cfg, boxes, frame, assign);
  }

  lemma {:induction false} StepSpawned(tb: TrackTable, cfg: Config, boxes: seq<Box>, frame: int, assign: map<int, int>)
    requires WellFormed(tb, cfg.maxMissed) && WellFormedAssignment(assign, |boxes|, tb.tracks.Keys)
    ensures var st := Step(tb, cfg, boxes, frame, assign);
      var seeds := Unassigned(assign, |boxes|);
      forall id :: tb.nextId <= id < st.nextId ==>
        id in st.tracks && st.tracks[id] == NewTrack(id, boxes[seeds[id - tb.nextId]], frame)
  {
    var seeds := Unassigned(assign, |boxes|);
    forall id | tb.nextId <= id < tb.nextId + |seeds|
      ensures id in Step(tb, cfg, boxes, frame, assign).tracks
      ensures Step(tb, cfg, boxes, frame, assign).tracks[id] == NewTrack(id, boxes[seeds[id - tb.nextId]], frame)
    {
      StepNew(tb, cfg, boxes, frame, assign, id);
    }
  }

  lemma {:induction false} StepNewRange(tb: TrackTable, cfg: Config, boxes: seq<Box>, frame: int, assign: map<int, int>)
    requires WellFormed(tb, cfg.maxMissed) && WellFormedAssignment(assign, |boxes|, tb.tracks.Keys)
    ensures var st := Step(tb, cfg, boxes, frame, assign);
      forall id :: id in st.tracks && id !in tb.tracks ==> tb.nextId <= id < st.nextId
  {
    forall id | id in Step(tb, cfg, boxes, frame, assign).tracks && id !in tb.tracks
      ensures tb.nextId <= id < Step(tb, cfg, boxes, frame, assign).nextId
    {
      StepNew(tb, cfg, boxes, frame, assign, id);
    }
  }

  /** Every track `update` reports on the busy path is live afterwards, with a detection this frame. */
  lemma {:induction false} StepReportedLive(tb: TrackTable, cfg: Config, boxes: seq<Box>, frame: int, assign: map<int, int>)
    requires WellFormed(tb, cfg.maxMissed) && WellFormedAssignment(assign, |boxes|, tb.tracks.Keys)
    ensures var st := Step(tb, cfg, boxes, frame, assign);
      forall id :: id in Reported(tb, boxes, assign) ==>
        id in st.tracks && st.tracks[id].missed == 0 && st.tracks[id].lastFrame == frame
  {
    var st := Step(tb, cfg, boxes, frame, assign);
    var seeds := Unassigned(assign, |boxes|);
    SpawnSpec(tb.nextId, boxes, seeds, 0);
    forall id | id in Reported(tb, boxes, assign)
      ensures id in st.tracks && st.tracks[id].missed == 0 && st.tracks[id].lastFrame == frame
    {
      if id in MatchedIds(assign) {
        var d := DetOf(assign, id);
        StepMatched(tb, cfg, boxes, frame, assign, d);
      } else {
        assert tb.nextId <= id < tb.nextId + |seeds|;
        StepTracksAt(tb, cfg, boxes, frame, assign, id);
      }
    }
  }

  /** On an empty table every detection starts a track, ids `nextId ..` in detection order. */
  lemma {:induction false} StepFromEmpty(tb: TrackTable, cfg: Config, boxes: seq<Box>, frame: int, assign: map<int, int>)
    requires WellFormed(tb, cfg.maxMissed) && WellFormedAssignment(assign, |boxes|, tb.tracks.Keys)
    requires tb.tracks == map[]
    ensures var st := Step(tb, cfg, boxes, frame, assign);
      && assign == map[]
      && st.nextId == tb.nextId + |boxes|
      && st.finished == tb.finished
      && (forall id :: id in st.tracks <==> tb.nextId <= id < tb.nextId + |boxes|)
      && (forall k :: 0 <= k < |boxes| ==> st.tracks[tb.nextId + k] == NewTrack(tb.nextId + k, boxes[k], frame))
  {
    NothingToAssign(assign, |boxes|);
    UnassignedAll(|boxes|);
    var seeds := Unassigned(assign, |boxes|);
    assert |seeds| == |boxes|;
    forall id ensures id in Step(tb, cfg, boxes, frame, assign).tracks <==> tb.nextId <= id < tb.nextId + |boxes| {
      StepNew(tb, cfg, boxes, frame, assign, id);
    }
    forall k | 0 <= k < |boxes|
      ensures Step(tb, cfg, boxes, frame, assign).tracks[tb.nextId + k] == NewTrack(tb.nextId + k, boxes[k], frame)
    {
      StepNew(tb, cfg, boxes, frame, assign, tb.nextId + k);
      assert seeds[k] == k;
    }
  }

  /** A frame without detections: nothing is created, and every live track coasts. */
  lemma {:induction false} StepNoDetections(tb: TrackTable, cfg: Config, frame: int, assign: map<int, int>)
    requires WellFormed(tb, cfg.maxMissed) && WellFormedAssignment(assign, 0, tb.tracks.Keys)
    ensures var st := Step(tb, cfg, [], frame, assign);
      && assign == map[]
      && st.nextId == tb.nextId
      && (forall id :: id in st.tracks <==> id in tb.tracks && tb.tracks[id].missed + 1 <= cfg.maxMissed)
      && (forall id :: id in st.tracks ==> st.tracks[id] == Coasted(tb.tracks[id], frame, cfg))
  {
    NoBoxesNoAssignment(assign, tb.tracks.Keys);
    var st := Step(tb, cfg, [], frame, assign);
    StepNextId(tb, cfg, [], frame, assign);
    assert BirthCount(assign, 0) == 0;
    forall id | id in tb.tracks || id in st.tracks
      ensures id in st.tracks <==> id in tb.tracks && tb.tracks[id].missed + 1 <= cfg.maxMissed
      ensures id in st.tracks ==> st.tracks[id] == Coasted(tb.tracks[id], frame, cfg)
    {
      StepTracksAt(tb, cfg, [], frame, assign, id);
      if id in tb.tracks {
        StepUnmatched(tb, cfg, [], frame, assign, id);
      }
    }
  }
}
