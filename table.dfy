/**
 * The track table of `ObjectTracker` (tracker.py) as a value, and the effect
 * of one `update` call on it, given the association that the greedy loop
 * produced.  The class in tracker.dfy is proved to follow `Step`.
 */
module Table {
  import opened Wrappers
  import opened Boxes
  import opened Kalman
  import opened Tracks
  import opened Association

  /** The mutable state of the tracker: `_tracks`, `_finished_tracks`, `_next_id`. */
  datatype TrackTable = TrackTable(tracks: map<int, Track>, finished: seq<Track>, nextId: int)

  /** The per-track facts the table keeps: key equals id, id already allocated, bounded `missed`. */
  ghost predicate TrackOk(t: Track, id: int, nextId: int, maxMissed: int)
  {
    && t.id == id
    && 1 <= id < nextId
    && 0 <= t.missed <= Max(maxMissed, 0)
    && t.pathLength >= 0.0
  }

  /** Every live track is stored under its own id and satisfies `TrackOk`. */
  ghost predicate LiveOk(tracks: map<int, Track>, nextId: int, maxMissed: int)
  {
    forall id :: id in tracks ==> TrackOk(tracks[id], id, nextId, maxMissed)
  }

  /** Archived tracks carry allocated ids, none of them live, none twice. */
  ghost predicate ArchiveOk(finished: seq<Track>, live: set<int>, nextId: int)
  {
    && (forall k :: 0 <= k < |finished| ==>
          1 <= finished[k].id < nextId && finished[k].id !in live && finished[k].pathLength >= 0.0)
    && (forall j, k :: 0 <= j < k < |finished| ==> finished[j].id != finished[k].id)
  }

  /** The invariant of the track table. */
  ghost predicate WellFormed(tb: TrackTable, maxMissed: int)
  {
    && tb.nextId >= 1
    && LiveOk(tb.tracks, tb.nextId, maxMissed)
    && ArchiveOk(tb.finished, tb.tracks.Keys, tb.nextId)
  }

  /** Step 1 of `update`: every live track predicted forward. */
  function PredictAll(tracks: map<int, Track>, cfg: Config): (r: map<int, Track>)
    ensures r.Keys == tracks.Keys
  {
    map id | id in tracks :: PredictTrack(tracks[id], cfg)
  }

  /** `set(assignments.values())`: the tracks that got a detection. */
  function MatchedIds(assign: map<int, int>): set<int>
  {
    set d | d in assign :: assign[d]
  }

  /** The detection assigned to a matched track. */
  ghost function DetOf(assign: map<int, int>, id: int): (d: int)
    requires id in MatchedIds(assign)
    ensures d in assign && assign[d] == id
  {
    var d :| d in assign && assign[d] == id; d
  }

  lemma {:induction false} DetOfInjective(assign: map<int, int>, n: int, ids: set<int>, d: int)
    requires WellFormedAssignment(assign, n, ids) && d in assign
    ensures DetOf(assign, assign[d]) == d
  {
  }

  /** Step 3 of `update`: every matched track takes its detection; the others are untouched. */
  ghost function ApplyMatches(pred: map<int, Track>, cfg: Config, boxes: seq<Box>, frame: int, assign: map<int, int>)
    : (r: map<int, Track>)
    requires WellFormedAssignment(assign, |boxes|, pred.Keys)
    ensures r.Keys == pred.Keys
  {
    map id | id in pred ::
      if id in MatchedIds(assign) then MatchTrack(pred[id], boxes[DetOf(assign, id)], frame, cfg) else pred[id]
  }

  /** Step 4 of `update`: every track outside `matched` coasts; the others are untouched. */
  function ApplyCoasting(m: map<int, Track>, cfg: Config, frame: int, matched: set<int>): (r: map<int, Track>)
    ensures r.Keys == m.Keys
  {
    map id | id in m :: if id in matched then m[id] else CoastTrack(m[id], frame, cfg)
  }

  /** Steps 3 and 4 of `update`: matched tracks take their detection, the others coast. */
  ghost function Updated(pred: map<int, Track>, cfg: Config, boxes: seq<Box>, frame: int, assign: map<int, int>)
    : (r: map<int, Track>)
    requires WellFormedAssignment(assign, |boxes|, pred.Keys)
    ensures r.Keys == pred.Keys
  {
    ApplyCoasting(ApplyMatches(pred, cfg, boxes, frame, assign), cfg, frame, MatchedIds(assign))
  }

  /** `to_finish`: the ids, in the order given, of unmatched tracks whose `missed` exceeds the limit. */
  function Expiring(ids: seq<int>, upd: map<int, Track>, matched: set<int>, maxMissed: int): (r: seq<int>)
    ensures forall k :: 0 <= k < |r| ==> r[k] in upd
  {
    if ids == [] then []
    else
      var last := ids[|ids| - 1];
      Expiring(ids[..|ids| - 1], upd, matched, maxMissed)
        + (if last !in matched && last in upd && upd[last].missed > maxMissed then [last] else [])
  }

  /** Detection indices below `n` that got no track, in increasing order. */
  function Unassigned(assign: map<int, int>, n: nat): (r: seq<int>)
    ensures forall k :: 0 <= k < |r| ==> 0 <= r[k] < n
  {
    if n == 0 then []
    else Unassigned(assign, n - 1) + (if n - 1 !in assign then [n - 1] else [])
  }

  /** Step 5 of `update`: one new track per seed detection, with consecutive ids from `nextId`. */
  function Spawn(nextId: int, boxes: seq<Box>, seeds: seq<int>, frame: int): map<int, Track>
    requires forall k :: 0 <= k < |seeds| ==> 0 <= seeds[k] < |boxes|
  {
    if seeds == [] then map[]
    else
      var n := |seeds| - 1;
      Spawn(nextId, boxes, seeds[..n], frame)[nextId + n := NewTrack(nextId + n, boxes[seeds[n]], frame)]
  }

  /** The tracks stored under `ids`, in that order. */
  function Collect(m: map<int, Track>, ids: seq<int>): (r: seq<Track>)
    requires forall k :: 0 <= k < |ids| ==> ids[k] in m
    ensures |r| == |ids| && forall k :: 0 <= k < |ids| ==> r[k] == m[ids[k]]
  {
    seq(|ids|, k requires 0 <= k < |ids| => m[ids[k]])
  }

  /** The tracks of the frame after steps 1-4 (only meaningful for a non-empty table). */
  ghost function Upd(tb: TrackTable, cfg: Config, boxes: seq<Box>, frame: int, assign: map<int, int>)
    : (r: map<int, Track>)
    requires WellFormedAssignment(assign, |boxes|, tb.tracks.Keys)
    ensures r.Keys == tb.tracks.Keys
  {
    Updated(PredictAll(tb.tracks, cfg), cfg, boxes, frame, assign)
  }

  /** The ids that are archived this frame, in table order. */
  ghost function Gone(tb: TrackTable, cfg: Config, boxes: seq<Box>, frame: int, assign: map<int, int>): (r: seq<int>)
    requires WellFormedAssignment(assign, |boxes|, tb.tracks.Keys)
    ensures forall k :: 0 <= k < |r| ==> r[k] in Upd(tb, cfg, boxes, frame, assign)
  {
    Expiring(SortedIds(tb.tracks.Keys), Upd(tb, cfg, boxes, frame, assign), MatchedIds(assign), cfg.maxMissed)
  }

  /**
   * Steps 5 and 6 of `update` once the corrected tracks `upd` and the ids
   * `gone` to archive are known: the archived tracks leave the table and are
   * appended to the archive in the order of `gone`, and the new tracks `born`
   * join the table, which then allocates from `next`.
   */
  function Retire(tb: TrackTable, upd: map<int, Track>, gone: seq<int>, born: map<int, Track>, next: int): TrackTable
    requires forall k :: 0 <= k < |gone| ==> gone[k] in upd
  {
    TrackTable((upd - Elements(gone)) + born, tb.finished + Collect(upd, gone), next)
  }

  /**
   * One call of `update(boxes, frame)` on the table `tb`, where `assign` maps
   * detection indices to the tracks the association loop gave them.
   */
  ghost function Step(tb: TrackTable, cfg: Config, boxes: seq<Box>, frame: int, assign: map<int, int>): TrackTable
    requires WellFormedAssignment(assign, |boxes|, tb.tracks.Keys)
  {
    if tb.tracks == map[] then
      TrackTable(Births(tb.nextId, boxes, assign, frame), tb.finished, tb.nextId + BirthCount(assign, |boxes|))
    else
      Retire(tb, Upd(tb, cfg, boxes, frame, assign), Gone(tb, cfg, boxes, frame, assign),
             Births(tb.nextId, boxes, assign, frame), tb.nextId + BirthCount(assign, |boxes|))
  }

  /** The tracks started this frame: one per unassigned detection, in detection order. */
  function Births(nextId: int, boxes: seq<Box>, assign: map<int, int>, frame: int): map<int, Track>
  {
    Spawn(nextId, boxes, Unassigned(assign, |boxes|), frame)
  }

  /** How many tracks are started this frame. */
  function BirthCount(assign: map<int, int>, n: nat): nat
  {
    |Unassigned(assign, n)|
  }

  /** The ids `update` reports on the non-empty-table path: tracks matched or created this frame. */
  ghost function Reported(tb: TrackTable, boxes: seq<Box>, assign: map<int, int>): set<int>
  {
    MatchedIds(assign) + Births(tb.nextId, boxes, assign, 0).Keys
  }

  // ---------------------------------------------------------------------
  // Facts about the pieces
  // ---------------------------------------------------------------------

  lemma {:induction false} ExpiringWithin(ids: seq<int>, upd: map<int, Track>, matched: set<int>, maxMissed: int)
    ensures forall x :: x in Expiring(ids, upd, matched, maxMissed) <==>
      x in ids && x !in matched && x in upd && upd[x].missed > maxMissed
    ensures StrictlyIncreasing(ids) ==> StrictlyIncreasing(Expiring(ids, upd, matched, maxMissed))
    ensures StrictlyIncreasing(ids) ==> forall x :: x in Expiring(ids, upd, matched, maxMissed) ==> x <= ids[|ids| - 1]
  {
    if ids != [] {
      var init := ids[..|ids| - 1];
      var last := ids[|ids| - 1];
      assert forall x :: x in ids <==> x in init || x == last;
      ExpiringWithin(init, upd, matched, maxMissed);
      if StrictlyIncreasing(ids) {
        assert StrictlyIncreasing(init);
        var front := Expiring(init, upd, matched, maxMissed);
        assert forall x :: x in front ==> x in init && x < last;
        var tail: seq<int> := if last !in matched && last in upd && upd[last].missed > maxMissed then [last] else [];
        assert Expiring(ids, upd, matched, maxMissed) == front + tail;
        forall i, j | 0 <= i < j < |front + tail| ensures (front + tail)[i] < (front + tail)[j] {
          if j >= |front| { assert (front + tail)[i] in front; }
        }
      }
    }
  }

  lemma {:induction false} UnassignedMembers(assign: map<int, int>, n: nat)
    ensures forall x :: x in Unassigned(assign, n) <==> 0 <= x < n && x !in assign
  {
    if n > 0 {
      UnassignedMembers(assign, n - 1);
      var front := Unassigned(assign, n - 1);
      assert Unassigned(assign, n) == front + (if n - 1 !in assign then [n - 1] else []);
    }
  }

  lemma {:induction false} UnassignedAll(n: nat)
    ensures Unassigned(map[], n) == seq(n, k => k)
  {
    if n > 0 {
      UnassignedAll(n - 1);
      assert seq(n, k => k) == seq(n - 1, k => k) + [n - 1];
    }
  }

  lemma {:induction false} UnassignedIncreasing(assign: map<int, int>, n: nat)
    ensures StrictlyIncreasing(Unassigned(assign, n))
  {
    if n > 0 {
      UnassignedIncreasing(assign, n - 1);
      var front := Unassigned(assign, n - 1);
      var tail: seq<int> := if n - 1 !in assign then [n - 1] else [];
      assert Unassigned(assign, n) == front + tail;
      forall i, j | 0 <= i < j < |front + tail| ensures (front + tail)[i] < (front + tail)[j] {
        if j >= |front| { assert (front + tail)[i] in front; }
      }
    }
  }

  /** `Spawn` holds exactly the ids `nextId .. nextId + |seeds| - 1`, the k-th seeded by `seeds[k]`. */
  lemma {:induction false} SpawnSpec(nextId: int, boxes: seq<Box>, seeds: seq<int>, frame: int)
    requires forall k :: 0 <= k < |seeds| ==> 0 <= seeds[k] < |boxes|
    ensures forall id :: id in Spawn(nextId, boxes, seeds, frame) <==> nextId <= id < nextId + |seeds|
    ensures forall k :: 0 <= k < |seeds| ==>
      Spawn(nextId, boxes, seeds, frame)[nextId + k] == NewTrack(nextId + k, boxes[seeds[k]], frame)
  {
    if seeds != [] {
      var n := |seeds| - 1;
      SpawnSpec(nextId, boxes, seeds[..n], frame);
      assert forall k :: 0 <= k < n ==> seeds[..n][k] == seeds[k];
    }
  }

  /** The tracks started this frame hold exactly the next `BirthCount` ids, the k-th seeded by the k-th unassigned detection. */
  lemma {:induction false} BirthsSpec(nextId: int, boxes: seq<Box>, assign: map<int, int>, frame: int)
    ensures forall id :: id in Births(nextId, boxes, assign, frame) <==> nextId <= id < nextId + BirthCount(assign, |boxes|)
    ensures forall k :: 0 <= k < BirthCount(assign, |boxes|) ==>
      Births(nextId, boxes, assign, frame)[nextId + k] == NewTrack(nextId + k, boxes[Unassigned(assign, |boxes|)[k]], frame)
  {
    SpawnSpec(nextId, boxes, Unassigned(assign, |boxes|), frame);
  }

  /** A strictly increasing run of `m` integers inside `[lo, lo + m)` is that interval, in order. */
  lemma {:induction false} IncreasingInterval(s: seq<int>, lo: int)
    requires StrictlyIncreasing(s)
    requires forall k :: 0 <= k < |s| ==> lo <= s[k] < lo + |s|
    ensures forall k :: 0 <= k < |s| ==> s[k] == lo + k
  {
    forall k | 0 <= k < |s| ensures s[k] == lo + k {
      IncreasingFrom(s, lo, k);
      IncreasingUpTo(s, lo + |s| - 1, k);
    }
  }

  lemma {:induction false} IncreasingFrom(s: seq<int>, lo: int, k: int)
    requires StrictlyIncreasing(s) && 0 <= k < |s| && forall j :: 0 <= j < |s| ==> lo <= s[j]
    ensures s[k] >= lo + k
  {
    if k > 0 { IncreasingFrom(s, lo, k - 1); }
  }

  lemma {:induction false} IncreasingUpTo(s: seq<int>, hi: int, k: int)
    requires StrictlyIncreasing(s) && 0 <= k < |s| && forall j :: 0 <= j < |s| ==> s[j] <= hi
    ensures s[k] <= hi - (|s| - 1 - k)
    decreases |s| - k
  {
    if k < |s| - 1 { IncreasingUpTo(s, hi, k + 1); }
  }

  lemma {:induction false} TakenBeforeNext(assign: map<int, int>, d: int)
    ensures TakenBefore(assign, d + 1) == TakenBefore(assign, d) + (if d in assign then {assign[d]} else {})
  {
    var next := TakenBefore(assign, d + 1);
    var here := TakenBefore(assign, d) + (if d in assign then {assign[d]} else {});
    forall x | x in next ensures x in here {
      var e :| e in assign && e < d + 1 && assign[e] == x;
      if e < d { assert x in TakenBefore(assign, d); }
    }
    forall x | x in here ensures x in next {
      if x in TakenBefore(assign, d) {
        var e :| e in assign && e < d && assign[e] == x;
        assert x in next;
      } else {
        assert d in assign && assign[d] == x;
      }
    }
  }

  lemma {:induction false} TakenBeforeAll(assign: map<int, int>, n: int)
    requires forall d :: d in assign ==> d < n
    ensures TakenBefore(assign, n) == MatchedIds(assign)
  {

  }

  /** A detection-free frame leaves nothing to match. */
  lemma {:induction false} NoBoxesNoAssignment(assign: map<int, int>, ids: set<int>)
    requires WellFormedAssignment(assign, 0, ids)
    ensures assign == map[]
  {
    if assign != map[] {
      HasElement(assign.Keys);
      assert false;
    }
  }

  /** The association chosen for the predicted table fits the table itself. */
  lemma {:induction false} GreedyFitsTable(boxes: seq<Box>, tracks: map<int, Track>, assign: map<int, int>, cfg: Config)
    requires Greedy(boxes, PredictAll(tracks, cfg), assign, cfg)
    ensures WellFormedAssignment(assign, |boxes|, tracks.Keys)
  {
    GreedyIsInjective(boxes, PredictAll(tracks, cfg), assign, cfg);
  }
}
