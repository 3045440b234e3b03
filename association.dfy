/**
 * The association loop of `ObjectTracker.update` (tracker.py): each detection,
 * in order, takes the still-unassigned track with the highest IoU against the
 * track's predicted box (ties: smaller centre distance), and keeps it if the
 * IoU or the distance passes its threshold.
 */
module Association {
  import opened Wrappers
  import opened Boxes
  import opened Tracks

  /** IoU of a detection with the predicted box of track `id`. */
  function IouWith(box: Box, pred: map<int, Track>, id: int): (r: real)
    requires id in pred
    ensures 0.0 <= r <= 1.0
  {
    Iou(box, pred[id].predBox)
  }

  /** Distance from the predicted centre of track `id` to the detection's centre. */
  function DistWith(hypot: Metric, box: Box, pred: map<int, Track>, id: int): (d: real)
    requires id in pred
    ensures d >= 0.0
  {
    Distance(hypot, CenterOf(box), pred[id].predCenter)
  }

  /** Track `c` ranks no higher than track `id`: lower IoU, or equal IoU and no smaller distance. */
  ghost predicate RanksAbove(box: Box, pred: map<int, Track>, hypot: Metric, id: int, c: int)
    requires id in pred && c in pred
  {
    IouWith(box, pred, c) < IouWith(box, pred, id)
    || (IouWith(box, pred, c) == IouWith(box, pred, id) && DistWith(hypot, box, pred, id) <= DistWith(hypot, box, pred, c))
  }

  /** `id` is a best candidate among `avail` for the detection `box`. */
  ghost predicate IsBest(box: Box, pred: map<int, Track>, avail: set<int>, id: int, hypot: Metric)
  {
    && avail <= pred.Keys
    && id in avail
    && forall c :: c in avail ==> RanksAbove(box, pred, hypot, id, c)
  }

  /** The gate: `best_iou >= min_iou or best_dist <= max_distance`. */
  predicate Accepted(cfg: Config, iou: real, dist: real)
  {
    iou >= cfg.minIou || dist <= cfg.maxDistance
  }

  /** Tracks taken by detections before index `i`. */
  ghost function TakenBefore(assign: map<int, int>, i: int): set<int>
  {
    set d | d in assign && d < i :: assign[d]
  }

  /** Tracks still unassigned when detection `i` is processed. */
  ghost function AvailableAt(pred: map<int, Track>, assign: map<int, int>, i: int): set<int>
  {
    pred.Keys - TakenBefore(assign, i)
  }

  /** Detection `i` was handled as the greedy loop handles it. */
  ghost predicate GreedyAt(boxes: seq<Box>, pred: map<int, Track>, assign: map<int, int>, cfg: Config, i: int)
    requires 0 <= i < |boxes|
  {
    var avail := AvailableAt(pred, assign, i);
    if i in assign then
      && IsBest(boxes[i], pred, avail, assign[i], cfg.hypot)
      && Accepted(cfg, IouWith(boxes[i], pred, assign[i]), DistWith(cfg.hypot, boxes[i], pred, assign[i]))
    else
      forall c :: IsBest(boxes[i], pred, avail, c, cfg.hypot) ==>
        !Accepted(cfg, IouWith(boxes[i], pred, c), DistWith(cfg.hypot, boxes[i], pred, c))
  }

  /** `assign` (detection index to track id) is an outcome of the greedy association. */
  ghost predicate Greedy(boxes: seq<Box>, pred: map<int, Track>, assign: map<int, int>, cfg: Config)
  {
    && (forall d :: d in assign ==> 0 <= d < |boxes|)
    && (forall i :: 0 <= i < |boxes| ==> GreedyAt(boxes, pred, assign, cfg, i))
  }

  /** Detection indices in range, tracks in the table, and no track used twice. */
  ghost predicate WellFormedAssignment(assign: map<int, int>, n: int, ids: set<int>)
  {
    && (forall d :: d in assign ==> 0 <= d < n && assign[d] in ids)
    && (forall d1, d2 :: d1 in assign && d2 in assign && d1 != d2 ==> assign[d1] != assign[d2])
  }

  /** The greedy association is a partial injective map from detections into the table. */
  lemma {:induction false} GreedyIsInjective(boxes: seq<Box>, pred: map<int, Track>, assign: map<int, int>, cfg: Config)
    requires Greedy(boxes, pred, assign, cfg)
    ensures WellFormedAssignment(assign, |boxes|, pred.Keys)
  {
    forall d | d in assign ensures assign[d] in pred.Keys {
      assert GreedyAt(boxes, pred, assign, cfg, d);
    }
    forall d1, d2 | d1 in assign && d2 in assign && d1 < d2 ensures assign[d1] != assign[d2] {
      assert GreedyAt(boxes, pred, assign, cfg, d2);
      assert assign[d1] in TakenBefore(assign, d2);
    }
  }

  /** Every non-empty candidate set has a best candidate. */
  lemma {:induction false} BestExists(box: Box, pred: map<int, Track>, avail: set<int>, hypot: Metric)
    requires avail != {} && avail <= pred.Keys
    ensures exists id :: IsBest(box, pred, avail, id, hypot)
    decreases |avail|
  {
    var y := PickOne(avail);
    if avail == {y} {
      assert IsBest(box, pred, avail, y, hypot);
    } else {
      var rest := avail - {y};
      BestExists(box, pred, rest, hypot);
      var b :| IsBest(box, pred, rest, b, hypot);
      var winner := if RanksAbove(box, pred, hypot, b, y) then b else y;
      forall c | c in avail ensures RanksAbove(box, pred, hypot, winner, c) {
        if c != y { assert c in rest; }
      }
      assert IsBest(box, pred, avail, winner, hypot);
    }
  }

  /** A detection is matched exactly when some best remaining candidate passes the gate. */
  lemma {:induction false} GreedyMatchIff(boxes: seq<Box>, pred: map<int, Track>, assign: map<int, int>, cfg: Config, i: int)
    requires Greedy(boxes, pred, assign, cfg) && 0 <= i < |boxes|
    ensures i in assign <==>
      exists c :: IsBest(boxes[i], pred, AvailableAt(pred, assign, i), c, cfg.hypot)
               && Accepted(cfg, IouWith(boxes[i], pred, c), DistWith(cfg.hypot, boxes[i], pred, c))
  {
    assert GreedyAt(boxes, pred, assign, cfg, i);
  }

  /** All best candidates share one IoU and one distance, so the gate does not depend on which is taken. */
  lemma {:induction false} BestScoresAgree(box: Box, pred: map<int, Track>, avail: set<int>, a: int, b: int, hypot: Metric)
    requires IsBest(box, pred, avail, a, hypot) && IsBest(box, pred, avail, b, hypot)
    ensures IouWith(box, pred, a) == IouWith(box, pred, b)
    ensures DistWith(hypot, box, pred, a) == DistWith(hypot, box, pred, b)
  {
    assert RanksAbove(box, pred, hypot, a, b) && RanksAbove(box, pred, hypot, b, a);
  }

  /**
   * The inner loop over `unmatched_track_ids`, visited in an arbitrary order
   * (Python set order) with the source's strict comparisons.
   */
  method BestCandidate(box: Box, pred: map<int, Track>, cands: set<int>, hypot: Metric)
    returns (bestId: Option<int>, bestIou: real, bestDist: Extended)
    requires cands <= pred.Keys
    ensures bestId.None? <==> cands == {}
    ensures bestId.None? ==> bestIou == 0.0 && bestDist == Infinity
    ensures bestId.Some? ==>
      && IsBest(box, pred, cands, bestId.value, hypot)
      && bestIou == IouWith(box, pred, bestId.value)
      && bestDist == Finite(DistWith(hypot, box, pred, bestId.value))
  {
    bestId, bestIou, bestDist := None, 0.0, Infinity;
    var rest := cands;
    while rest != {}
      invariant rest <= cands
      invariant bestId.None? <==> rest == cands
      invariant bestId.None? ==> bestIou == 0.0 && bestDist == Infinity
      invariant bestId.Some? ==>
        && IsBest(box, pred, cands - rest, bestId.value, hypot)
        && bestIou == IouWith(box, pred, bestId.value)
        && bestDist == Finite(DistWith(hypot, box, pred, bestId.value))
      decreases rest
    {
      HasElement(rest);
      var t :| t in rest;
      var iou := IouWith(box, pred, t);
      var dist := DistWith(hypot, box, pred, t);
      ghost var seen := cands - rest;
      if iou > bestIou || (iou == bestIou && bestDist.Exceeds(dist)) {
        if bestId.Some? {
          VisitBetter(box, pred, seen, bestId.value, t, hypot);
        } else {
          assert seen == {};
          assert IsBest(box, pred, {t}, t, hypot);
        }
        bestId, bestIou, bestDist := Some(t), iou, Finite(dist);
      } else {
        VisitWorse(box, pred, seen, bestId.value, t, hypot);
      }
      rest := rest - {t};
      assert cands - rest == seen + {t};
    }
  }

  /** Visiting a candidate that ranks strictly above the best so far makes it the best. */
  lemma {:induction false} VisitBetter(box: Box, pred: map<int, Track>, seen: set<int>, b: int, t: int, hypot: Metric)
    requires IsBest(box, pred, seen, b, hypot) && t in pred
    requires !RanksAbove(box, pred, hypot, b, t)
    ensures IsBest(box, pred, seen + {t}, t, hypot)
  {
    forall c | c in seen ensures RanksAbove(box, pred, hypot, t, c) {
      assert RanksAbove(box, pred, hypot, b, c);
    }
  }

  /** Visiting a candidate that does not rank strictly above the best so far keeps the best. */
  lemma {:induction false} VisitWorse(box: Box, pred: map<int, Track>, seen: set<int>, b: int, t: int, hypot: Metric)
    requires IsBest(box, pred, seen, b, hypot) && t in pred
    requires RanksAbove(box, pred, hypot, b, t)
    ensures IsBest(box, pred, seen + {t}, b, hypot)
  {
  }

  /** GreedyAt(j) only looks at detection j's entry and at what earlier detections took. */
  lemma {:induction false} GreedyAtFrame(boxes: seq<Box>, pred: map<int, Track>, a1: map<int, int>, a2: map<int, int>, cfg: Config, j: int)
    requires 0 <= j < |boxes|
    requires (j in a1 <==> j in a2) && (j in a1 ==> a1[j] == a2[j])
    requires TakenBefore(a1, j) == TakenBefore(a2, j)
    requires GreedyAt(boxes, pred, a1, cfg, j)
    ensures GreedyAt(boxes, pred, a2, cfg, j)
  {
    assert AvailableAt(pred, a1, j) == AvailableAt(pred, a2, j);
  }

  /** The outer loop: detections in order, each taking at most one still-unassigned track. */
  method Associate(boxes: seq<Box>, pred: map<int, Track>, cfg: Config) returns (assign: map<int, int>)
    ensures Greedy(boxes, pred, assign, cfg)
  {
    assign := map[];
    var unmatched := pred.Keys;
    for i := 0 to |boxes|
      invariant forall d :: d in assign ==> 0 <= d < i
      invariant unmatched == AvailableAt(pred, assign, i)
      invariant forall j :: 0 <= j < i ==> GreedyAt(boxes, pred, assign, cfg, j)
    {
      var bestId, bestIou, bestDist := BestCandidate(boxes[i], pred, unmatched, cfg.hypot);
      ghost var before := assign;
      if bestId.Some? && (bestIou >= cfg.minIou || bestDist.AtMost(cfg.maxDistance)) {
        assign := assign[i := bestId.value];
        unmatched := unmatched - {bestId.value};
        TakenBeforeExtend(before, i, bestId.value);
      } else if bestId.Some? {
        forall c | IsBest(boxes[i], pred, unmatched, c, cfg.hypot)
          ensures !Accepted(cfg, IouWith(boxes[i], pred, c), DistWith(cfg.hypot, boxes[i], pred, c))
        {
          BestScoresAgree(boxes[i], pred, unmatched, c, bestId.value, cfg.hypot);
        }
      }
      forall j | 0 <= j < i ensures GreedyAt(boxes, pred, assign, cfg, j) {
        GreedyAtFrame(boxes, pred, before, assign, cfg, j);
      }
      assert GreedyAt(boxes, pred, assign, cfg, i);
    }
  }

  /** Adding detection `i`'s match leaves what earlier detections saw unchanged. */
  lemma {:induction false} TakenBeforeExtend(assign: map<int, int>, i: int, t: int)
    requires forall d :: d in assign ==> d < i
    ensures forall j :: j <= i ==> TakenBefore(assign[i := t], j) == TakenBefore(assign, j)
    ensures TakenBefore(assign[i := t], i + 1) == TakenBefore(assign, i) + {t}
  {
    var extended := assign[i := t];
    forall j | j <= i ensures TakenBefore(extended, j) == TakenBefore(assign, j) {
      forall x | x in TakenBefore(extended, j) ensures x in TakenBefore(assign, j) {
        var d :| d in extended && d < j && extended[d] == x;
        assert d in assign && assign[d] == x;
      }
      forall x | x in TakenBefore(assign, j) ensures x in TakenBefore(extended, j) {
        var d :| d in assign && d < j && assign[d] == x;
        assert extended[d] == x;
      }
    }
    forall x | x in TakenBefore(extended, i + 1) ensures x in TakenBefore(assign, i) + {t} {
      var d :| d in extended && d < i + 1 && extended[d] == x;
      if d != i { assert d in assign && assign[d] == x; }
    }
    forall x | x in TakenBefore(assign, i) + {t} ensures x in TakenBefore(extended, i + 1) {
      if x == t {
        assert extended[i] == x;
      } else {
        var d :| d in assign && d < i && assign[d] == x;
        assert extended[d] == x;
      }
    }
  }
}
