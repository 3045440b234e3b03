/**
 * One track of tracker.py, and the per-track steps of `ObjectTracker.update`:
 * creation (`_start_new_track`), prediction (`_kalman_predict`), the matched
 * update and the unmatched ("coasting") update.
 */
module Tracks {
  import opened Boxes
  import opened Kalman

  /** Constructor-time settings of the tracker, plus the parts of the filter the model leaves abstract. */
  datatype Config = Config(
    frameWidth: int,
    frameHeight: int,
    maxDistance: real,
    maxMissed: int,
    minIou: real,
    hypot: Metric,
    correct: Correction)

  /** The track record (the dict built by `_start_new_track`). */
  datatype Track = Track(
    id: int,
    box: Box,
    center: Point,
    lastCenter: Point,
    filter: Filter,
    missed: int,
    firstFrame: int,
    lastFrame: int,
    history: seq<(int, Box)>,
    pathLength: real,
    predCenter: Point,
    predBox: Box)

  /** What `update` hands back for a track: the short view of the empty-table path, or the full one. */
  datatype TrackView =
    | BriefView(id: int, box: Box, center: Point)
    | FullView(id: int, box: Box, center: Point, lastCenter: Point, kfState: Vec4,
               pathLength: real, firstFrame: int, lastFrame: int)

  function Brief(t: Track): TrackView
  {
    BriefView(t.id, t.box, t.center)
  }

  function Full(t: Track): TrackView
  {
    FullView(t.id, t.box, t.center, t.lastCenter, t.filter.mean, t.pathLength, t.firstFrame, t.lastFrame)
  }

  /** `_start_new_track`: a fresh track seeded from one detection. */
  function NewTrack(id: int, box: Box, frame: int): Track
  {
    var c := CenterOf(box);
    Track(id, box, c, c, InitialFilter(c), 0, frame, frame, [(frame, box)], 0.0, c, box)
  }

  /** The filter's position components as a point. */
  function Position(f: Filter): Point
  {
    Point(f.mean[0], f.mean[1])
  }

  /** `_kalman_predict`: advance the filter and record the predicted centre and box. */
  function PredictTrack(t: Track, cfg: Config): Track
  {
    var f := Predict(t.filter);
    var c := Position(f);
    t.(filter := f, predCenter := c, predBox := PredictedBox(c, t.box, cfg.frameWidth, cfg.frameHeight))
  }

  /** The bookkeeping of a track that was assigned detection `meas` this frame. */
  function MatchTrack(t: Track, meas: Box, frame: int, cfg: Config): Track
  {
    var f := cfg.correct(t.filter, CenterOf(meas));
    var c := Position(f);
    t.(filter := f, box := meas, center := c, lastFrame := frame,
       pathLength := t.pathLength + Distance(cfg.hypot, c, t.lastCenter), lastCenter := c,
       missed := 0, history := t.history + [(frame, meas)])
  }

  /** The bookkeeping of a track that got no detection this frame: it coasts on its prediction. */
  function CoastTrack(t: Track, frame: int, cfg: Config): Track
  {
    t.(missed := t.missed + 1, center := t.predCenter, box := t.predBox, lastFrame := frame,
       pathLength := t.pathLength + Distance(cfg.hypot, t.predCenter, t.lastCenter),
       lastCenter := t.predCenter)
  }
}
