/**
 * The rule-based species classifier (classifier.py): the box area selects a
 * pool of candidate species, one of them is drawn at random, and a random
 * confidence in [0.60, 0.98) is rounded to two decimals.
 *
 * Randomness is the caller's: `pick` is the index `random.choice` draws and
 * `u` is the value in [0, 1) behind `random.uniform`.
 */
module Classifier {
  import opened Boxes

  /** `SPECIES`: every label the classifier knows. */
  const Species: seq<string> := ["Gazelle", "Zebra", "Wildebeest", "Buffalo", "Elephant", "Hyena", "Lion", "Giraffe"]

  /** Area thresholds separating small, medium and large animals. */
  const SmallArea := 8000
  const MediumArea := 20000

  /** The candidate species for a box of the given area. */
  function Pool(area: int): (p: seq<string>)
    ensures |p| >= 3
  {
    if area < SmallArea then ["Gazelle", "Zebra", "Wildebeest"]
    else if area < MediumArea then ["Zebra", "Buffalo", "Wildebeest"]
    else ["Elephant", "Buffalo", "Giraffe", "Lion"]
  }

  /** `round(v, 2)` for non-negative `v`, rounding halves up. */
  function Round2(v: real): (r: real)
    requires v >= 0.0
    ensures -0.005 < r - v <= 0.005
  {
    ((v * 100.0 + 0.5).Floor as real) / 100.0
  }

  /** A label and its confidence score. */
  datatype Classification = Classification(species: string, confidence: real)

  /** `classify`: label `pick` of the area's pool, confidence from `u`. */
  function Classify(b: Box, pick: int, u: real): (c: Classification)
    requires 0 <= pick < |Pool(b.w * b.h)|
    requires 0.0 <= u < 1.0
    ensures c.species in Pool(b.w * b.h)
  {
    Classification(Pool(b.w * b.h)[pick], Round2(0.60 + 0.38 * u))
  }

  /** Two decimals: the score is a whole number of hundredths. */
  predicate Hundredths(r: real)
  {
    (r * 100.0).Floor as real == r * 100.0
  }

  /**
   * The label is one of `SPECIES`, never "Hyena", and the confidence is a
   * two-decimal number in the documented range 0.60 to 0.98.
   */
  lemma {:induction false} ClassifyInRange(b: Box, pick: int, u: real)
    requires 0 <= pick < |Pool(b.w * b.h)|
    requires 0.0 <= u < 1.0
    ensures Classify(b, pick, u).species in Species
    ensures Classify(b, pick, u).species != "Hyena"
    ensures 0.60 <= Classify(b, pick, u).confidence <= 0.98
    ensures Hundredths(Classify(b, pick, u).confidence)
  {
    var v := 0.60 + 0.38 * u;
    var n := (v * 100.0 + 0.5).Floor;
    assert 60.5 <= v * 100.0 + 0.5 < 98.5;
    assert 60 <= n <= 98;
    assert Classify(b, pick, u).confidence == n as real / 100.0;
  }

  /** Every member of the area's pool is the label for some draw. */
  lemma {:induction false} PoolReachable(b: Box, s: string, u: real)
    requires s in Pool(b.w * b.h)
    requires 0.0 <= u < 1.0
    ensures exists pick :: 0 <= pick < |Pool(b.w * b.h)| && Classify(b, pick, u).species == s
  {
    var p := Pool(b.w * b.h);
    var i :| 0 <= i < |p| && p[i] == s;
    assert Classify(b, i, u).species == s;
  }

  /**
   * Which sizes each label belongs to: Gazelle only for small boxes, Buffalo
   * only for medium or large ones, Elephant, Giraffe and Lion only for large
   * ones; Zebra and Wildebeest never for large ones.
   */
  lemma {:induction false} LabelBySize(b: Box, pick: int, u: real)
    requires 0 <= pick < |Pool(b.w * b.h)|
    requires 0.0 <= u < 1.0
    ensures var s := Classify(b, pick, u).species;
      && (s == "Gazelle" ==> b.w * b.h < SmallArea)
      && (s == "Buffalo" ==> b.w * b.h >= SmallArea)
      && (s in {"Elephant", "Giraffe", "Lion"} ==> b.w * b.h >= MediumArea)
      && (s in {"Zebra", "Wildebeest"} ==> b.w * b.h < MediumArea)
  {
    var p := Pool(b.w * b.h);
    var a := b.w * b.h;
    if a < SmallArea {
      assert p == ["Gazelle", "Zebra", "Wildebeest"];
    } else if a < MediumArea {
      assert p == ["Zebra", "Buffalo", "Wildebeest"];
    } else {
      assert p == ["Elephant", "Buffalo", "Giraffe", "Lion"];
    }
  }
}
