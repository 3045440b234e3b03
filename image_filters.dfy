/**
 * The frame filter's mode selection (image_filters.py `FrameFilter`): the
 * mode is always one of the valid names, and unknown names fall back to
 * "None".
 */
module ImageFilters {
  /** `VALID_MODES`. */
  const ValidModes: seq<string> := ["None", "Grayscale", "Blur", "Edge"]

  /** The mode `set_mode` stores for a requested name. */
  function Normalize(m: string): (r: string)
    ensures r in ValidModes
    ensures m in ValidModes ==> r == m
    ensures m !in ValidModes ==> r == "None"
  {
    if m in ValidModes then m else "None"
  }

  /** Normalizing a stored mode changes nothing. */
  lemma {:induction false} NormalizeIdempotent(m: string)
    ensures Normalize(Normalize(m)) == Normalize(m)
  {
    assert Normalize(m) in ValidModes;
  }

  /** Only "None" itself and unknown names give the "None" mode. */
  lemma {:induction false} NoneExactly(m: string)
    ensures Normalize(m) == "None" <==> m == "None" || m !in ValidModes
  {
    assert ValidModes[0] == "None";
  }

  class FrameFilter {
    var mode: string

    /** The mode is a valid name. */
    ghost predicate Valid()
      reads this
    {
      mode in ValidModes
    }

    /** `__init__`: start at "None", then apply the requested mode. */
    constructor(m: string)
      ensures mode == Normalize(m)
      ensures Valid()
    {
      mode := "None";
      new;
      SetMode(m);
    }

    /** `set_mode`: store the name if it is valid, otherwise "None". */
    method SetMode(m: string)
      modifies this
      ensures mode == Normalize(m)
      ensures Valid()
    {
      var chosen := m;
      if chosen !in ValidModes {
        chosen := "None";
      }
      mode := chosen;
    }
  }
}
