/** Clock vectors, with a clock for each of the first few threads. */
module ClockVectors {

  type ClockVector = seq<nat>

  /** The clock of a thread; threads beyond the vector have clock 0. */
  function GetClock(cv: ClockVector, tid: nat): nat {
    if tid < |cv| then cv[tid] else 0
  }

  ghost predicate Below(cv1: ClockVector, cv2: ClockVector) {
    forall t: nat :: GetClock(cv1, t) <= GetClock(cv2, t)
  }
}
