/** Timed events of a run, and which state of the run is in force at an instant. */
module Runs {
  import opened Calendar

  datatype Timed<E> = Timed(at: Time, event: E)

  ghost predicate ClockForward<E>(es: seq<Timed<E>>) {
    forall i, j | 0 <= i <= j < |es| :: es[i].at <= es[j].at
  }

  /** The state after j events is the one in force at instant c. */
  predicate InForce<E>(es: seq<Timed<E>>, j: int, c: Time) {
    && 0 <= j <= |es|
    && (j > 0 ==> es[j - 1].at <= c)
    && (j < |es| ==> c <= es[j].at)
  }
}
