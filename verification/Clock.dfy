/** The clock that all modules share. */
module Clock {

  /** Seconds since the epoch. */
  type Time = int
}
