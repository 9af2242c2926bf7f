/** The metronome: a logical clock counting access moments within one
    training iteration, and the flag telling warm-up from replay. */
module Clocks {

  /** A snapshot of the metronome, as the next-use predictor reads it. */
  datatype Clock = Clock(moment: nat, totalMoment: nat, isWarmup: bool)

  /** The metronome is advanced by the training loop, which also fixes
      `totalMoment` and clears `isWarmup` when warm-up ends; the eviction
      policy only reads it. */
  class Metronome {
    var moment: nat
    var totalMoment: nat
    var isWarmup: bool

    constructor (moment: nat, totalMoment: nat, isWarmup: bool)
      ensures this.moment == moment && this.totalMoment == totalMoment && this.isWarmup == isWarmup
    {
      this.moment := moment;
      this.totalMoment := totalMoment;
      this.isWarmup := isWarmup;
    }

    /** The current reading of all three fields. */
    function Now(): Clock
      reads this
    {
      Clock(moment, totalMoment, isWarmup)
    }
  }
}
