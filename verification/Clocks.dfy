/** The wall clock, as the only thing assumed about it: it does not go back. */
module Clocks {

  class Clock {
    /** The last reading of `now()`, in ns. */
    var now: nat

    constructor (now: nat)
      ensures this.now == now
    {
      this.now := now;
    }

    method Read() returns (t: nat)
      modifies this
      ensures t == now && now >= old(now)
    {
      assert now <= now;
      t :| now <= t;
      now := t;
    }
  }
}
