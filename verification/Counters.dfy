/** The byte counters of a conn. */
module Counters {
  datatype Flow = In | Out

  /** Byte counters, one per flow. */
  datatype Traffic = Traffic(bytesIn: nat, bytesOut: nat) {
    function Of(f: Flow): nat {
      if f.In? then bytesIn else bytesOut
    }

    function Plus(t: Traffic): Traffic {
      Traffic(bytesIn + t.bytesIn, bytesOut + t.bytesOut)
    }
  }

  const NOTHING := Traffic(0, 0)
}
