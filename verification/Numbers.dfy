/** The arithmetic of counters and bounds. */
module Numbers {

  function Min(a: nat, b: nat): nat { if a < b then a else b }

  function Max(a: nat, b: nat): nat { if a < b then b else a }

  /** `saturating_sub`. */
  function SatSub(a: nat, b: nat): nat { if a < b then 0 else a - b }
}
