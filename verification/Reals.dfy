/** Small functions of real numbers that several parts of the server share. */
module Reals {
  function Max(a: real, b: real): real {
    if a >= b then a else b
  }

  function Min(a: real, b: real): real {
    if a <= b then a else b
  }

  /** `Instant::duration_since`: zero rather than negative. */
  function Elapsed(now: real, since: real): (d: real)
    ensures d >= 0.0
  {
    if now >= since then now - since else 0.0
  }

  function Total(dts: seq<real>): real {
    if dts == [] then 0.0 else dts[0] + Total(dts[1..])
  }

  lemma {:induction false} TotalNonNegative(dts: seq<real>)
    requires forall dt :: dt in dts ==> dt >= 0.0
    ensures Total(dts) >= 0.0
  {
    if dts != [] {
      assert dts[0] in dts && forall dt :: dt in dts[1..] ==> dt in dts;
      TotalNonNegative(dts[1..]);
    }
  }
}
