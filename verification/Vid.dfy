/** Voltage identifiers.  The C code computes in double precision; here the same
    expressions are evaluated over exact rationals.  `NoRoundingTie` is what makes the
    rounding of the exact value unambiguous. */
module Vid {
  import opened Common

  /** The C conversion (int)r, which drops the fraction. */
  function Truncate(r: real): int {
    if r >= 0.0 then r.Floor else -((-r).Floor)
  }

  /** Number of 6.25 mV steps between 1.55 V and `mv`. */
  function Steps(mv: int): real {
    (1.55 - mv as real / 1000.0) / 0.00625
  }

  function MvToVid(mv: int): int {
    Truncate(Steps(mv) + 0.5)
  }

  /** The voltage a VID stands for, before any rounding. */
  function RailMv(vid: int): real {
    (-(vid as real) * 0.00625 + 1.55) * 1000.0
  }

  /** `None` where the C code converts a negative double to unsigned. */
  function VidToMv(vid: nat): Option<nat> {
    if vid > 255 then Some(0)
    else if vid > 248 then None
    else Some(Truncate(RailMv(vid) + 0.5))
  }

  /** The value that is truncated stays at least 1/50 away from every integer, so no
      request is a rounding tie and an error far above double precision is harmless. */
  lemma NoRoundingTie(mv: int, k: int)
    ensures Steps(mv) + 0.5 <= k as real - 0.02 || Steps(mv) + 0.5 >= k as real + 0.02
  {
    assert 50.0 * (Steps(mv) + 0.5) == (8 * (1550 - mv) + 25) as real;
    assert 8 * (1550 - mv) + 25 != 50 * k;
  }

  /** MvToVid in integer arithmetic. */
  lemma MvToVidInteger(mv: int)
    ensures mv <= 1553 ==> MvToVid(mv) == (8 * (1550 - mv) + 25) / 50
    ensures mv > 1553 ==> MvToVid(mv) == -((8 * (mv - 1550) - 25) / 50)
  {
    assert Steps(mv) + 0.5 == (8 * (1550 - mv) + 25) as real / 50.0;
    if mv <= 1553 {
      FloorOfFiftieth(8 * (1550 - mv) + 25);
    } else {
      FloorOfFiftieth(8 * (mv - 1550) - 25);
    }
  }

  lemma FloorOfFiftieth(n: int)
    ensures (n as real / 50.0).Floor == n / 50
  {
    var q := n / 50;
    assert 50 * q <= n < 50 * q + 50;
    assert q as real <= n as real / 50.0 < q as real + 1.0;
  }

  /** A higher request never gets a larger VID, that is, a lower voltage. */
  lemma MvToVidAntitone(low: int, high: int)
    requires low <= high
    ensures MvToVid(high) <= MvToVid(low)
  {
    assert Steps(high) <= Steps(low);
  }

  /** Every VID that stands for a voltage survives the trip through millivolts. */
  lemma VidRoundTrip(vid: nat)
    requires vid <= 248
    ensures VidToMv(vid).Some?
    ensures MvToVid(VidToMv(vid).value) == vid
  {
    var mv := VidToMv(vid).value;
    assert mv as real <= RailMv(vid) + 0.5 < mv as real + 1.0;
    assert RailMv(vid) == 1550.0 - 6.25 * vid as real;
    assert vid as real <= Steps(mv) + 0.5 < vid as real + 1.0;
  }

  /** What VIDs above one byte decode to, and the ends of the range. */
  lemma VidEnds(vid: nat)
    ensures vid > 255 ==> VidToMv(vid) == Some(0)
    ensures VidToMv(0) == Some(1550) && VidToMv(248) == Some(0)
    ensures VidToMv(vid).None? <==> 249 <= vid <= 255
  {
    assert RailMv(0) == 1550.0 && RailMv(248) == 0.0;
  }

  /** A representable request comes back within 3 mV. */
  lemma MvRoundTrip(mv: int)
    requires 0 <= mv <= 1550
    ensures 0 <= MvToVid(mv) <= 248
    ensures VidToMv(MvToVid(mv)).Some?
    ensures -3 <= VidToMv(MvToVid(mv)).value - mv <= 3
  {
    var vid := MvToVid(mv);
    assert vid as real <= Steps(mv) + 0.5 < vid as real + 1.0;
    assert RailMv(vid) == 1550.0 - 6.25 * vid as real;
    var back := VidToMv(vid).value;
    assert back as real <= RailMv(vid) + 0.5 < back as real + 1.0;
  }
}
