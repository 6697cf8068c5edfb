/** The two safe-point tables (service and control suite) and the searches over them. */
module SafePoints {
  import opened Common
  import opened Vid

  datatype SafePoint = SafePoint(freq: int, mv: int, profile: int)

  /** The governor service's table. */
  const SERVICE: seq<SafePoint> := [
    SafePoint(500, 700, 1), SafePoint(1000, 800, 1), SafePoint(1175, 850, 3),
    SafePoint(1500, 900, 3), SafePoint(1600, 910, 3), SafePoint(1850, 930, 3),
    SafePoint(2000, 1000, 3), SafePoint(2230, 1085, 3)]

  /** The control suite's table. */
  const SUITE: seq<SafePoint> := [
    SafePoint(500, 700, 1), SafePoint(800, 750, 1), SafePoint(1000, 800, 1),
    SafePoint(1175, 850, 3), SafePoint(1400, 900, 3), SafePoint(1600, 950, 3),
    SafePoint(1800, 1000, 3), SafePoint(2000, 1050, 3)]

  /** `best` is the least point of `table` at or above `freq`, or the top point when
      the request lies above the whole table. */
  ghost predicate Selects(table: seq<SafePoint>, freq: int, best: SafePoint) {
    && best in table
    && (forall p :: p in table && freq <= p.freq ==> freq <= best.freq <= p.freq)
    && (freq > best.freq ==> forall p :: p in table ==> p.freq <= best.freq)
  }

  /** Position, from `i` on, of the first point at or above `freq`, else of the last one. */
  function First(table: seq<SafePoint>, freq: int, i: nat): (best: nat)
    requires i < |table|
    ensures i <= best < |table|
    decreases |table| - i
  {
    if table[i].freq >= freq || i == |table| - 1 then i else First(table, freq, i + 1)
  }

  function Pick(table: seq<SafePoint>, freq: int): (best: SafePoint)
    requires |table| > 0
    ensures best in table
  {
    table[First(table, freq, 0)]
  }

  ghost predicate Rising(table: seq<SafePoint>) {
    forall i, j :: 0 <= i < j < |table| ==> table[i].freq < table[j].freq && table[i].mv < table[j].mv
  }

  /** The search stops at the first point that is not below the request. */
  lemma {:induction false} FirstStops(table: seq<SafePoint>, freq: int, i: nat)
    requires i < |table|
    ensures var best := First(table, freq, i);
      (forall k :: i <= k < best ==> table[k].freq < freq)
      && (freq <= table[best].freq || best == |table| - 1)
    decreases |table| - i
  {
    if table[i].freq < freq && i < |table| - 1 {
      FirstStops(table, freq, i + 1);
    }
  }

  lemma PickSelects(table: seq<SafePoint>, freq: int)
    requires |table| > 0 && Rising(table)
    ensures Selects(table, freq, Pick(table, freq))
  {
    FirstStops(table, freq, 0);
    var i := First(table, freq, 0);
    forall p | p in table && freq <= p.freq
      ensures freq <= table[i].freq <= p.freq
    {
      var k :| 0 <= k < |table| && table[k] == p;
      assert k >= i;
    }
  }

  lemma TablesRise()
    ensures Rising(SERVICE) && Rising(SUITE)
  {
  }

  method ClampToSafe(freq0: int) returns (freq: int, mv: int, profile: int)
    ensures SafePoint(freq, mv, profile) == Pick(SERVICE, freq0)
    ensures Selects(SERVICE, freq0, SafePoint(freq, mv, profile))
  {
    var best := |SERVICE| - 1;
    var i := 0;
    while i < |SERVICE|
      invariant 0 <= i <= |SERVICE|
      invariant best == |SERVICE| - 1
      invariant i < |SERVICE| ==> First(SERVICE, freq0, 0) == First(SERVICE, freq0, i)
      invariant i == |SERVICE| ==> First(SERVICE, freq0, 0) == |SERVICE| - 1
    {
      if SERVICE[i].freq >= freq0 {
        best := i;
        break;
      }
      i := i + 1;
    }
    freq, mv, profile := SERVICE[best].freq, SERVICE[best].mv, SERVICE[best].profile;
    TablesRise();
    PickSelects(SERVICE, freq0);
  }

  method SafePointOf(mhz: int) returns (target: int, mv: int, prof: int)
    ensures SafePoint(target, mv, prof) == Pick(SUITE, mhz)
    ensures Selects(SUITE, mhz, SafePoint(target, mv, prof))
  {
    TablesRise();
    PickSelects(SUITE, mhz);
    var i := 0;
    while i < 8
      invariant 0 <= i <= 8
      invariant i < 8 ==> First(SUITE, mhz, 0) == First(SUITE, mhz, i)
      invariant i == 8 ==> First(SUITE, mhz, 0) == 7
    {
      if SUITE[i].freq >= mhz {
        return SUITE[i].freq, SUITE[i].mv, SUITE[i].profile;
      }
      i := i + 1;
    }
    return 2000, 1050, 3;
  }

  /** The rail never falls below the nominal voltage of a chosen point, whichever table. */
  lemma RailCoversPoint(p: SafePoint)
    requires p in SERVICE || p in SUITE
    ensures 0 <= MvToVid(p.mv) <= 248
    ensures p.mv as real <= RailMv(MvToVid(p.mv))
  {
    MvToVidInteger(p.mv);
  }

  /** Any two points selected on a rising table: the request order is kept in frequency
      and in voltage. */
  lemma SelectsMonotone(table: seq<SafePoint>, f1: int, f2: int, p1: SafePoint, p2: SafePoint)
    requires Rising(table) && f1 <= f2
    requires Selects(table, f1, p1) && Selects(table, f2, p2)
    ensures p1.freq <= p2.freq && p1.mv <= p2.mv
  {
    var i :| 0 <= i < |table| && table[i] == p1;
    var j :| 0 <= j < |table| && table[j] == p2;
  }

  /** A selected point selects itself, and nothing else. */
  lemma SelectsIdempotent(table: seq<SafePoint>, freq: int, p: SafePoint, q: SafePoint)
    requires Rising(table) && Selects(table, freq, p) && Selects(table, p.freq, q)
    ensures q == p
  {
    var i :| 0 <= i < |table| && table[i] == p;
    var j :| 0 <= j < |table| && table[j] == q;
    assert i != j ==> p.freq != q.freq;
  }

  /** A point of a rising table is its own choice. */
  lemma PickOfPoint(table: seq<SafePoint>, p: SafePoint)
    requires Rising(table) && p in table
    ensures Pick(table, p.freq) == p
  {
    PickSelects(table, p.freq);
    var q := Pick(table, p.freq);
    var i :| 0 <= i < |table| && table[i] == p;
    var j :| 0 <= j < |table| && table[j] == q;
    assert q.freq == p.freq;
  }

  /** The first point at or above the request is the one picked. */
  lemma PickIs(table: seq<SafePoint>, freq: int, i: nat)
    requires i < |table|
    requires forall k :: 0 <= k < i ==> table[k].freq < freq
    requires freq <= table[i].freq || i == |table| - 1
    ensures Pick(table, freq) == table[i]
  {
    FirstStops(table, freq, 0);
    var best := First(table, freq, 0);
    assert best >= i;
    assert !(i < best);
  }

  /** The service's voltage curve, threshold by threshold. */
  lemma ServiceSteps(mhz: int)
    ensures Pick(SERVICE, mhz).mv ==
      if mhz <= 500 then 700 else if mhz <= 1000 then 800 else if mhz <= 1175 then 850
      else if mhz <= 1500 then 900 else if mhz <= 1600 then 910 else if mhz <= 1850 then 930
      else if mhz <= 2000 then 1000 else 1085
  {
    PickIs(SERVICE, mhz,
      if mhz <= 500 then 0 else if mhz <= 1000 then 1 else if mhz <= 1175 then 2
      else if mhz <= 1500 then 3 else if mhz <= 1600 then 4 else if mhz <= 1850 then 5
      else if mhz <= 2000 then 6 else 7);
  }

  /** The suite's voltage curve. */
  lemma SuiteSteps(mhz: int)
    ensures Pick(SUITE, mhz).mv ==
      if mhz <= 500 then 700 else if mhz <= 800 then 750 else if mhz <= 1000 then 800
      else if mhz <= 1175 then 850 else if mhz <= 1400 then 900 else if mhz <= 1600 then 950
      else if mhz <= 1800 then 1000 else 1050
  {
    PickIs(SUITE, mhz,
      if mhz <= 500 then 0 else if mhz <= 800 then 1 else if mhz <= 1000 then 2
      else if mhz <= 1175 then 3 else if mhz <= 1400 then 4 else if mhz <= 1600 then 5
      else if mhz <= 1800 then 6 else 7);
  }

  /** The whole choice of the service, clock and profile included. */
  lemma ServiceChoice(mhz: int)
    ensures Pick(SERVICE, mhz).freq ==
      if mhz <= 500 then 500 else if mhz <= 1000 then 1000 else if mhz <= 1175 then 1175
      else if mhz <= 1500 then 1500 else if mhz <= 1600 then 1600 else if mhz <= 1850 then 1850
      else if mhz <= 2000 then 2000 else 2230
    ensures Pick(SERVICE, mhz).profile == if mhz <= 1000 then 1 else 3
  {
    PickIs(SERVICE, mhz,
      if mhz <= 500 then 0 else if mhz <= 1000 then 1 else if mhz <= 1175 then 2
      else if mhz <= 1500 then 3 else if mhz <= 1600 then 4 else if mhz <= 1850 then 5
      else if mhz <= 2000 then 6 else 7);
  }

  /** ... and of the suite. */
  lemma SuiteChoice(mhz: int)
    ensures Pick(SUITE, mhz).freq ==
      if mhz <= 500 then 500 else if mhz <= 800 then 800 else if mhz <= 1000 then 1000
      else if mhz <= 1175 then 1175 else if mhz <= 1400 then 1400 else if mhz <= 1600 then 1600
      else if mhz <= 1800 then 1800 else 2000
    ensures Pick(SUITE, mhz).profile == if mhz <= 1000 then 1 else 3
  {
    PickIs(SUITE, mhz,
      if mhz <= 500 then 0 else if mhz <= 800 then 1 else if mhz <= 1000 then 2
      else if mhz <= 1175 then 3 else if mhz <= 1400 then 4 else if mhz <= 1600 then 5
      else if mhz <= 1800 then 6 else 7);
  }

  lemma ServiceBounds(p: SafePoint)
    requires p in SERVICE
    ensures 500 <= p.freq <= 2230 && 700 <= p.mv <= 1085 && p.profile in {1, 3}
  {
  }

  /** Clamping: bounded, monotone and idempotent for every integer request. */
  lemma ClampLaws(freq: int, other: int)
    ensures 500 <= Pick(SERVICE, freq).freq <= 2230 && 700 <= Pick(SERVICE, freq).mv <= 1085
    ensures Pick(SERVICE, Pick(SERVICE, freq).freq) == Pick(SERVICE, freq)
    ensures freq <= other ==>
      Pick(SERVICE, freq).freq <= Pick(SERVICE, other).freq && Pick(SERVICE, freq).mv <= Pick(SERVICE, other).mv
  {
    var table, p, o := SERVICE, Pick(SERVICE, freq), Pick(SERVICE, other);
    assert Rising(table) by { TablesRise(); }
    PickSelects(table, freq);
    PickSelects(table, other);
    PickSelects(table, p.freq);
    ServiceBounds(p);
    SelectsIdempotent(table, freq, p, Pick(table, p.freq));
    if freq <= other {
      SelectsMonotone(table, freq, other, p, o);
    }
  }
}
