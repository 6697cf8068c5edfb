/** The two frame-counter meters: the 64-bit total of dcn-live-counter and the 32-bit total of
    dcn-targeted-probe. */
module Counters {
  import opened Common

  const TWO_32: nat := 0x1_0000_0000
  const TWO_64: nat := 0x1_0000_0000_0000_0000
  const MAX_INT: nat := 0x7FFF_FFFF

  /** (UINT32)(cur - prev) */
  function Step(prev: int, cur: int): Word {
    ToU32(cur - prev)
  }

  /** The steps between successive readings, added without any wrap. */
  function Advance(readings: seq<Word>): nat
    requires readings != []
  {
    var n := |readings|;
    if n == 1 then 0 else Advance(readings[..n - 1]) + Step(readings[n - 2], readings[n - 1])
  }

  /** counter_delta over the values its reads return: `samples` is their number less one, or
      not positive. */
  method CounterDelta(readings: seq<Word>) returns (total: nat)
    requires 1 <= |readings| <= MAX_INT + 1
    ensures total == Advance(readings)
  {
    var prev := readings[0];
    total := 0;
    var i := 1;
    while i < |readings|
      invariant 1 <= i <= |readings| && prev == readings[i - 1]
      invariant total == Advance(readings[..i])
    {
      var cur := readings[i];
      AdvanceSnoc(readings, i);
      NoWrap(readings[..i + 1]);
      total := (total + Step(prev, cur)) % TWO_64;
      prev := cur;
      i := i + 1;
    }
    assert readings[..i] == readings;
  }

  /** frame_delta: the same loop with a 32-bit total. */
  method FrameDelta(readings: seq<Word>) returns (total: Word)
    requires 1 <= |readings| <= MAX_INT + 1
    ensures total == Step(readings[0], readings[|readings| - 1])
  {
    var prev := readings[0];
    total := 0;
    var i := 1;
    while i < |readings|
      invariant 1 <= i <= |readings| && prev == readings[i - 1]
      invariant total == Step(readings[0], prev)
    {
      var cur := readings[i];
      AddSteps(readings[0], prev, cur);
      total := ToU32(total + Step(prev, cur));
      prev := cur;
      i := i + 1;
    }
  }

  lemma AdvanceSnoc(readings: seq<Word>, i: nat)
    requires 1 <= i < |readings|
    ensures Advance(readings[..i + 1]) == Advance(readings[..i]) + Step(readings[i - 1], readings[i])
  {
    assert readings[..i + 1][..i] == readings[..i];
  }

  lemma {:induction false} AdvanceBound(readings: seq<Word>)
    requires readings != []
    ensures Advance(readings) <= (|readings| - 1) * (TWO_32 - 1)
  {
    if |readings| > 1 {
      AdvanceBound(readings[..|readings| - 1]);
    }
  }

  /** An `int` number of samples cannot take the total past 64 bits. */
  lemma NoWrap(readings: seq<Word>)
    requires 1 <= |readings| <= MAX_INT + 1
    ensures Advance(readings) < TWO_64
  {
    AdvanceBound(readings);
  }

  // ---- what the totals say about the counter -------------------------------------

  /** What the reads return of a counter that has reached `ticks`. */
  function Readings(ticks: seq<nat>): (r: seq<Word>)
    ensures |r| == |ticks|
  {
    seq(|ticks|, i requires 0 <= i < |ticks| => ToU32(ticks[i]))
  }

  ghost predicate Monotone(ticks: seq<nat>) {
    forall i :: 0 < i < |ticks| ==> ticks[i - 1] <= ticks[i]
  }

  /** No full turn of the counter goes by between two reads. */
  ghost predicate Frequent(ticks: seq<nat>) {
    forall i :: 0 < i < |ticks| ==> ticks[i] - ticks[i - 1] < TWO_32
  }

  function Elapsed(ticks: seq<nat>): int
    requires ticks != []
  {
    var last: int := ticks[|ticks| - 1];
    last - ticks[0]
  }

  lemma StepOfTicks(a: nat, b: nat)
    requires a <= b
    ensures Step(ToU32(a), ToU32(b)) <= b - a
    ensures Step(ToU32(a), ToU32(b)) == b - a <==> b - a < TWO_32
  {
    assert Step(ToU32(a), ToU32(b)) == (b - a) % TWO_32;
  }

  /** The 64-bit total never exceeds the true number of ticks, and is that number exactly when
      the counter was read often enough. */
  lemma {:induction false} TotalIsTicksIff(ticks: seq<nat>)
    requires ticks != [] && Monotone(ticks)
    ensures Advance(Readings(ticks)) <= Elapsed(ticks)
    ensures Advance(Readings(ticks)) == Elapsed(ticks) <==> Frequent(ticks)
  {
    hide Step, Frequent, ToU32;
    var n := |ticks|;
    if n <= 1 {
      OneTick(ticks);
    } else {
      var front := ticks[..n - 1];
      TotalIsTicksIff(front);
      assert Readings(ticks)[..n - 1] == Readings(front);
      StepOfTicks(ticks[n - 2], ticks[n - 1]);
      FrequentSnoc(ticks);
    }
  }

  lemma OneTick(ticks: seq<nat>)
    requires |ticks| == 1
    ensures Frequent(ticks)
  {
  }

  lemma FrequentSnoc(ticks: seq<nat>)
    requires |ticks| > 1
    ensures Frequent(ticks) <==> Frequent(ticks[..|ticks| - 1]) && ticks[|ticks| - 1] - ticks[|ticks| - 2] < TWO_32
  {
    var front := ticks[..|ticks| - 1];
    if Frequent(front) && ticks[|ticks| - 1] - ticks[|ticks| - 2] < TWO_32 {
      forall i | 0 < i < |ticks| ensures ticks[i] - ticks[i - 1] < TWO_32 {
        if i < |front| {
          assert front[i] == ticks[i];
        }
      }
    }
  }

  /** "Live" as dcn-live-counter prints it: exactly when some reading changed. */
  lemma {:induction false} LiveIff(readings: seq<Word>)
    requires readings != []
    ensures Advance(readings) == 0 <==> forall i :: 0 < i < |readings| ==> readings[i] == readings[0]
  {
    var n := |readings|;
    if n > 1 {
      var front := readings[..n - 1];
      LiveIff(front);
      StepIsZero(readings[n - 2], readings[n - 1]);
      if Advance(readings) == 0 {
        forall i | 0 < i < n ensures readings[i] == readings[0] {
          if i < n - 1 {
            assert readings[i] == front[i];
          } else if n > 2 {
            assert readings[n - 2] == front[n - 2];
          }
        }
      }
    }
  }

  lemma StepIsZero(prev: Word, cur: Word)
    ensures Step(prev, cur) == 0 <==> cur == prev
  {
  }

  /** The 32-bit total keeps the true total modulo 2^32. */
  lemma {:induction false} FrameTotalIsResidue(readings: seq<Word>)
    requires readings != []
    ensures ToU32(Advance(readings)) == Step(readings[0], readings[|readings| - 1])
  {
    var n := |readings|;
    if n > 1 {
      FrameTotalIsResidue(readings[..n - 1]);
      AddResidues(Advance(readings[..n - 1]), readings[0], readings[n - 2], readings[n - 1]);
    }
  }

  lemma AddSteps(first: int, prev: int, cur: int)
    ensures ToU32(Step(first, prev) + Step(prev, cur)) == Step(first, cur)
  {
  }

  lemma AddResidues(a: int, first: int, prev: int, cur: int)
    requires ToU32(a) == Step(first, prev)
    ensures ToU32(a + Step(prev, cur)) == Step(first, cur)
  {
  }

  /** The two tools disagree about a counter exactly when it changed and came back to its
      first reading: the 32-bit total then shows a live counter as static. */
  lemma VerdictsDifferIff(readings: seq<Word>)
    requires readings != []
    ensures (Advance(readings) != 0) != (Step(readings[0], readings[|readings| - 1]) != 0)
            <==> readings[|readings| - 1] == readings[0] && exists i :: 0 < i < |readings| && readings[i] != readings[0]
  {
    LiveIff(readings);
    StepIsZero(readings[0], readings[|readings| - 1]);
  }
}
