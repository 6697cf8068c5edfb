/** bar5-write-test: probing every page of the register aperture and putting back what was
    there. */
module RegScan {
  import opened Common
  import opened Masks

  /** A register takes a write in the bits of its own hardware mask only. */
  datatype Register = Register(value: Word, writable: Word) {
    function Written(v: Word): Register {
      Register(Merge(writable, v, value), writable)
    }
  }

  /** An address without a register reads all-ones and swallows writes. */
  type File = map<nat, Register>

  function Get(regs: File, off: nat): Word {
    if off in regs then regs[off].value else ALL_ONES
  }

  function Put(regs: File, off: nat, v: Word): File {
    if off in regs then regs[off := regs[off].Written(v)] else regs
  }

  datatype Kind = RW | RO | Dead | Other

  function ResultStr(orig: Word, written: Word, readback: Word): Kind {
    if readback == written then RW
    else if readback == orig then RO
    else if readback == ALL_ONES then Dead
    else Other
  }

  const PATTERN: Word := 0xDEAD_BEEF
  const ALTERNATE: Word := 0xCAFE_BABE

  function Pattern(orig: Word): Word {
    if orig == PATTERN then ALTERNATE else PATTERN
  }

  function KindAt(regs: File, off: nat): Kind {
    var orig := Get(regs, off);
    ResultStr(orig, Pattern(orig), Get(Put(regs, off, Pattern(orig)), off))
  }

  /** The probe is 0xDEADBEEF, or 0xCAFEBABE where that is what is there already; so it always
      differs from the old value, and a register that keeps it is never called RO. */
  lemma ProbeDiffers(regs: File, off: nat)
    ensures Pattern(0xDEAD_BEEF) == 0xCAFE_BABE && forall v: Word :: v != 0xDEAD_BEEF ==> Pattern(v) == 0xDEAD_BEEF
    ensures Pattern(Get(regs, off)) != Get(regs, off)
    ensures Get(Put(regs, off, Pattern(Get(regs, off))), off) == Pattern(Get(regs, off)) ==> KindAt(regs, off) == RW
    ensures Get(Put(regs, off, Pattern(Get(regs, off))), off) == Get(regs, off) ==> KindAt(regs, off) == RO
  {
  }

  // ---- one register --------------------------------------------------------------

  lemma MergeBack(mask: Word, v: Word, w: Word)
    ensures Merge(mask, v, Merge(mask, w, v)) == v
  {
    var x := Merge(mask, w, v);
    MergedIff(mask, w, v, x);
    MergedIff(mask, v, x, v);
  }

  /** Whatever the probe writes, writing the value read first restores the whole file. */
  lemma Restored(regs: File, off: nat, v: Word)
    ensures Put(Put(regs, off, v), off, Get(regs, off)) == regs
  {
    if off in regs {
      MergeBack(regs[off].writable, regs[off].value, v);
      assert regs[off] == Register(regs[off].value, regs[off].writable);
    }
  }

  /** What each label says about the register's mask `m`: the probe and the old value agree
      outside it (RW), inside it (RO), or the readback is all-ones without the register
      having read so before (DEAD). */
  lemma KindIff(regs: File, off: nat)
    requires off in regs
    ensures var orig, m, probe := regs[off].value, regs[off].writable, Pattern(regs[off].value);
      && (KindAt(regs, off) == RW <==> ClearBits(probe, m) == ClearBits(orig, m))
      && (KindAt(regs, off) == RO <==> AndBits(probe, m) == AndBits(orig, m))
      && (KindAt(regs, off) == Dead <==>
            orig != ALL_ONES && AndBits(probe, m) == m && ClearBits(orig, m) == ClearBits(ALL_ONES, m))
  {
    var orig, m, probe := regs[off].value, regs[off].writable, Pattern(regs[off].value);
    MergedIff(m, probe, orig, probe);
    MergedIff(m, probe, orig, orig);
    MergedIff(m, probe, orig, ALL_ONES);
    WordIs32Bits();
    OnesMask(m, 0, 32);
  }

  /** A register that reads all-ones whatever is written, or none at all, is labelled RO;
      DEAD is never given to one that read all-ones to begin with. */
  lemma AllOnesIsNeverDead(regs: File, off: nat)
    requires Get(regs, off) == ALL_ONES
    ensures KindAt(regs, off) != Dead
    ensures off !in regs || AndBits(Pattern(ALL_ONES), regs[off].writable) == regs[off].writable ==>
      KindAt(regs, off) == RO
  {
    if off in regs {
      KindIff(regs, off);
      WordIs32Bits();
      OnesMask(regs[off].writable, 0, 32);
    }
  }

  // ---- runs of equal labels ------------------------------------------------------

  const FIRST: nat := 0x20000
  const LAST: nat := 0x7F000
  const PAGE: nat := 0x1000

  datatype Sample = Sample(off: nat, kind: Kind)
  datatype Run = Run(start: nat, end: nat, kind: Kind)

  /** The labels of the first `n` pages. */
  function Samples(regs: File, n: nat): seq<Sample> {
    if n == 0 then [] else Samples(regs, n - 1) + [Sample(FIRST + (n - 1) * PAGE, KindAt(regs, FIRST + (n - 1) * PAGE))]
  }

  /** The pages one run stands for. */
  function Spread(start: nat, end: nat, kind: Kind): seq<Sample>
    decreases end - start
  {
    if start > end then [] else [Sample(start, kind)] + Spread(start + PAGE, end, kind)
  }

  function Expand(runs: seq<Run>): seq<Sample> {
    if runs == [] then []
    else var r := runs[|runs| - 1]; Expand(runs[..|runs| - 1]) + Spread(r.start, r.end, r.kind)
  }

  /** Page by page from `start` one arrives at `end`. */
  predicate Whole(start: nat, end: nat)
    decreases end - start
  {
    start == end || (start < end && Whole(start + PAGE, end))
  }

  /** Whole pages, and neighbours never share a label. */
  ghost predicate Tidy(runs: seq<Run>) {
    && (forall i :: 0 <= i < |runs| ==> Whole(runs[i].start, runs[i].end))
    && (forall i :: 0 < i < |runs| ==> runs[i - 1].kind != runs[i].kind)
  }

  lemma ExpandSnoc(runs: seq<Run>, r: Run)
    ensures Expand(runs + [r]) == Expand(runs) + Spread(r.start, r.end, r.kind)
  {
    assert (runs + [r])[..|runs|] == runs;
  }

  lemma {:induction false} SpreadSnoc(start: nat, end: nat, kind: Kind)
    requires Whole(start, end)
    ensures Spread(start, end + PAGE, kind) == Spread(start, end, kind) + [Sample(end + PAGE, kind)]
    decreases end - start
  {
    if start < end {
      SpreadSnoc(start + PAGE, end, kind);
      assert [Sample(start, kind)] + (Spread(start + PAGE, end, kind) + [Sample(end + PAGE, kind)])
          == [Sample(start, kind)] + Spread(start + PAGE, end, kind) + [Sample(end + PAGE, kind)];
    } else {
      assert Spread(end, end, kind) == [Sample(end, kind)];
      assert Spread(end + PAGE, end + PAGE, kind) == [Sample(end + PAGE, kind)];
    }
  }

  function Count(samples: seq<Sample>, kind: Kind): nat {
    if samples == [] then 0
    else Count(samples[..|samples| - 1], kind) + if samples[|samples| - 1].kind == kind then 1 else 0
  }

  lemma CountSnoc(samples: seq<Sample>, s: Sample, kind: Kind)
    ensures Count(samples + [s], kind) == Count(samples, kind) + if s.kind == kind then 1 else 0
  {
    assert (samples + [s])[..|samples|] == samples;
  }

  lemma {:induction false} CountsCoverAll(samples: seq<Sample>)
    ensures Count(samples, RW) + Count(samples, RO) + Count(samples, Dead) + Count(samples, Other) == |samples|
  {
    if samples != [] {
      CountsCoverAll(samples[..|samples| - 1]);
    }
  }

  /** The pages of all runs with one label. */
  function Pages(runs: seq<Run>, kind: Kind): nat
    requires Tidy(runs)
  {
    if runs == [] then 0
    else
      var r := runs[|runs| - 1];
      Pages(runs[..|runs| - 1], kind) + if r.kind == kind then PagesFrom(r.start, r.end) else 0
  }

  function PagesFrom(start: nat, end: nat): int {
    (end - start) / PAGE + 1
  }

  lemma PagesStep(start: nat, end: nat)
    requires Whole(start, end)
    ensures start == end ==> PagesFrom(start, end) == 1
    ensures start < end ==> Whole(start + PAGE, end) && PagesFrom(start, end) == 1 + PagesFrom(start + PAGE, end)
  {
    if start < end {
      OnePageOn(end - start);
    }
  }

  lemma OnePageOn(d: int)
    ensures d / PAGE == (d - PAGE) / PAGE + 1
  {
  }

  lemma SpreadStep(start: nat, end: nat, kind: Kind)
    requires Whole(start, end)
    ensures Spread(start, end, kind)
         == [Sample(start, kind)] + if start < end then Spread(start + PAGE, end, kind) else []
  {
  }

  lemma {:induction false} CountSpread(before: seq<Sample>, start: nat, end: nat, shared: Kind, kind: Kind)
    requires Whole(start, end)
    ensures Count(before + Spread(start, end, shared), kind)
         == Count(before, kind) + if shared == kind then PagesFrom(start, end) else 0
    decreases end - start
  {
    hide Count, Spread, Whole, PagesFrom;
    var s := Sample(start, shared);
    CountSnoc(before, s, kind);
    PagesStep(start, end);
    SpreadStep(start, end, shared);
    if start < end {
      var rest := Spread(start + PAGE, end, shared);
      CountSpread(before + [s], start + PAGE, end, shared, kind);
      assert before + ([s] + rest) == before + [s] + rest;
    } else {
      WholeForward(start, end);
      assert before + ([s] + []) == before + [s];
    }
  }

  lemma WholeForward(start: nat, end: nat)
    requires Whole(start, end)
    ensures start <= end
  {
  }

  /** The counts printed at the end are those of the printed runs. */
  lemma {:induction false} CountsAreRunLengths(runs: seq<Run>, kind: Kind)
    requires Tidy(runs)
    ensures Count(Expand(runs), kind) == Pages(runs, kind)
  {
    if runs != [] {
      var r := runs[|runs| - 1];
      CountsAreRunLengths(runs[..|runs| - 1], kind);
      CountSpread(Expand(runs[..|runs| - 1]), r.start, r.end, r.kind, kind);
    }
  }

  // ---- the runs are determined ---------------------------------------------------

  lemma {:induction false} SpreadEnds(start: nat, end: nat, kind: Kind)
    requires Whole(start, end)
    ensures var s := Spread(start, end, kind);
      && start <= end && |s| * PAGE == end + PAGE - start
      && s[|s| - 1].off == end
      && forall k :: 0 <= k < |s| ==> s[k].kind == kind
    decreases end - start
  {
    if start < end {
      SpreadEnds(start + PAGE, end, kind);
      var s, t := Spread(start, end, kind), Spread(start + PAGE, end, kind);
      assert s == [Sample(start, kind)] + t;
      assert |s| == 1 + |t|;
    } else {
      assert Spread(start, end, kind) == [Sample(end, kind)];
    }
  }

  function Front(runs: seq<Run>): seq<Run>
    requires runs != []
  {
    runs[..|runs| - 1]
  }

  function Last(runs: seq<Run>): Run
    requires runs != []
  {
    runs[|runs| - 1]
  }

  lemma ExpandEnds(runs: seq<Run>, samples: seq<Sample>)
    requires Tidy(runs) && runs != [] && samples == Expand(runs)
    ensures samples != []
    ensures samples[|samples| - 1].off == Last(runs).end && samples[|samples| - 1].kind == Last(runs).kind
  {
    var r := Last(runs);
    SpreadEnds(r.start, r.end, r.kind);
  }

  /** The last run taken off. */
  lemma Unfold(runs: seq<Run>)
    requires Tidy(runs) && runs != []
    ensures runs == Front(runs) + [Last(runs)]
    ensures Tidy(Front(runs)) && Whole(Last(runs).start, Last(runs).end)
    ensures Expand(runs) == Expand(Front(runs)) + Spread(Last(runs).start, Last(runs).end, Last(runs).kind)
    ensures var front := Expand(Front(runs)); front != [] ==> front[|front| - 1].kind != Last(runs).kind
  {
    if |runs| > 1 {
      ExpandEnds(Front(runs), Expand(Front(runs)));
    }
  }

  /** A last run that starts earlier reaches into what the other list has before its own. */
  lemma EarlierStart(samples: seq<Sample>, fa: seq<Sample>, fb: seq<Sample>, sa: seq<Sample>, sb: seq<Sample>,
                     kind: Kind)
    requires samples == fa + sa && samples == fb + sb && |sa| > |sb|
    requires forall k :: 0 <= k < |sa| ==> sa[k].kind == kind
    ensures fb != [] && fb[|fb| - 1].kind == kind
  {
    assert samples[|fb| - 1] == fb[|fb| - 1];
    assert samples[|fb| - 1] == sa[|sa| - |sb| - 1];
  }

  /** Of two last runs with the same end and label, neither starts later: the run before it
      would have the same label. */
  lemma NoLaterStart(samples: seq<Sample>, fa: seq<Sample>, fb: seq<Sample>, ra: Run, rb: Run)
    requires Whole(ra.start, ra.end) && Whole(rb.start, rb.end) && ra.end == rb.end && ra.kind == rb.kind
    requires samples == fa + Spread(ra.start, ra.end, ra.kind) && samples == fb + Spread(rb.start, rb.end, rb.kind)
    requires fb != [] ==> fb[|fb| - 1].kind != rb.kind
    ensures ra.start >= rb.start
  {
    SpreadEnds(ra.start, ra.end, ra.kind);
    SpreadEnds(rb.start, rb.end, rb.kind);
    var sa, sb := Spread(ra.start, ra.end, ra.kind), Spread(rb.start, rb.end, rb.kind);
    if |sa| > |sb| {
      EarlierStart(samples, fa, fb, sa, sb, ra.kind);
    }
  }

  lemma SameTail(s: seq<Sample>, x: seq<Sample>, y: seq<Sample>, tail: seq<Sample>)
    requires s == x + tail && s == y + tail
    ensures x == y
  {
    assert x == s[..|x|] && y == s[..|y|];
  }

  /** Only one tidy list of runs stands for given samples: each run is as long as it can be. */
  lemma {:induction false} RunsAreDetermined(a: seq<Run>, b: seq<Run>)
    requires Tidy(a) && Tidy(b) && Expand(a) == Expand(b)
    ensures a == b
    decreases |a|
  {
    hide Expand, Tidy, Whole, Spread;
    if a == [] || b == [] {
      NoSamplesNoRuns(a);
      NoSamplesNoRuns(b);
    } else {
      var s, ra, rb := Expand(a), Last(a), Last(b);
      ExpandEnds(a, s);
      ExpandEnds(b, s);
      Unfold(a);
      Unfold(b);
      NoLaterStart(s, Expand(Front(a)), Expand(Front(b)), ra, rb);
      NoLaterStart(s, Expand(Front(b)), Expand(Front(a)), rb, ra);
      SameTail(s, Expand(Front(a)), Expand(Front(b)), Spread(ra.start, ra.end, ra.kind));
      RunsAreDetermined(Front(a), Front(b));
    }
  }

  lemma NoSamplesNoRuns(runs: seq<Run>)
    requires Tidy(runs)
    ensures Expand(runs) == [] <==> runs == []
  {
    if runs != [] {
      ExpandEnds(runs, Expand(runs));
    }
  }

  // ---- the tool ------------------------------------------------------------------

  datatype Summary = Summary(rw: nat, ro: nat, dead: nat, other: nat)

  /** The run being built: none before the first page. */
  function Flushed(runs: seq<Run>, open: Option<Run>): seq<Run> {
    match open case None => runs case Some(r) => runs + [r]
  }

  lemma {:induction false} WholeSnoc(start: nat, end: nat)
    requires Whole(start, end)
    ensures start <= end && Whole(start, end + PAGE)
    decreases end - start
  {
    if start < end {
      WholeSnoc(start + PAGE, end);
    } else {
      assert Whole(end + PAGE, end + PAGE);
    }
  }

  lemma ExtendTidy(runs: seq<Run>, r: Run)
    requires Tidy(runs + [r])
    ensures Tidy(runs + [r.(end := r.end + PAGE)])
  {
    var longer := r.(end := r.end + PAGE);
    assert (runs + [r])[|runs|] == r;
    WholeSnoc(r.start, r.end);
    forall i | 0 <= i < |runs| ensures (runs + [longer])[i] == (runs + [r])[i] { }
  }

  lemma ExtendExpand(runs: seq<Run>, r: Run)
    requires Whole(r.start, r.end)
    ensures Expand(runs + [r.(end := r.end + PAGE)]) == Expand(runs + [r]) + [Sample(r.end + PAGE, r.kind)]
  {
    ExpandSnoc(runs, r);
    ExpandSnoc(runs, r.(end := r.end + PAGE));
    SpreadSnoc(r.start, r.end, r.kind);
  }

  lemma OpenTidy(runs: seq<Run>, off: nat, kind: Kind)
    requires Tidy(runs) && (runs == [] || runs[|runs| - 1].kind != kind)
    ensures Tidy(runs + [Run(off, off, kind)])
  {
  }

  lemma OpenExpand(runs: seq<Run>, off: nat, kind: Kind)
    ensures Expand(runs + [Run(off, off, kind)]) == Expand(runs) + [Sample(off, kind)]
  {
    ExpandSnoc(runs, Run(off, off, kind));
    assert Spread(off, off, kind) == [Sample(off, kind)];
  }

  /** The runs so far stand for the samples so far, the open one ending just before `off`. */
  ghost predicate Tracks(runs: seq<Run>, open: Option<Run>, samples: seq<Sample>, off: nat) {
    && Tidy(Flushed(runs, open))
    && Expand(Flushed(runs, open)) == samples
    && (open.None? ==> runs == [])
    && (open.Some? ==> open.value.end + PAGE == off)
  }

  lemma NoPages()
    ensures Tracks([], None, [], FIRST) && Counted([], 0, 0, 0, 0)
  {
  }

  lemma FirstPage(off: nat, kind: Kind)
    ensures Tracks([], Some(Run(off, off, kind)), [Sample(off, kind)], off + PAGE)
  {
    OpenTidy([], off, kind);
    OpenExpand([], off, kind);
  }

  lemma SameLabel(runs: seq<Run>, r: Run, samples: seq<Sample>, off: nat)
    requires Tracks(runs, Some(r), samples, off)
    ensures Tracks(runs, Some(r.(end := off)), samples + [Sample(off, r.kind)], off + PAGE)
  {
    hide Expand, Whole;
    assert (runs + [r])[|runs|] == r;
    ExtendTidy(runs, r);
    ExtendExpand(runs, r);
  }

  lemma NewLabel(runs: seq<Run>, r: Run, samples: seq<Sample>, off: nat, kind: Kind)
    requires Tracks(runs, Some(r), samples, off) && kind != r.kind
    ensures Tracks(runs + [r], Some(Run(off, off, kind)), samples + [Sample(off, kind)], off + PAGE)
  {
    hide Expand, Whole, Tidy;
    OpenTidy(runs + [r], off, kind);
    OpenExpand(runs + [r], off, kind);
  }

  /** Both the runs and the counts describe the first `n` pages. */
  ghost predicate Counted(samples: seq<Sample>, rw: nat, ro: nat, dead: nat, other: nat) {
    && rw == Count(samples, RW) && ro == Count(samples, RO)
    && dead == Count(samples, Dead) && other == Count(samples, Other)
  }

  lemma CountOne(samples: seq<Sample>, s: Sample, rw: nat, ro: nat, dead: nat, other: nat)
    requires Counted(samples, rw, ro, dead, other)
    ensures Counted(samples + [s], if s.kind == RW then rw + 1 else rw, if s.kind == RO then ro + 1 else ro,
                    if s.kind == Dead then dead + 1 else dead, if s.kind == Other then other + 1 else other)
  {
    CountSnoc(samples, s, RW);
    CountSnoc(samples, s, RO);
    CountSnoc(samples, s, Dead);
    CountSnoc(samples, s, Other);
  }

  /** Sample k is the label of the page at 0x20000 + 0x1000 * k. */
  lemma {:induction false} SampleAt(regs: File, n: nat, k: nat)
    requires k < n
    ensures |Samples(regs, n)| == n
    ensures Samples(regs, n)[k] == Sample(0x20000 + 0x1000 * k, KindAt(regs, 0x20000 + 0x1000 * k))
  {
    if n == 1 {
      assert Samples(regs, 0) == [];
    } else if k < n - 1 {
      SampleAt(regs, n - 1, k);
    } else {
      SampleAt(regs, n - 1, 0);
    }
  }

  /** What the summary line owes to the printed runs. */
  lemma SummaryOfRuns(runs: seq<Run>, samples: seq<Sample>, rw: nat, ro: nat, dead: nat, other: nat)
    requires Tidy(runs) && Expand(runs) == samples && Counted(samples, rw, ro, dead, other)
    ensures rw == Pages(runs, RW) && ro == Pages(runs, RO) && dead == Pages(runs, Dead) && other == Pages(runs, Other)
    ensures rw + ro + dead + other == |samples|
  {
    CountsCoverAll(samples);
    CountsAreRunLengths(runs, RW);
    CountsAreRunLengths(runs, RO);
    CountsAreRunLengths(runs, Dead);
    CountsAreRunLengths(runs, Other);
  }

  class Bar5 {
    var regs: File

    method ReadReg(off: nat) returns (v: Word)
      ensures v == Get(regs, off)
    {
      v := if off in regs then regs[off].value else ALL_ONES;
    }

    method WriteReg(off: nat, v: Word)
      modifies this
      ensures regs == Put(old(regs), off, v)
    {
      if off in regs {
        regs := regs[off := Register(Merge(regs[off].writable, v, regs[off].value), regs[off].writable)];
      }
    }

    /** One turn of the loop: probe, read back, restore, label. */
    method Probe(off: nat) returns (kind: Kind)
      modifies this
      ensures regs == old(regs) && kind == KindAt(regs, off)
    {
      var orig := ReadReg(off);
      var testVal := PATTERN;
      if orig == testVal { testVal := ALTERNATE; }
      WriteReg(off, testVal);
      var readback := ReadReg(off);
      WriteReg(off, orig);
      Restored(old(regs), off, testVal);
      var verify := ReadReg(off);
      kind := ResultStr(orig, testVal, readback);
    }

    /** The whole scan: the register file is left exactly as found, the printed runs are the
        one tidy list that stands for the labels of all pages, and the summary counts them. */
    method Scan() returns (runs: seq<Run>, sum: Summary)
      modifies this
      ensures regs == old(regs)
      ensures Tidy(runs) && Expand(runs) == Samples(regs, 96)
      ensures sum == Summary(Pages(runs, RW), Pages(runs, RO), Pages(runs, Dead), Pages(runs, Other))
      ensures sum.rw + sum.ro + sum.dead + sum.other == 96
    {
      hide Get, Put, KindAt, Expand, Tidy, Count, Pages;
      runs := [];
      var rw, ro, dead, other := 0, 0, 0, 0;
      var open: Option<Run> := None;
      var off := FIRST;
      ghost var n := 0;
      NoPages();
      while off <= LAST
        invariant regs == old(regs) && off == FIRST + n * PAGE <= LAST + PAGE
        invariant open.None? <==> n == 0
        invariant Tracks(runs, open, Samples(regs, n), off)
        invariant Counted(Samples(regs, n), rw, ro, dead, other)
        decreases LAST + PAGE - off
      {
        var kind := Probe(off);
        match open {
          case None =>
            FirstPage(off, kind);
            open := Some(Run(off, off, kind));
          case Some(r) =>
            if kind == r.kind && off == r.end + PAGE {
              SameLabel(runs, r, Samples(regs, n), off);
              open := Some(r.(end := off));
            } else {
              NewLabel(runs, r, Samples(regs, n), off, kind);
              runs := runs + [r];
              open := Some(Run(off, off, kind));
            }
        }
        CountOne(Samples(regs, n), Sample(off, kind), rw, ro, dead, other);
        match kind {
          case RW => rw := rw + 1;
          case RO => ro := ro + 1;
          case Dead => dead := dead + 1;
          case Other => other := other + 1;
        }
        off := off + PAGE;
        n := n + 1;
      }
      runs := Flushed(runs, open);
      sum := Summary(rw, ro, dead, other);
      SampleAt(regs, n, 0);
      SummaryOfRuns(runs, Samples(regs, n), rw, ro, dead, other);
    }
  }
}
