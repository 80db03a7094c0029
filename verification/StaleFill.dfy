/** Pushed-down calls in pkg/proxystorage/proxy.go. A call such as present_over_time runs on the servers and comes
  back as samples on the step grid; promxy's engine then looks the result up again, with a lookback window of its own.
  Steps the servers gave no sample for are filled with stale markers, so that an earlier step's sample is not found
  instead. */
module StaleFill {
  import opened Options
  import opened AntiAffinityMerge

  /** A float, a native histogram (opaque here), or the marker for "no value from here on". */
  datatype Value = Float(v: real) | Histogram(h: int) | Stale

  type Samples = seq<Sample<Value>>

  // ----- The step grid -----

  /** The j-th step from `start`. */
  function At(start: int, step: int, j: nat): int {
    start + j * step
  }

  ghost predicate OnGrid(t: int, start: int, end: int, step: int) {
    exists j: nat :: t == At(start, step, j) && t <= end
  }

  lemma GridStep(t: int, start: int, end: int, step: int)
    requires step > 0
    ensures OnGrid(t, start, end, step) <==> start <= end && (t == start || OnGrid(t, start + step, end, step))
  {
    assert At(start, step, 0) == start;
    if OnGrid(t, start, end, step) {
      var j: nat :| t == At(start, step, j) && t <= end;
      GridFrom(t, start, end, step);
      if j > 0 {
        assert j * step == (j - 1) * step + step;
        assert t == At(start + step, step, j - 1);
      }
    }
    if start <= end && OnGrid(t, start + step, end, step) {
      var j: nat :| t == At(start + step, step, j) && t <= end;
      assert (j + 1) * step == j * step + step;
      assert t == At(start, step, j + 1);
    }
  }

  lemma GridFrom(t: int, start: int, end: int, step: int)
    requires step > 0 && OnGrid(t, start, end, step)
    ensures start <= t <= end
  {
    var j: nat :| t == At(start, step, j) && t <= end;
    assert j * step >= 0;
  }

  // ----- The fill -----

  /** The source with a marker at every grid step, from `ts` on, that it does not cover. */
  function Fill(src: Samples, ts: int, end: int, step: int): Samples
    requires step > 0
    decreases |src|, end - ts
  {
    if src == [] then
      if ts <= end then [Sample(ts, Stale)] + Fill([], ts + step, end, step) else []
    else if ts <= end && ts < src[0].ts then [Sample(ts, Stale)] + Fill(src, ts + step, end, step)
    else [src[0]] + Fill(src[1..], if ts <= end && ts == src[0].ts then ts + step else ts, end, step)
  }

  /** The meaning of the fill: in strict time order, the source, and one marker at each grid step it does not cover. */
  ghost predicate Filled(out: Samples, src: Samples, start: int, end: int, step: int) {
    && Increasing(out)
    && forall s :: s in out <==>
         s in src || (s.v == Stale && OnGrid(s.ts, start, end, step) && !HasTime(src, s.ts))
  }

  lemma ConsFilled(head: Sample<Value>, rest: Samples)
    requires Increasing(rest) && forall s :: s in rest ==> head.ts < s.ts
    ensures Increasing([head] + rest)
  {
    IncreasingSnoc([head], rest);
  }

  lemma {:induction false} FillMeaning(src: Samples, ts: int, end: int, step: int)
    requires step > 0 && Increasing(src)
    ensures Filled(Fill(src, ts, end, step), src, ts, end, step)
    decreases |src|, end - ts
  {
    hide OnGrid, Filled, Increasing;
    forall t ensures OnGrid(t, ts, end, step) <==> ts <= end && (t == ts || OnGrid(t, ts + step, end, step)) {
      GridStep(t, ts, end, step);
    }
    forall t | OnGrid(t, ts, end, step) ensures ts <= t <= end {
      GridFrom(t, ts, end, step);
    }
    var next := ts + step;
    forall t | OnGrid(t, next, end, step) ensures next <= t <= end {
      GridFrom(t, next, end, step);
    }
    if src == [] || (ts <= end && ts < src[0].ts) {
      if ts <= end {
        FillMeaning(src, ts + step, end, step);
        MarkFilled(src, ts, next, end, step, Fill(src, next, end, step));
      } else {
        NothingFilled(ts, end, step);
      }
    } else {
      IncreasingTail(src);
      var ts' := if ts <= end && ts == src[0].ts then ts + step else ts;
      FillMeaning(src[1..], ts', end, step);
      TakeFilled(src, ts, next, ts', end, step, Fill(src[1..], ts', end, step));
    }
  }

  lemma NothingFilled(ts: int, end: int, step: int)
    requires forall t :: !OnGrid(t, ts, end, step)
    ensures Filled([], [], ts, end, step)
  {
  }

  lemma IncreasingTail(src: Samples)
    requires Increasing(src) && src != []
    ensures Increasing(src[1..])
  {
  }

  /** Writing the marker for an uncovered step. */
  lemma MarkFilled(src: Samples, ts: int, next: int, end: int, step: int, rest: Samples)
    requires step > 0 && next == ts + step && Increasing(src) && ts <= end && (src != [] ==> ts < src[0].ts)
    requires Filled(rest, src, next, end, step)
    requires forall t :: OnGrid(t, ts, end, step) <==> ts <= end && (t == ts || OnGrid(t, next, end, step))
    requires forall t :: OnGrid(t, next, end, step) ==> next <= t <= end
    ensures Filled([Sample(ts, Stale)] + rest, src, ts, end, step)
  {
    hide OnGrid;
    forall s | s in rest ensures ts < s.ts {
      if s in src {
        var i :| 0 <= i < |src| && src[i] == s;
      }
    }
    assert !HasTime(src, ts);
    ConsFilled(Sample(ts, Stale), rest);
  }

  lemma HasTimeTail(src: Samples)
    requires src != []
    ensures forall t :: HasTime(src, t) <==> t == src[0].ts || HasTime(src[1..], t)
  {
    var head, tail := src[0], src[1..];
    assert src == [head] + tail;
    forall t ensures HasTime(src, t) <==> t == head.ts || HasTime(tail, t) {
      if HasTime(tail, t) {
        var i :| 0 <= i < |tail| && tail[i].ts == t;
        assert src[i+1].ts == t;
      }
      if HasTime(src, t) && t != head.ts {
        var i :| 0 <= i < |src| && src[i].ts == t;
        assert tail[i-1].ts == t;
      }
    }
  }

  /** Taking over a source sample; the step it covers, if any, is done. */
  lemma TakeFilled(src: Samples, ts: int, next: int, ts': int, end: int, step: int, rest: Samples)
    requires step > 0 && next == ts + step && Increasing(src) && src != [] && !(ts <= end && ts < src[0].ts)
    requires ts' == if ts <= end && ts == src[0].ts then ts + step else ts
    requires Filled(rest, src[1..], ts', end, step)
    requires forall t :: OnGrid(t, ts, end, step) <==> ts <= end && (t == ts || OnGrid(t, next, end, step))
    requires forall t :: OnGrid(t, ts, end, step) ==> ts <= t <= end
    requires forall t :: OnGrid(t, next, end, step) ==> next <= t <= end
    ensures Filled([src[0]] + rest, src, ts, end, step)
  {
    hide OnGrid;
    var head, tail := src[0], src[1..];
    assert src == [head] + tail;
    HasTimeTail(src);
    forall t | OnGrid(t, ts', end, step) ensures t > head.ts {
    }
    forall t ensures OnGrid(t, ts, end, step) && t != head.ts <==> OnGrid(t, ts', end, step) {
    }
    forall s | s in rest ensures head.ts < s.ts {
      if s in tail {
        var i :| 0 <= i < |tail| && tail[i] == s;
        assert src[i+1] == s;
      }
    }
    ConsFilled(head, rest);
  }

  /** `samples` is written, and what is still to come completes the fill `all`. */
  ghost predicate FillTo(samples: Samples, rest: Samples, ts: int, end: int, step: int, all: Samples)
    requires step > 0
  {
    samples + Fill(rest, ts, end, step) == all
  }

  lemma FillMark(samples: Samples, rest: Samples, ts: int, end: int, step: int, all: Samples)
    requires step > 0 && ts <= end && (rest != [] ==> ts < rest[0].ts) && FillTo(samples, rest, ts, end, step, all)
    ensures FillTo(samples + [Sample(ts, Stale)], rest, ts + step, end, step, all)
  {
    var later := Fill(rest, ts + step, end, step);
    assert samples + ([Sample(ts, Stale)] + later) == samples + [Sample(ts, Stale)] + later;
  }

  lemma FillTake(samples: Samples, src: Samples, k: nat, ts: int, end: int, step: int, all: Samples)
    requires step > 0 && k < |src| && !(ts <= end && ts < src[k].ts) && FillTo(samples, src[k..], ts, end, step, all)
    ensures var ts' := if ts <= end && ts == src[k].ts then ts + step else ts;
            FillTo(samples + [src[k]], src[k+1..], ts', end, step, all)
  {
    assert src[k..][1..] == src[k+1..];
    var later := Fill(src[k+1..], if ts <= end && ts == src[k].ts then ts + step else ts, end, step);
    assert samples + ([src[k]] + later) == samples + [src[k]] + later;
  }

  lemma FillStart(src: Samples, start: int, end: int, step: int)
    requires step > 0
    ensures FillTo([], src[0..], start, end, step, Fill(src, start, end, step))
  {
    assert src[0..] == src;
    assert [] + Fill(src, start, end, step) == Fill(src, start, end, step);
  }

  lemma FillDone(samples: Samples, ts: int, end: int, step: int, all: Samples)
    requires step > 0 && ts > end && FillTo(samples, [], ts, end, step, all)
    ensures samples == all
  {
  }

  /** The fill loops of fillStaleNaNGapsDetectHistogram for one series. */
  method FillGaps(src: Samples, start: int, end: int, step: int) returns (samples: Samples, hasHist: bool)
    requires step > 0 && Increasing(src)
    ensures samples == Fill(src, start, end, step)
    ensures Filled(samples, src, start, end, step)
    ensures hasHist <==> HasHistogram(src)
  {
    hide Fill, Filled, Increasing, HasHistogram, FillTo;
    FillMeaning(src, start, end, step);
    ghost var all := Fill(src, start, end, step);
    FillStart(src, start, end, step);
    HistogramNone();
    samples, hasHist := [], false;
    var ts := start;
    var k := 0;
    while k < |src|
      invariant 0 <= k <= |src| && FillTo(samples, src[k..], ts, end, step, all)
      invariant hasHist <==> HasHistogram(src[..k])
    {
      var sample := src[k];
      HistogramSnoc(src, k);
      if sample.v.Histogram? {
        hasHist := true;
      }
      while ts <= end && ts < sample.ts
        invariant FillTo(samples, src[k..], ts, end, step, all)
        decreases end - ts
      {
        FillMark(samples, src[k..], ts, end, step, all);
        samples := samples + [Sample(ts, Stale)];
        ts := ts + step;
      }
      FillTake(samples, src, k, ts, end, step, all);
      samples := samples + [sample];
      if ts <= end && ts == sample.ts {
        ts := ts + step;
      }
      k := k + 1;
    }
    assert src[..k] == src && src[k..] == [];
    while ts <= end
      invariant FillTo(samples, [], ts, end, step, all)
      decreases end - ts
    {
      FillMark(samples, [], ts, end, step, all);
      samples := samples + [Sample(ts, Stale)];
      ts := ts + step;
    }
    FillDone(samples, ts, end, step, all);
  }

  ghost predicate HasHistogram(s: Samples) {
    exists i :: 0 <= i < |s| && s[i].v.Histogram?
  }

  lemma HistogramNone()
    ensures !HasHistogram([])
  {
  }

  lemma HistogramSnoc(s: Samples, k: nat)
    requires k < |s|
    ensures HasHistogram(s[..k+1]) <==> HasHistogram(s[..k]) || s[k].v.Histogram?
  {
    if i :| 0 <= i < |s[..k]| && s[..k][i].v.Histogram? {
      assert s[..k+1][i].v.Histogram?;
    }
    if s[k].v.Histogram? {
      assert s[..k+1][k].v.Histogram?;
    }
  }

  // ----- A whole result set -----

  /** One series of a result. Reading its samples may end in an error; an empty string stands for none. */
  datatype Series = Series(labels: map<string, string>, samples: Samples, err: string)

  datatype SeriesSet = SeriesSet(series: seq<Series>, err: string)

  ghost predicate WellFormed(ss: SeriesSet) {
    forall i :: 0 <= i < |ss.series| ==> Increasing(ss.series[i].samples)
  }

  /** How many series can be read in full before the first read error. */
  function Readable(series: seq<Series>): (n: nat)
    ensures n <= |series|
    ensures forall i :: 0 <= i < n ==> series[i].err == ""
    ensures n < |series| ==> series[n].err != ""
  {
    if series == [] then 0
    else
      var n := Readable(series[..|series|-1]);
      if n == |series| - 1 && series[n].err == "" then n + 1 else n
  }

  /** A histogram is among the samples read, those of the failing series included. */
  ghost predicate HistogramSeen(series: seq<Series>) {
    SeenUpTo(series, if Readable(series) < |series| then Readable(series) + 1 else |series|)
  }

  ghost predicate SeenUpTo(series: seq<Series>, k: nat)
    requires k <= |series|
  {
    exists i :: 0 <= i < k && HasHistogram(series[i].samples)
  }

  lemma SeenStep(series: seq<Series>, k: nat)
    requires k < |series|
    ensures SeenUpTo(series, k + 1) <==> SeenUpTo(series, k) || HasHistogram(series[k].samples)
  {
  }

  lemma SeenNone(series: seq<Series>)
    ensures !SeenUpTo(series, 0) && !HasHistogram([])
  {
  }

  /** Which is: in a series up to the first that cannot be read, some sample is a histogram. */
  lemma HistogramSeenMeaning(series: seq<Series>)
    ensures HistogramSeen(series) <==>
            exists i, j :: 0 <= i < |series| && (forall h :: 0 <= h < i ==> series[h].err == "")
              && 0 <= j < |series[i].samples| && series[i].samples[j].v.Histogram?
  {
    hide Readable;
    var n := Readable(series);
    if i :| 0 <= i < |series| && i <= n && HasHistogram(series[i].samples) {
      var j :| 0 <= j < |series[i].samples| && series[i].samples[j].v.Histogram?;
    }
    forall i | 0 <= i < |series| && series[i] in series && (forall h :: 0 <= h < i ==> series[h].err == "")
      ensures i <= n
    {
    }
  }

  function FillSeries(s: Series, start: int, end: int, step: int): Series
    requires step > 0
  {
    Series(s.labels, Fill(s.samples, start, end, step), "")
  }

  function FillFirst(series: seq<Series>, n: nat, start: int, end: int, step: int): seq<Series>
    requires step > 0 && n <= |series|
  {
    seq(n, i requires 0 <= i < n => FillSeries(series[i], start, end, step))
  }

  lemma FillFirstStep(series: seq<Series>, n: nat, start: int, end: int, step: int)
    requires step > 0 && n < |series|
    ensures FillFirst(series, n + 1, start, end, step) ==
            FillFirst(series, n, start, end, step) + [FillSeries(series[n], start, end, step)]
  {
    hide Fill;
  }

  lemma FillNone(series: seq<Series>, start: int, end: int, step: int)
    requires step > 0
    ensures FillFirst(series, 0, start, end, step) == []
  {
  }

  /** Filling a set: each series in turn, or an empty failed set when a series cannot be read. */
  function FillSet(ss: SeriesSet, start: int, end: int, step: int): SeriesSet
    requires step > 0
  {
    var n := Readable(ss.series);
    if n < |ss.series| then SeriesSet([], ss.series[n].err)
    else SeriesSet(FillFirst(ss.series, n, start, end, step), ss.err)
  }

  /** Copying a set, with the same handling of errors. */
  function CopySet(ss: SeriesSet): SeriesSet {
    var n := Readable(ss.series);
    if n < |ss.series| then SeriesSet([], ss.series[n].err) else ss
  }

  /** The first series that cannot be read. */
  ghost predicate FirstUnreadable(series: seq<Series>, i: int) {
    0 <= i < |series| && series[i].err != "" && forall h :: 0 <= h < i ==> series[h].err == ""
  }

  /** A filled set holds the filled series under their labels; one that cannot be read makes it an empty failed set. */
  lemma FillSetMeaning(ss: SeriesSet, start: int, end: int, step: int)
    requires WellFormed(ss) && step > 0
    ensures var out := FillSet(ss, start, end, step);
            && ((forall i :: 0 <= i < |ss.series| ==> ss.series[i].err == "") ==>
                  && |out.series| == |ss.series| && out.err == ss.err
                  && forall i :: 0 <= i < |ss.series| ==>
                       && out.series[i].labels == ss.series[i].labels && out.series[i].err == ""
                       && Filled(out.series[i].samples, ss.series[i].samples, start, end, step))
            && (forall i :: FirstUnreadable(ss.series, i) ==> out == SeriesSet([], ss.series[i].err))
  {
    hide Fill, Filled, Readable, Increasing;
    forall i | 0 <= i < |ss.series|
      ensures Filled(Fill(ss.series[i].samples, start, end, step), ss.series[i].samples, start, end, step)
    {
      FillMeaning(ss.series[i].samples, start, end, step);
    }
  }

  /** A copied set is the set; one series that cannot be read makes it an empty failed set. */
  lemma CopySetMeaning(ss: SeriesSet)
    ensures (forall i :: 0 <= i < |ss.series| ==> ss.series[i].err == "") ==> CopySet(ss) == ss
    ensures forall i :: FirstUnreadable(ss.series, i) ==> CopySet(ss) == SeriesSet([], ss.series[i].err)
  {
    hide Readable;
  }

  /** containsLossyHistogram: copy the set and report whether a histogram was seen. */
  method ContainsLossyHistogram(ss: SeriesSet) returns (out: SeriesSet, hasHist: bool)
    ensures out == CopySet(ss)
    ensures hasHist <==> HistogramSeen(ss.series)
  {
    hide HasHistogram, Readable, SeenUpTo;
    SeenNone(ss.series);
    var series: seq<Series> := [];
    hasHist := false;
    var k := 0;
    while k < |ss.series|
      invariant 0 <= k <= |ss.series| && k <= Readable(ss.series)
      invariant series == ss.series[..k]
      invariant hasHist <==> SeenUpTo(ss.series, k)
    {
      SeenStep(ss.series, k);
      var s := ss.series[k];
      var samples: Samples := [];
      var j := 0;
      ghost var before := hasHist;
      while j < |s.samples|
        invariant 0 <= j <= |s.samples| && samples == s.samples[..j]
        invariant hasHist <==> before || HasHistogram(s.samples[..j])
      {
        HistogramSnoc(s.samples, j);
        if s.samples[j].v.Histogram? {
          hasHist := true;
        }
        samples := samples + [s.samples[j]];
        j := j + 1;
      }
      assert s.samples[..j] == s.samples;
      if s.err != "" {
        return SeriesSet([], s.err), hasHist;
      }
      series := series + [Series(s.labels, samples, "")];
      k := k + 1;
    }
    return SeriesSet(series, ss.err), hasHist;
  }

  /** Integer division that rounds toward zero. */
  function Quotient(a: int, b: int): int
    requires b > 0
  {
    if a >= 0 then a / b else -((-a) / b)
  }

  /** The number of steps the fill makes room for, as it is computed. */
  function Steps(start: int, end: int, step: int): int
    requires step > 0
  {
    Quotient(end - start, step) + 1
  }

  /** The room asked for is negative exactly when the window runs backwards by two steps or more. */
  lemma NegativeSteps(start: int, end: int, step: int)
    requires step > 0
    ensures Steps(start, end, step) < 0 <==> end - start <= -2 * step
  {
    var back := start - end;
    if back > 0 {
      var q := back / step;
      assert back == q * step + back % step;
      if q >= 2 {
        Scaled(2, q, step);
      } else {
        Scaled(q + 1, 2, step);
      }
    } else {
      assert (end - start) / step >= 0;
    }
  }

  lemma Scaled(a: int, b: int, c: int)
    requires a <= b && c > 0
    ensures a * c <= b * c
  {
  }

  /** fillStaleNaNGapsDetectHistogram: one pass that fills and detects. Without a result the program has crashed: it
    asked for a buffer of negative size. */
  method FillDetect(ss: SeriesSet, start: int, end: int, step: int) returns (out: Option<SeriesSet>, hasHist: bool)
    requires WellFormed(ss)
    ensures out.None? <==> step > 0 && ss.series != [] && end - start <= -2 * step
    ensures step > 0 && out.Some? ==> out.value == FillSet(ss, start, end, step)
    ensures step <= 0 ==> out == Some(CopySet(ss))
    ensures out.Some? ==> (hasHist <==> HistogramSeen(ss.series))
  {
    if step <= 0 {
      var copy;
      copy, hasHist := ContainsLossyHistogram(ss);
      return Some(copy), hasHist;
    }
    var steps := Steps(start, end, step);
    NegativeSteps(start, end, step);
    hide Fill, Filled, Increasing, HasHistogram, Readable, SeenUpTo, FillFirst, Quotient;
    SeenNone(ss.series);
    FillNone(ss.series, start, end, step);
    var series: seq<Series> := [];
    hasHist := false;
    var k := 0;
    while k < |ss.series|
      invariant 0 <= k <= |ss.series| && k <= Readable(ss.series)
      invariant k > 0 ==> steps >= 0
      invariant series == FillFirst(ss.series, k, start, end, step)
      invariant hasHist <==> SeenUpTo(ss.series, k)
    {
      if steps < 0 {
        return None, hasHist;
      }
      SeenStep(ss.series, k);
      FillFirstStep(ss.series, k, start, end, step);
      var s := ss.series[k];
      var samples, hist := FillGaps(s.samples, start, end, step);
      hasHist := hasHist || hist;
      if s.err != "" {
        return Some(SeriesSet([], s.err)), hasHist;
      }
      series := series + [Series(s.labels, samples, "")];
      k := k + 1;
    }
    return Some(SeriesSet(series, ss.err)), hasHist;
  }

  /** The combined pass and "detect first, fill second" give the same set and the same flag. */
  method DetectThenFill(ss: SeriesSet, start: int, end: int, step: int)
    returns (out: Option<SeriesSet>, hasHist: bool)
    requires WellFormed(ss) && step > 0
    ensures out.None? <==> CopySet(ss).series != [] && end - start <= -2 * step
    ensures out.Some? ==> out.value == FillSet(ss, start, end, step)
    ensures hasHist <==> HistogramSeen(ss.series)
  {
    hide Fill, Increasing;
    var copy;
    copy, hasHist := ContainsLossyHistogram(ss);
    var ignored;
    out, ignored := FillDetect(copy, start, end, step);
  }

  // ----- Looking a step up -----

  /** The latest sample at or before `t`. */
  function Latest(s: Samples, t: int): Option<Sample<Value>> {
    if s == [] then None
    else if s[|s|-1].ts <= t then Some(s[|s|-1])
    else Latest(s[..|s|-1], t)
  }

  /** The engine's lookup: the latest sample inside the lookback window, unless it is a stale marker. */
  function Lookup(s: Samples, t: int, lookback: int): Option<Value> {
    match Latest(s, t)
    case None => None
    case Some(x) => if x.ts > t - lookback && x.v != Stale then Some(x.v) else None
  }

  /** The downstream's own answer for time `t`. */
  ghost function AnswerAt(src: Samples, t: int): Option<Value> {
    if HasTime(src, t) then
      var i :| 0 <= i < |src| && src[i].ts == t;
      if src[i].v == Stale then None else Some(src[i].v)
    else None
  }

  lemma {:induction false} LatestIs(s: Samples, i: nat, t: int)
    requires Increasing(s) && i < |s| && s[i].ts <= t && (i + 1 < |s| ==> s[i+1].ts > t)
    ensures Latest(s, t) == Some(s[i])
    decreases |s|
  {
    if i + 1 < |s| {
      assert s[i+1].ts <= s[|s|-1].ts;
      LatestIs(s[..|s|-1], i, t);
    }
  }

  /** At every step of the grid the lookup sees that step and no other: the sample found sits exactly there, and it is
    the downstream's sample for the step, or a marker if there was none; the lookback length does not matter. */
  lemma FilledStep(out: Samples, src: Samples, start: int, end: int, step: int, t: int, lookback: int)
    requires Filled(out, src, start, end, step) && Increasing(src) && OnGrid(t, start, end, step) && lookback > 0
    ensures Latest(out, t).Some? && Latest(out, t).value.ts == t
    ensures HasTime(src, t) ==> Latest(out, t).value in src
    ensures !HasTime(src, t) ==> Latest(out, t).value.v == Stale
    ensures Lookup(out, t, lookback) == AnswerAt(src, t)
  {
    var x: Sample<Value>;
    if HasTime(src, t) {
      var i :| 0 <= i < |src| && src[i].ts == t;
      x := src[i];
      assert forall j :: 0 <= j < |src| && src[j].ts == t ==> j == i;
    } else {
      x := Sample(t, Stale);
    }
    assert x in out;
    var n :| 0 <= n < |out| && out[n] == x;
    LatestIs(out, n, t);
  }

  /** Without the fill a sparse result leaks: a step with no sample of its own is answered with an earlier one. */
  lemma UnfilledLeaks(src: Samples, i: nat, t: int, lookback: int)
    requires Increasing(src) && i < |src| && src[i].ts < t && (i + 1 < |src| ==> src[i+1].ts > t)
    requires src[i].v != Stale && src[i].ts > t - lookback
    ensures AnswerAt(src, t) == None && Lookup(src, t, lookback) == Some(src[i].v)
  {
    LatestIs(src, i, t);
    assert forall j :: 0 <= j <= i ==> src[j].ts <= src[i].ts;
    assert forall j :: i + 1 <= j < |src| ==> src[j].ts >= src[i+1].ts;
  }
}
