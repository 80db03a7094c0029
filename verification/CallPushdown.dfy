/** The call case of NodeReplacer in pkg/proxystorage/proxy.go: a call runs on the servers, and a selector over what
  came back takes its place. The request leaves the node's offsets removed, whether or not the replacement is made. */
module CallPushdown {
  import opened Options
  import opened AntiAffinityMerge
  import opened StaleFill

  // ----- Replicating a pinned answer -----

  /** The inner loop of vectorToStepMatrix, for one series: the instant answer's last sample at every step. */
  method StepMatrix(vec: Samples, start: int, end: int, step: int) returns (out: Samples)
    requires step > 0 && start <= end
    ensures Increasing(out) && Replicated(out, vec, start, end, step)
  {
    out := [];
    if vec == [] {
      return;
    }
    var v := vec[|vec|-1].v;
    var n := (end - start) / step + 1;
    StepCount(start, end, step);
    var i: nat := 0;
    while i < n
      invariant i <= n && |out| == i
      invariant forall j :: 0 <= j < i ==> out[j] == Sample(At(start, step, j), v)
    {
      out := out + [Sample(start + i * step, v)];
      i := i + 1;
    }
    MatrixMeaning(out, v, start, end, step);
  }

  /** The number of steps: the last one is the last that does not pass the end. */
  lemma StepCount(start: int, end: int, step: int)
    requires step > 0 && start <= end
    ensures var n := (end - start) / step + 1; n > 0 && forall j: nat :: At(start, step, j) <= end <==> j < n
  {
    var q := (end - start) / step;
    DivBounds(end - start, step);
    forall j: nat ensures At(start, step, j) <= end <==> j < q + 1 {
      if j <= q {
        Scaled(j, q, step);
      } else {
        Scaled(q + 1, j, step);
      }
    }
  }

  lemma DivBounds(x: int, d: int)
    requires x >= 0 && d > 0
    ensures x / d >= 0 && x / d * d <= x < (x / d + 1) * d
  {
    assert x == x / d * d + x % d;
  }

  lemma MatrixMeaning(out: Samples, v: Value, start: int, end: int, step: int)
    requires step > 0 && start <= end && |out| == (end - start) / step + 1
    requires forall j :: 0 <= j < |out| ==> out[j] == Sample(At(start, step, j), v)
    ensures Increasing(out)
    ensures forall s :: s in out <==> OnGrid(s.ts, start, end, step) && s.v == v
  {
    StepCount(start, end, step);
    forall i, j | 0 <= i < j < |out| ensures out[i].ts < out[j].ts {
      assert i * step < j * step;
    }
    forall s ensures s in out <==> OnGrid(s.ts, start, end, step) && s.v == v {
      if s in out {
        var j :| 0 <= j < |out| && out[j] == s;
        assert s.ts == At(start, step, j);
      }
      if OnGrid(s.ts, start, end, step) && s.v == v {
        var j: nat :| s.ts == At(start, step, j) && s.ts <= end;
        assert out[j] == s;
      }
    }
  }

  /** The replicated answer of one series. */
  ghost predicate Replicated(out: Samples, vec: Samples, start: int, end: int, step: int) {
    if vec == [] then out == []
    else forall s :: s in out <==> OnGrid(s.ts, start, end, step) && s.v == vec[|vec|-1].v
  }

  lemma PinnedHistogram(out: Samples, vec: Samples, start: int, end: int, step: int)
    requires step > 0 && start <= end && Replicated(out, vec, start, end, step)
    ensures HasHistogram(out) <==> vec != [] && vec[|vec|-1].v.Histogram?
  {
    if vec != [] {
      assert start == At(start, step, 0);
      assert OnGrid(start, start, end, step);
      assert Sample(start, vec[|vec|-1].v) in out;
      if HasHistogram(out) {
        var i :| 0 <= i < |out| && out[i].v.Histogram?;
        assert out[i] in out;
      }
    }
  }

  /** A pinned answer is the same at every step. */
  lemma PinnedAnswer(out: Samples, vec: Samples, start: int, end: int, step: int, t: int)
    requires Replicated(out, vec, start, end, step) && OnGrid(t, start, end, step)
    ensures AnswerAt(out, t) == Meant(true, vec, t)
  {
    hide OnGrid;
    if vec != [] {
      var x := Sample(t, vec[|vec|-1].v);
      assert x in out;
      var n :| 0 <= n < |out| && out[n] == x;
      assert HasTime(out, t);
      forall i | 0 <= i < |out| && out[i].ts == t ensures out[i].v == x.v {
        assert out[i] in out;
      }
    }
  }

  /** A set replicated on the grid, series by series. */
  ghost predicate StepMatrixOf(out: seq<Series>, vec: seq<Series>, start: int, end: int, step: int) {
    && |out| == |vec|
    && forall i :: 0 <= i < |vec| ==> MatrixSeries(out[i], vec[i], start, end, step)
  }

  ghost predicate MatrixSeries(out: Series, vec: Series, start: int, end: int, step: int) {
    && out.labels == vec.labels && out.err == "" && Increasing(out.samples)
    && Replicated(out.samples, vec.samples, start, end, step)
  }

  /** vectorToStepMatrix. */
  method VectorToStepMatrix(vec: SeriesSet, start: int, end: int, step: int) returns (out: SeriesSet)
    ensures step <= 0 || end < start ==> out == SeriesSet([], vec.err)
    ensures step > 0 && start <= end ==>
              if Readable(vec.series) < |vec.series| then out == SeriesSet([], vec.series[Readable(vec.series)].err)
              else out.err == vec.err && StepMatrixOf(out.series, vec.series, start, end, step)
  {
    hide Readable, Replicated, Increasing;
    if step <= 0 || end < start {
      return SeriesSet([], vec.err);
    }
    var series: seq<Series> := [];
    var k := 0;
    while k < |vec.series|
      invariant 0 <= k <= |vec.series| && k <= Readable(vec.series)
      invariant StepMatrixOf(series, vec.series[..k], start, end, step)
    {
      var s := vec.series[k];
      if s.err != "" {
        return SeriesSet([], s.err);
      }
      var samples := StepMatrix(s.samples, start, end, step);
      series := series + [Series(s.labels, samples, "")];
      k := k + 1;
    }
    assert vec.series[..k] == vec.series;
    return SeriesSet(series, vec.err);
  }

  // ----- The node -----

  /** A range request: [start, end] by `interval`, or an instant one at `start` when the interval is not positive. */
  datatype Statement = Statement(start: int, end: int, interval: int)

  class CallNode {
    /** The offset that all selectors below the call share. */
    var offset: int
    /** Some selector is pinned by @ .. */
    const hasAt: bool
    /** .. to this time. */
    const at: int
    /** Some call depends on the evaluation time even when its selectors are pinned. */
    const unsafeCall: bool

    constructor (offset: int, hasAt: bool, at: int, unsafeCall: bool)
      ensures this.offset == offset && this.hasAt == hasAt && this.at == at && this.unsafeCall == unsafeCall
    {
      this.offset, this.hasAt, this.at, this.unsafeCall := offset, hasAt, at, unsafeCall;
    }

    /** A range request below this node is sent once, for the pinned time, and replicated. */
    predicate Pinned() {
      hasAt && !unsafeCall
    }
  }

  /** The selectors read the same samples with either offset, whatever the series, the time and the lookback. */
  ghost predicate SameReading(offset: int, offset': int) {
    forall src, t, lookback :: Reads(src, t, offset, lookback) == Reads(src, t, offset', lookback)
  }

  /** What a selector with an offset reads at `t`. */
  ghost function Reads(src: Samples, t: int, offset: int, lookback: int): Option<Value> {
    Lookup(src, t - offset, lookback)
  }

  lemma SameReadingExact(offset: int, offset': int)
    ensures SameReading(offset, offset') <==> offset == offset'
  {
    if offset != offset' {
      var src := [Sample(-offset, Float(0.0))];
      assert src[..0] == [] && src[|src|-1] == Sample(-offset, Float(0.0));
      assert Latest([], -offset').None?;
      assert Latest(src, -offset) == Some(src[0]);
      assert Latest(src, -offset') == if -offset <= -offset' then Some(src[0]) else None;
      assert Reads(src, 0, offset, 1) == Some(Float(0.0));
      assert Reads(src, 0, offset, 1) != Reads(src, 0, offset', 1);
    }
  }

  /** What the downstream means for step time `t`: its answer there, or its one instant answer when it is pinned. */
  ghost function Meant(pinned: bool, src: Samples, t: int): Option<Value> {
    if !pinned then AnswerAt(src, t)
    else if src == [] || src[|src|-1].v == Stale then None
    else Some(src[|src|-1].v)
  }

  /** At step time `t` the engine finds exactly that step of the downstream's answer, whatever its lookback. */
  ghost predicate StepExact(samples: Samples, offset: int, pinned: bool, src: Samples, reqOffset: int, t: int,
                            lookback: int)
  {
    var at := t - offset;
    && Latest(samples, at).Some? && Latest(samples, at).value.ts == at
    && Lookup(samples, at, lookback) == Meant(pinned, src, t - reqOffset)
  }

  /** So for every step of the statement. */
  ghost predicate EveryStepExact(samples: Samples, offset: int, pinned: bool, src: Samples, reqOffset: int,
                                 s: Statement)
  {
    forall t, lookback :: OnGrid(t, s.start, s.end, s.interval) && lookback > 0 ==>
      StepExact(samples, offset, pinned, src, reqOffset, t, lookback)
  }

  lemma FilledSeriesExact(samples: Samples, result: Samples, pinned: bool, src: Samples, reqOffset: int, s: Statement)
    requires s.interval > 0 && Increasing(result)
    requires Filled(samples, result, s.start - reqOffset, s.end - reqOffset, s.interval)
    requires if pinned then Replicated(result, src, s.start - reqOffset, s.end - reqOffset, s.interval)
             else result == src
    ensures EveryStepExact(samples, reqOffset, pinned, src, reqOffset, s)
  {
    hide Filled, Replicated, Increasing, OnGrid, Latest;
    var start, end := s.start - reqOffset, s.end - reqOffset;
    forall t, lookback | OnGrid(t, s.start, s.end, s.interval) && lookback > 0
      ensures StepExact(samples, reqOffset, pinned, src, reqOffset, t, lookback)
    {
      GridShift(t, s.start, s.end, s.interval, reqOffset);
      FilledStep(samples, result, start, end, s.interval, t - reqOffset, lookback);
      if pinned {
        PinnedAnswer(result, src, start, end, s.interval, t - reqOffset);
      }
    }
  }

  /** Shifting request and step time by the same offset stays on the grid. */
  lemma GridShift(t: int, start: int, end: int, step: int, offset: int)
    requires OnGrid(t, start, end, step)
    ensures OnGrid(t - offset, start - offset, end - offset, step)
  {
    var j: nat :| t == At(start, step, j) && t <= end;
    assert t - offset == At(start - offset, step, j);
  }

  // ----- The replacement -----

  /** What becomes of the call: the query fails, the program crashes, the node is left to the engine, or a selector over
    the fetched series takes its place. */
  datatype Outcome = Failed(err: string) | Crashed | Abandoned | Replaced(fetched: SeriesSet, offset: int)

  ghost predicate SomeUnreadable(series: seq<Series>) {
    exists i :: 0 <= i < |series| && series[i].err != ""
  }

  ghost predicate SomeEndsInHistogram(series: seq<Series>) {
    exists i :: 0 <= i < |series| && EndsInHistogram(series[i].samples)
  }

  /** In a series up to the first that cannot be read, some sample is a histogram. */
  ghost predicate HistogramRead(series: seq<Series>) {
    exists i, j ::
      && 0 <= i < |series| && 0 <= j < |series[i].samples| && series[i].samples[j].v.Histogram?
      && forall h :: 0 <= h < i ==> series[h].err == ""
  }

  predicate EndsInHistogram(s: Samples) {
    s != [] && s[|s|-1].v.Histogram?
  }

  /** Series by series, what replaces the call is exact at every step. */
  ghost predicate SetExact(fetched: SeriesSet, offset: int, pinned: bool, src: SeriesSet, reqOffset: int,
                           s: Statement)
  {
    && |fetched.series| == |src.series|
    && forall i :: 0 <= i < |src.series| ==>
         && fetched.series[i].labels == src.series[i].labels
         && EveryStepExact(fetched.series[i].samples, offset, pinned, src.series[i].samples, reqOffset, s)
  }

  // ----- The downstream -----

  /** The downstream: what it answers for the call with the offset that is left in it, to an instant query at a time,
    and to a range query with start, end and step. */
  datatype Downstream = Downstream(query: (int, int) -> SeriesSet, queryRange: (int, int, int, int) -> SeriesSet)

  /** What the call means: the value of the series with these labels, for the offset its selectors have and the time at
    which it is evaluated. */
  type Meaning = (map<string, string>, int, int) -> Option<Value>

  ghost predicate DistinctSeries(series: seq<Series>) {
    forall i, j :: 0 <= i < j < |series| ==> series[i].labels != series[j].labels
  }

  /** The samples of the series with these labels. */
  ghost function SamplesOf(series: seq<Series>, labels: map<string, string>): Option<Samples> {
    if exists i :: 0 <= i < |series| && series[i].labels == labels
    then var i :| 0 <= i < |series| && series[i].labels == labels; Some(series[i].samples)
    else None
  }

  ghost function RangeValue(series: seq<Series>, labels: map<string, string>, t: int): Option<Value> {
    match SamplesOf(series, labels) case None => None case Some(s) => AnswerAt(s, t)
  }

  ghost function InstantValue(series: seq<Series>, labels: map<string, string>): Option<Value> {
    match SamplesOf(series, labels)
    case None => None
    case Some(s) => if s == [] || s[|s|-1].v == Stale then None else Some(s[|s|-1].v)
  }

  /** What the engine finds, evaluating a selector with this offset over these series at time `t`. */
  ghost function FoundBy(series: seq<Series>, offset: int, labels: map<string, string>, t: int, lookback: int)
    : Option<Value>
  {
    match SamplesOf(series, labels) case None => None case Some(s) => Lookup(s, t - offset, lookback)
  }

  ghost predicate Readably(r: SeriesSet) {
    WellFormed(r) && DistinctSeries(r.series)
  }

  /** The downstream answers with what the call means, at the time of an instant query and at every step of a range. */
  ghost predicate Honest(ds: Downstream, means: Meaning) {
    && (forall left, t :: HonestAt(ds.query(left, t), means, left, t))
    && (forall left, start, end, step :: step > 0 ==>
          HonestOver(ds.queryRange(left, start, end, step), means, left, start, end, step))
  }

  ghost predicate HonestAt(r: SeriesSet, means: Meaning, left: int, t: int) {
    Readably(r) && (r.err == "" ==> forall labels :: InstantValue(r.series, labels) == means(labels, left, t))
  }

  ghost predicate HonestOver(r: SeriesSet, means: Meaning, left: int, start: int, end: int, step: int) {
    Readably(r) && (r.err == "" ==> forall labels, t :: OnGrid(t, start, end, step) ==>
      RangeValue(r.series, labels, t) == means(labels, left, t))
  }

  /** An offset looks that much further back. */
  ghost predicate Shifts(means: Meaning) {
    forall labels, offset, t :: means(labels, offset, t) == means(labels, 0, t - offset)
  }

  /** Pinned, the call means the same at every time. */
  ghost predicate Constant(means: Meaning) {
    forall labels, offset, t, t' :: means(labels, offset, t) == means(labels, offset, t')
  }

  /** What is known of the call. */
  ghost predicate Lawful(means: Meaning, hasAt: bool, unsafeCall: bool) {
    (!hasAt ==> Shifts(means)) && (hasAt && !unsafeCall ==> Constant(means))
  }

  lemma SamplesOfAt(series: seq<Series>, i: nat)
    requires DistinctSeries(series) && i < |series|
    ensures SamplesOf(series, series[i].labels) == Some(series[i].samples)
  {
  }

  // ----- The request -----

  /** queryDownstream for a range: a call pinned by @ is asked once, for the pinned time, and replicated. */
  method Request(ds: Downstream, left: int, pinned: bool, at: int, s: Statement, offset: int)
    returns (r: SeriesSet, ghost src: SeriesSet)
    requires s.interval > 0
    requires WellFormed(ds.queryRange(left, s.start - offset, s.end - offset, s.interval))
    ensures src == if pinned then ds.query(left, at)
                   else ds.queryRange(left, s.start - offset, s.end - offset, s.interval)
    ensures r.err != "" <==> src.err != "" || (pinned && s.start <= s.end && SomeUnreadable(src.series))
    ensures !pinned ==> r == src
    ensures pinned && r.err == "" ==>
              if s.start <= s.end
              then StepMatrixOf(r.series, src.series, s.start - offset, s.end - offset, s.interval)
              else r.series == []
    ensures r.err == "" ==> WellFormed(r)
  {
    hide Readable, Replicated, Increasing;
    if pinned {
      var answer := ds.query(left, at);
      src := answer;
      if answer.err != "" {
        return answer, src;
      }
      r := VectorToStepMatrix(answer, s.start - offset, s.end - offset, s.interval);
    } else {
      r := ds.queryRange(left, s.start - offset, s.end - offset, s.interval);
      src := r;
    }
  }

  // ----- The replacement -----

  /** The call case of NodeReplacer. The node's offsets are removed before the request is sent. `src` is the answer. */
  method ReplaceCall(node: CallNode, s: Statement, ds: Downstream, ghost means: Meaning)
    returns (r: Outcome, ghost src: SeriesSet)
    requires Honest(ds, means) && Lawful(means, node.hasAt, node.unsafeCall)
    modifies node
    // The offset is taken off the node, the request moved back by it; with @ both are left alone.
    ensures node.offset == if node.hasAt then old(node.offset) else 0
    ensures var back := if node.hasAt then 0 else old(node.offset);
            src == if s.interval <= 0 then ds.query(node.offset, s.start - back)
                   else if node.hasAt && !node.unsafeCall then ds.query(node.offset, node.at)
                   else ds.queryRange(node.offset, s.start - back, s.end - back, s.interval)
    // What becomes of the call.
    ensures var pinned := s.interval > 0 && node.hasAt && !node.unsafeCall;
            && (r.Failed? <==> src.err != "" || (pinned && s.start <= s.end && SomeUnreadable(src.series)))
            && (r.Crashed? <==>
                  !r.Failed? && s.interval > 0 && !pinned && src.series != [] && s.end - s.start <= -2 * s.interval)
            && (r.Abandoned? <==>
                  && !r.Failed? && !r.Crashed?
                  && if pinned then s.start <= s.end && SomeEndsInHistogram(src.series) else HistogramRead(src.series))
            && (r.Replaced? ==> (r.fetched.err != "" <==> !pinned && SomeUnreadable(src.series)))
    ensures r.Abandoned? ==> (SameReading(old(node.offset), node.offset) <==> node.hasAt || old(node.offset) == 0)
    ensures r.Replaced? ==> r.offset == if node.hasAt then 0 else old(node.offset)
    // At every step the engine finds what the call meant there, with the offset it had.
    ensures r.Replaced? && s.interval > 0 && r.fetched.err == "" ==>
              forall labels, t, lookback :: OnGrid(t, s.start, s.end, s.interval) && lookback > 0 ==>
                FoundBy(r.fetched.series, r.offset, labels, t, lookback) == means(labels, old(node.offset), t)
    ensures r.Replaced? && s.interval > 0 && r.fetched.err == "" && !node.hasAt ==>
              forall labels, t, lookback :: OnGrid(t, s.start, s.end, s.interval) && lookback > 0 ==>
                FoundBy(r.fetched.series, r.offset, labels, t, lookback) == means(labels, 0, t - old(node.offset))
    // And it finds it exactly there, as a sample or a marker.
    ensures r.Replaced? && s.interval > 0 && r.fetched.err == "" ==>
              forall i, t :: 0 <= i < |r.fetched.series| && OnGrid(t, s.start, s.end, s.interval) ==>
                SitsAt(r.fetched.series[i].samples, t - r.offset)
    ensures r.Replaced? && s.interval <= 0 && r.fetched.err == "" ==>
              forall labels :: InstantValue(r.fetched.series, labels) == means(labels, old(node.offset), s.start)
  {
    hide Readable, HistogramSeen, FillSet, Replicated, Increasing, SameReading, CopySet, Shifts, Constant, StepMatrixOf;
    hide HonestAt, HonestOver;
    var pinned := node.Pinned();
    ghost var before := node.offset;
    var offset := if node.hasAt then 0 else node.offset;
    SameReadingExact(node.offset, if node.hasAt then node.offset else 0);
    if !node.hasAt {
      node.offset := 0;
    }
    if s.interval <= 0 {
      var answer := ds.query(node.offset, s.start - offset);
      src := answer;
      if answer.err != "" {
        return Failed(answer.err), src;
      }
      var copy, lossyCopy := ContainsLossyHistogram(answer);
      HistogramSeenMeaning(src.series);
      CopyReadable(src);
      InstantMeans(src, means, node.hasAt, node.unsafeCall, before, node.offset, s.start, offset);
      return if lossyCopy then Abandoned else Replaced(copy, offset), src;
    }
    RangeWellFormed(ds, means, node.offset, s.start - offset, s.end - offset, s.interval);
    var result;
    result, src := Request(ds, node.offset, pinned, node.at, s, offset);
    if result.err != "" {
      return Failed(result.err), src;
    }
    var filled, lossy := FillDetect(result, s.start - offset, s.end - offset, s.interval);
    MatrixCrash(pinned, s, offset, result, src);
    if filled.None? {
      return Crashed, src;
    }
    MatrixLossy(pinned, s, offset, result, src);
    HistogramSeenMeaning(src.series);
    if lossy {
      return Abandoned, src;
    }
    FilledSetExact(filled.value, result, pinned, s, offset, src);
    if filled.value.err == "" {
      RangeMeans(filled.value, src, ds, means, node.hasAt, node.unsafeCall, before, node.offset, node.at, s, offset);
    }
    return Replaced(filled.value, offset), src;
  }

  /** The latest sample at or before `t` is at `t`. */
  ghost predicate SitsAt(s: Samples, t: int) {
    Latest(s, t).Some? && Latest(s, t).value.ts == t
  }

  lemma CopyReadable(ss: SeriesSet)
    requires ss.err == ""
    ensures CopySet(ss).err != "" <==> exists i :: 0 <= i < |ss.series| && ss.series[i].err != ""
    ensures CopySet(ss).err == "" ==> CopySet(ss) == ss
  {
    hide Readable;
  }

  lemma RangeWellFormed(ds: Downstream, means: Meaning, left: int, start: int, end: int, step: int)
    requires Honest(ds, means) && step > 0
    ensures WellFormed(ds.queryRange(left, start, end, step))
  {
    assert HonestOver(ds.queryRange(left, start, end, step), means, left, start, end, step);
  }

  lemma InstantMeans(src: SeriesSet, means: Meaning, hasAt: bool, unsafeCall: bool, before: int, left: int, t: int,
                     offset: int)
    requires HonestAt(src, means, left, t - offset) && src.err == "" && Lawful(means, hasAt, unsafeCall)
    requires if hasAt then left == before && offset == 0 else left == 0 && offset == before
    ensures forall labels :: InstantValue(src.series, labels) == means(labels, before, t)
  {
    hide InstantValue;
    forall labels ensures InstantValue(src.series, labels) == means(labels, before, t) {
      assert InstantValue(src.series, labels) == means(labels, left, t - offset);
      if !hasAt {
        assert means(labels, before, t) == means(labels, 0, t - before);
      }
    }
  }

  /** Only an answer over a range makes the fill crash: a replicated one has a series only for a forward window. */
  lemma MatrixCrash(pinned: bool, s: Statement, offset: int, result: SeriesSet, src: SeriesSet)
    requires s.interval > 0 && (!pinned ==> result == src) && (pinned && s.start > s.end ==> result.series == [])
    ensures result.series != [] && (s.end - offset) - (s.start - offset) <= -2 * s.interval <==>
            !pinned && src.series != [] && s.end - s.start <= -2 * s.interval
  {
  }

  /** A replicated set has a histogram exactly when some series' last sample is one. */
  lemma MatrixLossy(pinned: bool, s: Statement, offset: int, result: SeriesSet, src: SeriesSet)
    requires s.interval > 0
    requires pinned ==> if s.start <= s.end
                        then StepMatrixOf(result.series, src.series, s.start - offset, s.end - offset, s.interval)
                        else result.series == []
    ensures pinned ==>
              (HistogramSeen(result.series) <==> s.start <= s.end && SomeEndsInHistogram(src.series))
    ensures pinned ==> Readable(result.series) == |result.series|
  {
    hide Replicated, Increasing, HasHistogram;
    if pinned && s.start <= s.end {
      var series := result.series;
      forall i | 0 <= i < |series|
        ensures HasHistogram(series[i].samples) <==> EndsInHistogram(src.series[i].samples)
      {
        assert MatrixSeries(series[i], src.series[i], s.start - offset, s.end - offset, s.interval);
        PinnedHistogram(series[i].samples, src.series[i].samples, s.start - offset, s.end - offset, s.interval);
      }
      AllReadable(series);
      assert HistogramSeen(series) <==> SeenUpTo(series, |series|);
    }
  }

  lemma AllReadable(series: seq<Series>)
    requires forall i :: 0 <= i < |series| ==> series[i].err == ""
    ensures Readable(series) == |series|
  {
  }

  lemma FilledSetExact(filled: SeriesSet, result: SeriesSet, pinned: bool, s: Statement, offset: int, src: SeriesSet)
    requires s.interval > 0 && WellFormed(result) && result.err == ""
    requires filled == FillSet(result, s.start - offset, s.end - offset, s.interval)
    requires !pinned ==> result == src
    requires pinned ==> Readable(result.series) == |result.series|
    requires pinned && s.start <= s.end ==>
               StepMatrixOf(result.series, src.series, s.start - offset, s.end - offset, s.interval)
    ensures filled.err != "" <==> !pinned && exists i :: 0 <= i < |src.series| && src.series[i].err != ""
    ensures s.start <= s.end && filled.err == "" ==> SetExact(filled, offset, pinned, src, offset, s)
    ensures filled.err == "" ==> |filled.series| == |result.series|
  {
    hide Fill, Filled, Replicated, Increasing, EveryStepExact, Readable;
    var start, end := s.start - offset, s.end - offset;
    if s.start <= s.end && filled.err == "" {
      forall i | 0 <= i < |src.series|
        ensures filled.series[i].labels == src.series[i].labels
        ensures EveryStepExact(filled.series[i].samples, offset, pinned, src.series[i].samples, offset, s)
      {
        var x := result.series[i];
        assert pinned ==> MatrixSeries(x, src.series[i], start, end, s.interval);
        assert filled.series[i] == FillSeries(x, start, end, s.interval);
        FillMeaning(x.samples, start, end, s.interval);
        FilledSeriesExact(filled.series[i].samples, x.samples, pinned, src.series[i].samples, offset, s);
      }
    }
  }

  /** At every step the engine finds what the call meant there. */
  lemma RangeMeans(filled: SeriesSet, src: SeriesSet, ds: Downstream, means: Meaning, hasAt: bool, unsafeCall: bool,
                   before: int, left: int, at: int, s: Statement, offset: int)
    requires Honest(ds, means) && Lawful(means, hasAt, unsafeCall) && s.interval > 0 && src.err == ""
    requires if hasAt then left == before && offset == 0 else left == 0 && offset == before
    requires var pinned := hasAt && !unsafeCall;
             && src == (if pinned then ds.query(left, at)
                        else ds.queryRange(left, s.start - offset, s.end - offset, s.interval))
             && (s.start <= s.end ==> SetExact(filled, offset, pinned, src, offset, s))
    ensures forall labels, t, lookback :: OnGrid(t, s.start, s.end, s.interval) && lookback > 0 ==>
              FoundBy(filled.series, offset, labels, t, lookback) == means(labels, before, t)
    ensures !hasAt ==> forall labels, t, lookback :: OnGrid(t, s.start, s.end, s.interval) && lookback > 0 ==>
              FoundBy(filled.series, offset, labels, t, lookback) == means(labels, 0, t - before)
    ensures forall i, t :: 0 <= i < |filled.series| && OnGrid(t, s.start, s.end, s.interval) ==>
              SitsAt(filled.series[i].samples, t - offset)
  {
    hide HonestAt, HonestOver, SetExact, FoundBy, OnGrid, SitsAt, Shifts, Constant, Latest;
    var pinned := hasAt && !unsafeCall;
    forall labels, t, lookback | OnGrid(t, s.start, s.end, s.interval) && lookback > 0
      ensures FoundBy(filled.series, offset, labels, t, lookback) == means(labels, before, t)
      ensures !hasAt ==> FoundBy(filled.series, offset, labels, t, lookback) == means(labels, 0, t - before)
    {
      GridFrom(t, s.start, s.end, s.interval);
      GridShift(t, s.start, s.end, s.interval, offset);
      if pinned {
        assert HonestAt(src, means, left, at);
        FoundPinned(filled, src, means, left, at, s, offset, labels, t, lookback);
      } else {
        assert HonestOver(src, means, left, s.start - offset, s.end - offset, s.interval);
        FoundRanged(filled, src, means, left, s, offset, labels, t, lookback);
      }
      MeansAt(means, hasAt, unsafeCall, labels, before, left, at, offset, t);
    }
    forall i, t | 0 <= i < |filled.series| && OnGrid(t, s.start, s.end, s.interval)
      ensures SitsAt(filled.series[i].samples, t - offset)
    {
      GridFrom(t, s.start, s.end, s.interval);
      SetSits(filled, src, pinned, s, offset, i, t);
    }
  }

  lemma MeansAt(means: Meaning, hasAt: bool, unsafeCall: bool, labels: map<string, string>, before: int, left: int,
                at: int, offset: int, t: int)
    requires Lawful(means, hasAt, unsafeCall)
    requires if hasAt then left == before && offset == 0 else left == 0 && offset == before
    ensures hasAt && !unsafeCall ==> means(labels, left, at) == means(labels, before, t)
    ensures !(hasAt && !unsafeCall) ==> means(labels, left, t - offset) == means(labels, before, t)
    ensures !hasAt ==> means(labels, before, t) == means(labels, 0, t - before)
  {
  }

  lemma FoundRanged(filled: SeriesSet, src: SeriesSet, means: Meaning, left: int, s: Statement, offset: int,
                    labels: map<string, string>, t: int, lookback: int)
    requires HonestOver(src, means, left, s.start - offset, s.end - offset, s.interval) && src.err == ""
    requires SetExact(filled, offset, false, src, offset, s)
    requires OnGrid(t, s.start, s.end, s.interval) && lookback > 0
    requires OnGrid(t - offset, s.start - offset, s.end - offset, s.interval)
    ensures FoundBy(filled.series, offset, labels, t, lookback) == means(labels, left, t - offset)
  {
    hide OnGrid, Latest, Lookup, AnswerAt;
    assert RangeValue(src.series, labels, t - offset) == means(labels, left, t - offset);
    SameLabels(filled, src, offset, false, s);
    if i :| 0 <= i < |src.series| && src.series[i].labels == labels {
      SamplesOfAt(src.series, i);
      SamplesOfAt(filled.series, i);
      assert EveryStepExact(filled.series[i].samples, offset, false, src.series[i].samples, offset, s);
      assert StepExact(filled.series[i].samples, offset, false, src.series[i].samples, offset, t, lookback);
    }
  }

  lemma FoundPinned(filled: SeriesSet, src: SeriesSet, means: Meaning, left: int, at: int, s: Statement, offset: int,
                    labels: map<string, string>, t: int, lookback: int)
    requires HonestAt(src, means, left, at) && src.err == ""
    requires SetExact(filled, offset, true, src, offset, s)
    requires OnGrid(t, s.start, s.end, s.interval) && lookback > 0
    ensures FoundBy(filled.series, offset, labels, t, lookback) == means(labels, left, at)
  {
    hide OnGrid, Latest, Lookup;
    assert InstantValue(src.series, labels) == means(labels, left, at);
    SameLabels(filled, src, offset, true, s);
    if i :| 0 <= i < |src.series| && src.series[i].labels == labels {
      SamplesOfAt(src.series, i);
      SamplesOfAt(filled.series, i);
      assert EveryStepExact(filled.series[i].samples, offset, true, src.series[i].samples, offset, s);
      assert StepExact(filled.series[i].samples, offset, true, src.series[i].samples, offset, t, lookback);
    }
  }

  lemma SameLabels(filled: SeriesSet, src: SeriesSet, offset: int, pinned: bool, s: Statement)
    requires SetExact(filled, offset, pinned, src, offset, s) && DistinctSeries(src.series)
    ensures |filled.series| == |src.series| && DistinctSeries(filled.series)
    ensures forall i :: 0 <= i < |src.series| ==> filled.series[i].labels == src.series[i].labels
  {
    hide EveryStepExact;
  }

  lemma SetSits(filled: SeriesSet, src: SeriesSet, pinned: bool, s: Statement, offset: int, i: nat, t: int)
    requires SetExact(filled, offset, pinned, src, offset, s) && i < |filled.series|
    requires OnGrid(t, s.start, s.end, s.interval)
    ensures SitsAt(filled.series[i].samples, t - offset)
  {
    hide OnGrid, Latest, Lookup;
    assert EveryStepExact(filled.series[i].samples, offset, pinned, src.series[i].samples, offset, s);
    assert StepExact(filled.series[i].samples, offset, pinned, src.series[i].samples, offset, t, 1);
  }

  // ----- The windows that callers make -----

  /** Where a subquery's evaluation starts: the first step, counted from time zero, that is not before `subStart`. */
  function SubqueryStart(subStart: int, interval: int, zero: int): int
    requires interval > 0
  {
    var aligned := subStart - (subStart - zero) % interval;
    if aligned < subStart then aligned + interval else aligned
  }

  /** That is a multiple of the interval from the time zero, and the one before it would be too early. */
  lemma SubqueryStartMeaning(subStart: int, interval: int, zero: int)
    requires interval > 0
    ensures var start := SubqueryStart(subStart, interval, zero);
            subStart <= start < subStart + interval && exists k :: start == zero + k * interval
  {
    var k := (subStart - zero) / interval;
    assert subStart - zero == k * interval + (subStart - zero) % interval;
    assert (k + 1) * interval == k * interval + interval;
    if (subStart - zero) % interval == 0 {
      assert SubqueryStart(subStart, interval, zero) == zero + k * interval;
    } else {
      assert SubqueryStart(subStart, interval, zero) == zero + (k + 1) * interval;
    }
  }

  /** The windows for which the fill crashes, if there is a series. */
  predicate RunsBackTwoSteps(s: Statement) {
    s.end - s.start <= -2 * s.interval
  }

  /** The statement of a subquery that is not pinned. */
  function Subquery(s: Statement, offset: int, length: int, interval: int, zero: int): Statement
    requires interval > 0
  {
    Statement(SubqueryStart(s.start - offset - length, interval, zero), s.end - offset, interval)
  }

  /** A subquery over a forward window starts less than one step past its end, so its fill never crashes. */
  lemma SubqueryWindow(s: Statement, offset: int, length: int, interval: int, zero: int)
    requires s.start <= s.end && length >= 0 && interval > 0
    ensures var sub := Subquery(s, offset, length, interval, zero);
            && sub.end == s.end - offset && sub.interval == interval
            && s.start - offset - length <= sub.start < s.start - offset - length + interval
            && sub.end - sub.start > -interval && !RunsBackTwoSteps(sub)
    ensures s.interval > 0 ==> !RunsBackTwoSteps(s)
  {
  }

  /** A subquery inside a subquery can get a window that runs backwards far enough: an outer step of an hour moves the
    start to the next full hour, and the inner one, of a second each, takes that over. */
  lemma NestedSubqueryWindow()
    ensures var minute, hour := 60_000, 3_600_000;
            var s := Statement(minute + 1000, minute + 1000, minute);
            RunsBackTwoSteps(Subquery(Subquery(s, 0, minute, hour, 0), 0, 1000, 1000, 0))
  {
  }
}
