/** A pushed-down aggregate over a range (the aggregate case of pkg/proxystorage/proxy.go). What comes back is not
  filled with stale markers, so the engine's lookup may find an earlier step's partial result where a group has none.
  This says exactly at which steps it does, and when the aggregate is right nevertheless. */
module RangePushdown {
  import opened Options
  import opened Labels
  import opened PromQL
  import opened Pushdown
  import opened TopK
  import opened ComparisonPushdown
  import opened Averages
  import opened ServerGroups
  import opened NodeReplacer
  import opened AntiAffinityMerge
  import opened StaleFill

  /** A fetched series of partial results. */
  datatype Partial = Partial(labels: Labels, samples: Samples)

  /** As range queries answer: in time order, and floats only. */
  ghost predicate Floats(s: Samples) {
    Increasing(s) && forall i :: 0 <= i < |s| ==> s[i].v.Float?
  }

  ghost predicate AllFloats(ps: seq<Partial>) {
    forall i :: 0 <= i < |ps| ==> Floats(ps[i].samples)
  }

  function ElementOf(labels: Labels, x: Option<Value>): Vector {
    if x.Some? && x.value.Float? then [Element(labels, x.value.v)] else []
  }

  /** What the engine finds at time `t`. */
  function Seen(ps: seq<Partial>, t: int, lookback: int): Vector {
    if ps == [] then []
    else
      var last := ps[|ps|-1];
      Seen(ps[..|ps|-1], t, lookback) + ElementOf(last.labels, Lookup(last.samples, t, lookback))
  }

  /** What the servers answered for time `t`. */
  ghost function Given(ps: seq<Partial>, t: int): Vector {
    if ps == [] then []
    else
      var last := ps[|ps|-1];
      Given(ps[..|ps|-1], t) + ElementOf(last.labels, AnswerAt(last.samples, t))
  }

  /** The engine finds this element in the series. */
  predicate ShownBy(p: Partial, t: int, lookback: int, x: Element) {
    p.labels == x.labels && Lookup(p.samples, t, lookback) == Some(Float(x.value))
  }

  /** The servers answered with it for time `t`. */
  ghost predicate GivenBy(p: Partial, t: int, x: Element) {
    p.labels == x.labels && AnswerAt(p.samples, t) == Some(Float(x.value))
  }

  lemma {:induction false} SeenMeaning(ps: seq<Partial>, t: int, lookback: int, x: Element)
    ensures x in Seen(ps, t, lookback) <==> exists i :: 0 <= i < |ps| && ShownBy(ps[i], t, lookback, x)
    decreases |ps|
  {
    hide Lookup;
    if ps != [] {
      var init, last := ps[..|ps|-1], ps[|ps|-1];
      SeenMeaning(init, t, lookback, x);
      assert x in ElementOf(last.labels, Lookup(last.samples, t, lookback)) <==> ShownBy(last, t, lookback, x);
      hide ElementOf, ShownBy;
      assert forall i :: 0 <= i < |init| ==> init[i] == ps[i];
    }
  }

  lemma {:induction false} GivenMeaning(ps: seq<Partial>, t: int, x: Element)
    ensures x in Given(ps, t) <==> exists i :: 0 <= i < |ps| && GivenBy(ps[i], t, x)
    decreases |ps|
  {
    hide AnswerAt;
    if ps != [] {
      var init, last := ps[..|ps|-1], ps[|ps|-1];
      GivenMeaning(init, t, x);
      assert x in ElementOf(last.labels, AnswerAt(last.samples, t)) <==> GivenBy(last, t, x);
      hide ElementOf, GivenBy;
      assert forall i :: 0 <= i < |init| ==> init[i] == ps[i];
    }
  }

  // ----- One series -----

  /** The series has a sample at `t`, or none in the lookback window before it. */
  ghost predicate Quiet(s: Samples, t: int, lookback: int) {
    HasTime(s, t) || forall i :: 0 <= i < |s| ==> !(t - lookback < s[i].ts < t)
  }

  /** The last sample before `t`, given that there is one and none at `t`. */
  lemma LastBefore(s: Samples, i: nat, t: int) returns (j: nat)
    requires Increasing(s) && i < |s| && s[i].ts < t && !HasTime(s, t)
    ensures i <= j < |s| && s[j].ts < t && (j + 1 < |s| ==> s[j+1].ts > t)
  {
    j := i;
    while j + 1 < |s| && s[j+1].ts < t
      invariant i <= j < |s| && s[j].ts < t
    {
      j := j + 1;
    }
    assert j + 1 < |s| ==> s[j+1].ts != t;
  }

  lemma {:induction false} LatestBounds(s: Samples, t: int)
    ensures Latest(s, t).Some? ==> Latest(s, t).value in s && Latest(s, t).value.ts <= t
    decreases |s|
  {
    if s != [] {
      LatestBounds(s[..|s|-1], t);
    }
  }

  /** The answer at a time that has a sample, and the lookup there. */
  lemma FoundAt(s: Samples, t: int, lookback: int, i: nat)
    requires Floats(s) && lookback > 0 && i < |s| && s[i].ts == t
    ensures AnswerAt(s, t) == Some(s[i].v) == Lookup(s, t, lookback)
  {
    assert HasTime(s, t);
    assert forall j :: 0 <= j < |s| && s[j].ts == t ==> j == i;
    LatestIs(s, i, t);
  }

  /** The lookup sees the step and no other exactly when the series is quiet before it; otherwise it sees an earlier
    one. */
  lemma QuietExact(s: Samples, t: int, lookback: int)
    requires Floats(s) && lookback > 0
    ensures Lookup(s, t, lookback) == AnswerAt(s, t) <==> Quiet(s, t, lookback)
    ensures AnswerAt(s, t).Some? ==> Lookup(s, t, lookback) == AnswerAt(s, t)
    ensures Lookup(s, t, lookback).Some? ==> exists i :: 0 <= i < |s| && Lookup(s, t, lookback) == Some(s[i].v)
  {
    LatestBounds(s, t);
    if i :| 0 <= i < |s| && s[i].ts == t {
      FoundAt(s, t, lookback, i);
    } else if i :| 0 <= i < |s| && t - lookback < s[i].ts < t {
      var j := LastBefore(s, i, t);
      assert s[i].ts <= s[j].ts;
      UnfilledLeaks(s, j, t, lookback);
    }
  }

  // ----- All of them -----

  ghost predicate AllQuiet(ps: seq<Partial>, t: int, lookback: int) {
    forall i :: 0 <= i < |ps| ==> Quiet(ps[i].samples, t, lookback)
  }

  lemma QuietSnoc(init: seq<Partial>, last: Partial, t: int, lookback: int)
    ensures AllQuiet(init + [last], t, lookback) <==> AllQuiet(init, t, lookback) && Quiet(last.samples, t, lookback)
  {
    hide Quiet;
    var ps := init + [last];
    assert forall i :: 0 <= i < |init| ==> init[i] == ps[i];
    assert ps[|init|] == last;
  }

  /** The engine sees at least what was given, and more exactly when some series is not quiet. */
  lemma {:induction false} SeenMore(ps: seq<Partial>, t: int, lookback: int)
    requires AllFloats(ps) && lookback > 0
    ensures |Given(ps, t)| <= |Seen(ps, t, lookback)|
    ensures AllQuiet(ps, t, lookback) ==> Seen(ps, t, lookback) == Given(ps, t)
    ensures !AllQuiet(ps, t, lookback) ==> |Given(ps, t)| < |Seen(ps, t, lookback)|
    decreases |ps|
  {
    hide Quiet, Floats, Lookup, AnswerAt;
    if ps != [] {
      var init, last := ps[..|ps|-1], ps[|ps|-1];
      SeenMore(init, t, lookback);
      LastSeen(last, t, lookback);
      QuietSnoc(init, last, t, lookback);
      assert ps == init + [last];
    }
  }

  lemma LastSeen(p: Partial, t: int, lookback: int)
    requires Floats(p.samples) && lookback > 0
    ensures var seen := ElementOf(p.labels, Lookup(p.samples, t, lookback));
            var given := ElementOf(p.labels, AnswerAt(p.samples, t));
            && (Quiet(p.samples, t, lookback) ==> seen == given)
            && (!Quiet(p.samples, t, lookback) ==> |seen| == 1 && given == [])
  {
    QuietExact(p.samples, t, lookback);
    hide Latest, Quiet;
  }

  /** At a step, the engine's operand is what the servers gave for it if and only if every series is quiet there. */
  lemma StepSeen(ps: seq<Partial>, t: int, lookback: int)
    requires AllFloats(ps) && lookback > 0
    ensures Seen(ps, t, lookback) == Given(ps, t) <==> AllQuiet(ps, t, lookback)
  {
    SeenMore(ps, t, lookback);
  }

  /** Then aggregating again is right at that step: the aggregate over every series of every group, evaluated there and
    compared as `f` says. */
  lemma RangeStepPreserved<D(!new)>(ps: seq<Partial>, t: int, lookback: int, re: Regex, op: Op, f: Filter, g: Grouping,
                                    e: int -> Inner<D>, groups: seq<ServerGroup<D>>, answers: seq<Vector>)
    requires AllFloats(ps) && lookback > 0 && AllQuiet(ps, t, lookback)
    requires Sound(re) && Pushable(groups, Folding(op), e(t)) && PushesDown(op, f)
    requires Fetches(Given(ps, t), re, Folding(op), f, g, e(t), groups, answers)
    ensures Aggregate(Again(op), Always, g, Seen(ps, t, lookback)) ==
            Aggregate(op, f, g, Eval(re, e(t), AllSeries(groups)))
  {
    hide Pushable, Fetches, Aggregate, Eval, AllQuiet, AllFloats, Given, Seen, PushesDown;
    StepSeen(ps, t, lookback);
    FoldingPreserved(Given(ps, t), re, op, f, g, e(t), groups, answers);
  }

  /** And so is selecting: from every series of every group that passes `f`, evaluated at that step. */
  lemma RangeStepSelected<D(!new)>(ps: seq<Partial>, t: int, lookback: int, re: Regex, op: AggregateOp, f: Filter,
                                   g: Grouping, e: int -> Inner<D>, groups: seq<ServerGroup<D>>, answers: seq<Vector>,
                                   out: Vector)
    requires AllFloats(ps) && lookback > 0 && AllQuiet(ps, t, lookback)
    requires Sound(re) && (op.Top? || op.Bottom?) && Pushable(groups, op, e(t)) && PushesSelection(f, op.Top?)
    requires Fetches(Given(ps, t), re, op, f, g, e(t), groups, answers)
    requires Selects(out, Seen(ps, t, lookback), op.k, op.Top?, g)
    ensures Selects(out, FilterVector(f, Eval(re, e(t), AllSeries(groups))), op.k, op.Top?, g)
  {
    hide Pushable, Fetches, Selects, Eval, AllQuiet, AllFloats, Given, Seen, PushesSelection, FilterVector;
    StepSeen(ps, t, lookback);
    SelectingPreserved(Given(ps, t), re, op, f, g, e(t), groups, answers, out);
  }

  /** And so is the quotient that replaces an average, with or without the metric name in the grouping. */
  lemma RangeStepAveraged<D(!new)>(sums: seq<Partial>, counts: seq<Partial>, t: int, lookback: int, re: Regex,
                                   g: Grouping, e: int -> Inner<D>, groups: seq<ServerGroup<D>>,
                                   sumAnswers: seq<Vector>, countAnswers: seq<Vector>)
    requires AllFloats(sums) && AllFloats(counts) && lookback > 0
    requires AllQuiet(sums, t, lookback) && AllQuiet(counts, t, lookback) && Sound(re)
    requires SideFetched(Given(sums, t), re, Sum, g, e(t), groups, sumAnswers)
    requires SideFetched(Given(counts, t), re, Count, g, e(t), groups, countAnswers)
    ensures var side := SideGrouping(g);
            var q := Divide(Aggregate(Sum, Always, side, Seen(sums, t, lookback)),
                            Aggregate(Sum, Always, side, Seen(counts, t, lookback)));
            var v := Eval(re, e(t), AllSeries(groups));
            && (METRIC_NAME !in g.names ==> q == Some(Average(g, v)))
            && (METRIC_NAME in g.names && CopyIsSpare(g, v) ==> q.Some? && RestoredTo(q.value, g, Average(g, v)))
  {
    hide Pushable, Fetches, Aggregate, Average, Divide, Eval, AllQuiet, AllFloats, Given, Seen, CopyIsSpare, RestoredTo;
    var side, x, v := SideGrouping(g), SideExpression(g, e(t)), Eval(re, e(t), AllSeries(groups));
    StepSeen(sums, t, lookback);
    StepSeen(counts, t, lookback);
    FoldingPreserved(Given(sums, t), re, Sum, Always, side, x, groups, sumAnswers);
    FoldingPreserved(Given(counts, t), re, Count, Always, side, x, groups, countAnswers);
    if METRIC_NAME !in g.names {
      AverageIsQuotient(g, v);
    } else if CopyIsSpare(g, v) {
      NamedSides(re, e(t), g, groups);
    }
  }

  /** A lookback of at most one step never reaches an earlier step. */
  lemma ShortLookback(ps: seq<Partial>, start: int, end: int, step: int, t: int, lookback: int)
    requires step > 0 && lookback <= step && OnGrid(t, start, end, step)
    requires forall i, n :: 0 <= i < |ps| && 0 <= n < |ps[i].samples| ==> OnGrid(ps[i].samples[n].ts, start, end, step)
    ensures AllQuiet(ps, t, lookback)
  {
    hide OnGrid;
    forall i | 0 <= i < |ps| ensures Quiet(ps[i].samples, t, lookback) {
      forall n | 0 <= n < |ps[i].samples| ensures !(t - lookback < ps[i].samples[n].ts < t) {
        if ps[i].samples[n].ts < t {
          GridApart(ps[i].samples[n].ts, t, start, end, step);
        }
      }
    }
  }

  lemma GridApart(x: int, y: int, start: int, end: int, step: int)
    requires step > 0 && OnGrid(x, start, end, step) && OnGrid(y, start, end, step) && x < y
    ensures x <= y - step
  {
    var i: nat :| x == At(start, step, i) && x <= end;
    var j: nat :| y == At(start, step, j) && y <= end;
    if j <= i {
      Scaled(j, i, step);
    } else {
      Scaled(i + 1, j, step);
    }
  }

  // ----- A count goes wrong as soon as one series is not quiet -----

  /** Partial counts are positive. */
  ghost predicate AllPositive(ps: seq<Partial>) {
    forall i, n :: 0 <= i < |ps| && 0 <= n < |ps[i].samples| ==> ps[i].samples[n].v.Float? && ps[i].samples[n].v.v > 0.0
  }

  /** The sum of a group's values. */
  function Total(g: Grouping, v: Vector, key: Labels): real {
    if v == [] then 0.0
    else
      var last := v[|v|-1];
      Total(g, v[..|v|-1], key) + if Key(g, last.labels) == key then last.value else 0.0
  }

  function Worth(x: Option<Value>): real {
    if x.Some? && x.value.Float? then x.value.v else 0.0
  }

  lemma TotalConcat(g: Grouping, v: Vector, labels: Labels, x: Option<Value>, key: Labels)
    ensures Total(g, v + ElementOf(labels, x), key) ==
            Total(g, v, key) + if Key(g, labels) == key then Worth(x) else 0.0
  {
    hide Key;
    var e := ElementOf(labels, x);
    if e == [] {
      assert v + e == v;
    } else {
      assert (v + e)[..|v|] == v;
    }
  }

  lemma LastWorth(s: Samples, t: int, lookback: int)
    requires Floats(s) && lookback > 0 && forall n :: 0 <= n < |s| ==> s[n].v.Float? && s[n].v.v > 0.0
    ensures Quiet(s, t, lookback) ==> Worth(Lookup(s, t, lookback)) == Worth(AnswerAt(s, t))
    ensures !Quiet(s, t, lookback) ==> Worth(Lookup(s, t, lookback)) > Worth(AnswerAt(s, t))
  {
    QuietExact(s, t, lookback);
    hide Quiet, Floats, Latest;
  }

  /** A group's total is never too small, and too large as soon as one of its series is not quiet. */
  lemma {:induction false} TotalSeen(g: Grouping, ps: seq<Partial>, t: int, lookback: int, key: Labels)
    requires AllFloats(ps) && AllPositive(ps) && lookback > 0
    ensures Total(g, Given(ps, t), key) <= Total(g, Seen(ps, t, lookback), key)
    ensures forall i :: 0 <= i < |ps| && Key(g, ps[i].labels) == key && !Quiet(ps[i].samples, t, lookback) ==>
              Total(g, Given(ps, t), key) < Total(g, Seen(ps, t, lookback), key)
    decreases |ps|
  {
    hide Quiet, Floats, Lookup, AnswerAt, ElementOf, Worth, Total, Key;
    if ps == [] {
      assert Given(ps, t) == Seen(ps, t, lookback);
    } else {
      var init, last := ps[..|ps|-1], ps[|ps|-1];
      TotalSeen(g, init, t, lookback, key);
      LastWorth(last.samples, t, lookback);
      TotalConcat(g, Seen(init, t, lookback), last.labels, Lookup(last.samples, t, lookback), key);
      TotalConcat(g, Given(init, t), last.labels, AnswerAt(last.samples, t), key);
      assert forall i :: 0 <= i < |init| ==> init[i] == ps[i];
    }
  }

  lemma {:induction false} SumIsTotal(g: Grouping, v: Vector, key: Labels)
    ensures var xs := ValuesIn(g, v, {key});
            && Fold(Sum, xs) == (if xs == [] then None else Some(Total(g, v, key)))
            && (xs == [] ==> Total(g, v, key) == 0.0)
    decreases |v|
  {
    hide Key;
    if v != [] {
      SumIsTotal(g, v[..|v|-1], key);
    }
  }

  /** A pushed-down count: for every grouping, the summed-up partial counts are those of the step if and only if every
    series is quiet there. */
  lemma CountOverRangeExact(g: Grouping, ps: seq<Partial>, t: int, lookback: int)
    requires AllFloats(ps) && AllPositive(ps) && lookback > 0
    ensures Aggregate(Sum, Always, g, Seen(ps, t, lookback)) == Aggregate(Sum, Always, g, Given(ps, t))
            <==> AllQuiet(ps, t, lookback)
  {
    var seen, given := Seen(ps, t, lookback), Given(ps, t);
    SeenMore(ps, t, lookback);
    if !AllQuiet(ps, t, lookback) {
      var i :| 0 <= i < |ps| && !Quiet(ps[i].samples, t, lookback);
      var key := Key(g, ps[i].labels);
      TotalSeen(g, ps, t, lookback, key);
      hide AllFloats, AllPositive, Seen, Given, Total, Key, Quiet;
      TotalsDiffer(g, seen, given, key);
    }
  }

  lemma TotalsDiffer(g: Grouping, seen: Vector, given: Vector, key: Labels)
    requires Total(g, given, key) < Total(g, seen, key)
    ensures Aggregate(Sum, Always, g, seen) != Aggregate(Sum, Always, g, given)
  {
    hide Fold, ValuesIn, Total, Key, Keys;
    SumIsTotal(g, seen, key);
    SumIsTotal(g, given, key);
    ResultKeys(Sum, Always, g, seen);
    ResultKeys(Sum, Always, g, given);
    var a, b := Aggregate(Sum, Always, g, seen), Aggregate(Sum, Always, g, given);
    if key in a && key in b {
      assert a[key] == Total(g, seen, key) && b[key] == Total(g, given, key);
    } else {
      assert ValuesIn(g, seen, {key}) == [] || ValuesIn(g, given, {key}) == [];
    }
  }
}
