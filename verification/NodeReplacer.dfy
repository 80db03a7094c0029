/** The aggregate case of NodeReplacer in pkg/proxystorage/proxy.go. The node is changed in place: its operand becomes
  the fetched partial results and a count becomes a sum; an average is replaced by a division of two new nodes.
  Evaluating what is left in promxy equals evaluating the original node over every series of every server group. */
module NodeReplacer {
  import opened Options
  import opened Labels
  import opened PromQL
  import opened Pushdown
  import opened TopK
  import opened Averages
  import opened ComparisonPushdown
  import opened ServerGroups
  import AntiAffinityMerge
  import StaleFill

  /** A node's operand: an expression still to be evaluated, given for every offset its selectors may have, or series
    already fetched. */
  datatype Operand<!D> = Expression(e: int -> Inner<D>, offset: int, hasAt: bool) | Fetched(v: Vector)

  function OperandVector<D(!new)>(re: Regex, o: Operand<D>, groups: seq<ServerGroup<D>>): Vector {
    match o
    case Expression(e, offset, _) => Eval(re, e(offset), AllSeries(groups))
    case Fetched(v) => v
  }

  /** removeOffsetFn: the selectors' offsets are removed before the request is sent, unless @ pins one of them. */
  function OffsetRemoved<D>(o: Operand<D>): Operand<D>
    requires o.Expression?
  {
    if o.hasAt then o else o.(offset := 0)
  }

  class AggregateExpr<!D(!new)> {
    var op: AggregateOp
    var operand: Operand<D>
    const grouping: Grouping

    constructor (op: AggregateOp, operand: Operand<D>, grouping: Grouping)
      ensures this.op == op && this.operand == operand && this.grouping == grouping
    {
      this.op, this.operand, this.grouping := op, operand, grouping;
    }

    /** What the engine computes for a node that yields one value for each group. */
    ghost function Value(re: Regex, groups: seq<ServerGroup<D>>): map<Labels, real>
      reads this
      requires op.Folding? || op.Avg?
    {
      var v := OperandVector(re, operand, groups);
      if op.Folding? then Aggregate(op.op, Always, grouping, v) else Average(grouping, v)
    }

    /** What the engine may select for topk and bottomk. */
    ghost predicate MaySelect(re: Regex, groups: seq<ServerGroup<D>>, out: Vector)
      reads this
      requires op.Top? || op.Bottom?
    {
      Selects(out, OperandVector(re, operand, groups), op.k, op.Top?, grouping)
    }
  }

  /** What an aggregate node becomes: left alone, since its series are there already; left to the engine, since a
    histogram came back; changed in place; or replaced by a quotient, around which the name is restored in the last
    case. */
  datatype Replacement<!D(!new)> =
    | Unchanged
    | Abandoned
    | InPlace
    | Quotient(sum: AggregateExpr<D>, count: AggregateExpr<D>)
    | NamedQuotient(sum: AggregateExpr<D>, count: AggregateExpr<D>)

  /** The operand with the name copied, for each offset. */
  function NameCopied<D>(o: Operand<D>): Operand<D>
    requires o.Expression?
  {
    o.(e := offset => KeepName(o.e(offset)))
  }

  lemma {:induction false} EvalKeepName<D(!new)>(re: Regex, e: Inner<D>, store: seq<Series<D>>)
    ensures Eval(re, KeepName(e), store) == PreserveAll(Eval(re, e, store), METRIC_NAME, NAME_COPY)
    decreases |store|
  {
    hide Preserve;
    if store != [] {
      EvalKeepName(re, e, store[..|store|-1]);
    }
  }

  lemma {:induction false} EvalNormal<D(!new)>(re: Regex, e: Inner<D>, store: seq<Series<D>>)
    requires forall n :: 0 <= n < |store| ==> Normal(store[n].labels)
    ensures AllNormal(Eval(re, e, store))
    decreases |store|
  {
    hide Normal, EvalOne;
    if store != [] {
      EvalNormal(re, e, store[..|store|-1]);
      EvalOneLabels(re, e, store[|store|-1]);
    }
  }

  lemma {:induction false} AllSeriesNormal<D(!new)>(groups: seq<ServerGroup<D>>)
    ensures forall n :: 0 <= n < |AllSeries(groups)| ==> Normal(AllSeries(groups)[n].labels)
    decreases |groups|
  {
    hide Normal, Labelled;
    if groups != [] {
      AllSeriesNormal(groups[..|groups|-1]);
      var last := groups[|groups|-1];
      forall n | 0 <= n < |last.store| ensures Normal(LabelStore(last.store, last.added)[n].labels) {
        LabelledGet(last.store[n].labels, last.added, "");
      }
    }
  }

  /** Both sides of the quotient, where the grouping names the metric name. */
  lemma NamedSides<D(!new)>(re: Regex, e: Inner<D>, g: Grouping, groups: seq<ServerGroup<D>>)
    requires METRIC_NAME in g.names && CopyIsSpare(g, Eval(re, e, AllSeries(groups)))
    ensures var sides := Eval(re, KeepName(e), AllSeries(groups));
            var q := Divide(Aggregate(Sum, Always, Renamed(g), sides), Aggregate(Count, Always, Renamed(g), sides));
            q.Some? && RestoredTo(q.value, g, Average(g, Eval(re, e, AllSeries(groups))))
  {
    hide Eval, Aggregate, Average, Divide, CopyIsSpare, AllNormal;
    var v := Eval(re, e, AllSeries(groups));
    AllSeriesNormal(groups);
    EvalNormal(re, e, AllSeries(groups));
    EvalKeepName(re, e, AllSeries(groups));
    NamedAverageIsQuotient(g, v);
  }

  /** However the quotient is listed, putting the name back and taking the maximum gives `avg`. */
  ghost predicate RestoredTo(q: map<Labels, real>, g: Grouping, avg: map<Labels, real>) {
    forall w :: Lists(w, q) ==> Aggregate(Max, Always, g, PreserveAll(w, NAME_COPY, METRIC_NAME)) == avg
  }

  /** The aggregate case of NodeReplacer. `result` is missing when a native histogram came back. */
  method Replace<D(!new)>(n: AggregateExpr<D>, result: Option<Vector>,
                          ghost re: Regex, ghost groups: seq<ServerGroup<D>>, ghost answers: seq<Vector>)
    returns (r: Replacement<D>)
    modifies n
    requires Sound(re)
    requires n.operand.Expression? && !n.op.Avg? && result.Some? ==>
               var e := n.operand.e(n.operand.offset);
               Pushable(groups, n.op, e) && Fetches(result.value, re, n.op, Always, n.grouping, e, groups, answers)
    ensures r.Unchanged? <==> old(n.operand.Fetched?)
    ensures r.Abandoned? <==> old(n.operand.Expression? && !n.op.Avg?) && result.None?
    ensures r.Quotient? <==> old(n.operand.Expression? && n.op.Avg?) && METRIC_NAME !in n.grouping.names
    ensures r.NamedQuotient? <==> old(n.operand.Expression? && n.op.Avg?) && METRIC_NAME in n.grouping.names
    ensures !r.InPlace? ==> n.op == old(n.op)
    ensures !r.InPlace? && !r.Abandoned? ==> n.operand == old(n.operand)
    // Abandoning leaves the node without its offset.
    ensures r.Abandoned? ==> n.operand == OffsetRemoved(old(n.operand))
    ensures r.Abandoned? ==> (n.operand == old(n.operand) <==> old(n.operand.hasAt || n.operand.offset == 0))
    // In place the node keeps its value, or selects no differently.
    ensures r.InPlace? ==> n.operand == Fetched(result.value)
    ensures r.InPlace? && old(n.op.Folding?) ==>
              n.op == Folding(Again(old(n.op.op))) && n.Value(re, groups) == old(n.Value(re, groups))
    ensures r.InPlace? && !old(n.op.Folding?) ==>
              n.op == old(n.op) && forall out :: n.MaySelect(re, groups, out) ==> old(n.MaySelect(re, groups, out))
    // A quotient has the average's value.
    ensures r.Quotient? ==>
              && fresh(r.sum) && fresh(r.count) && r.sum != r.count
              && r.sum.op == Folding(Sum) && r.count.op == Folding(Count)
              && r.sum.operand == r.count.operand == old(n.operand) && r.sum.grouping == r.count.grouping == n.grouping
              && Divide(r.sum.Value(re, groups), r.count.Value(re, groups)) == Some(old(n.Value(re, groups)))
    ensures r.NamedQuotient? ==>
              && fresh(r.sum) && fresh(r.count) && r.sum != r.count
              && r.sum.op == Folding(Sum) && r.count.op == Folding(Count)
              && r.sum.operand == r.count.operand == NameCopied(old(n.operand))
              && r.sum.grouping == r.count.grouping == Renamed(n.grouping)
    ensures r.NamedQuotient? && CopyIsSpare(n.grouping, OperandVector(re, old(n.operand), groups)) ==>
              var q := Divide(r.sum.Value(re, groups), r.count.Value(re, groups));
              q.Some? && RestoredTo(q.value, n.grouping, old(n.Value(re, groups)))
  {
    hide Selects, Aggregate, Average, Divide, Eval, Pushable, Fetches, CopyIsSpare, RestoredTo, FilterVector;
    if n.operand.Fetched? {
      return Unchanged;
    }
    var o, g := n.operand, n.grouping;
    ghost var e := o.e(o.offset);
    if n.op.Avg? {
      if METRIC_NAME in g.names {
        if CopyIsSpare(g, Eval(re, e, AllSeries(groups))) {
          NamedSides(re, e, g, groups);
        }
        var sum := new AggregateExpr(Folding(Sum), NameCopied(o), Renamed(g));
        var count := new AggregateExpr(Folding(Count), NameCopied(o), Renamed(g));
        return NamedQuotient(sum, count);
      }
      AverageIsQuotient(g, Eval(re, e, AllSeries(groups)));
      var sum := new AggregateExpr(Folding(Sum), o, g);
      var count := new AggregateExpr(Folding(Count), o, g);
      return Quotient(sum, count);
    }
    n.operand := OffsetRemoved(o);
    if result.None? {
      return Abandoned;
    }
    if n.op.Folding? {
      FoldingPreserved(result.value, re, n.op.op, Always, g, e, groups, answers);
    } else {
      forall out | Selects(out, result.value, n.op.k, n.op.Top?, g)
        ensures Selects(out, Eval(re, e, AllSeries(groups)), n.op.k, n.op.Top?, g)
      {
        SelectingPreserved(result.value, re, n.op, Always, g, e, groups, answers, out);
        FilterAlways(Eval(re, e, AllSeries(groups)));
      }
    }
    if n.op == Folding(Count) {
      n.op := Folding(Sum);
    }
    n.operand := Fetched(result.value);
    return InPlace;
  }

  // ----- A comparison with a literal -----

  /** What a comparison of an aggregate with a literal becomes: only some operators are pushed down; a histogram may
    have come back; or the aggregate alone takes its place, over what was fetched. */
  datatype Compared = NotPushed | LeftToEngine | Aggregated

  predicate PushesComparison(op: AggregateOp) {
    op == Folding(Max) || op == Folding(Min) || op.Top? || op.Bottom?
  }

  /** These are max and min, topk and bottomk, and no others. For them some comparison other than the trivial one is
    preserved; for the other folding operators that fails already on two servers with one series each. */
  lemma PushedComparisons(op: AggregateOp)
    ensures PushesComparison(op) <==> op == Folding(Max) || op == Folding(Min) || op.Top? || op.Bottom?
    ensures op.Folding? && PushesComparison(op) ==> PushesDown(op.op, Above(0.0)) || PushesDown(op.op, Below(0.0))
    ensures op == Folding(Sum) || op == Folding(Count) ==> !PushesComparison(op)
    ensures forall f: Filter :: !f.Always? ==> exists vs, ps, added :: !Agrees(Sum, f, By({}), vs, ps, added)
    ensures exists vs, ps, added :: !Agrees(Count, Above(1.0), By({}), vs, ps, added)
  {
    hide Agrees;
    forall f: Filter | !f.Always? ensures exists vs, ps, added :: !Agrees(Sum, f, By({}), vs, ps, added) {
      var (x, y) := SumSpoiler(f);
      SumSpoils(f);
      var vs, ps, added := TwoSeries(Sum, f, x, y);
    }
    var vs, ps, added := CountGoesWrong();
  }

  /** Selections of either kind hold the same values, group by group. */
  ghost predicate SameValues(g: Grouping, out: Vector, out': Vector) {
    forall key :: multiset(Values(Members(g, out, {key}))) == multiset(Values(Members(g, out', {key})))
  }

  /** Any two selections of the same do. */
  lemma SelectionsAgree(g: Grouping, out: Vector, out': Vector, v: Vector, k: int, top: bool)
    requires Selects(out, v, k, top, g) && Selects(out', v, k, top, g)
    ensures SameValues(g, out, out')
  {
    hide Best, Members, Values;
    forall key ensures multiset(Values(Members(g, out, {key}))) == multiset(Values(Members(g, out', {key}))) {
      assert Best(multiset(Members(g, out, {key})), multiset(Members(g, v, {key})), k, top);
      assert Best(multiset(Members(g, out', {key})), multiset(Members(g, v, {key})), k, top);
      SelectionValues(Members(g, out, {key}), Members(g, out', {key}), Members(g, v, {key}), k, top);
    }
  }

  /** aggregateBinaryExpr: `n` compared with a literal, as `f` says. The servers compare; the aggregate that is left
    does not compare again. It has the value of the comparison when the comparison cuts in the operator's own
    direction. */
  method ReplaceComparison<D(!new)>(n: AggregateExpr<D>, f: Filter, result: Option<Vector>,
                                    ghost re: Regex, ghost groups: seq<ServerGroup<D>>, ghost answers: seq<Vector>)
    returns (r: Compared)
    modifies n
    requires Sound(re) && n.operand.Expression?
    requires PushesComparison(n.op) && result.Some? ==>
               var e := n.operand.e(n.operand.offset);
               Pushable(groups, n.op, e) && Fetches(result.value, re, n.op, f, n.grouping, e, groups, answers)
    ensures n.op == old(n.op)
    ensures r.NotPushed? <==> !(n.op == Folding(Max) || n.op == Folding(Min) || n.op.Top? || n.op.Bottom?)
    ensures r.NotPushed? ==> n.operand == old(n.operand)
    ensures r.LeftToEngine? <==> !r.NotPushed? && result.None?
    ensures r.LeftToEngine? ==> n.operand == OffsetRemoved(old(n.operand))
    ensures r.Aggregated? ==> n.operand == Fetched(result.value)
    ensures r.Aggregated? && n.op.Folding? && PushesDown(n.op.op, f) ==>
              n.Value(re, groups) == Aggregate(n.op.op, f, n.grouping, OperandVector(re, old(n.operand), groups))
    ensures r.Aggregated? && !n.op.Folding? && PushesSelection(f, n.op.Top?) ==>
              forall out, whole :: n.MaySelect(re, groups, out) && old(n.MaySelect(re, groups, whole)) ==>
                SameValues(n.grouping, out, FilterVector(f, whole))
  {
    hide Selects, Aggregate, Eval, Pushable, Fetches, FilterVector, PushesDown, PushesSelection, SameValues;
    if !PushesComparison(n.op) {
      return NotPushed;
    }
    var o, g := n.operand, n.grouping;
    ghost var e := o.e(o.offset);
    ghost var all := Eval(re, e, AllSeries(groups));
    n.operand := OffsetRemoved(o);
    if result.None? {
      return LeftToEngine;
    }
    if n.op.Folding? && PushesDown(n.op.op, f) {
      FoldingPreserved(result.value, re, n.op.op, f, g, e, groups, answers);
    }
    if !n.op.Folding? && PushesSelection(f, n.op.Top?) {
      forall out, whole | Selects(out, result.value, n.op.k, n.op.Top?, g) && Selects(whole, all, n.op.k, n.op.Top?, g)
        ensures SameValues(g, out, FilterVector(f, whole))
      {
        SelectingPreserved(result.value, re, n.op, f, g, e, groups, answers, out);
        FilterSelects(whole, all, n.op.k, n.op.Top?, g, f);
        SelectionsAgree(g, out, FilterVector(f, whole), FilterVector(f, all), n.op.k, n.op.Top?);
      }
    }
    n.operand := Fetched(result.value);
    return Aggregated;
  }

  // ----- An average, both sides pushed down -----

  /** The sides' grouping and operand, as Replace builds them. */
  function SideGrouping(g: Grouping): Grouping {
    if METRIC_NAME in g.names then Renamed(g) else g
  }

  function SideExpression<D>(g: Grouping, e: Inner<D>): Inner<D> {
    if METRIC_NAME in g.names then KeepName(e) else e
  }

  /** A side is fetched: the aggregate of its operand over every server group. */
  ghost predicate SideFetched<D(!new)>(result: Vector, re: Regex, op: Op, g: Grouping, e: Inner<D>,
                                       groups: seq<ServerGroup<D>>, answers: seq<Vector>)
  {
    && Pushable(groups, Folding(op), SideExpression(g, e))
    && Fetches(result, re, Folding(op), Always, SideGrouping(g), SideExpression(g, e), groups, answers)
  }

  /** The quotient that replaces an average, once both of its sides have been pushed down in turn. */
  method ReplaceAverage<D(!new)>(n: AggregateExpr<D>, sums: Vector, counts: Vector, ghost re: Regex,
                                 ghost groups: seq<ServerGroup<D>>,
                                 ghost sumAnswers: seq<Vector>, ghost countAnswers: seq<Vector>)
    returns (sum: AggregateExpr<D>, count: AggregateExpr<D>)
    modifies n
    requires Sound(re) && n.op.Avg? && n.operand.Expression?
    requires SideFetched(sums, re, Sum, n.grouping, n.operand.e(n.operand.offset), groups, sumAnswers)
    requires SideFetched(counts, re, Count, n.grouping, n.operand.e(n.operand.offset), groups, countAnswers)
    ensures fresh(sum) && fresh(count) && sum.operand == Fetched(sums) && count.operand == Fetched(counts)
    ensures sum.op == count.op == Folding(Sum) && sum.grouping == count.grouping == SideGrouping(n.grouping)
    ensures METRIC_NAME !in n.grouping.names ==>
              Divide(sum.Value(re, groups), count.Value(re, groups)) == Some(old(n.Value(re, groups)))
    ensures METRIC_NAME in n.grouping.names && CopyIsSpare(n.grouping, OperandVector(re, old(n.operand), groups)) ==>
              var q := Divide(sum.Value(re, groups), count.Value(re, groups));
              q.Some? && RestoredTo(q.value, n.grouping, old(n.Value(re, groups)))
  {
    hide Selects, Aggregate, Average, Divide, Eval, Pushable, Fetches, CopyIsSpare, RestoredTo;
    var r := Replace(n, None, re, groups, []);
    sum, count := r.sum, r.count;
    var s := Replace(sum, Some(sums), re, groups, sumAnswers);
    var c := Replace(count, Some(counts), re, groups, countAnswers);
  }

  // ----- What abandoning costs -----

  function FloatOf(x: Option<StaleFill.Value>): Option<real> {
    if x.Some? && x.value.Float? then Some(x.value.v) else None
  }

  /** A selector evaluated at time `t`, as it reads stored samples for each offset. */
  function Shifted(ms: seq<Matcher>, t: int, lookback: int): int -> Inner<StaleFill.Samples> {
    offset => Select(ms, (d: StaleFill.Samples) => FloatOf(StaleFill.Lookup(d, t - offset, lookback)))
  }

  /** The sum over a selector, were its offset this one. */
  ghost function SumAt(re: Regex, ms: seq<Matcher>, t: int, lookback: int, offset: int,
                       groups: seq<ServerGroup<StaleFill.Samples>>): map<Labels, real>
  {
    Aggregate(Sum, Always, By({}), Eval(re, Shifted(ms, t, lookback)(offset), AllSeries(groups)))
  }

  /** With either offset every selector sums to the same, at every time, for every lookback and whatever is stored. */
  ghost predicate SameSums(re: Regex, offset: int, offset': int) {
    forall ms, t, lookback, groups ::
        SumAt(re, ms, t, lookback, offset, groups) == SumAt(re, ms, t, lookback, offset', groups)
  }

  /** An abandoned node means the same, for all selectors and series, exactly when its offset is what it was: when @
    kept it from being removed, or there was none. */
  lemma AbandonExact(re: Regex, o: Operand<StaleFill.Samples>)
    requires Sound(re) && o.Expression?
    ensures SameSums(re, OffsetRemoved(o).offset, o.offset) <==> o.hasAt || o.offset == 0
  {
    hide SumAt;
    if !(o.hasAt || o.offset == 0) {
      FoundOnlyWithOffset(re, o.offset);
    }
  }

  /** A series whose one sample lies an offset in the past. */
  function PastSeries(offset: int): Series<StaleFill.Samples> {
    Series(map[METRIC_NAME := "m"], [AntiAffinityMerge.Sample(-offset, StaleFill.Float(1.0))])
  }

  /** One group that holds it. */
  function PastGroup(offset: int): seq<ServerGroup<StaleFill.Samples>> {
    [ServerGroup(map[], [PastSeries(offset)])]
  }

  /** At time 0 it is found with that offset, and not without. */
  lemma FoundOnlyWithOffset(re: Regex, offset: int)
    requires Sound(re) && offset != 0
    ensures SumAt(re, [], 0, 1, 0, PastGroup(offset)) != SumAt(re, [], 0, 1, offset, PastGroup(offset))
  {
    AllPast(offset);
    PastRead(offset);
    FindsPast(re, offset, 0);
    FindsPast(re, offset, offset);
    hide Eval, Aggregate, AllSeries, PastGroup;
    OneAndTwo(Element(PastSeries(offset).labels, 1.0));
    TotalIs([], None);
    NotEmpty(map[], 1.0);
  }

  lemma PastRead(offset: int)
    ensures StaleFill.Lookup(PastSeries(offset).data, -offset, 1) == Some(StaleFill.Float(1.0))
    ensures offset != 0 ==> StaleFill.Lookup(PastSeries(offset).data, 0, 1) == None
  {
    var d := PastSeries(offset).data;
    assert d[..0] == [] && d[|d|-1] == d[0];
    assert StaleFill.Latest([], 0).None?;
    assert StaleFill.Latest(d, 0) == if -offset <= 0 then Some(d[0]) else None;
    assert StaleFill.Latest(d, -offset) == Some(d[0]);
  }

  lemma NotEmpty(key: Labels, x: real)
    ensures map[key := x] != map[]
  {
    assert key in map[key := x];
  }

  lemma AllPast(offset: int)
    ensures AllSeries(PastGroup(offset)) == [PastSeries(offset)]
  {
    var groups, s := PastGroup(offset), PastSeries(offset);
    assert Labelled(s.labels, map[]) == s.labels;
    assert LabelStore([s], map[]) == [s];
    hide Labelled, LabelStore, PastSeries;
    assert groups[..0] == [];
    assert AllSeries<StaleFill.Samples>([]) == [];
  }

  lemma FindsPast(re: Regex, offset: int, shift: int)
    ensures var x := FloatOf(StaleFill.Lookup(PastSeries(offset).data, 0 - shift, 1));
            Eval(re, Shifted([], 0, 1)(shift), [PastSeries(offset)]) ==
            if x.Some? then [Element(PastSeries(offset).labels, x.value)] else []
  {
    var e, s := Shifted([], 0, 1)(shift), PastSeries(offset);
    EvalSnoc(re, e, [], s);
    NoSeries(re, e);
    assert [] + [s] == [s];
  }
}
