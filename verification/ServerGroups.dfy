/** Aggregating over all server groups: every group's servers answer for what they hold, promxy adds the group's
  labels (pkg/promclient/label.go), merges what has the same labels (pkg/promclient/merge_seriesset.go) and aggregates
  again. This equals one evaluation over every series, and the groups must be told apart by their labels for it. */
module ServerGroups {
  import opened Options
  import opened Labels
  import opened PromQL
  import opened Pushdown
  import opened TopK
  import opened ComparisonPushdown
  import AAM = AntiAffinityMerge

  /** A server group: the labels it adds, and the series its servers store. */
  datatype ServerGroup<D> = ServerGroup(added: Labels, store: seq<Series<D>>)

  function AddedLabels<D>(groups: seq<ServerGroup<D>>): seq<Labels> {
    seq(|groups|, i requires 0 <= i < |groups| => groups[i].added)
  }

  /** Every series promxy fronts, as it shows them. */
  function AllSeries<D>(groups: seq<ServerGroup<D>>): seq<Series<D>> {
    if groups == [] then []
    else
      var last := groups[|groups|-1];
      AllSeries(groups[..|groups|-1]) + LabelStore(last.store, last.added)
  }

  /** What each group's servers see of the inner expression. */
  function GroupVectors<D(!new)>(re: Regex, e: Inner<D>, groups: seq<ServerGroup<D>>): seq<Vector> {
    seq(|groups|, i requires 0 <= i < |groups| => GroupVector(re, e, groups[i].added, groups[i].store))
  }

  /** Stored series are named, no group adds a metric name, and no series carries a label that some group adds. */
  ghost predicate WellKept<D>(groups: seq<ServerGroup<D>>) {
    && (forall i :: 0 <= i < |groups| ==> METRIC_NAME !in groups[i].added)
    && (forall i, n :: 0 <= i < |groups| && 0 <= n < |groups[i].store| ==> Stored(groups[i].store[n]))
    && (forall i, j, n :: 0 <= i < |groups| && 0 <= j < |groups| && 0 <= n < |groups[i].store| ==>
          groups[i].store[n].labels.Keys !! groups[j].added.Keys)
  }

  /** Where the expression copies the metric name, no group adds a label of that copy's name. */
  ghost predicate SparesCopy<D>(groups: seq<ServerGroup<D>>, e: Inner<D>) {
    CopiesName(e) ==> forall i :: 0 <= i < |groups| ==> NAME_COPY !in groups[i].added
  }

  /** In each group no two stored series have the same labels. */
  ghost predicate DistinctStores<D>(groups: seq<ServerGroup<D>>) {
    forall i :: 0 <= i < |groups| ==> DistinctStore(groups[i].store)
  }

  ghost predicate DistinctStore<D>(store: seq<Series<D>>) {
    forall m, n :: 0 <= m < n < |store| ==> store[m].labels != store[n].labels
  }

  /** Any two groups differ in some label they add. */
  ghost predicate ToldApart(added: seq<Labels>) {
    forall i, j :: 0 <= i < j < |added| ==> Differ(added[i], added[j])
  }

  ghost predicate Differ(x: Labels, y: Labels) {
    exists k :: Get(x, k) != Get(y, k)
  }

  lemma {:induction false} EvalConcat<D(!new)>(re: Regex, e: Inner<D>, s: seq<Series<D>>, t: seq<Series<D>>)
    ensures Eval(re, e, s + t) == Eval(re, e, s) + Eval(re, e, t)
    decreases |t|
  {
    hide EvalOne;
    if t == [] {
      assert s + t == s;
    } else {
      assert (s + t)[..|s + t|-1] == s + t[..|t|-1];
      EvalConcat(re, e, s, t[..|t|-1]);
    }
  }

  /** One evaluation over all series is what the groups' own evaluations give, labelled and put side by side. */
  lemma {:induction false} OneEvaluation<D(!new)>(re: Regex, e: Inner<D>, groups: seq<ServerGroup<D>>)
    requires Sound(re) && WellKept(groups) && SparesCopy(groups, e)
    ensures Eval(re, e, AllSeries(groups)) == Gather(GroupVectors(re, e, groups), AddedLabels(groups))
    decreases |groups|
  {
    hide Eval, GroupVector, Labelled;
    if groups == [] {
      NoSeries(re, e);
    } else {
      var n := |groups| - 1;
      var last := groups[n];
      OneEvaluation(re, e, groups[..n]);
      StripEval(re, e, last.added, last.store);
      EvalConcat(re, e, AllSeries(groups[..n]), LabelStore(last.store, last.added));
      assert GroupVectors(re, e, groups)[..n] == GroupVectors(re, e, groups[..n]);
      assert AddedLabels(groups)[..n] == AddedLabels(groups[..n]);
    }
  }

  lemma NoSeries<D(!new)>(re: Regex, e: Inner<D>)
    ensures Eval(re, e, []) == []
  {
  }

  // ----- Order does not matter -----

  lemma {:induction false} FoldPerm(op: Op, xs: seq<real>, ys: seq<real>)
    requires multiset(xs) == multiset(ys)
    ensures Fold(op, xs) == Fold(op, ys)
    decreases |xs|
  {
    hide Fold;
    if xs == [] {
      assert |multiset(ys)| == 0;
    } else {
      var init, x := xs[..|xs|-1], xs[|xs|-1];
      assert xs == init + [x];
      assert x in multiset(xs);
      var before, after := Around(ys, x);
      assert multiset(init) == multiset(xs) - multiset{x};
      FoldPerm(op, init, before + after);
      MoveToEnd(op, before, x, after);
      SnocFold(op, init, x);
    }
  }

  lemma MoveToEnd(op: Op, before: seq<real>, x: real, after: seq<real>)
    ensures Fold(op, before + [x] + after) == Merge(op, Fold(op, before + after), Some(Lift(op, x)))
  {
    hide Fold, Merge;
    FoldConcat(op, before + [x], after);
    SnocFold(op, before, x);
    FoldConcat(op, before, after);
    SwapMerge(op, before, after, x);
  }

  lemma {:induction false} ValuesAsCollect(g: Grouping, v: Vector, key: Labels, h: Element -> Option<real>)
    requires forall x :: h(x) == if Key(g, x.labels) == key then Some(x.value) else None
    ensures Collect(v, h) == ValuesIn(g, v, {key})
    decreases |v|
  {
    hide Key;
    if v != [] {
      ValuesAsCollect(g, v[..|v|-1], key, h);
    }
  }

  lemma {:induction false} MembersAsCollect(g: Grouping, v: Vector, key: Labels, h: Element -> Option<Element>)
    requires forall x :: h(x) == if Key(g, x.labels) == key then Some(x) else None
    ensures Collect(v, h) == Members(g, v, {key})
    decreases |v|
  {
    hide Key;
    if v != [] {
      MembersAsCollect(g, v[..|v|-1], key, h);
    }
  }

  /** An aggregation does not see the order of its operand. */
  lemma AggregatePerm(op: Op, f: Filter, g: Grouping, v: Vector, w: Vector)
    requires multiset(v) == multiset(w)
    ensures Aggregate(op, f, g, v) == Aggregate(op, f, g, w)
  {
    hide Aggregate, Fold, ValuesIn, Collect;
    forall key ensures GroupResult(op, f, g, v, key) == GroupResult(op, f, g, w, key) {
      var h := (x: Element) => if Key(g, x.labels) == key then Some(x.value) else None;
      CollectPerm(v, w, h);
      ValuesAsCollect(g, v, key, h);
      ValuesAsCollect(g, w, key, h);
      FoldPerm(op, ValuesIn(g, v, {key}), ValuesIn(g, w, {key}));
    }
    ResultsAgree(op, f, v, op, f, w, g);
  }

  lemma SelectsPerm(out: Vector, v: Vector, w: Vector, k: int, top: bool, g: Grouping)
    requires multiset(v) == multiset(w) && Selects(out, v, k, top, g)
    ensures Selects(out, w, k, top, g)
  {
    forall key ensures Best(multiset(Members(g, out, {key})), multiset(Members(g, w, {key})), k, top) {
      hide Best, Members, Collect;
      var h := (x: Element) => if Key(g, x.labels) == key then Some(x) else None;
      CollectPerm(v, w, h);
      MembersAsCollect(g, v, key, h);
      MembersAsCollect(g, w, key, h);
      assert Best(multiset(Members(g, out, {key})), multiset(Members(g, v, {key})), k, top);
    }
  }

  // ----- Fetched answers never collide -----

  /** The labels an element can have: those of its series, and the copy of the name where one is made. */
  function Reach<D>(e: Inner<D>, ls: Labels): set<string> {
    if CopiesName(e) then ls.Keys + {NAME_COPY} else ls.Keys
  }

  lemma {:induction false} EvalOneLabels<D(!new)>(re: Regex, e: Inner<D>, s: Series<D>)
    requires Normal(s.labels)
    ensures var x := EvalOne(re, e, s); x.Some? ==> Normal(x.value.labels) && x.value.labels.Keys <= Reach(e, s.labels)
  {
    match e
    case Select(_, _) =>
    case Over(_, _) =>
    case Apply(_, arg) => EvalOneLabels(re, arg, s);
    case Compare(_, arg) => EvalOneLabels(re, arg, s);
    case KeepName(arg) => EvalOneLabels(re, arg, s);
  }

  lemma {:induction false} EvalLabels<D(!new)>(re: Regex, e: Inner<D>, store: seq<Series<D>>, added: Labels)
    requires forall n :: 0 <= n < |store| ==> Normal(store[n].labels) && store[n].labels.Keys !! added.Keys
    requires CopiesName(e) ==> NAME_COPY !in added
    ensures forall x :: x in Eval(re, e, store) ==> Normal(x.labels) && x.labels.Keys !! added.Keys
    decreases |store|
  {
    hide EvalOne, Normal;
    if store != [] {
      EvalLabels(re, e, store[..|store|-1], added);
      EvalOneLabels(re, e, store[|store|-1]);
    }
  }

  /** What is sent to a group copies the name, and rewrites labels, exactly when the expression does. */
  lemma {:induction false} StripShape<D(!new)>(re: Regex, e: Inner<D>, added: Labels)
    ensures Strip(re, e, added).Some? ==>
              var sent := Strip(re, e, added).value; CopiesName(sent) == CopiesName(e) && Relabels(sent) == Relabels(e)
  {
    match e
    case Select(_, _) =>
    case Over(_, _) =>
    case Apply(_, arg) => StripShape(re, arg, added);
    case Compare(_, arg) => StripShape(re, arg, added);
    case KeepName(arg) => StripShape(re, arg, added);
  }

  /** The expression changes labels, so that two series can end up with the same; a server refuses such a result. */
  predicate Relabels<D>(e: Inner<D>) {
    match e
    case Select(_, _) => false
    case Compare(_, arg) => Relabels(arg)
    case _ => true
  }

  lemma {:induction false} KeepsLabels<D(!new)>(re: Regex, e: Inner<D>, s: Series<D>)
    requires !Relabels(e)
    ensures var x := EvalOne(re, e, s); x.Some? ==> x.value.labels == s.labels
  {
    match e
    case Select(_, _) =>
    case Compare(_, arg) => KeepsLabels(re, arg, s);
  }

  /** Distinct series stay distinct under an expression that does not change labels. */
  lemma {:induction false} EvalDistinct<D(!new)>(re: Regex, e: Inner<D>, store: seq<Series<D>>)
    requires !Relabels(e) && DistinctStore(store)
    ensures Distinct(Eval(re, e, store))
    ensures forall x :: x in Eval(re, e, store) ==> exists n :: 0 <= n < |store| && store[n].labels == x.labels
    decreases |store|
  {
    hide EvalOne;
    if store != [] {
      var init, last := store[..|store|-1], store[|store|-1];
      EvalDistinct(re, e, init);
      KeepsLabels(re, e, last);
      var before := Eval(re, e, init);
      forall x | x in before
        ensures x.labels != last.labels && exists n :: 0 <= n < |store| && store[n].labels == x.labels
      {
        var n :| 0 <= n < |init| && init[n].labels == x.labels;
        assert store[n].labels == x.labels;
      }
      assert forall i :: 0 <= i < |before| ==> before[i] in before;
      assert store[|store|-1].labels == last.labels;
    }
  }

  /** No element carries a label of `added`. */
  ghost predicate Clear(v: Vector, added: Labels) {
    forall x :: x in v ==> Normal(x.labels) && x.labels.Keys !! added.Keys
  }

  /** Results free of every group's labels, distinct within each group, stay distinct once labelled and gathered:
    merging the groups' answers never merges two of them. */
  lemma {:induction false} NothingCollides(ps: seq<Vector>, added: seq<Labels>)
    requires |ps| == |added| && ToldApart(added)
    requires forall i :: 0 <= i < |ps| ==> Distinct(ps[i])
    requires forall i, j :: 0 <= i < |ps| && 0 <= j < |ps| ==> Clear(ps[i], added[j])
    ensures Distinct(Gather(ps, added))
    ensures forall y :: y in Gather(ps, added) ==>
              exists i, x :: 0 <= i < |ps| && x in ps[i] && y == LabelElement(x, added[i])
    decreases |ps|
  {
    hide Labelled, Normal;
    if ps != [] {
      var n := |ps| - 1;
      assert forall i, j :: 0 <= i < n && 0 <= j < n ==> Clear(ps[..n][i], added[..n][j]);
      NothingCollides(ps[..n], added[..n]);
      var init, last := Gather(ps[..n], added[..n]), LabelAll(ps[n], added[n]);
      forall y | y in init ensures exists i, x :: 0 <= i < n && x in ps[i] && y == LabelElement(x, added[i]) {
        var i, x :| 0 <= i < n && x in ps[..n][i] && y == LabelElement(x, added[..n][i]);
        assert ps[..n][i] == ps[i] && added[..n][i] == added[i];
      }
      forall y | y in last ensures y.labels !in (set z | z in init :: z.labels) {
        var b :| 0 <= b < |last| && last[b] == y;
        forall z | z in init ensures z.labels != y.labels {
          var i, x :| 0 <= i < n && x in ps[i] && z == LabelElement(x, added[i]);
          assert ps[n][b] in ps[n];
          assert Clear(ps[i], added[i]) && Clear(ps[i], added[n]) && Clear(ps[n], added[i]) && Clear(ps[n], added[n]);
          AcrossGroups(x.labels, ps[n][b].labels, added[i], added[n]);
        }
      }
      LabelDistinct(ps[n], added[n]);
      DistinctConcat(init, last);
      forall y | y in init + last
        ensures exists i, x :: 0 <= i < |ps| && x in ps[i] && y == LabelElement(x, added[i])
      {
        if y in last {
          var b :| 0 <= b < |last| && last[b] == y;
          assert ps[n][b] in ps[n] && y == LabelElement(ps[n][b], added[n]);
        }
      }
    }
  }

  lemma AcrossGroups(x: Labels, y: Labels, addedX: Labels, addedY: Labels)
    requires Differ(addedX, addedY)
    requires x.Keys !! addedX.Keys && x.Keys !! addedY.Keys && y.Keys !! addedX.Keys && y.Keys !! addedY.Keys
    ensures Labelled(x, addedX) != Labelled(y, addedY)
  {
    var k :| Get(addedX, k) != Get(addedY, k);
    LabelledApart(x, y, addedX, addedY, k);
  }

  lemma LabelDistinct(v: Vector, added: Labels)
    requires Distinct(v) && Clear(v, added)
    ensures Distinct(LabelAll(v, added))
  {
    hide Labelled, Normal;
    var w := LabelAll(v, added);
    forall i, j | 0 <= i < j < |w| ensures w[i].labels != w[j].labels {
      assert v[i] in v && v[j] in v;
      if w[i].labels == w[j].labels {
        LabelledInjective(v[i].labels, v[j].labels, added);
      }
    }
  }

  lemma DistinctConcat(v: Vector, w: Vector)
    requires Distinct(v) && Distinct(w)
    requires forall y :: y in w ==> y.labels !in (set z | z in v :: z.labels)
    ensures Distinct(v + w)
  {
    var all := v + w;
    forall i, j | 0 <= i < j < |all| ensures all[i].labels != all[j].labels {
      if i < |v| <= j {
        assert all[i] in v && all[j] in w;
      }
    }
  }

  // ----- Merging the answers -----

  /** What promxy's merge makes of the labelled answers at one time: one element for each label set, and it is one of
    the elements that came with that label set. */
  ghost predicate MergedByLabels(result: Vector, all: Vector) {
    && Distinct(result)
    && (forall x :: x in result ==> x in all)
    && (forall x :: x in all ==> Shown(result, x.labels))
  }

  ghost predicate Shown(v: Vector, ls: Labels) {
    exists i :: 0 <= i < |v| && v[i].labels == ls
  }

  /** Two series with the same labels and one sample each, at the same time: the merge keeps one of the samples whole,
    whatever its buffer. So partial results that come under the same labels are not added up. */
  lemma MergeKeepsOne(t: int, x: real, y: real, w: int, out: seq<AAM.Sample<real>>)
    requires w >= 0 && AAM.AntiAffinity(out, [AAM.Sample(t, x)], [AAM.Sample(t, y)], w)
    ensures out == [AAM.Sample(t, x)]
  {
    var base, other := [AAM.Sample(t, x)], [AAM.Sample(t, y)];
    assert base[0].ts == other[0].ts == t;
    assert AAM.AntiAffinity(base, base, other, w);
    AAM.AntiAffinityUnique(out, base, base, other, w);
  }

  lemma {:induction false} DistinctCount(v: Vector, x: Element)
    requires Distinct(v)
    ensures multiset(v)[x] == if x in v then 1 else 0
    decreases |v|
  {
    if v != [] {
      var init, last := v[..|v|-1], v[|v|-1];
      DistinctCount(init, x);
      assert v == init + [last];
      assert last !in init;
    }
  }

  lemma MergedHas(result: Vector, all: Vector, x: Element)
    requires MergedByLabels(result, all) && Distinct(all)
    ensures Distinct(result) && (x in result <==> x in all)
  {
    hide Distinct;
    if x in all {
      assert Shown(result, x.labels);
      var i :| 0 <= i < |result| && result[i].labels == x.labels;
      assert result[i] in result;
      SameLabels(all, x, result[i]);
    }
  }

  /** Merging loses nothing if and only if no two answers have the same labels. */
  lemma MergedIsAll(result: Vector, all: Vector)
    requires MergedByLabels(result, all)
    ensures multiset(result) == multiset(all) <==> Distinct(all)
  {
    if Distinct(all) {
      hide MergedByLabels, Distinct;
      forall x ensures multiset(result)[x] == multiset(all)[x] {
        MergedHas(result, all, x);
        DistinctCount(result, x);
        DistinctCount(all, x);
      }
    }
    if multiset(result) == multiset(all) {
      PartDistinct(all, result);
    }
  }

  lemma SameLabels(v: Vector, x: Element, y: Element)
    requires Distinct(v) && x in v && y in v && x.labels == y.labels
    ensures x == y
  {
    var i :| 0 <= i < |v| && v[i] == x;
    var j :| 0 <= j < |v| && v[j] == y;
  }

  lemma {:induction false} MembersCount(g: Grouping, v: Vector, key: Labels, x: Element)
    ensures multiset(Members(g, v, {key}))[x] == if Key(g, x.labels) == key then multiset(v)[x] else 0
    decreases |v|
  {
    hide Key;
    if v != [] {
      var init, last := v[..|v|-1], v[|v|-1];
      MembersCount(g, init, key, x);
      assert v == init + [last];
    }
  }

  /** A selection is part of what it selects from; so it is distinct when that is. */
  lemma SelectionDistinct(answer: Vector, v: Vector, k: int, top: bool, g: Grouping)
    requires Selects(answer, v, k, top, g)
    ensures multiset(answer) <= multiset(v)
    ensures Distinct(v) ==> Distinct(answer)
  {
    hide Key, Members;
    forall x ensures multiset(answer)[x] <= multiset(v)[x] {
      var key := Key(g, x.labels);
      assert Best(multiset(Members(g, answer, {key})), multiset(Members(g, v, {key})), k, top);
      MembersCount(g, answer, key, x);
      MembersCount(g, v, key, x);
    }
    hide Selects;
    if Distinct(v) {
      PartDistinct(answer, v);
    }
  }

  /** The same of what a comparison leaves of it. */
  lemma KeptDistinct(answer: Vector, v: Vector, k: int, top: bool, g: Grouping, f: Filter)
    requires SelectsKept(answer, v, k, top, g, f)
    ensures multiset(answer) <= multiset(v)
    ensures Distinct(v) ==> Distinct(answer)
  {
    hide Selects, FilterVector;
    var p :| Selects(p, v, k, top, g) && answer == FilterVector(f, p);
    SelectionDistinct(p, v, k, top, g);
    FilterIsPart(f, p);
    if Distinct(v) {
      PartDistinct(answer, p);
    }
  }

  lemma {:induction false} FilterIsPart(f: Filter, v: Vector)
    ensures multiset(FilterVector(f, v)) <= multiset(v)
    decreases |v|
  {
    if v != [] {
      var init, last := v[..|v|-1], v[|v|-1];
      FilterIsPart(f, init);
      assert v == init + [last];
    }
  }

  lemma {:induction false} FilterAlways(v: Vector)
    ensures FilterVector(Always, v) == v
    decreases |v|
  {
    if v != [] {
      FilterAlways(v[..|v|-1]);
    }
  }

  lemma PartDistinct(part: Vector, v: Vector)
    requires multiset(part) <= multiset(v) && Distinct(v)
    ensures Distinct(part)
  {
    forall i, j | 0 <= i < j < |part| ensures part[i].labels != part[j].labels {
      var x, y := part[i], part[j];
      assert x in multiset(part) && y in multiset(part);
      DistinctCount(v, x);
      if x == y {
        Repeated(part, i, j);
        assert false;
      }
      if x.labels == y.labels {
        SameLabels(v, x, y);
        assert false;
      }
    }
  }

  lemma Repeated(s: Vector, i: nat, j: nat)
    requires i < j < |s| && s[i] == s[j]
    ensures multiset(s)[s[i]] >= 2
  {
    assert s == s[..j] + [s[j]] + s[j+1..];
    assert s[..j][i] == s[i];
  }

  /** Every element of an answer has the labels, or the group, of an element of the vector it answers for. */
  ghost predicate Within(answer: Vector, v: Vector, g: Grouping) {
    forall x :: x in answer ==> x in v || exists y :: y in v && Key(g, y.labels) == x.labels
  }

  lemma AnsweredWithin(op: AggregateOp, f: Filter, g: Grouping, v: Vector, answer: Vector)
    requires Answered(op, f, g, v, answer) && !op.Avg?
    ensures Within(answer, v, g)
  {
    hide Key, Selects, Aggregate;
    if op.Folding? {
      ListedKeys(op.op, f, g, v, answer);
      forall x | x in answer ensures exists y :: y in v && Key(g, y.labels) == x.labels {
        var n :| 0 <= n < |answer| && answer[n] == x;
        assert x.labels in Keys(g, v);
      }
    } else {
      KeptDistinct(answer, v, op.k, op.Top?, g, f);
      forall x | x in answer ensures x in v {
        assert x in multiset(answer);
      }
    }
  }

  lemma ClearAnswer(answer: Vector, v: Vector, g: Grouping, added: Labels)
    requires Within(answer, v, g) && Clear(v, added)
    ensures Clear(answer, added)
  {
    forall x | x in answer ensures Normal(x.labels) && x.labels.Keys !! added.Keys {
      if x !in v {
        var y :| y in v && Key(g, y.labels) == x.labels;
      }
    }
  }

  lemma ClearVector<D(!new)>(re: Regex, e: Inner<D>, groups: seq<ServerGroup<D>>, i: nat, j: nat)
    requires WellKept(groups) && SparesCopy(groups, e) && i < |groups| && j < |groups|
    ensures Clear(GroupVectors(re, e, groups)[i], groups[j].added)
  {
    var store, added := groups[i].store, groups[j].added;
    forall m | 0 <= m < |store| ensures Normal(store[m].labels) && store[m].labels.Keys !! added.Keys {
      assert Stored(groups[i].store[m]);
    }
    StripShape(re, e, groups[i].added);
    var sent := Strip(re, e, groups[i].added);
    hide Eval, Strip, WellKept;
    if sent.Some? {
      EvalLabels(re, sent.value, store, added);
    }
  }

  /** The answers to a pushed-down aggregation never collide, so merging them loses none: for the folding operators
    because each group has one result, for topk and bottomk because they select among distinct series. */
  lemma AnswersNeverCollide<D(!new)>(re: Regex, op: AggregateOp, f: Filter, g: Grouping, e: Inner<D>,
                                     groups: seq<ServerGroup<D>>, answers: seq<Vector>)
    requires WellKept(groups) && SparesCopy(groups, e) && ToldApart(AddedLabels(groups)) && !op.Avg?
    requires op.Top? || op.Bottom? ==> DistinctStores(groups)
    requires AllAnswer(re, op, f, g, e, groups, answers)
    ensures Distinct(Gather(answers, AddedLabels(groups)))
  {
    hide Gather, Aggregate, Normal, WellKept, ToldApart, GroupVectors, Selects, Key;
    var vs := GroupVectors(re, e, groups);
    assert |vs| == |groups| by {
      SameSize(re, e, groups);
    }
    forall i | 0 <= i < |answers| ensures Distinct(answers[i]) {
      assert Answered(op, f, g, vs[i], answers[i]);
      if !op.Folding? {
        GroupVectorDistinct(re, e, groups, i);
        KeptDistinct(answers[i], vs[i], op.k, op.Top?, g, f);
      }
    }
    forall i, j | 0 <= i < |answers| && 0 <= j < |answers| ensures Clear(answers[i], AddedLabels(groups)[j]) {
      assert Answered(op, f, g, vs[i], answers[i]);
      AnsweredWithin(op, f, g, vs[i], answers[i]);
      ClearVector(re, e, groups, i, j);
      ClearAnswer(answers[i], vs[i], g, groups[j].added);
    }
    NothingCollides(answers, AddedLabels(groups));
  }

  lemma SameSize<D(!new)>(re: Regex, e: Inner<D>, groups: seq<ServerGroup<D>>)
    ensures |GroupVectors(re, e, groups)| == |groups|
  {
  }

  lemma GroupVectorDistinct<D(!new)>(re: Regex, e: Inner<D>, groups: seq<ServerGroup<D>>, i: nat)
    requires i < |groups| && DistinctStores(groups) && Served(e, GroupVectors(re, e, groups)[i])
    ensures Distinct(GroupVectors(re, e, groups)[i])
  {
    StripShape(re, e, groups[i].added);
    var sent := Strip(re, e, groups[i].added);
    hide Strip, Eval;
    if !Relabels(e) && sent.Some? {
      EvalDistinct(re, sent.value, groups[i].store);
    }
  }

  // ----- Aggregating again -----

  datatype AggregateOp = Folding(op: Op) | Avg | Top(k: int) | Bottom(k: int)

  /** One group's servers answer the aggregation over what they hold, compared as `f` says. */
  ghost predicate Answered(op: AggregateOp, f: Filter, g: Grouping, v: Vector, answer: Vector) {
    match op
    case Folding(o) => Lists(answer, Aggregate(o, f, g, v))
    case Avg => true
    case Top(k) => SelectsKept(answer, v, k, true, g, f)
    case Bottom(k) => SelectsKept(answer, v, k, false, g, f)
  }

  /** The answer is what a selection leaves after the comparison. */
  ghost predicate SelectsKept(answer: Vector, v: Vector, k: int, top: bool, g: Grouping, f: Filter) {
    exists p :: Selects(p, v, k, top, g) && answer == FilterVector(f, p)
  }

  /** A server that gave an answer did not find two results with the same labels. */
  ghost predicate Served<D>(e: Inner<D>, v: Vector) {
    Relabels(e) ==> Distinct(v)
  }

  ghost predicate AllAnswer<D(!new)>(re: Regex, op: AggregateOp, f: Filter, g: Grouping, e: Inner<D>,
                                     groups: seq<ServerGroup<D>>, answers: seq<Vector>)
  {
    && |answers| == |groups|
    && forall i :: 0 <= i < |groups| ==>
         && Answered(op, f, g, GroupVectors(re, e, groups)[i], answers[i])
         && (op.Top? || op.Bottom? ==> Served(e, GroupVectors(re, e, groups)[i]))
  }

  /** `result` is what the query for the node brings back: the groups' answers, labelled and merged. */
  ghost predicate Fetches<D(!new)>(result: Vector, re: Regex, op: AggregateOp, f: Filter, g: Grouping, e: Inner<D>,
                                   groups: seq<ServerGroup<D>>, answers: seq<Vector>)
  {
    && AllAnswer(re, op, f, g, e, groups, answers)
    && MergedByLabels(result, Gather(answers, AddedLabels(groups)))
  }

  /** What the pushdown asks of the server groups. */
  ghost predicate Pushable<D>(groups: seq<ServerGroup<D>>, op: AggregateOp, e: Inner<D>) {
    && WellKept(groups) && ToldApart(AddedLabels(groups)) && SparesCopy(groups, e)
    && (op.Top? || op.Bottom? ==> DistinctStores(groups))
  }

  /** So what is fetched is every answer, once. */
  lemma FetchesAll<D(!new)>(result: Vector, re: Regex, op: AggregateOp, f: Filter, g: Grouping, e: Inner<D>,
                            groups: seq<ServerGroup<D>>, answers: seq<Vector>)
    requires Pushable(groups, op, e) && !op.Avg? && Fetches(result, re, op, f, g, e, groups, answers)
    ensures multiset(result) == multiset(Gather(answers, AddedLabels(groups)))
  {
    hide Gather, WellKept, ToldApart, Answered, Served;
    AnswersNeverCollide(re, op, f, g, e, groups, answers);
    MergedIsAll(result, Gather(answers, AddedLabels(groups)));
  }

  /** Aggregating what was fetched again gives the aggregate over every series, compared as `f` says. */
  lemma FoldingPreserved<D(!new)>(result: Vector, re: Regex, op: Op, f: Filter, g: Grouping, e: Inner<D>,
                                  groups: seq<ServerGroup<D>>, answers: seq<Vector>)
    requires Sound(re) && Pushable(groups, Folding(op), e) && PushesDown(op, f)
    requires Fetches(result, re, Folding(op), f, g, e, groups, answers)
    ensures Aggregate(Again(op), Always, g, result) == Aggregate(op, f, g, Eval(re, e, AllSeries(groups)))
  {
    hide Lists, Aggregate, Gather, Eval, WellKept, GroupVectors, ToldApart, PushesDown;
    FetchesAll(result, re, Folding(op), f, g, e, groups, answers);
    OneEvaluation(re, e, groups);
    var vs, added := GroupVectors(re, e, groups), AddedLabels(groups);
    SameSize(re, e, groups);
    PushdownPreserves(op, f, g, vs, answers, added);
    AggregatePerm(Again(op), Always, g, result, Gather(answers, added));
  }

  /** The selections behind the answers. */
  lemma {:induction false} SelectionsBehind(vs: seq<Vector>, answers: seq<Vector>, k: int, top: bool, g: Grouping,
                                            f: Filter)
    returns (ps: seq<Vector>)
    requires |answers| == |vs| && forall i :: 0 <= i < |vs| ==> SelectsKept(answers[i], vs[i], k, top, g, f)
    ensures |ps| == |vs| && forall i :: 0 <= i < |vs| ==>
              Selects(ps[i], vs[i], k, top, g) && answers[i] == FilterVector(f, ps[i])
    decreases |vs|
  {
    hide Selects, FilterVector;
    ps := [];
    if vs != [] {
      var n := |vs| - 1;
      ps := SelectionsBehind(vs[..n], answers[..n], k, top, g, f);
      assert SelectsKept(answers[n], vs[n], k, top, g, f);
      var p :| Selects(p, vs[n], k, top, g) && answers[n] == FilterVector(f, p);
      ps := ps + [p];
    }
  }

  /** Selecting from what was fetched is selecting from every series that passes `f`. */
  lemma SelectingPreserved<D(!new)>(result: Vector, re: Regex, op: AggregateOp, f: Filter, g: Grouping, e: Inner<D>,
                                    groups: seq<ServerGroup<D>>, answers: seq<Vector>, out: Vector)
    requires Sound(re) && (op.Top? || op.Bottom?) && Pushable(groups, op, e) && PushesSelection(f, op.Top?)
    requires Fetches(result, re, op, f, g, e, groups, answers) && Selects(out, result, op.k, op.Top?, g)
    ensures Selects(out, FilterVector(f, Eval(re, e, AllSeries(groups))), op.k, op.Top?, g)
  {
    hide Selects, Gather, Eval, WellKept, GroupVectors, ToldApart, FilterVector, PushesSelection;
    FetchesAll(result, re, op, f, g, e, groups, answers);
    OneEvaluation(re, e, groups);
    var vs, added := GroupVectors(re, e, groups), AddedLabels(groups);
    SameSize(re, e, groups);
    SelectsPerm(out, result, Gather(answers, added), op.k, op.Top?, g);
    assert forall i :: 0 <= i < |vs| ==> Answered(op, f, g, vs[i], answers[i]);
    SelectedFromKept(vs, answers, added, out, op.k, op.Top?, g, f);
  }

  lemma SelectedFromKept(vs: seq<Vector>, answers: seq<Vector>, added: seq<Labels>, out: Vector, k: int, top: bool,
                         g: Grouping, f: Filter)
    requires |answers| == |vs| == |added| && PushesSelection(f, top)
    requires forall i :: 0 <= i < |vs| ==> SelectsKept(answers[i], vs[i], k, top, g, f)
    requires Selects(out, Gather(answers, added), k, top, g)
    ensures Selects(out, FilterVector(f, Gather(vs, added)), k, top, g)
  {
    hide Selects, Gather, FilterVector, PushesSelection, SelectsKept;
    var ps := SelectionsBehind(vs, answers, k, top, g, f);
    var fvs := FilterEach(f, vs);
    forall i | 0 <= i < |vs| ensures Selects(answers[i], fvs[i], k, top, g) {
      FilterSelects(ps[i], vs[i], k, top, g, f);
    }
    SelectionPreserved(g, fvs, answers, added, out, k, top);
    FilterGather(f, vs, added);
  }

  // ----- Groups that are not told apart -----

  /** A selector without matchers, over series that hold one value. */
  function Plain(): Inner<real> {
    Select([], (d: real) => Some(d))
  }

  /** For these groups, answers and merge, the sum comes out right. */
  ghost predicate SumRight(re: Regex, added: seq<Labels>, groups: seq<ServerGroup<real>>, answers: seq<Vector>,
                           result: Vector)
  {
    AddedLabels(groups) == added && WellKept(groups)
    && Fetches(result, re, Folding(Sum), Always, By({}), Plain(), groups, answers) ==>
      Aggregate(Sum, Always, By({}), result) == Aggregate(Sum, Always, By({}), Eval(re, Plain(), AllSeries(groups)))
  }

  /** Telling the groups apart is exactly what pushing a sum down needs: two groups that add the same labels can each
    hold a series, and the merge takes their two partial sums for one. */
  lemma ToldApartExact(re: Regex, added: seq<Labels>)
    requires Sound(re) && forall i :: 0 <= i < |added| ==> METRIC_NAME !in added[i]
    ensures ToldApart(added) <==>
            forall groups: seq<ServerGroup<real>>, answers: seq<Vector>, result: Vector ::
              SumRight(re, added, groups, answers, result)
  {
    if ToldApart(added) {
      forall groups: seq<ServerGroup<real>>, answers: seq<Vector>, result: Vector
        ensures SumRight(re, added, groups, answers, result)
      {
        hide Aggregate, WellKept, Fetches, ToldApart, Eval;
        if AddedLabels(groups) == added && WellKept(groups)
           && Fetches(result, re, Folding(Sum), Always, By({}), Plain(), groups, answers)
        {
          FoldingPreserved(result, re, Sum, Always, By({}), Plain(), groups, answers);
        }
      }
    } else {
      var i, j :| 0 <= i < j < |added| && !Differ(added[i], added[j]);
      hide SumRight, Differ;
      var groups, answers, result := SumLost(re, added, i, j);
    }
  }

  /** Groups i and j hold one series of value 1 each, the others nothing. */
  function TwoHolders(added: seq<Labels>, i: nat, j: nat): seq<ServerGroup<real>> {
    seq(|added|, m requires 0 <= m < |added| => ServerGroup(added[m], if m == i || m == j then [UnitSeries()] else []))
  }

  function UnitSeries(): Series<real> {
    Series(map[METRIC_NAME := "m"], 1.0)
  }

  function TwoAnswers(n: nat, i: nat, j: nat): seq<Vector> {
    seq(n, m => if m == i || m == j then [Element(map[], 1.0)] else [])
  }

  lemma SumLost(re: Regex, added: seq<Labels>, i: nat, j: nat)
    returns (groups: seq<ServerGroup<real>>, answers: seq<Vector>, result: Vector)
    requires Sound(re) && (forall m :: 0 <= m < |added| ==> METRIC_NAME !in added[m])
    requires i < j < |added| && !Differ(added[i], added[j])
    ensures !SumRight(re, added, groups, answers, result)
  {
    groups, answers := TwoHolders(added, i, j), TwoAnswers(|added|, i, j);
    HoldersKept(added, i, j);
    HoldersAnswer(re, added, i, j);
    var one := Element(map[], 1.0);
    SameLabelled(added[i], added[j]);
    var x := LabelElement(one, added[i]);
    result := [x];
    SparseTwo(answers, added, i, j, one, one);
    hide Gather, AllAnswer, WellKept, Labelled, TwoHolders, TwoAnswers, AddedLabels, SumRight;
    OneIsLost(re, added, groups, answers, x);
  }

  lemma OneIsLost(re: Regex, added: seq<Labels>, groups: seq<ServerGroup<real>>, answers: seq<Vector>, x: Element)
    requires Sound(re) && AddedLabels(groups) == added && WellKept(groups) && |answers| == |added| && x.value == 1.0
    requires AllAnswer(re, Folding(Sum), Always, By({}), Plain(), groups, answers) && Gather(answers, added) == [x, x]
    ensures !SumRight(re, added, groups, answers, [x])
  {
    hide Gather, Aggregate, Eval, WellKept, Lists, GroupVectors, MergedByLabels;
    OneOfTwo(x);
    OneEvaluation(re, Plain(), groups);
    SameSize(re, Plain(), groups);
    PushdownPreserves(Sum, Always, By({}), GroupVectors(re, Plain(), groups), answers, added);
    OneAndTwo(x);
    assert Fetches([x], re, Folding(Sum), Always, By({}), Plain(), groups, answers);
  }

  lemma OneOfTwo(x: Element)
    ensures MergedByLabels([x], [x, x])
  {
    assert [x][0].labels == x.labels;
  }

  lemma HoldersKept(added: seq<Labels>, i: nat, j: nat)
    requires forall m :: 0 <= m < |added| ==> METRIC_NAME !in added[m]
    ensures AddedLabels(TwoHolders(added, i, j)) == added && WellKept(TwoHolders(added, i, j))
    ensures |TwoHolders(added, i, j)| == |added|
  {
    var groups := TwoHolders(added, i, j);
    assert AddedLabels(groups) == added;
    forall a, n | 0 <= a < |groups| && 0 <= n < |groups[a].store| ensures groups[a].store[n] == UnitSeries() {
      assert groups[a].store == [UnitSeries()];
    }
    assert Stored(UnitSeries()) && UnitSeries().labels.Keys == {METRIC_NAME};
  }

  lemma HoldersAnswer(re: Regex, added: seq<Labels>, i: nat, j: nat)
    requires Sound(re)
    ensures AllAnswer(re, Folding(Sum), Always, By({}), Plain(), TwoHolders(added, i, j), TwoAnswers(|added|, i, j))
  {
    hide Lists, Aggregate, GroupVector;
    var groups := TwoHolders(added, i, j);
    forall m | 0 <= m < |groups|
      ensures Answered(Folding(Sum), Always, By({}), GroupVectors(re, Plain(), groups)[m], TwoAnswers(|added|, i, j)[m])
    {
      HolderAnswers(re, added[m], groups[m].store);
    }
  }

  lemma SameLabelled(x: Labels, y: Labels)
    requires !Differ(x, y)
    ensures Labelled(map[], x) == Labelled(map[], y)
  {
    forall k ensures Get(Labelled(map[], x), k) == Get(Labelled(map[], y), k) {
      LabelledGet(map[], x, k);
      LabelledGet(map[], y, k);
      assert Get(x, k) == Get(y, k);
    }
    LabelledGet(map[], x, "");
    LabelledGet(map[], y, "");
    SameAnswers(Labelled(map[], x), Labelled(map[], y));
  }

  /** The sum over everything. */
  lemma TotalIs(v: Vector, total: Option<real>)
    requires Fold(Sum, ValuesIn(By({}), v, {map[]})) == total
    ensures Aggregate(Sum, Always, By({}), v) == if total.Some? then map[map[] := total.value] else map[]
  {
    hide Fold, ValuesIn;
    var sums := Aggregate(Sum, Always, By({}), v);
    assert forall ls :: Key(By({}), ls) == map[];
    hide Key;
    forall key ensures key in sums <==> key == map[] && total.Some? {
      ResultKeys(Sum, Always, By({}), v);
      if key in sums {
        assert key in Keys(By({}), v);
      }
    }
    assert sums.Keys == if total.Some? then {map[]} else {};
  }

  /** One of two equal partial sums is not both. */
  lemma OneAndTwo(x: Element)
    requires x.value == 1.0
    ensures Aggregate(Sum, Always, By({}), [x]) == map[map[] := 1.0]
    ensures Aggregate(Sum, Always, By({}), [x, x]) == map[map[] := 2.0]
    ensures Aggregate(Sum, Always, By({}), [x]) != Aggregate(Sum, Always, By({}), [x, x])
  {
    hide Aggregate, Fold, ValuesIn;
    assert Key(By({}), x.labels) == map[];
    OneValue(By({}), x, map[]);
    SingleFold(Sum, 1.0);
    TotalIs([x], Some(1.0));
    ValuesConcat(By({}), [x], [x], {map[]});
    FoldConcat(Sum, [1.0], [1.0]);
    assert [x] + [x] == [x, x];
    TotalIs([x, x], Some(2.0));
    Unequal(map[], 1.0, 2.0);
  }

  lemma Unequal(key: Labels, x: real, y: real)
    requires x != y
    ensures map[key := x] != map[key := y]
  {
    assert (map[key := x])[key] != (map[key := y])[key];
  }

  lemma HolderAnswers(re: Regex, added: Labels, store: seq<Series<real>>)
    requires Sound(re) && (store == [UnitSeries()] || store == [])
    ensures Lists(if store == [] then [] else [Element(map[], 1.0)],
                  Aggregate(Sum, Always, By({}), GroupVector(re, Plain(), added, store)))
  {
    var v := GroupVector(re, Plain(), added, store);
    var sent := Select([ANYTHING_NAMED], Plain().latest);
    assert Strip(re, Plain(), added) == Some(sent) by {
      assert Remaining([], added) == [];
      assert Stripped(re, added, []) == Some([ANYTHING_NAMED]);
    }
    assert v == Eval(re, sent, store);
    hide Strip, GroupVector, Aggregate;
    if store == [] {
      assert v == [];
      NoSums();
    } else {
      var x := Element(UnitSeries().labels, 1.0);
      assert Accepts(re, ANYTHING_NAMED, UnitSeries().labels);
      assert EvalOne(re, sent, UnitSeries()) == Some(x);
      hide EvalOne;
      assert store == [] + [UnitSeries()];
      EvalSnoc(re, sent, [], UnitSeries());
      NoSeries(re, sent);
      assert v == [x];
      OneAndTwo(x);
      ListsOne(1.0);
    }
  }

  lemma EvalSnoc<D(!new)>(re: Regex, e: Inner<D>, store: seq<Series<D>>, s: Series<D>)
    ensures Eval(re, e, store + [s]) ==
            Eval(re, e, store) + (match EvalOne(re, e, s) case None => [] case Some(x) => [x])
  {
    hide EvalOne;
    assert (store + [s])[..|store|] == store;
  }

  lemma NoSums()
    ensures Lists([], Aggregate(Sum, Always, By({}), []))
  {
  }

  lemma ListsOne(x: real)
    ensures Lists([Element(map[], x)], map[map[] := x])
  {
    assert [Element(map[], x)][0].labels == map[];
  }

  lemma {:induction false} SparseNone(ps: seq<Vector>, added: seq<Labels>)
    requires |ps| == |added| && forall m :: 0 <= m < |ps| ==> ps[m] == []
    ensures Gather(ps, added) == []
    decreases |ps|
  {
    if ps != [] {
      SparseNone(ps[..|ps|-1], added[..|ps|-1]);
    }
  }

  lemma {:induction false} SparseOne(ps: seq<Vector>, added: seq<Labels>, i: nat, x: Element)
    requires |ps| == |added| && i < |ps| && forall m :: 0 <= m < |ps| ==> ps[m] == if m == i then [x] else []
    ensures Gather(ps, added) == [LabelElement(x, added[i])]
    decreases |ps|
  {
    hide LabelElement;
    var n := |ps| - 1;
    if i < n {
      SparseOne(ps[..n], added[..n], i, x);
    } else {
      SparseNone(ps[..n], added[..n]);
    }
  }

  lemma {:induction false} SparseTwo(ps: seq<Vector>, added: seq<Labels>, i: nat, j: nat, x: Element, y: Element)
    requires |ps| == |added| && i < j < |ps|
    requires forall m :: 0 <= m < |ps| ==> ps[m] == if m == i then [x] else if m == j then [y] else []
    ensures Gather(ps, added) == [LabelElement(x, added[i]), LabelElement(y, added[j])]
    decreases |ps|
  {
    hide LabelElement;
    var n := |ps| - 1;
    if j < n {
      SparseTwo(ps[..n], added[..n], i, j, x, y);
    } else {
      SparseOne(ps[..n], added[..n], i, x);
    }
  }
}
