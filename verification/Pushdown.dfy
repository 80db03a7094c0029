/** Aggregation pushdown of pkg/proxystorage/proxy.go: each server group aggregates its own series, the group's labels
  are added to the partial results, and the aggregation runs again over all of them.

  The argument is algebraic. An aggregate is a fold in a commutative monoid (`Merge`); grouping before labelling sees
  all that grouping after labelling needs (`KeyOfLabelled`); so partial folds over any split of a group combine to the
  fold of the whole group. A comparison with a literal may be pushed along exactly when it is a homomorphism of that
  monoid. */
module Pushdown {
  import opened Options
  import opened Labels
  import opened PromQL

  /** The operator the rewritten node runs over the partial results: counts are summed, the rest is run again. */
  function Again(op: Op): Op {
    if op.Count? then Sum else op
  }

  /** The comparisons that keep enough: an upper cut under max, a lower cut under min, or none at all. */
  predicate PushesDown(op: Op, f: Filter) {
    || f.Always?
    || (op.Max? && (f.Above? || f.AtLeast?))
    || (op.Min? && (f.Below? || f.AtMost?))
  }

  // ----- The monoid -----

  lemma MergeLaws(op: Op, a: Option<real>, b: Option<real>, c: Option<real>)
    requires op.Group? ==> (a.Some? ==> a.value == 1.0) && (b.Some? ==> b.value == 1.0) && (c.Some? ==> c.value == 1.0)
    ensures Merge(op, a, b) == Merge(op, b, a)
    ensures Merge(op, Merge(op, a, b), c) == Merge(op, a, Merge(op, b, c))
    ensures Merge(Again(op), a, b) == Merge(op, a, b)
  {
  }

  /** A pushed-down comparison distributes over combining partial results. */
  lemma KeepMerge(op: Op, f: Filter, a: Option<real>, b: Option<real>)
    requires PushesDown(op, f)
    ensures Keep(f, Merge(op, a, b)) == Merge(op, Keep(f, a), Keep(f, b))
  {
  }

  lemma {:induction false} GroupFold(xs: seq<real>)
    ensures xs != [] ==> Fold(Group, xs) == Some(1.0)
  {
    if xs != [] {
      GroupFold(xs[..|xs|-1]);
    }
  }

  function Added(xs: seq<real>): real {
    if xs == [] then 0.0 else Added(xs[..|xs|-1]) + xs[|xs|-1]
  }

  /** max and min are the largest and the smallest value, group is 1, count counts, sum adds. */
  lemma {:induction false} FoldMeaning(xs: seq<real>)
    requires xs != []
    ensures Fold(Max, xs).Some? && Fold(Max, xs).value in xs && forall x :: x in xs ==> x <= Fold(Max, xs).value
    ensures Fold(Min, xs).Some? && Fold(Min, xs).value in xs && forall x :: x in xs ==> x >= Fold(Min, xs).value
    ensures Fold(Group, xs) == Some(1.0) && Fold(Count, xs) == Some(|xs| as real)
    ensures Fold(Sum, xs) == Some(Added(xs))
  {
    var init, last := xs[..|xs|-1], xs[|xs|-1];
    assert xs == init + [last];
    if init != [] {
      FoldMeaning(init);
    }
  }

  lemma {:induction false} FoldConcat(op: Op, xs: seq<real>, ys: seq<real>)
    ensures Fold(op, xs + ys) == Merge(op, Fold(op, xs), Fold(op, ys))
    decreases |ys|
  {
    if ys == [] {
      assert xs + ys == xs;
    } else {
      var init, last := ys[..|ys|-1], Some(Lift(op, ys[|ys|-1]));
      assert (xs + ys)[..|xs + ys|-1] == xs + init;
      FoldConcat(op, xs, init);
      GroupFold(xs);
      GroupFold(init);
      MergeLaws(op, Fold(op, xs), Fold(op, init), last);
    }
  }

  lemma {:induction false} ValuesConcat(g: Grouping, v: Vector, w: Vector, keys: set<Labels>)
    ensures ValuesIn(g, v + w, keys) == ValuesIn(g, v, keys) + ValuesIn(g, w, keys)
    decreases |w|
  {
    if w == [] {
      assert v + w == v;
    } else {
      assert (v + w)[..|v + w|-1] == v + w[..|w|-1];
      ValuesConcat(g, v, w[..|w|-1], keys);
    }
  }

  /** Folding over one more group: the order in which a vector mixes its groups does not matter. */
  lemma {:induction false} SplitFold(op: Op, g: Grouping, v: Vector, keys: set<Labels>, key: Labels)
    requires key !in keys
    ensures Fold(op, ValuesIn(g, v, keys + {key})) ==
            Merge(op, Fold(op, ValuesIn(g, v, keys)), Fold(op, ValuesIn(g, v, {key})))
    decreases |v|
  {
    hide Fold, Merge, Key, Lift;
    if v == [] {
      NothingFolds(op, g, keys, key);
    } else {
      var init, last := v[..|v|-1], v[|v|-1];
      SplitFold(op, g, init, keys, key);
      var all, some, one := ValuesIn(g, init, keys + {key}), ValuesIn(g, init, keys), ValuesIn(g, init, {key});
      SnocFold(op, all, last.value);
      SnocFold(op, some, last.value);
      SnocFold(op, one, last.value);
      SwapMerge(op, some, one, last.value);
    }
  }

  lemma NothingFolds(op: Op, g: Grouping, keys: set<Labels>, key: Labels)
    ensures Fold(op, ValuesIn(g, [], keys + {key})) ==
            Merge(op, Fold(op, ValuesIn(g, [], keys)), Fold(op, ValuesIn(g, [], {key})))
  {
  }

  /** A new value may join either part. */
  lemma SwapMerge(op: Op, some: seq<real>, one: seq<real>, last: real)
    ensures var x := Some(Lift(op, last)); var a, b := Fold(op, some), Fold(op, one);
            && Merge(op, Merge(op, a, b), x) == Merge(op, Merge(op, a, x), b)
            && Merge(op, Merge(op, a, b), x) == Merge(op, a, Merge(op, b, x))
  {
    var x := Some(Lift(op, last));
    var a, b := Fold(op, some), Fold(op, one);
    GroupFold(some);
    GroupFold(one);
    MergeLaws(op, a, b, x);
    MergeLaws(op, a, x, b);
    MergeLaws(op, b, x, None);
  }

  lemma SnocFold(op: Op, xs: seq<real>, x: real)
    ensures Fold(op, xs + [x]) == Merge(op, Fold(op, xs), Some(Lift(op, x)))
  {
    assert (xs + [x])[..|xs|] == xs;
  }

  // ----- One server group -----

  ghost predicate Distinct(v: Vector) {
    forall i, j :: 0 <= i < j < |v| ==> v[i].labels != v[j].labels
  }

  /** `out` is the result `m` written out as a vector, in any order. */
  ghost predicate Lists(out: Vector, m: map<Labels, real>) {
    && Distinct(out)
    && (forall i :: 0 <= i < |out| ==> out[i].labels in m && m[out[i].labels] == out[i].value)
    && (forall k :: k in m ==> exists i :: 0 <= i < |out| && out[i].labels == k)
  }

  /** In a vector with one element for each group, a group's values are that element's. */
  lemma {:induction false} OneEach(g: Grouping, p: Vector, key: Labels)
    requires Distinct(p)
    requires forall i :: 0 <= i < |p| ==> Key(g, p[i].labels) == p[i].labels
    ensures forall i :: 0 <= i < |p| && p[i].labels == key ==> ValuesIn(g, p, {key}) == [p[i].value]
    ensures (forall i :: 0 <= i < |p| ==> p[i].labels != key) ==> ValuesIn(g, p, {key}) == []
    decreases |p|
  {
    if p != [] {
      OneEach(g, p[..|p|-1], key);
    }
  }

  lemma ListedKeys(op: Op, f: Filter, g: Grouping, v: Vector, p: Vector)
    requires Lists(p, Aggregate(op, f, g, v))
    ensures forall i :: 0 <= i < |p| ==> p[i].labels in Keys(g, v) && Key(g, p[i].labels) == p[i].labels
  {
    forall i | 0 <= i < |p| ensures p[i].labels in Keys(g, v) && Key(g, p[i].labels) == p[i].labels {
      var x :| x in v && Key(g, x.labels) == p[i].labels;
      KeyOfLabelled(g, x.labels, map[]);
    }
  }

  /** A group's line in the partial result, aggregated again, is the group's result. */
  lemma ListedFold(op: Op, f: Filter, g: Grouping, v: Vector, p: Vector, key: Labels)
    requires Lists(p, Aggregate(op, f, g, v)) && key in Keys(g, v)
    ensures Fold(Again(op), ValuesIn(g, p, {key})) == GroupResult(op, f, g, v, key)
  {
    hide Fold, ValuesIn, Key, Keys;
    ListedKeys(op, f, g, v, p);
    OneEach(g, p, key);
    GroupFold(ValuesIn(g, v, {key}));
    NothingFold(op);
    if i :| 0 <= i < |p| && p[i].labels == key {
      assert GroupResult(op, f, g, v, key) == Some(p[i].value);
      SingleFold(Again(op), p[i].value);
    } else {
      assert key !in Aggregate(op, f, g, v);
      NothingFold(Again(op));
    }
  }

  lemma SingleFold(op: Op, x: real)
    ensures Fold(op, [x]) == Some(Lift(op, x))
  {
    assert [x][..0] == [];
  }

  lemma OneValue(g: Grouping, x: Element, key: Labels)
    ensures ValuesIn(g, [x], {key}) == if Key(g, x.labels) == key then [x.value] else []
  {
    hide Key;
    assert [x][..0] == [] && [x][0] == x;
  }

  lemma NothingFold(op: Op)
    ensures Fold(op, []) == None
  {
  }

  /** The same over any set of the vector's groups. */
  lemma {:induction false} KeysFold(op: Op, f: Filter, g: Grouping, v: Vector, p: Vector, keys: set<Labels>)
    requires PushesDown(op, f) && Lists(p, Aggregate(op, f, g, v)) && keys <= Keys(g, v)
    ensures Fold(Again(op), ValuesIn(g, p, keys)) == Keep(f, Fold(op, ValuesIn(g, v, keys)))
    decreases |keys|
  {
    if keys == {} {
      NoKeys(g, v);
      NoKeys(g, p);
    } else {
      var key :| key in keys;
      var rest := keys - {key};
      assert rest + {key} == keys;
      KeysFold(op, f, g, v, p, rest);
      ListedFold(op, f, g, v, p, key);
      SplitFold(op, g, v, rest, key);
      SplitFold(Again(op), g, p, rest, key);
      var a, b := Fold(op, ValuesIn(g, v, rest)), Fold(op, ValuesIn(g, v, {key}));
      KeepMerge(op, f, a, b);
      GroupFold(ValuesIn(g, v, rest));
      GroupFold(ValuesIn(g, v, {key}));
      MergeLaws(op, Keep(f, a), Keep(f, b), None);
    }
  }

  lemma {:induction false} NoKeys(g: Grouping, v: Vector)
    ensures ValuesIn(g, v, {}) == []
    decreases |v|
  {
    if v != [] {
      NoKeys(g, v[..|v|-1]);
    }
  }

  /** After labelling, the values of one group are those of a whole set of groups from before labelling. */
  lemma {:induction false} FiberValues(g: Grouping, v: Vector, added: Labels, key: Labels, fiber: set<Labels>)
    requires forall i :: 0 <= i < |v| ==>
               (Key(g, v[i].labels) in fiber <==> Key(g, Labelled(v[i].labels, added)) == key)
    ensures ValuesIn(g, LabelAll(v, added), {key}) == ValuesIn(g, v, fiber)
    decreases |v|
  {
    hide Labelled, Key;
    if v != [] {
      var n := |v| - 1;
      assert LabelAll(v, added)[..n] == LabelAll(v[..n], added);
      FiberValues(g, v[..n], added, key, fiber);
      assert LabelAll(v, added)[n].labels == Labelled(v[n].labels, added);
    }
  }

  /** The groups of `v` that end up in group `key` once the labels are added. */
  function Fiber(g: Grouping, v: Vector, added: Labels, key: Labels): set<Labels> {
    set k | k in Keys(g, v) && Key(g, Labelled(k, added)) == key
  }

  /** Aggregating one server group's labelled partial result again gives the result over its labelled series. */
  lemma ShardFold(op: Op, f: Filter, g: Grouping, v: Vector, p: Vector, added: Labels, key: Labels)
    requires PushesDown(op, f) && Lists(p, Aggregate(op, f, g, v))
    ensures Fold(Again(op), ValuesIn(g, LabelAll(p, added), {key})) ==
            Keep(f, Fold(op, ValuesIn(g, LabelAll(v, added), {key})))
  {
    hide Fold, ValuesIn, Labelled, Key, Aggregate;
    var fiber := Fiber(g, v, added, key);
    forall i | 0 <= i < |v| ensures Key(g, v[i].labels) in fiber <==> Key(g, Labelled(v[i].labels, added)) == key {
      KeyOfLabelled(g, v[i].labels, added);
      assert v[i] in v;
      assert Key(g, v[i].labels) in Keys(g, v);
    }
    ListedKeys(op, f, g, v, p);
    forall i | 0 <= i < |p| ensures Key(g, p[i].labels) in fiber <==> Key(g, Labelled(p[i].labels, added)) == key {
      KeyOfLabelled(g, p[i].labels, added);
    }
    FiberValues(g, v, added, key, fiber);
    FiberValues(g, p, added, key, fiber);
    KeysFold(op, f, g, v, p, fiber);
  }

  // ----- All server groups -----

  /** The vectors of all server groups side by side, each with its group's labels on. */
  function Gather(vs: seq<Vector>, added: seq<Labels>): Vector
    requires |vs| == |added|
  {
    if vs == [] then [] else Gather(vs[..|vs|-1], added[..|vs|-1]) + LabelAll(vs[|vs|-1], added[|vs|-1])
  }

  lemma {:induction false} GatherFold(op: Op, f: Filter, g: Grouping, vs: seq<Vector>, ps: seq<Vector>,
                                      added: seq<Labels>, key: Labels)
    requires |vs| == |ps| == |added| && PushesDown(op, f)
    requires forall i :: 0 <= i < |vs| ==> Lists(ps[i], Aggregate(op, f, g, vs[i]))
    ensures Fold(Again(op), ValuesIn(g, Gather(ps, added), {key})) ==
            Keep(f, Fold(op, ValuesIn(g, Gather(vs, added), {key})))
    decreases |vs|
  {
    hide Fold, ValuesIn, Labelled, Key, Aggregate, Lists, Keep, Merge;
    if vs == [] {
      EmptyFold(op, f, g, key);
    } else {
      var n := |vs| - 1;
      GatherFold(op, f, g, vs[..n], ps[..n], added[..n], key);
      ShardFold(op, f, g, vs[n], ps[n], added[n], key);
      var restV, restP := Gather(vs[..n], added[..n]), Gather(ps[..n], added[..n]);
      var lastV, lastP := LabelAll(vs[n], added[n]), LabelAll(ps[n], added[n]);
      ValuesConcat(g, restV, lastV, {key});
      ValuesConcat(g, restP, lastP, {key});
      GroupFold(ValuesIn(g, restV, {key}));
      GroupFold(ValuesIn(g, lastV, {key}));
      CombineParts(op, f, ValuesIn(g, restV, {key}), ValuesIn(g, lastV, {key}),
                   ValuesIn(g, restP, {key}), ValuesIn(g, lastP, {key}));
    }
  }

  lemma EmptyFold(op: Op, f: Filter, g: Grouping, key: Labels)
    ensures Fold(Again(op), ValuesIn(g, [], {key})) == Keep(f, Fold(op, ValuesIn(g, [], {key}))) == None
  {
  }

  lemma CombineParts(op: Op, f: Filter, v1: seq<real>, v2: seq<real>, p1: seq<real>, p2: seq<real>)
    requires PushesDown(op, f)
    requires Fold(Again(op), p1) == Keep(f, Fold(op, v1)) && Fold(Again(op), p2) == Keep(f, Fold(op, v2))
    ensures Fold(Again(op), p1 + p2) == Keep(f, Fold(op, v1 + v2))
  {
    FoldConcat(op, v1, v2);
    FoldConcat(Again(op), p1, p2);
    KeepMerge(op, f, Fold(op, v1), Fold(op, v2));
    GroupFold(v1);
    GroupFold(v2);
    MergeLaws(op, Keep(f, Fold(op, v1)), Keep(f, Fold(op, v2)), None);
  }

  /** Results agree when they agree group by group. */
  lemma ResultsAgree(op1: Op, f1: Filter, v1: Vector, op2: Op, f2: Filter, v2: Vector, g: Grouping)
    requires forall key :: GroupResult(op1, f1, g, v1, key) == GroupResult(op2, f2, g, v2, key)
    ensures Aggregate(op1, f1, g, v1) == Aggregate(op2, f2, g, v2)
  {
    ResultKeys(op1, f1, g, v1);
    ResultKeys(op2, f2, g, v2);
    var a, b := Aggregate(op1, f1, g, v1), Aggregate(op2, f2, g, v2);
    forall key ensures key in a <==> key in b {
      assert GroupResult(op1, f1, g, v1, key) == GroupResult(op2, f2, g, v2, key);
    }
    assert a.Keys == b.Keys;
    forall key | key in a ensures a[key] == b[key] {
      assert GroupResult(op1, f1, g, v1, key) == GroupResult(op2, f2, g, v2, key);
    }
  }

  lemma ResultKeys(op: Op, f: Filter, g: Grouping, v: Vector)
    ensures forall key :: key in Aggregate(op, f, g, v) <==> GroupResult(op, f, g, v, key).Some?
  {
    forall key ensures key in Aggregate(op, f, g, v) <==> GroupResult(op, f, g, v, key).Some? {
      if key !in Keys(g, v) {
        NotAKey(g, v, key);
      }
    }
  }

  lemma {:induction false} NotAKey(g: Grouping, v: Vector, key: Labels)
    requires key !in Keys(g, v)
    ensures ValuesIn(g, v, {key}) == []
    decreases |v|
  {
    if v != [] {
      assert v[|v|-1] in v;
      forall x | x in v[..|v|-1] ensures x in v {
      }
      NotAKey(g, v[..|v|-1], key);
    }
  }

  /** Pushdown preserves meaning: for every grouping and any number of server groups, aggregating the labelled partial
    results again is one aggregation over all labelled series. */
  lemma PushdownPreserves(op: Op, f: Filter, g: Grouping, vs: seq<Vector>, ps: seq<Vector>, added: seq<Labels>)
    requires |vs| == |ps| == |added| && PushesDown(op, f)
    requires forall i :: 0 <= i < |vs| ==> Lists(ps[i], Aggregate(op, f, g, vs[i]))
    ensures Aggregate(Again(op), Always, g, Gather(ps, added)) == Aggregate(op, f, g, Gather(vs, added))
  {
    hide Fold, ValuesIn, Aggregate, Gather, Lists;
    forall key ensures GroupResult(Again(op), Always, g, Gather(ps, added), key) ==
                       GroupResult(op, f, g, Gather(vs, added), key)
    {
      GatherFold(op, f, g, vs, ps, added, key);
    }
    ResultsAgree(Again(op), Always, Gather(ps, added), op, f, Gather(vs, added), g);
  }
}
