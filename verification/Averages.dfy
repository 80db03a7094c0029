/** How NodeReplacer in pkg/proxystorage/proxy.go takes an average apart: into a sum divided by a count, and, when the
  grouping names the metric name, which division drops, with the name carried in another label meanwhile. */
module Averages {
  import opened Options
  import opened Labels
  import opened PromQL
  import opened Pushdown

  // ----- sum / count -----

  /** The grouping keeps the metric name in the result. */
  predicate KeepsMetricName(g: Grouping) {
    g.By? && METRIC_NAME in g.names
  }

  /** The quotient that replaces an average. */
  ghost function SumByCount(g: Grouping, v: Vector): Option<map<Labels, real>> {
    Divide(Aggregate(Sum, Always, g, v), Aggregate(Count, Always, g, v))
  }

  lemma NamelessKeys(op: Op, g: Grouping, v: Vector)
    requires !KeepsMetricName(g)
    ensures forall k :: k in Aggregate(op, Always, g, v) ==> WithoutName(k) == k
  {
    hide Fold, ValuesIn;
  }

  lemma NamelessSame(m: map<Labels, real>)
    requires forall k :: k in m ==> WithoutName(k) == k
    ensures Apart(m) && Nameless(m) == m
  {
    forall k, k' | k in m && k' in m && WithoutName(k) == WithoutName(k') ensures k == k' {
      assert WithoutName(k) == k && WithoutName(k') == k';
    }
    var n := Nameless(m);
    assert forall k :: k in m ==> WithoutName(k) == k && k in n && n[k] == m[k];
    assert forall k :: k in n ==> k in m;
    assert n.Keys == m.Keys;
  }

  /** Dividing results with the same nameless keys goes key by key. */
  lemma DivideSame(a: map<Labels, real>, b: map<Labels, real>)
    requires a.Keys == b.Keys && forall k :: k in a ==> WithoutName(k) == k
    ensures Divide(a, b) == Some(Ratio(a, b))
  {
    PartneredSelf(a, b);
    NamelessSame(a);
    NamelessSame(b);
    RatioOfNothing(b);
    hide Nameless, WithoutName, Apart, Partnered, Ratio;
  }

  lemma RatioOfNothing(b: map<Labels, real>)
    ensures Ratio(map[], b) == map[]
  {
  }

  lemma SelfPartner(k: Labels, b: map<Labels, real>)
    requires k in b
    ensures HasPartner(k, b)
  {
    assert WithoutName(k) == WithoutName(k);
  }

  lemma PartneredSelf(a: map<Labels, real>, b: map<Labels, real>)
    requires a.Keys == b.Keys
    ensures Partnered(a, b) == a
  {
    hide WithoutName, HasPartner;
    forall k | k in a ensures HasPartner(k, b) {
      SelfPartner(k, b);
    }
    KeptWhole(a, Partnered(a, b));
  }

  /** A part of a map that has all its keys is the map itself. */
  lemma KeptWhole<K(!new), V>(m: map<K, V>, kept: map<K, V>)
    requires (forall k :: k in kept ==> k in m) && forall k :: k in m ==> k in kept && kept[k] == m[k]
    ensures kept == m
  {
    assert kept.Keys == m.Keys;
  }

  /** avg is sum divided by count, for every grouping that does not keep the metric name. */
  lemma AverageIsQuotient(g: Grouping, v: Vector)
    requires !KeepsMetricName(g)
    ensures SumByCount(g, v) == Some(Average(g, v))
  {
    hide Aggregate, Average, Fold, ValuesIn, Divide, WithoutName;
    var sums, counts, avg := Aggregate(Sum, Always, g, v), Aggregate(Count, Always, g, v), Average(g, v);
    forall key
      ensures key in sums <==> key in avg
      ensures key in counts <==> key in avg
      ensures key in avg ==> counts[key] > 0.0 && avg[key] == sums[key] / counts[key]
    {
      AverageAt(g, v, key);
    }
    assert sums.Keys == counts.Keys;
    NamelessKeys(Sum, g, v);
    DivideSame(sums, counts);
    SameRatio(avg, sums, counts);
  }

  lemma SameRatio(avg: map<Labels, real>, a: map<Labels, real>, b: map<Labels, real>)
    requires avg.Keys == a.Keys == b.Keys && forall k :: k in avg ==> b[k] > 0.0 && avg[k] == a[k] / b[k]
    ensures avg == Ratio(a, b)
  {
    var q := Ratio(a, b);
    assert forall k :: k in avg <==> k in q;
    assert avg.Keys == q.Keys;
  }

  lemma AverageAt(g: Grouping, v: Vector, key: Labels)
    ensures var sums, counts, avg := Aggregate(Sum, Always, g, v), Aggregate(Count, Always, g, v), Average(g, v);
            && (key in sums <==> key in avg) && (key in counts <==> key in avg)
            && (key in avg ==> counts[key] > 0.0 && avg[key] == sums[key] / counts[key])
  {
    hide Fold, ValuesIn, Keys;
    CountIsLength(ValuesIn(g, v, {key}));
    SumSome(ValuesIn(g, v, {key}));
  }

  lemma {:induction false} CountIsLength(xs: seq<real>)
    ensures Fold(Count, xs) == if xs == [] then None else Some(|xs| as real)
  {
    if xs != [] {
      CountIsLength(xs[..|xs|-1]);
    }
  }

  lemma SumSome(xs: seq<real>)
    ensures Fold(Sum, xs).Some? <==> xs != []
  {
  }

  /** One series, one group. */
  lemma OneAverage(g: Grouping, x: Element)
    ensures Average(g, [x]) == map[Key(g, x.labels) := x.value]
  {
    hide Key, ValuesIn, Fold;
    var avg, k := Average(g, [x]), Key(g, x.labels);
    assert Keys(g, [x]) == {k} by {
      assert x in [x];
    }
    OneValue(g, x, k);
    SingleFold(Sum, x.value);
    assert avg.Keys == {k};
  }

  /** A grouping that keeps the metric name really needs another way: division drops the name. */
  lemma QuotientExact(g: Grouping)
    ensures (forall v :: SumByCount(g, v) == Some(Average(g, v))) <==> !KeepsMetricName(g)
  {
    if KeepsMetricName(g) {
      var x := Element(map[METRIC_NAME := "m"], 1.0);
      OneAverage(g, x);
      DivideDropsName(Aggregate(Sum, Always, g, [x]), Aggregate(Count, Always, g, [x]));
      assert METRIC_NAME in Key(g, x.labels) && Key(g, x.labels) in Average(g, [x]);
      hide Average, Divide, Aggregate, Key;
      assert SumByCount(g, [x]) != Some(Average(g, [x]));
    } else {
      forall v ensures SumByCount(g, v) == Some(Average(g, v)) {
        AverageIsQuotient(g, v);
      }
    }
  }

  lemma DivideDropsName(a: map<Labels, real>, b: map<Labels, real>)
    ensures Divide(a, b).Some? ==> forall k :: k in Divide(a, b).value ==> METRIC_NAME !in k
  {
  }

  // ----- Keeping the name through the division -----

  /** The grouping of the two sides: it asks for the copy of the name where the average asks for the name. */
  function Renamed(g: Grouping): Grouping {
    var names := g.names - {METRIC_NAME} + {NAME_COPY};
    match g
    case By(_) => By(names)
    case Without(_) => Without(names)
  }

  /** The copy does not get in the way: it is not itself asked for, or not itself left in. */
  ghost predicate CopyIsSpare(g: Grouping, v: Vector) {
    match g
    case By(names) => NAME_COPY !in names
    case Without(names) => NAME_COPY in names || forall i :: 0 <= i < |v| ==> NAME_COPY !in v[i].labels
  }

  /** The group of a series on the two sides, from its group in the average. */
  function Forth(g: Grouping, key: Labels): Labels {
    Key(Renamed(g), Preserve(key, METRIC_NAME, NAME_COPY))
  }

  /** And back: what the outer aggregation makes of a quotient's labels. */
  function Back(g: Grouping, key: Labels): Labels {
    Key(g, Preserve(key, NAME_COPY, METRIC_NAME))
  }

  /** The group of a series on the two sides. */
  function Side(g: Grouping, ls: Labels): Labels {
    Key(Renamed(g), Preserve(ls, METRIC_NAME, NAME_COPY))
  }

  ghost predicate SpareFor(g: Grouping, ls: Labels) {
    match g
    case By(names) => NAME_COPY !in names
    case Without(names) => NAME_COPY in names || NAME_COPY !in ls
  }

  lemma SideForth(g: Grouping, ls: Labels)
    requires METRIC_NAME in g.names && SpareFor(g, ls)
    ensures Side(g, ls) == Forth(g, Key(g, ls))
  {
  }

  lemma SideBack(g: Grouping, ls: Labels)
    requires METRIC_NAME in g.names && Normal(ls) && SpareFor(g, ls)
    ensures Back(g, Side(g, ls)) == Key(g, ls)
  {
  }

  /** Regrouping a relabelled vector: the values of a group are those of the group it stands for. */
  lemma {:induction false} ValuesMoved(g: Grouping, v: Vector, g': Grouping, v': Vector, key: Labels, key': Labels)
    requires |v'| == |v| && forall i :: 0 <= i < |v| ==>
               v'[i].value == v[i].value && (Key(g', v'[i].labels) == key' <==> Key(g, v[i].labels) == key)
    ensures ValuesIn(g', v', {key'}) == ValuesIn(g, v, {key})
    decreases |v|
  {
    hide Key;
    if v != [] {
      var n := |v| - 1;
      ValuesMoved(g, v[..n], g', v'[..n], key, key');
    }
  }

  /** The average on the sides: group by group the average that is asked for. */
  lemma SideAverage(g: Grouping, v: Vector, x: Element)
    requires METRIC_NAME in g.names && CopyIsSpare(g, v) && (forall i :: 0 <= i < |v| ==> Normal(v[i].labels)) && x in v
    ensures var v', key' := PreserveAll(v, METRIC_NAME, NAME_COPY), Side(g, x.labels);
            && Back(g, key') == Key(g, x.labels) && Forth(g, Key(g, x.labels)) == key'
            && ValuesIn(Renamed(g), v', {key'}) == ValuesIn(g, v, {Key(g, x.labels)})
  {
    var v', key', key := PreserveAll(v, METRIC_NAME, NAME_COPY), Side(g, x.labels), Key(g, x.labels);
    forall i | 0 <= i < |v| ensures Side(g, v[i].labels) == key' <==> Key(g, v[i].labels) == key {
      SideForth(g, v[i].labels);
      SideBack(g, v[i].labels);
      SideForth(g, x.labels);
      SideBack(g, x.labels);
    }
    SideForth(g, x.labels);
    SideBack(g, x.labels);
    hide Key, Preserve, Renamed;
    ValuesMoved(g, v, Renamed(g), v', key, key');
  }

  /** In a vector whose elements are all in different groups, a group's values are its element's. */
  lemma {:induction false} Alone(g: Grouping, u: Vector, i: nat)
    requires i < |u| && forall a, b :: 0 <= a < b < |u| ==> Key(g, u[a].labels) != Key(g, u[b].labels)
    ensures ValuesIn(g, u, {Key(g, u[i].labels)}) == [u[i].value]
    decreases |u|
  {
    hide Key;
    var n := |u| - 1;
    if i < n {
      Alone(g, u[..n], i);
    } else {
      Elsewhere(g, u[..n], Key(g, u[n].labels));
    }
  }

  lemma {:induction false} Elsewhere(g: Grouping, u: Vector, key: Labels)
    requires forall a :: 0 <= a < |u| ==> Key(g, u[a].labels) != key
    ensures ValuesIn(g, u, {key}) == []
    decreases |u|
  {
    hide Key;
    if u != [] {
      Elsewhere(g, u[..|u|-1], key);
    }
  }

  /** `avg by (__name__, ..)`: carrying the name through the division in its copy and putting it back gives the average,
    in whatever order `w` the quotient is listed. */
  lemma NamedAverage(g: Grouping, v: Vector, w: Vector)
    requires METRIC_NAME in g.names && CopyIsSpare(g, v) && forall i :: 0 <= i < |v| ==> Normal(v[i].labels)
    requires Lists(w, Average(Renamed(g), PreserveAll(v, METRIC_NAME, NAME_COPY)))
    ensures Aggregate(Max, Always, g, PreserveAll(w, NAME_COPY, METRIC_NAME)) == Average(g, v)
  {
    hide Key, Preserve, Renamed, ValuesIn, Fold;
    var v' := PreserveAll(v, METRIC_NAME, NAME_COPY);
    var u, avg := PreserveAll(w, NAME_COPY, METRIC_NAME), Average(g, v);
    forall i | 0 <= i < |w|
      ensures Key(g, u[i].labels) in avg && avg[Key(g, u[i].labels)] == u[i].value
      ensures Forth(g, Key(g, u[i].labels)) == w[i].labels
    {
      ListedAverage(g, v, w, i);
    }
    forall a, b | 0 <= a < b < |u| ensures Key(g, u[a].labels) != Key(g, u[b].labels) {
      assert w[a].labels != w[b].labels;
    }
    forall key | key in avg ensures exists i :: 0 <= i < |u| && Key(g, u[i].labels) == key {
      AverageListed(g, v, w, key);
    }
    hide Lists, Average;
    OnePerGroup(g, u, avg);
  }

  /** Aggregating a vector with one element for each group lists it. */
  lemma OnePerGroup(g: Grouping, u: Vector, m: map<Labels, real>)
    requires forall a, b :: 0 <= a < b < |u| ==> Key(g, u[a].labels) != Key(g, u[b].labels)
    requires forall i :: 0 <= i < |u| ==> Key(g, u[i].labels) in m && m[Key(g, u[i].labels)] == u[i].value
    requires forall key :: key in m ==> exists i :: 0 <= i < |u| && Key(g, u[i].labels) == key
    ensures Aggregate(Max, Always, g, u) == m
  {
    hide Key, ValuesIn, Fold;
    var r := Aggregate(Max, Always, g, u);
    forall key ensures key in r <==> key in m
      ensures key in m ==> key in r && r[key] == m[key]
    {
      if key in m {
        var i :| 0 <= i < |u| && Key(g, u[i].labels) == key;
        Alone(g, u, i);
        SingleFold(Max, u[i].value);
        assert u[i] in u && key in Keys(g, u);
      } else {
        assert key !in Keys(g, u);
      }
    }
    assert r.Keys == m.Keys;
  }

  /** An element of the quotient stands for a group of the average. */
  lemma ListedAverage(g: Grouping, v: Vector, w: Vector, i: nat)
    requires METRIC_NAME in g.names && CopyIsSpare(g, v) && forall i :: 0 <= i < |v| ==> Normal(v[i].labels)
    requires Lists(w, Average(Renamed(g), PreserveAll(v, METRIC_NAME, NAME_COPY))) && i < |w|
    ensures var key := Back(g, w[i].labels);
            && key in Average(g, v) && Average(g, v)[key] == w[i].value && Forth(g, key) == w[i].labels
  {
    hide Key, Preserve, Renamed, ValuesIn, Fold;
    var v' := PreserveAll(v, METRIC_NAME, NAME_COPY);
    assert w[i].labels in Average(Renamed(g), v') && w[i].labels in Keys(Renamed(g), v');
    var x' :| x' in v' && Key(Renamed(g), x'.labels) == w[i].labels;
    var n :| 0 <= n < |v'| && v'[n] == x';
    SideAverage(g, v, v[n]);
    assert Side(g, v[n].labels) == w[i].labels && Key(g, v[n].labels) in Keys(g, v);
  }

  /** And every group of the average is listed. */
  lemma AverageListed(g: Grouping, v: Vector, w: Vector, key: Labels)
    requires METRIC_NAME in g.names && CopyIsSpare(g, v) && forall i :: 0 <= i < |v| ==> Normal(v[i].labels)
    requires Lists(w, Average(Renamed(g), PreserveAll(v, METRIC_NAME, NAME_COPY))) && key in Average(g, v)
    ensures exists i :: 0 <= i < |w| && Back(g, w[i].labels) == key
  {
    hide Key, Preserve, Renamed, ValuesIn, Fold;
    var v' := PreserveAll(v, METRIC_NAME, NAME_COPY);
    var x :| x in v && Key(g, x.labels) == key;
    var n :| 0 <= n < |v| && v[n] == x;
    SideAverage(g, v, x);
    var key' := Side(g, x.labels);
    assert v'[n] in v' && key' in Keys(Renamed(g), v') && key' in Average(Renamed(g), v');
    var i :| 0 <= i < |w| && w[i].labels == key';
  }

  /** The replacement of `avg by (__name__, ..)` gives the average of `v`, however the engine lists the quotient. */
  ghost predicate RestoresAverage(g: Grouping, v: Vector) {
    var q := SumByCount(Renamed(g), PreserveAll(v, METRIC_NAME, NAME_COPY));
    q.Some? && forall w :: Lists(w, q.value) ==>
      Aggregate(Max, Always, g, PreserveAll(w, NAME_COPY, METRIC_NAME)) == Average(g, v)
  }

  ghost predicate AllNormal(v: Vector) {
    forall i :: 0 <= i < |v| ==> Normal(v[i].labels)
  }

  lemma NamedAverageIsQuotient(g: Grouping, v: Vector)
    requires METRIC_NAME in g.names && CopyIsSpare(g, v) && AllNormal(v)
    ensures RestoresAverage(g, v)
  {
    hide Average, Aggregate, Divide, Lists;
    var v' := PreserveAll(v, METRIC_NAME, NAME_COPY);
    AverageIsQuotient(Renamed(g), v');
    forall w | Lists(w, Average(Renamed(g), v'))
      ensures Aggregate(Max, Always, g, PreserveAll(w, NAME_COPY, METRIC_NAME)) == Average(g, v)
    {
      NamedAverage(g, v, w);
    }
  }

  /** Over all vectors this holds exactly for the groupings that cannot see the copy: those that do not ask for it by
    name, or that leave it out by name. */
  lemma NamedAverageExact(g: Grouping)
    requires METRIC_NAME in g.names
    ensures (forall v :: AllNormal(v) ==> RestoresAverage(g, v)) <==> (g.By? <==> NAME_COPY !in g.names)
  {
    hide RestoresAverage;
    if g.By? <==> NAME_COPY !in g.names {
      forall v | AllNormal(v) ensures RestoresAverage(g, v) {
        NamedAverageIsQuotient(g, v);
      }
    } else {
      var x := Element(if g.By? then map[METRIC_NAME := "m"] else map[NAME_COPY := "c"], 1.0);
      assert NAME_COPY in Back(g, Side(g, x.labels)) <==> g.By?;
      assert NAME_COPY in Key(g, x.labels) <==> !g.By?;
      Misplaced(g, x);
      assert AllNormal([x]);
    }
  }

  lemma Misplaced(g: Grouping, x: Element)
    requires METRIC_NAME in g.names && Back(g, Side(g, x.labels)) != Key(g, x.labels)
    ensures !RestoresAverage(g, [x])
  {
    hide Key, Preserve, Average, Aggregate, Divide;
    var v', key' := PreserveAll([x], METRIC_NAME, NAME_COPY), Side(g, x.labels);
    assert v' == [Element(Preserve(x.labels, METRIC_NAME, NAME_COPY), x.value)];
    AverageIsQuotient(Renamed(g), v');
    OneAverage(Renamed(g), v'[0]);
    OneAverage(g, x);
    var w := [Element(key', x.value)];
    assert w[0].labels == key';
    assert Lists(w, map[key' := x.value]);
    var u := PreserveAll(w, NAME_COPY, METRIC_NAME);
    OnePerGroup(g, u, map[Key(g, u[0].labels) := x.value]);
  }
}
