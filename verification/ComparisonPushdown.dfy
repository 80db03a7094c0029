/** Comparisons with a literal pushed down together with an aggregation (aggregateBinaryExpr in
  pkg/proxystorage/proxy.go): every server group filters its partial result, and the node that is left aggregates what
  came back without comparing again. */
module ComparisonPushdown {
  import opened Options
  import opened Labels
  import opened PromQL
  import opened Pushdown
  import opened TopK

  // ----- A selection's values do not depend on how ties are broken -----

  predicate Beats(top: bool, strict: bool, x: real, r: real) {
    if top then (if strict then x > r else x >= r) else (if strict then x < r else x <= r)
  }

  function Counter(top: bool, strict: bool, r: real): Element -> Option<()> {
    (x: Element) => if Beats(top, strict, x.value, r) then Some(()) else None
  }

  /** How many elements beat `r`. */
  function Num(s: Vector, top: bool, strict: bool, r: real): nat {
    |Collect(s, Counter(top, strict, r))|
  }

  function ValueOf(): Element -> Option<real> {
    (x: Element) => Some(x.value)
  }

  function Values(s: Vector): seq<real> {
    Collect(s, ValueOf())
  }

  lemma {:induction false} CollectBounds<T>(s: Vector, h: Element -> Option<T>)
    ensures |Collect(s, h)| <= |s|
    ensures (forall i :: 0 <= i < |s| ==> h(s[i]).Some?) ==> |Collect(s, h)| == |s|
    ensures (forall i :: 0 <= i < |s| ==> h(s[i]).None?) ==> |Collect(s, h)| == 0
    decreases |s|
  {
    if s != [] {
      CollectBounds(s[..|s|-1], h);
    }
  }

  lemma {:induction false} ValueCount(s: Vector, top: bool, r: real)
    ensures multiset(Values(s))[r] == Num(s, top, false, r) - Num(s, top, true, r)
    decreases |s|
  {
    if s != [] {
      ValueCount(s[..|s|-1], top, r);
    }
  }

  /** A collector that, like "beats r" or "passes the filter", picks nothing worse than it leaves. */
  ghost predicate PicksTop<T>(h: Element -> Option<T>, out: Vector, rest: Vector) {
    forall i, j :: 0 <= i < |out| && 0 <= j < |rest| && h(rest[j]).Some? ==> h(out[i]).Some?
  }

  /** What such a collector finds in a selection is what it finds in all candidates, up to k. */
  lemma CollectedLimit<T>(out: Vector, rest: Vector, all: Vector, k: int, h: Element -> Option<T>)
    requires multiset(all) == multiset(out + rest) && |all| == |out| + |rest| && |out| == Limit(k, |all|)
    requires PicksTop(h, out, rest)
    ensures |Collect(out, h)| == Limit(k, |Collect(all, h)|)
    ensures multiset(Collect(all, h)) == multiset(Collect(out, h) + Collect(rest, h))
  {
    hide Collect;
    CollectedParts(out, rest, all, h);
    CollectBounds(out, h);
    CollectBounds(rest, h);
    if j :| 0 <= j < |rest| && h(rest[j]).Some? {
      assert forall i :: 0 <= i < |out| ==> h(out[i]).Some?;
    } else {
      assert forall j :: 0 <= j < |rest| ==> h(rest[j]).None?;
    }
  }

  lemma CollectedParts<T>(out: Vector, rest: Vector, all: Vector, h: Element -> Option<T>)
    requires multiset(all) == multiset(out + rest)
    ensures |Collect(all, h)| == |Collect(out, h)| + |Collect(rest, h)|
    ensures multiset(Collect(all, h)) == multiset(Collect(out, h) + Collect(rest, h))
  {
    hide Collect;
    CollectPerm(all, out + rest, h);
    CollectConcat(out, rest, h);
    assert |multiset(Collect(all, h))| == |multiset(Collect(out + rest, h))|;
  }

  lemma BestCounts(out: Vector, all: Vector, k: int, top: bool, strict: bool, r: real)
    requires Best(multiset(out), multiset(all), k, top)
    ensures Num(out, top, strict, r) == Limit(k, Num(all, top, strict, r))
  {
    var rest := Leftover(out, all);
    BestParts(out, rest, all, k, top);
    hide Best, Collect;
    CollectedLimit(out, rest, all, k, Counter(top, strict, r));
  }

  /** Any two selections of the k best hold the same values. */
  lemma SelectionValues(o1: Vector, o2: Vector, all: Vector, k: int, top: bool)
    requires Best(multiset(o1), multiset(all), k, top) && Best(multiset(o2), multiset(all), k, top)
    ensures multiset(Values(o1)) == multiset(Values(o2))
  {
    forall r ensures multiset(Values(o1))[r] == multiset(Values(o2))[r] {
      hide Best, Collect;
      ValueCount(o1, top, r);
      ValueCount(o2, top, r);
      BestCounts(o1, all, k, top, true, r);
      BestCounts(o2, all, k, top, true, r);
      BestCounts(o1, all, k, top, false, r);
      BestCounts(o2, all, k, top, false, r);
    }
  }

  // ----- Filtered selections -----

  /** The comparisons that never drop an element better than one they keep. */
  predicate PushesSelection(f: Filter, top: bool) {
    f.Always? || (top && (f.Above? || f.AtLeast?)) || (!top && (f.Below? || f.AtMost?))
  }

  function Passing(f: Filter): Element -> Option<Element> {
    (x: Element) => if Passes(f, x.value) then Some(x) else None
  }

  function FilterVector(f: Filter, v: Vector): Vector {
    Collect(v, Passing(f))
  }

  /** Filtering a selection selects from the filtered candidates. */
  lemma FilterBest(out: Vector, all: Vector, k: int, top: bool, f: Filter)
    requires Best(multiset(out), multiset(all), k, top) && PushesSelection(f, top)
    ensures Best(multiset(FilterVector(f, out)), multiset(FilterVector(f, all)), k, top)
  {
    var rest := Leftover(out, all);
    BestParts(out, rest, all, k, top);
    hide Best, Collect, NoWorse, FilterVector, PushesSelection;
    FilterParts(out, rest, all, k, top, f);
    FilterNoWorse(out, rest, top, f);
    BestOfParts(FilterVector(f, out), FilterVector(f, rest), FilterVector(f, all), k, top);
  }

  lemma FilterParts(out: Vector, rest: Vector, all: Vector, k: int, top: bool, f: Filter)
    requires multiset(all) == multiset(out + rest) && |all| == |out| + |rest| && |out| == Limit(k, |all|)
    requires forall i, j :: 0 <= i < |out| && 0 <= j < |rest| ==> NoWorse(top, out[i].value, rest[j].value)
    requires PushesSelection(f, top)
    ensures |FilterVector(f, out)| == Limit(k, |FilterVector(f, all)|)
    ensures multiset(FilterVector(f, all)) == multiset(FilterVector(f, out) + FilterVector(f, rest))
  {
    hide Collect, Limit;
    assert PicksTop(Passing(f), out, rest);
    CollectedLimit(out, rest, all, k, Passing(f));
  }

  lemma FilterNoWorse(out: Vector, rest: Vector, top: bool, f: Filter)
    requires forall i, j :: 0 <= i < |out| && 0 <= j < |rest| ==> NoWorse(top, out[i].value, rest[j].value)
    ensures var fo, fr := FilterVector(f, out), FilterVector(f, rest);
            forall i, j :: 0 <= i < |fo| && 0 <= j < |fr| ==> NoWorse(top, fo[i].value, fr[j].value)
  {
    hide FilterVector, NoWorse;
    var fo, fr := FilterVector(f, out), FilterVector(f, rest);
    FilterFrom(f, out);
    FilterFrom(f, rest);
    forall i, j | 0 <= i < |fo| && 0 <= j < |fr| ensures NoWorse(top, fo[i].value, fr[j].value) {
      PickBoth(out, rest, top, fo[i], fr[j]);
    }
  }

  lemma FilterFrom(f: Filter, v: Vector)
    ensures forall i :: 0 <= i < |FilterVector(f, v)| ==> FilterVector(f, v)[i] in v
  {
    var fv := FilterVector(f, v);
    CollectMembers(v, Passing(f));
    forall i | 0 <= i < |fv| ensures fv[i] in v {
      assert fv[i] in Collect(v, Passing(f));
      var j :| 0 <= j < |v| && Passing(f)(v[j]) == Some(fv[i]);
    }
  }

  lemma {:induction false} FilterMembers(g: Grouping, f: Filter, v: Vector, keys: set<Labels>)
    ensures Members(g, FilterVector(f, v), keys) == FilterVector(f, Members(g, v, keys))
    decreases |v|
  {
    if v != [] {
      var init, last := v[..|v|-1], v[|v|-1];
      FilterMembers(g, f, init, keys);
      CollectOne(Members(g, init, keys), last, Passing(f));
      var fi := FilterVector(f, init);
      assert (fi + [last])[..|fi|] == fi;
    }
  }

  lemma FilterSelects(p: Vector, v: Vector, k: int, top: bool, g: Grouping, f: Filter)
    requires Selects(p, v, k, top, g) && PushesSelection(f, top)
    ensures Selects(FilterVector(f, p), FilterVector(f, v), k, top, g)
  {
    var fp, fv := FilterVector(f, p), FilterVector(f, v);
    forall key ensures Best(multiset(Members(g, fp, {key})), multiset(Members(g, fv, {key})), k, top) {
      hide Best, Collect, Members;
      FilterMembers(g, f, p, {key});
      FilterMembers(g, f, v, {key});
      assert Best(multiset(Members(g, p, {key})), multiset(Members(g, v, {key})), k, top);
      FilterBest(Members(g, p, {key}), Members(g, v, {key}), k, top, f);
    }
  }

  lemma {:induction false} FilterLabel(f: Filter, v: Vector, added: Labels)
    ensures FilterVector(f, LabelAll(v, added)) == LabelAll(FilterVector(f, v), added)
    decreases |v|
  {
    hide Labelled;
    if v != [] {
      var init, last := v[..|v|-1], v[|v|-1];
      FilterLabel(f, init, added);
      assert LabelAll(v, added)[..|v|-1] == LabelAll(init, added);
      assert LabelAll(v, added)[|v|-1] == LabelElement(last, added);
      var fi := FilterVector(f, init);
      assert LabelAll(fi + [last], added) == LabelAll(fi, added) + [LabelElement(last, added)];
    }
  }

  function FilterEach(f: Filter, vs: seq<Vector>): seq<Vector> {
    seq(|vs|, i requires 0 <= i < |vs| => FilterVector(f, vs[i]))
  }

  lemma {:induction false} FilterGather(f: Filter, vs: seq<Vector>, added: seq<Labels>)
    requires |vs| == |added|
    ensures FilterVector(f, Gather(vs, added)) == Gather(FilterEach(f, vs), added)
    decreases |vs|
  {
    if vs != [] {
      var n := |vs| - 1;
      FilterGather(f, vs[..n], added[..n]);
      FilterLabel(f, vs[n], added[n]);
      assert FilterEach(f, vs)[..n] == FilterEach(f, vs[..n]);
      CollectConcat(Gather(vs[..n], added[..n]), LabelAll(vs[n], added[n]), Passing(f));
    }
  }

  /** topk with > or >=, and bottomk with < or <=: selecting again from the filtered partial selections gives, in every
    group, the values that filtering one global selection gives. */
  lemma FilteredSelectionPreserved(g: Grouping, vs: seq<Vector>, ps: seq<Vector>, added: seq<Labels>, f: Filter,
                                   out: Vector, whole: Vector, k: int, top: bool, key: Labels)
    requires |vs| == |ps| == |added| && PushesSelection(f, top)
    requires forall i :: 0 <= i < |vs| ==> Selects(ps[i], vs[i], k, top, g)
    requires Selects(out, Gather(FilterEach(f, ps), added), k, top, g)
    requires Selects(whole, Gather(vs, added), k, top, g)
    ensures multiset(Values(Members(g, out, {key}))) == multiset(Values(Members(g, FilterVector(f, whole), {key})))
  {
    hide Gather, Collect, Members;
    forall i | 0 <= i < |vs| ensures Selects(FilterEach(f, ps)[i], FilterEach(f, vs)[i], k, top, g) {
      FilterSelects(ps[i], vs[i], k, top, g, f);
    }
    SelectionPreserved(g, FilterEach(f, vs), FilterEach(f, ps), added, out, k, top);
    FilterGather(f, vs, added);
    FilterSelects(whole, Gather(vs, added), k, top, g, f);
    var all := Members(g, Gather(FilterEach(f, vs), added), {key});
    assert Best(multiset(Members(g, out, {key})), multiset(all), k, top);
    assert Best(multiset(Members(g, FilterVector(f, whole), {key})), multiset(all), k, top);
    SelectionValues(Members(g, out, {key}), Members(g, FilterVector(f, whole), {key}), all, k, top);
  }

  // ----- Exactly which comparisons may be pushed under max and min -----

  /** Pushing `f` down under `op` gives the right answer for these server groups and partial results. */
  ghost predicate Agrees(op: Op, f: Filter, g: Grouping, vs: seq<Vector>, ps: seq<Vector>, added: seq<Labels>) {
    |vs| == |ps| == |added| && (forall i :: 0 <= i < |vs| ==> Lists(ps[i], Aggregate(op, f, g, vs[i]))) ==>
      Aggregate(Again(op), Always, g, Gather(ps, added)) == Aggregate(op, f, g, Gather(vs, added))
  }

  /** For max and min, a comparison with a literal may be pushed down exactly when it cuts in the aggregate's own
    direction; for every other comparison two servers with one series each already give a wrong answer. */
  lemma ComparisonExact(op: Op, f: Filter)
    requires op.Max? || op.Min?
    ensures PushesDown(op, f) <==>
            forall g: Grouping, vs: seq<Vector>, ps: seq<Vector>, added: seq<Labels> :: Agrees(op, f, g, vs, ps, added)
  {
    if PushesDown(op, f) {
      forall g: Grouping, vs: seq<Vector>, ps: seq<Vector>, added: seq<Labels> ensures Agrees(op, f, g, vs, ps, added) {
        hide Lists, Aggregate, Gather;
        if |vs| == |ps| == |added| && (forall i :: 0 <= i < |vs| ==> Lists(ps[i], Aggregate(op, f, g, vs[i]))) {
          PushdownPreserves(op, f, g, vs, ps, added);
        }
      }
    } else {
      hide Agrees;
      var vs, ps, added := Disagrees(op, f);
    }
  }

  /** A value that passes, and one that overrides it and does not. */
  function Spoiler(op: Op, f: Filter): (real, real) {
    match f
    case Always => (0.0, 0.0)
    case Above(c) => (c + 1.0, c)
    case AtLeast(c) => (c, c - 1.0)
    case Below(c) => (c - 1.0, c)
    case AtMost(c) => (c, c + 1.0)
    case Equals(c) => if op.Max? then (c, c + 1.0) else (c, c - 1.0)
    case Differs(c) => if op.Max? then (c - 1.0, c) else (c + 1.0, c)
  }

  lemma SpoilerWorks(op: Op, f: Filter)
    requires (op.Max? || op.Min?) && !PushesDown(op, f)
    ensures var (x, y) := Spoiler(op, f);
            Passes(f, x) && !Passes(f, y) && Merge(op, Some(x), Some(y)) == Some(y)
  {
  }

  /** Two servers, one series each, and `op by () (..)`. */
  lemma Disagrees(op: Op, f: Filter) returns (vs: seq<Vector>, ps: seq<Vector>, added: seq<Labels>)
    requires (op.Max? || op.Min?) && !PushesDown(op, f)
    ensures !Agrees(op, f, By({}), vs, ps, added)
  {
    hide Aggregate, Gather, Labelled, Lists, Fold, ValuesIn;
    var (x, y) := Spoiler(op, f);
    SpoilerWorks(op, f);
    var none: Labels, l1: Labels, l2: Labels := map[], map["sg" := "1"], map["sg" := "2"];
    var g := By({});
    var ex, ey := Element(none, x), Element(none, y);
    vs, ps, added := [[ex], [ey]], [[ex], []], [l1, l2];
    assert Key(g, none) == none && forall ls :: Key(g, ls) == none;
    SingletonLists(op, f, g, none, x);
    SingletonLists(op, f, g, none, y);
    TwoGathered([ex], [ey], l1, l2);
    TwoGathered([ex], [], l1, l2);
    LabelOne(ex, l1);
    LabelOne(ey, l2);
    var gv, gp := Gather(vs, added), Gather(ps, added);
    assert gp == [LabelElement(ex, l1)] && gv == [LabelElement(ex, l1)] + [LabelElement(ey, l2)];
    assert forall i :: 0 <= i < |vs| ==> Lists(ps[i], Aggregate(op, f, g, vs[i]));
    OverridingPair(op, f, g, LabelElement(ex, l1), LabelElement(ey, l2), none);
  }

  lemma OverridingPair(op: Op, f: Filter, g: Grouping, a: Element, b: Element, key: Labels)
    requires (op.Max? || op.Min?) && Key(g, a.labels) == key && Key(g, b.labels) == key
    requires Merge(op, Some(a.value), Some(b.value)) == Some(b.value) && !Passes(f, b.value)
    ensures key in Aggregate(Again(op), Always, g, [a])
    ensures key !in Aggregate(op, f, g, [a] + [b])
  {
    hide Aggregate, ValuesIn, Fold, Key;
    SingleResult(op, g, a.labels, a.value, key);
    SingleResult(op, g, b.labels, b.value, key);
    ValuesConcat(g, [a], [b], {key});
    FoldConcat(op, [a.value], [b.value]);
    ResultKeys(Again(op), Always, g, [a]);
    ResultKeys(op, f, g, [a] + [b]);
  }

  lemma SingleResult(op: Op, g: Grouping, ls: Labels, x: real, key: Labels)
    ensures ValuesIn(g, [Element(ls, x)], {key}) == if Key(g, ls) == key then [x] else []
    ensures Fold(op, [x]) == Some(Lift(op, x)) && Fold(op, []) == None
  {
    var v := [Element(ls, x)];
    assert v[..0] == [] && v[0] == Element(ls, x);
    SingleFold(op, x);
  }

  /** A group of one series that is its own group. */
  lemma SingletonLists(op: Op, f: Filter, g: Grouping, ls: Labels, x: real)
    requires (op.Max? || op.Min?) && Key(g, ls) == ls
    ensures Lists(if Passes(f, x) then [Element(ls, x)] else [], Aggregate(op, f, g, [Element(ls, x)]))
  {
    var v := [Element(ls, x)];
    ResultKeys(op, f, g, v);
    forall key ensures GroupResult(op, f, g, v, key) == if key == ls && Passes(f, x) then Some(x) else None {
      SingleResult(op, g, ls, x, key);
    }
    var m := Aggregate(op, f, g, v);
    hide Fold, ValuesIn, Key;
    assert forall key :: key in m <==> key == ls && Passes(f, x);
  }

  lemma TwoGathered(v: Vector, w: Vector, l1: Labels, l2: Labels)
    ensures Gather([v, w], [l1, l2]) == LabelAll(v, l1) + LabelAll(w, l2)
  {
    assert [v, w][..1] == [v] && [l1, l2][..1] == [l1] && [v][..0] == [] && [l1][..0] == [];
    assert Gather([v], [l1]) == [] + LabelAll(v, l1);
  }

  lemma LabelOne(x: Element, added: Labels)
    ensures LabelAll([x], added) == [LabelElement(x, added)] && LabelAll([], added) == []
  {
  }

  // ----- Exactly which comparisons may be pushed under topk and bottomk -----

  /** Pushing `f` down under a selection gives the right values in group `key`, for these server groups and whatever
    selections the servers and promxy make. */
  ghost predicate SelectsRight(f: Filter, k: int, top: bool, g: Grouping, vs: seq<Vector>, ps: seq<Vector>,
                               added: seq<Labels>, out: Vector, whole: Vector, key: Labels)
  {
    && |vs| == |ps| == |added|
    && (forall i :: 0 <= i < |vs| ==> Selects(ps[i], vs[i], k, top, g))
    && Selects(out, Gather(FilterEach(f, ps), added), k, top, g)
    && Selects(whole, Gather(vs, added), k, top, g)
    ==> multiset(Values(Members(g, out, {key}))) == multiset(Values(Members(g, FilterVector(f, whole), {key})))
  }

  /** For topk and bottomk of any size, a comparison may be pushed down exactly when it cuts in the selection's own
    direction. */
  lemma SelectionExact(f: Filter, k: int, top: bool)
    requires k >= 1
    ensures PushesSelection(f, top) <==>
            forall g: Grouping, vs: seq<Vector>, ps: seq<Vector>, added: seq<Labels>,
                   out: Vector, whole: Vector, key: Labels ::
              SelectsRight(f, k, top, g, vs, ps, added, out, whole, key)
  {
    if PushesSelection(f, top) {
      forall g: Grouping, vs: seq<Vector>, ps: seq<Vector>, added: seq<Labels>, out: Vector, whole: Vector, key: Labels
        ensures SelectsRight(f, k, top, g, vs, ps, added, out, whole, key)
      {
        hide Selects, Gather, Members, Collect;
        if && |vs| == |ps| == |added|
           && (forall i :: 0 <= i < |vs| ==> Selects(ps[i], vs[i], k, top, g))
           && Selects(out, Gather(FilterEach(f, ps), added), k, top, g)
           && Selects(whole, Gather(vs, added), k, top, g)
        {
          FilteredSelectionPreserved(g, vs, ps, added, f, out, whole, k, top, key);
        }
      }
    } else {
      hide SelectsRight;
      var vs, added, out, whole := SelectsWrong(f, k, top);
    }
  }

  /** `n` series of the same value. */
  function Copies(n: nat, x: real): Vector {
    if n == 0 then [] else Copies(n - 1, x) + [Element(map["instance" := Unary(n)], x)]
  }

  function Unary(n: nat): string {
    if n == 0 then "" else Unary(n - 1) + "i"
  }

  lemma {:induction false} CopiesValue(n: nat, x: real)
    ensures |Copies(n, x)| == n && forall i :: 0 <= i < n ==> Copies(n, x)[i].value == x
  {
    if n > 0 {
      CopiesValue(n - 1, x);
    }
  }

  /** Under `by ()` everything is in the one group. */
  lemma {:induction false} OneGroup(v: Vector, key: Labels)
    ensures Members(By({}), v, {key}) == if key == map[] then v else []
    decreases |v|
  {
    if v != [] {
      OneGroup(v[..|v|-1], key);
      assert Key(By({}), v[|v|-1].labels) == map[];
    }
  }

  lemma SelectsOneGroup(out: Vector, v: Vector, k: int, top: bool)
    requires Best(multiset(out), multiset(v), k, top)
    ensures Selects(out, v, k, top, By({}))
  {
    forall key ensures Best(multiset(Members(By({}), out, {key})), multiset(Members(By({}), v, {key})), k, top) {
      OneGroup(out, key);
      OneGroup(v, key);
    }
  }

  lemma {:induction false} FilterUniform(f: Filter, v: Vector, x: real)
    requires forall i :: 0 <= i < |v| ==> v[i].value == x
    ensures FilterVector(f, v) == if Passes(f, x) then v else []
    decreases |v|
  {
    if v != [] {
      FilterUniform(f, v[..|v|-1], x);
    }
  }

  /** Two servers and `by ()`: one holds k series of a value that beats the comparison, the other one series that passes
    it. The global selection has only the former and the comparison drops them; pushed down, the latter gets through. */
  lemma SelectsWrong(f: Filter, k: int, top: bool)
    returns (vs: seq<Vector>, added: seq<Labels>, out: Vector, whole: Vector)
    requires k >= 1 && !PushesSelection(f, top)
    ensures !SelectsRight(f, k, top, By({}), vs, vs, added, out, whole, map[])
  {
    var op := if top then Max else Min;
    var (x, y) := Spoiler(op, f);
    SpoilerWorks(op, f);
    var ex, ys := Element(map[], x), Copies(k, y);
    CopiesValue(k, y);
    assert Passes(f, x) && !Passes(f, y) && NoWorse(top, y, x);
    vs, added := [ys, [ex]], [map["sg" := "1"], map["sg" := "2"]];
    hide *;
    whole, out := CrowdedOut(f, k, top, ys, ex, y, added[0], added[1]);
  }

  lemma CrowdedOut(f: Filter, k: int, top: bool, ys: Vector, ex: Element, y: real, l1: Labels, l2: Labels)
    returns (whole: Vector, out: Vector)
    requires k >= 1 && |ys| == k && forall i :: 0 <= i < |ys| ==> ys[i].value == y
    requires Passes(f, ex.value) && !Passes(f, y) && NoWorse(top, y, ex.value)
    ensures !SelectsRight(f, k, top, By({}), [ys, [ex]], [ys, [ex]], [l1, l2], out, whole, map[])
  {
    hide Gather, Labelled, Collect, Members, Selects, Best, Passes, NoWorse;
    var vs, added := [ys, [ex]], [l1, l2];
    whole, out := LabelAll(ys, l1), LabelAll([ex], l2);
    TwoGathered(ys, [ex], l1, l2);
    FilterUniform(f, ys, y);
    FilterUniform(f, [ex], ex.value);
    assert FilterEach(f, vs) == [[], [ex]];
    TwoGathered([], [ex], l1, l2);
    LabelOne(ex, l1);
    SelectsWhole(ys, k, top);
    SelectsWhole([ex], k, top);
    SelectsWhole(out, k, top);
    SelectsBetter(whole, out, k, top);
    FilterUniform(f, whole, y);
    OneGroup(out, map[]);
    OneGroup([], map[]);
    assert [] + out == out;
    DifferentSizes(out, []);
  }

  lemma DifferentSizes(v: Vector, w: Vector)
    requires |v| != |w|
    ensures multiset(Values(v)) != multiset(Values(w))
  {
    hide Collect;
    ValuesSize(v);
    ValuesSize(w);
    assert |multiset(Values(v))| == |v| && |multiset(Values(w))| == |w|;
  }

  lemma ValuesSize(v: Vector)
    ensures |Values(v)| == |v|
  {
    CollectBounds(v, ValueOf());
  }

  lemma SelectsWhole(v: Vector, k: int, top: bool)
    requires |v| <= k
    ensures Selects(v, v, k, top, By({}))
  {
    SelectsOneGroup(v, v, k, top);
  }

  lemma SelectsBetter(ys: Vector, xs: Vector, k: int, top: bool)
    requires |ys| == k && forall i, j :: 0 <= i < |ys| && 0 <= j < |xs| ==> NoWorse(top, ys[i].value, xs[j].value)
    ensures Selects(ys, ys + xs, k, top, By({}))
  {
    BestOfParts(ys, xs, ys + xs, k, top);
    SelectsOneGroup(ys, ys + xs, k, top);
  }

  // ----- Operators under which no comparison may be pushed -----

  lemma ResultsDiffer(op1: Op, f1: Filter, v1: Vector, op2: Op, f2: Filter, v2: Vector, g: Grouping, key: Labels)
    requires GroupResult(op1, f1, g, v1, key) != GroupResult(op2, f2, g, v2, key)
    ensures Aggregate(op1, f1, g, v1) != Aggregate(op2, f2, g, v2)
  {
    hide Fold, ValuesIn, Keys;
    ResultKeys(op1, f1, g, v1);
    ResultKeys(op2, f2, g, v2);
    var a, b := Aggregate(op1, f1, g, v1), Aggregate(op2, f2, g, v2);
    if key in a && key in b {
      assert a[key] != b[key];
    }
  }

  /** The values of one series, or of none. */
  function Kept(ls: Labels, a: Option<real>): Vector {
    if a.Some? then [Element(ls, a.value)] else []
  }

  lemma OneListed(op: Op, f: Filter, x: real)
    ensures Lists(Kept(map[], Keep(f, Some(Lift(op, x)))), Aggregate(op, f, By({}), [Element(map[], x)]))
  {
    hide Fold, ValuesIn, Key, Keep, Lift;
    var none: Labels := map[];
    var g, v, a := By({}), [Element(none, x)], Keep(f, Some(Lift(op, x)));
    ResultKeys(op, f, g, v);
    ByNothing(none);
    forall key ensures GroupResult(op, f, g, v, key) == if key == none then a else None {
      SingleResult(op, g, none, x, key);
      KeepNothing(f);
    }
    hide GroupResult;
    ListsKept(none, a, Aggregate(op, f, g, v), op, f, g, v);
  }

  lemma KeepNothing(f: Filter)
    ensures Keep(f, None) == None
  {
  }

  lemma ListsKept(none: Labels, a: Option<real>, m: map<Labels, real>, op: Op, f: Filter, g: Grouping, v: Vector)
    requires m == Aggregate(op, f, g, v)
    requires forall key :: key in m <==> GroupResult(op, f, g, v, key).Some?
    requires forall key :: GroupResult(op, f, g, v, key) == if key == none then a else None
    ensures Lists(Kept(none, a), m)
  {
    hide GroupResult, Keys;
    assert forall key :: key in m <==> key == none && a.Some?;
    if a.Some? {
      assert none in m && m[none] == GroupResult(op, f, g, v, none).value;
      assert Kept(none, a)[0].labels == none;
    }
  }

  lemma ByNothing(ls: Labels)
    ensures Key(By({}), ls) == map[]
  {
  }

  /** One labelled element, aggregated over everything. */
  lemma OneFold(op: Op, x: real, added: Labels)
    ensures Fold(op, ValuesIn(By({}), LabelAll([Element(map[], x)], added), {map[]})) == Some(Lift(op, x))
  {
    hide Labelled, Fold, ValuesIn, Key, Lift;
    LabelOne(Element(map[], x), added);
    var ls := LabelElement(Element(map[], x), added).labels;
    assert LabelElement(Element(map[], x), added) == Element(ls, x);
    ByNothing(ls);
    SingleResult(op, By({}), ls, x, map[]);
  }

  /** What the aggregate left in promxy makes of one labelled partial result. */
  lemma KeptFold(op: Op, a: Option<real>, added: Labels)
    requires !op.Group?
    ensures Fold(Again(op), ValuesIn(By({}), LabelAll(Kept(map[], a), added), {map[]})) == a
  {
    hide Labelled, Fold, ValuesIn, Key;
    if a.Some? {
      OneFold(Again(op), a.value, added);
    } else {
      LabelOne(Element(map[], 0.0), added);
      NothingFold(Again(op));
      EmptyValues(By({}), {map[]});
    }
  }

  lemma EmptyValues(g: Grouping, keys: set<Labels>)
    ensures ValuesIn(g, [], keys) == []
  {
  }

  /** Two servers with one series each go wrong as soon as comparing first and combining afterwards differs from the
    other way round on their two partial results. */
  lemma TwoSeries(op: Op, f: Filter, x: real, y: real) returns (vs: seq<Vector>, ps: seq<Vector>, added: seq<Labels>)
    requires !op.Group?
    requires var a, b := Some(Lift(op, x)), Some(Lift(op, y));
             Merge(op, Keep(f, a), Keep(f, b)) != Keep(f, Merge(op, a, b))
    ensures !Agrees(op, f, By({}), vs, ps, added)
  {
    hide Aggregate, Gather, Fold, ValuesIn, Lists, LabelAll, Kept, Keep, Merge, Lift, Passes;
    var none: Labels, l1: Labels, l2: Labels := map[], map["sg" := "1"], map["sg" := "2"];
    var a, b := Some(Lift(op, x)), Some(Lift(op, y));
    var v1, v2, p1, p2 := [Element(none, x)], [Element(none, y)], Kept(none, Keep(f, a)), Kept(none, Keep(f, b));
    vs, ps, added := [v1, v2], [p1, p2], [l1, l2];
    OneListed(op, f, x);
    OneListed(op, f, y);
    assert forall i :: 0 <= i < |vs| ==> Lists(ps[i], Aggregate(op, f, By({}), vs[i]));
    TwoGathered(v1, v2, l1, l2);
    TwoGathered(p1, p2, l1, l2);
    OneFold(op, x, l1);
    OneFold(op, y, l2);
    KeptFold(op, Keep(f, a), l1);
    KeptFold(op, Keep(f, b), l2);
    Combined(op, LabelAll(v1, l1), LabelAll(v2, l2));
    Combined(Again(op), LabelAll(p1, l1), LabelAll(p2, l2));
    MergeLaws(op, if op.Group? then None else Keep(f, a), if op.Group? then None else Keep(f, b), None);
    KeepAlways(Merge(op, Keep(f, a), Keep(f, b)));
    ResultsDiffer(Again(op), Always, Gather(ps, added), op, f, Gather(vs, added), By({}), none);
  }

  lemma KeepAlways(a: Option<real>)
    ensures Keep(Always, a) == a
  {
  }

  lemma Combined(op: Op, v: Vector, w: Vector)
    ensures Fold(op, ValuesIn(By({}), v + w, {map[]})) ==
            Merge(op, Fold(op, ValuesIn(By({}), v, {map[]})), Fold(op, ValuesIn(By({}), w, {map[]})))
  {
    ValuesConcat(By({}), v, w, {map[]});
    FoldConcat(op, ValuesIn(By({}), v, {map[]}), ValuesIn(By({}), w, {map[]}));
  }

  /** Two partial sums that show it, for any comparison. */
  function SumSpoiler(f: Filter): (real, real) {
    match f
    case Always => (0.0, 0.0)
    case Above(c) => Opposed(c)
    case AtLeast(c) => Opposed(c)
    case Below(c) => (-Opposed(-c).0, -Opposed(-c).1)
    case AtMost(c) => (-Opposed(-c).0, -Opposed(-c).1)
    case Equals(c) => if c == -1.0 then (1.0, -2.0) else (c + 1.0, -1.0)
    case Differs(c) => if c == 0.0 then (1.0, -1.0) else (c, if c == 1.0 then 2.0 else 1.0)
  }

  /** A negative value at or below `c`, and one that lifts the sum above it. */
  function Opposed(c: real): (real, real) {
    var x := if c > 0.0 then -1.0 else c - 1.0;
    (x, (if c > 0.0 then c else -c) + 1.0 - x)
  }

  lemma SumSpoils(f: Filter)
    requires !f.Always?
    ensures var (x, y) := SumSpoiler(f);
            Merge(Sum, Keep(f, Some(x)), Keep(f, Some(y))) != Keep(f, Merge(Sum, Some(x), Some(y)))
  {
  }

  /** Under sum no comparison at all may be pushed down. */
  lemma SumNeverPushes(f: Filter)
    ensures f.Always? <==>
            forall g: Grouping, vs: seq<Vector>, ps: seq<Vector>, added: seq<Labels> :: Agrees(Sum, f, g, vs, ps, added)
  {
    if f.Always? {
      forall g: Grouping, vs: seq<Vector>, ps: seq<Vector>, added: seq<Labels>
        ensures Agrees(Sum, f, g, vs, ps, added)
      {
        hide Lists, Aggregate, Gather;
        if |vs| == |ps| == |added| && (forall i :: 0 <= i < |vs| ==> Lists(ps[i], Aggregate(Sum, f, g, vs[i]))) {
          PushdownPreserves(Sum, f, g, vs, ps, added);
        }
      }
    } else {
      var (x, y) := SumSpoiler(f);
      SumSpoils(f);
      hide Agrees;
      var vs, ps, added := TwoSeries(Sum, f, x, y);
    }
  }

  /** Nor may "more than one" be pushed down under count, where two servers count one series each. */
  lemma CountGoesWrong() returns (vs: seq<Vector>, ps: seq<Vector>, added: seq<Labels>)
    ensures !Agrees(Count, Above(1.0), By({}), vs, ps, added)
  {
    vs, ps, added := TwoSeries(Count, Above(1.0), 0.0, 0.0);
  }
}
