/** topk and bottomk under pushdown (pkg/proxystorage/proxy.go). Which of several equal elements is picked is left open:
  a selection is any that `Best` allows, so the results hold for every way of breaking ties, on every server. */
module TopK {
  import opened Options
  import opened Labels
  import opened PromQL
  import opened Pushdown

  /** In a selection for `top` (or else for bottom), x may be taken before y. */
  predicate NoWorse(top: bool, x: real, y: real) {
    if top then x >= y else x <= y
  }

  function Limit(k: int, n: nat): nat {
    if k <= 0 then 0 else if k < n then k else n
  }

  /** `out` is some choice of the `k` best elements of `all`. */
  ghost predicate Best(out: multiset<Element>, all: multiset<Element>, k: int, top: bool) {
    && out <= all
    && |out| == (if k <= 0 then 0 else if k < |all| then k else |all|)
    && forall x, y :: x in out && y in all - out ==> NoWorse(top, x.value, y.value)
  }

  /** A part of the candidates may first be cut down to its own best: what is best of the rest is best of all. */
  lemma RefillPart(part: multiset<Element>, whole: multiset<Element>, out: multiset<Element>, rest: multiset<Element>,
                   k: int, top: bool)
    requires Best(part, whole, k, top) && Best(out, part + rest, k, top)
    ensures Best(out, whole + rest, k, top)
  {
    var cut := whole - part;
    assert whole == part + cut && whole + rest == part + rest + cut;
    assert |whole| == |part| + |cut|;
    assert |whole + rest| == |part + rest| + |cut|;
    forall x, y | x in out && y in (whole + rest) - out ensures NoWorse(top, x.value, y.value) {
      if y !in (part + rest) - out {
        assert y in cut;
        CutIsBeaten(part, whole, out, rest, k, top, x, y);
      }
    }
  }

  lemma CutIsBeaten(part: multiset<Element>, whole: multiset<Element>, out: multiset<Element>, rest: multiset<Element>,
                    k: int, top: bool, x: Element, y: Element)
    requires Best(part, whole, k, top) && Best(out, part + rest, k, top)
    requires x in out && y in whole - part
    ensures NoWorse(top, x.value, y.value)
  {
    assert |whole| == |part| + |whole - part|;
    assert |part| == k;
    if part <= out {
      assert out == part + (out - part);
      assert |out - part| == 0;
      assert x in part;
    } else {
      var z :| z in part && part[z] > out[z];
      assert z in (part + rest) - out;
    }
  }

  // ----- Rearranging -----

  /** The results of `h` over `s`, in order. */
  function Collect<T>(s: Vector, h: Element -> Option<T>): seq<T> {
    if s == [] then []
    else
      var init := Collect(s[..|s|-1], h);
      match h(s[|s|-1]) case None => init case Some(x) => init + [x]
  }

  lemma {:induction false} CollectConcat<T>(s: Vector, t: Vector, h: Element -> Option<T>)
    ensures Collect(s + t, h) == Collect(s, h) + Collect(t, h)
    decreases |t|
  {
    if t == [] {
      assert s + t == s;
    } else {
      assert (s + t)[..|s + t|-1] == s + t[..|t|-1];
      CollectConcat(s, t[..|t|-1], h);
    }
  }

  function One<T>(h: Element -> Option<T>, x: Element): seq<T> {
    match h(x) case None => [] case Some(y) => [y]
  }

  /** What is collected does not depend on order, as a multiset. */
  lemma {:induction false} CollectPerm<T>(s: Vector, t: Vector, h: Element -> Option<T>)
    requires multiset(s) == multiset(t)
    ensures multiset(Collect(s, h)) == multiset(Collect(t, h))
    decreases |s|
  {
    if s == [] {
      assert |multiset(t)| == 0;
    } else {
      var init, x := s[..|s|-1], s[|s|-1];
      assert s == init + [x];
      assert x in multiset(s);
      var before, after := Around(t, x);
      assert multiset(init) == multiset(s) - multiset{x};
      CollectPerm(init, before + after, h);
      CollectOne(init, x, h);
      CollectConcat(before + [x], after, h);
      CollectOne(before, x, h);
      CollectConcat(before, after, h);
    }
  }

  lemma Around<T>(t: seq<T>, x: T) returns (before: seq<T>, after: seq<T>)
    requires x in multiset(t)
    ensures t == before + [x] + after && multiset(before + after) == multiset(t) - multiset{x}
  {
    var j :| 0 <= j < |t| && t[j] == x;
    before, after := t[..j], t[j+1..];
    assert t == before + [x] + after;
    assert multiset(t) == multiset(before) + multiset{x} + multiset(after);
    assert multiset(before + after) == multiset(before) + multiset(after);
  }

  lemma CollectOne<T>(s: Vector, x: Element, h: Element -> Option<T>)
    ensures Collect(s + [x], h) == Collect(s, h) + One(h, x)
  {
    assert (s + [x])[..|s|] == s;
  }

  lemma {:induction false} CollectMembers<T(!new)>(s: Vector, h: Element -> Option<T>)
    ensures forall y :: y in Collect(s, h) <==> exists i :: 0 <= i < |s| && h(s[i]) == Some(y)
    decreases |s|
  {
    if s != [] {
      var init := s[..|s|-1];
      CollectMembers(init, h);
      forall y | y in Collect(s, h) ensures exists i :: 0 <= i < |s| && h(s[i]) == Some(y) {
        if y in Collect(init, h) {
          var i :| 0 <= i < |init| && h(init[i]) == Some(y);
          assert s[i] == init[i];
        }
      }
      forall i, y | 0 <= i < |s| && h(s[i]) == Some(y) ensures y in Collect(s, h) {
        if i < |init| {
          assert init[i] == s[i];
        }
      }
    }
  }

  /** The elements of a multiset in some order. */
  ghost function Listed(m: multiset<Element>): (s: Vector)
    ensures multiset(s) == m
    decreases |m|
  {
    if m == multiset{} then []
    else
      var x :| x in m;
      Listed(m - multiset{x}) + [x]
  }

  /** Split the candidates into the selection and what was left. */
  lemma Leftover(out: Vector, all: Vector) returns (rest: Vector)
    requires multiset(out) <= multiset(all)
    ensures multiset(all) == multiset(out + rest) && multiset(rest) == multiset(all) - multiset(out)
    ensures |all| == |out| + |rest|
  {
    rest := Listed(multiset(all) - multiset(out));
    assert multiset(out + rest) == multiset(out) + multiset(rest);
    assert |multiset(all)| == |multiset(out + rest)|;
  }

  // ----- Labelling a selection -----

  lemma {:induction false} LabelAsCollect(s: Vector, added: Labels, h: Element -> Option<Element>)
    requires forall x :: h(x) == Some(LabelElement(x, added))
    ensures Collect(s, h) == LabelAll(s, added)
    decreases |s|
  {
    if s != [] {
      LabelAsCollect(s[..|s|-1], added, h);
      assert LabelAll(s, added) == LabelAll(s[..|s|-1], added) + [LabelElement(s[|s|-1], added)];
    }
  }

  /** Labelling changes no value, so a selection stays one. */
  lemma LabelBest(out: Vector, all: Vector, added: Labels, k: int, top: bool)
    requires Best(multiset(out), multiset(all), k, top)
    ensures Best(multiset(LabelAll(out, added)), multiset(LabelAll(all, added)), k, top)
  {
    hide Labelled, Best, Collect;
    BestSub(multiset(out), multiset(all), k, top);
    var rest := Leftover(out, all);
    var h := (x: Element) => Some(LabelElement(x, added));
    CollectPerm(all, out + rest, h);
    CollectConcat(out, rest, h);
    LabelAsCollect(out, added, h);
    LabelAsCollect(all, added, h);
    LabelAsCollect(rest, added, h);
    BestAgain(out, rest, all, LabelAll(out, added), LabelAll(rest, added), LabelAll(all, added), k, top);
  }

  lemma BestSub(out: multiset<Element>, all: multiset<Element>, k: int, top: bool)
    requires Best(out, all, k, top)
    ensures out <= all
  {
  }

  /** A selection judged by values alone. */
  lemma BestAgain(out: Vector, rest: Vector, all: Vector, out': Vector, rest': Vector, all': Vector, k: int, top: bool)
    requires Best(multiset(out), multiset(all), k, top) && multiset(rest) == multiset(all) - multiset(out)
    requires |out| == |out'| && |rest| == |rest'| && |all| == |all'|
    requires forall i :: 0 <= i < |out| ==> out[i].value == out'[i].value
    requires forall i :: 0 <= i < |rest| ==> rest[i].value == rest'[i].value
    requires multiset(all') == multiset(out' + rest')
    ensures Best(multiset(out'), multiset(all'), k, top)
  {
    BestParts(out, rest, all, k, top);
    hide Best;
    forall i, j | 0 <= i < |out'| && 0 <= j < |rest'| ensures NoWorse(top, out'[i].value, rest'[j].value) {
      assert NoWorse(top, out[i].value, rest[j].value);
    }
    BestOfParts(out', rest', all', k, top);
  }

  lemma BestParts(out: Vector, rest: Vector, all: Vector, k: int, top: bool)
    requires Best(multiset(out), multiset(all), k, top) && multiset(rest) == multiset(all) - multiset(out)
    ensures |out| == Limit(k, |all|)
    ensures forall i, j :: 0 <= i < |out| && 0 <= j < |rest| ==> NoWorse(top, out[i].value, rest[j].value)
  {
    forall i, j | 0 <= i < |out| && 0 <= j < |rest| ensures NoWorse(top, out[i].value, rest[j].value) {
      assert out[i] in multiset(out) && rest[j] in multiset(rest);
    }
  }

  lemma BestOfParts(out: Vector, rest: Vector, all: Vector, k: int, top: bool)
    requires multiset(all) == multiset(out + rest) && |out| == Limit(k, |all|)
    requires forall i, j :: 0 <= i < |out| && 0 <= j < |rest| ==> NoWorse(top, out[i].value, rest[j].value)
    ensures Best(multiset(out), multiset(all), k, top)
  {
    var mo, mr, ma := multiset(out), multiset(rest), multiset(all);
    assert ma == mo + mr;
    assert ma - mo == mr;
    forall x, y | x in mo && y in mr ensures NoWorse(top, x.value, y.value) {
      PickBoth(out, rest, top, x, y);
    }
  }

  lemma PickBoth(out: Vector, rest: Vector, top: bool, x: Element, y: Element)
    requires forall i, j :: 0 <= i < |out| && 0 <= j < |rest| ==> NoWorse(top, out[i].value, rest[j].value)
    requires x in out && y in rest
    ensures NoWorse(top, x.value, y.value)
  {
    var i :| 0 <= i < |out| && out[i] == x;
    var j :| 0 <= j < |rest| && rest[j] == y;
  }

  // ----- Groups -----

  /** The elements whose group is in `keys`. */
  function Members(g: Grouping, v: Vector, keys: set<Labels>): Vector {
    if v == [] then []
    else
      var init, last := Members(g, v[..|v|-1], keys), v[|v|-1];
      if Key(g, last.labels) in keys then init + [last] else init
  }

  /** `topk by/without (..) (k, v)`: `out` selects in every group. */
  ghost predicate Selects(out: Vector, v: Vector, k: int, top: bool, g: Grouping) {
    forall key :: Best(multiset(Members(g, out, {key})), multiset(Members(g, v, {key})), k, top)
  }

  lemma {:induction false} MembersConcat(g: Grouping, v: Vector, w: Vector, keys: set<Labels>)
    ensures Members(g, v + w, keys) == Members(g, v, keys) + Members(g, w, keys)
    decreases |w|
  {
    if w == [] {
      assert v + w == v;
    } else {
      assert (v + w)[..|v + w|-1] == v + w[..|w|-1];
      MembersConcat(g, v, w[..|w|-1], keys);
    }
  }

  lemma {:induction false} MembersIn(g: Grouping, v: Vector, keys: set<Labels>)
    ensures forall x :: x in Members(g, v, keys) <==> x in v && Key(g, x.labels) in keys
    decreases |v|
  {
    if v != [] {
      MembersIn(g, v[..|v|-1], keys);
      assert v == v[..|v|-1] + [v[|v|-1]];
    }
  }

  /** Labelled members, group by group. */
  lemma {:induction false} MembersSplit(g: Grouping, v: Vector, keys: set<Labels>, key: Labels, added: Labels)
    requires key !in keys
    ensures multiset(LabelAll(Members(g, v, keys + {key}), added)) ==
            multiset(LabelAll(Members(g, v, keys), added)) + multiset(LabelAll(Members(g, v, {key}), added))
    decreases |v|
  {
    hide Labelled, Key;
    if v != [] {
      var init, last := v[..|v|-1], v[|v|-1];
      MembersSplit(g, init, keys, key, added);
      LabelSnoc(Members(g, init, keys + {key}), last, added);
      LabelSnoc(Members(g, init, keys), last, added);
      LabelSnoc(Members(g, init, {key}), last, added);
    }
  }

  lemma LabelSnoc(v: Vector, x: Element, added: Labels)
    ensures multiset(LabelAll(v + [x], added)) == multiset(LabelAll(v, added)) + multiset{LabelElement(x, added)}
  {
    assert LabelAll(v + [x], added) == LabelAll(v, added) + [LabelElement(x, added)];
  }

  lemma LabelAllSize(v: Vector, added: Labels)
    ensures |LabelAll(v, added)| == |v|
  {
  }

  lemma LabelAllSnoc(v: Vector, x: Element, added: Labels)
    ensures LabelAll(v + [x], added) == LabelAll(v, added) + [LabelElement(x, added)]
  {
    hide Labelled;
  }

  lemma {:induction false} FiberMembers(g: Grouping, v: Vector, added: Labels, key: Labels, fiber: set<Labels>)
    requires forall i :: 0 <= i < |v| ==>
               (Key(g, v[i].labels) in fiber <==> Key(g, Labelled(v[i].labels, added)) == key)
    ensures Members(g, LabelAll(v, added), {key}) == LabelAll(Members(g, v, fiber), added)
    decreases |v|
  {
    hide Labelled, Key, LabelAll;
    if v == [] {
      assert |LabelAll(v, added)| == 0 by { LabelAllSize(v, added); }
      LabelAllSize(Members(g, v, fiber), added);
    } else {
      var n := |v| - 1;
      FiberMembers(g, v[..n], added, key, fiber);
      LabelAllSnoc(v[..n], v[n], added);
      LabelAllSnoc(Members(g, v[..n], fiber), v[n], added);
      assert v == v[..n] + [v[n]];
      var l, init := LabelAll(v, added), LabelAll(v[..n], added);
      assert l[..|l|-1] == init;
    }
  }

  /** A final selection from per-group selections is a selection from the groups themselves. */
  lemma {:induction false} RefillGroups(g: Grouping, v: Vector, p: Vector, keys: set<Labels>, added: Labels,
                                        out: multiset<Element>, rest: multiset<Element>, k: int, top: bool)
    requires Selects(p, v, k, top, g)
    requires Best(out, multiset(LabelAll(Members(g, p, keys), added)) + rest, k, top)
    ensures Best(out, multiset(LabelAll(Members(g, v, keys), added)) + rest, k, top)
    decreases |keys|
  {
    hide Best, Members, Labelled, Key;
    if keys == {} {
      NoMembers(g, v);
      NoMembers(g, p);
    } else {
      var key :| key in keys;
      var others := keys - {key};
      assert others + {key} == keys;
      MembersSplit(g, v, others, key, added);
      MembersSplit(g, p, others, key, added);
      var pOne := multiset(LabelAll(Members(g, p, {key}), added));
      var pOthers := multiset(LabelAll(Members(g, p, others), added));
      var vOne := multiset(LabelAll(Members(g, v, {key}), added));
      var vOthers := multiset(LabelAll(Members(g, v, others), added));
      assert Best(multiset(Members(g, p, {key})), multiset(Members(g, v, {key})), k, top);
      LabelBest(Members(g, p, {key}), Members(g, v, {key}), added, k, top);
      assert pOthers + pOne + rest == pOne + (pOthers + rest);
      RefillPart(pOne, vOne, out, pOthers + rest, k, top);
      assert vOne + (pOthers + rest) == pOthers + (vOne + rest);
      RefillGroups(g, v, p, others, added, out, vOne + rest, k, top);
      assert vOthers + (vOne + rest) == vOthers + vOne + rest;
    }
  }

  lemma {:induction false} NoMembers(g: Grouping, v: Vector)
    ensures Members(g, v, {}) == []
    decreases |v|
  {
    if v != [] {
      NoMembers(g, v[..|v|-1]);
    }
  }

  lemma SelectedKeys(p: Vector, v: Vector, k: int, top: bool, g: Grouping, i: nat)
    requires Selects(p, v, k, top, g) && i < |p|
    ensures Key(g, p[i].labels) in Keys(g, v)
  {
    var key := Key(g, p[i].labels);
    MembersIn(g, p, {key});
    MembersIn(g, v, {key});
    assert p[i] in Members(g, p, {key});
    assert Best(multiset(Members(g, p, {key})), multiset(Members(g, v, {key})), k, top);
    assert p[i] in multiset(Members(g, v, {key}));
  }

  /** One server group's share of a selection. */
  lemma RefillShard(g: Grouping, v: Vector, p: Vector, added: Labels, key: Labels,
                    out: multiset<Element>, rest: multiset<Element>, k: int, top: bool)
    requires Selects(p, v, k, top, g)
    requires Best(out, multiset(Members(g, LabelAll(p, added), {key})) + rest, k, top)
    ensures Best(out, multiset(Members(g, LabelAll(v, added), {key})) + rest, k, top)
  {
    hide Best, Members, Labelled, Key;
    var fiber := Fiber(g, v, added, key);
    forall i | 0 <= i < |v| ensures Key(g, v[i].labels) in fiber <==> Key(g, Labelled(v[i].labels, added)) == key {
      KeyOfLabelled(g, v[i].labels, added);
      assert v[i] in v;
      assert Key(g, v[i].labels) in Keys(g, v);
    }
    forall i | 0 <= i < |p| ensures Key(g, p[i].labels) in fiber <==> Key(g, Labelled(p[i].labels, added)) == key {
      SelectedKeys(p, v, k, top, g, i);
      KeyOfLabelled(g, p[i].labels, added);
    }
    FiberMembers(g, v, added, key, fiber);
    FiberMembers(g, p, added, key, fiber);
    RefillGroups(g, v, p, fiber, added, out, rest, k, top);
  }

  lemma {:induction false} RefillAll(g: Grouping, vs: seq<Vector>, ps: seq<Vector>, added: seq<Labels>, key: Labels,
                                     out: multiset<Element>, rest: multiset<Element>, k: int, top: bool)
    requires |vs| == |ps| == |added|
    requires forall i :: 0 <= i < |vs| ==> Selects(ps[i], vs[i], k, top, g)
    requires Best(out, multiset(Members(g, Gather(ps, added), {key})) + rest, k, top)
    ensures Best(out, multiset(Members(g, Gather(vs, added), {key})) + rest, k, top)
    decreases |vs|
  {
    hide Best, Members, Labelled, Key, Selects;
    if vs != [] {
      var n := |vs| - 1;
      var initP, lastP := Gather(ps[..n], added[..n]), LabelAll(ps[n], added[n]);
      var initV, lastV := Gather(vs[..n], added[..n]), LabelAll(vs[n], added[n]);
      MembersConcat(g, initP, lastP, {key});
      MembersConcat(g, initV, lastV, {key});
      var mp, lp := multiset(Members(g, initP, {key})), multiset(Members(g, lastP, {key}));
      var mv, lv := multiset(Members(g, initV, {key})), multiset(Members(g, lastV, {key}));
      assert mp + lp + rest == lp + (mp + rest);
      RefillShard(g, vs[n], ps[n], added[n], key, out, mp + rest, k, top);
      assert lv + (mp + rest) == mp + (lv + rest);
      RefillAll(g, vs[..n], ps[..n], added[..n], key, out, lv + rest, k, top);
      assert mv + (lv + rest) == mv + lv + rest;
    }
  }

  /** topk and bottomk push down: any selection from the labelled partial selections is a selection from all labelled
    series, so it is a result that a single evaluation could have given. */
  lemma SelectionPreserved(g: Grouping, vs: seq<Vector>, ps: seq<Vector>, added: seq<Labels>, out: Vector, k: int,
                           top: bool)
    requires |vs| == |ps| == |added|
    requires forall i :: 0 <= i < |vs| ==> Selects(ps[i], vs[i], k, top, g)
    requires Selects(out, Gather(ps, added), k, top, g)
    ensures Selects(out, Gather(vs, added), k, top, g)
  {
    hide Best, Members, Gather;
    forall key ensures Best(multiset(Members(g, out, {key})), multiset(Members(g, Gather(vs, added), {key})), k, top) {
      var o := multiset(Members(g, out, {key}));
      var mp, mv := multiset(Members(g, Gather(ps, added), {key})), multiset(Members(g, Gather(vs, added), {key}));
      assert Best(o, mp, k, top);
      assert mp + multiset{} == mp && mv + multiset{} == mv;
      RefillAll(g, vs, ps, added, key, o, multiset{}, k, top);
    }
  }
}
