/** mergeAntiAffinity of pkg/promclient/merge_seriesset.go: the same series from n replicas, folded pairwise.

  A pairwise merge keeps one base whole, but the base of the next merge is whichever side is longer then, so what
  survives of a given replica is not visible from one step. `Represents` is what the whole fold keeps. */
module ReplicaFold {
  import opened Options
  import opened AntiAffinityMerge
  import opened StreamMerge

  /** Some sample of `out` is at most `d` away from time `t`. */
  ghost predicate Within<V>(t: int, out: seq<Sample<V>>, d: int) {
    exists j :: 0 <= j < |out| && -d <= out[j].ts - t <= d
  }

  ghost predicate Covered<V>(s: seq<Sample<V>>, out: seq<Sample<V>>, d: int) {
    forall i :: 0 <= i < |s| ==> Within(s[i].ts, out, d)
  }

  /** Any two samples are at least `m` apart. */
  ghost predicate Spaced<V>(s: seq<Sample<V>>, m: int) {
    forall i, j :: 0 <= i < j < |s| ==> s[j].ts - s[i].ts >= m
  }

  ghost predicate AllSpaced<V>(replicas: seq<seq<Sample<V>>>, m: int) {
    forall i :: 0 <= i < |replicas| ==> Spaced(replicas[i], m)
  }

  /** How far the buffers of the merges can carry a sample in all. */
  function Reach(ws: seq<int>): int {
    if ws == [] then 0 else Reach(ws[..|ws|-1]) + ws[|ws|-1]
  }

  /** No merge with one of these buffers puts samples of its two sides closer than `m`. */
  ghost predicate Allows(ws: seq<int>, m: int) {
    forall i :: 0 <= i < |ws| ==> m <= ws[i] + 1
  }

  /** What the fold of `replicas` guarantees about its output, when its merges used the buffers `ws`. */
  ghost predicate Represents<V(!new)>(out: seq<Sample<V>>, replicas: seq<seq<Sample<V>>>, ws: seq<int>) {
    && Increasing(out)
    && (forall i :: 0 <= i < |replicas| ==> |replicas[i]| <= |out| && Covered(replicas[i], out, Reach(ws)))
    && (forall m :: Allows(ws, m) && AllSpaced(replicas, m) ==> Spaced(out, m))
  }

  lemma ReachSnoc(ws: seq<int>, w: int)
    ensures Reach(ws + [w]) == Reach(ws) + w && Reach([]) == 0
  {
    assert (ws + [w])[..|ws|] == ws;
  }

  lemma {:induction false} ReachNonNegative(ws: seq<int>)
    requires forall i :: 0 <= i < |ws| ==> ws[i] >= 0
    ensures Reach(ws) >= 0
  {
    if ws != [] {
      ReachNonNegative(ws[..|ws|-1]);
    }
  }

  /** With one buffer throughout, n replicas are within n - 1 times the buffer of the output. */
  lemma {:induction false} FixedReach(ws: seq<int>, w: int)
    requires forall i :: 0 <= i < |ws| ==> ws[i] == w
    ensures Reach(ws) == |ws| * w
  {
    if ws != [] {
      FixedReach(ws[..|ws|-1], w);
    }
  }

  /** An increasing stream is no longer than any increasing stream that holds all of it. */
  lemma {:induction false} SubLength<V(!new)>(s: seq<Sample<V>>, out: seq<Sample<V>>)
    requires Increasing(s) && Increasing(out) && forall x :: x in s ==> x in out
    ensures |s| <= |out|
    decreases |s|
  {
    if s != [] {
      var init, last := s[..|s|-1], s[|s|-1];
      assert last in out;
      var j :| 0 <= j < |out| && out[j] == last;
      forall x | x in init ensures x in out[..j] {
        assert x in s;
        var i :| 0 <= i < |out| && out[i] == x;
        assert x.ts < last.ts;
        assert i < j;
        assert out[..j][i] == x;
      }
      SubLength(init, out[..j]);
    }
  }

  /** One merge: nothing ends up further than `w` from the output, and no gap gets narrower than allowed. */
  lemma MergeStep<V(!new)>(out: seq<Sample<V>>, up: seq<Sample<V>>, other: seq<Sample<V>>, w: int)
    requires AntiAffinity(out, up, other, w) && Increasing(up) && Increasing(other) && w >= 0
    ensures |up| <= |out| && Covered(up, out, 0) && Covered(other, out, w)
  {
    SubLength(up, out);
    forall i | 0 <= i < |up| ensures Within(up[i].ts, out, 0) {
      assert up[i] in out;
    }
    forall i | 0 <= i < |other| ensures Within(other[i].ts, out, w) {
      if other[i] in out {
        var j :| 0 <= j < |out| && out[j] == other[i];
      } else {
        var k :| 0 <= k < |up| && !(other[i].ts - up[k].ts > w || up[k].ts - other[i].ts > w);
        assert up[k] in out;
        var j :| 0 <= j < |out| && out[j] == up[k];
      }
    }
  }

  lemma MergeSpaced<V(!new)>(out: seq<Sample<V>>, up: seq<Sample<V>>, other: seq<Sample<V>>, w: int, m: int)
    requires AntiAffinity(out, up, other, w) && Increasing(up) && Increasing(other) && w >= 0
    requires m <= w + 1 && Spaced(up, m) && Spaced(other, m)
    ensures Spaced(out, m)
  {
    forall i, j | 0 <= i < j < |out| ensures out[j].ts - out[i].ts >= m {
      var x, y := out[i], out[j];
      assert x in out && y in out;
      if x in up && y in up {
        SpacedPair(up, x, y, m);
      } else if x in up {
        FarPair(up, x, y.ts, w);
      } else if y in up {
        FarPair(up, y, x.ts, w);
      } else {
        SpacedPair(other, x, y, m);
      }
    }
  }

  lemma SpacedPair<V(!new)>(s: seq<Sample<V>>, x: Sample<V>, y: Sample<V>, m: int)
    requires Increasing(s) && Spaced(s, m) && x in s && y in s && x.ts < y.ts
    ensures y.ts - x.ts >= m
  {
    var i :| 0 <= i < |s| && s[i] == x;
    var j :| 0 <= j < |s| && s[j] == y;
    assert i < j;
  }

  lemma FarPair<V(!new)>(up: seq<Sample<V>>, x: Sample<V>, t: int, w: int)
    requires x in up && Far(t, up, w)
    ensures t - x.ts > w || x.ts - t > w
  {
    var i :| 0 <= i < |up| && up[i] == x;
  }

  /** Being covered composes. */
  lemma CoveredTrans<V(!new)>(s: seq<Sample<V>>, mid: seq<Sample<V>>, out: seq<Sample<V>>, d: int, e: int)
    requires Covered(s, mid, d) && Covered(mid, out, e)
    ensures Covered(s, out, d + e)
  {
    forall i | 0 <= i < |s| ensures Within(s[i].ts, out, d + e) {
      var j :| 0 <= j < |mid| && -d <= mid[j].ts - s[i].ts <= d;
      assert Within(mid[j].ts, out, e);
      var k :| 0 <= k < |out| && -e <= out[k].ts - mid[j].ts <= e;
    }
  }

  lemma CoveredLoosen<V(!new)>(s: seq<Sample<V>>, out: seq<Sample<V>>, d: int, e: int)
    requires Covered(s, out, d) && d <= e
    ensures Covered(s, out, e)
  {
    forall i | 0 <= i < |s| ensures Within(s[i].ts, out, e) {
      assert Within(s[i].ts, out, d);
      var j :| 0 <= j < |out| && -d <= out[j].ts - s[i].ts <= d;
    }
  }

  lemma SameTimesFacts<V(!new)>(up: seq<Sample<V>>, base: seq<Sample<V>>, out: seq<Sample<V>>, m: int)
    requires |up| == |base| && forall k :: 0 <= k < |up| ==> up[k].ts == base[k].ts
    ensures Increasing(base) ==> Increasing(up)
    ensures Spaced(base, m) ==> Spaced(up, m)
    ensures Covered(up, out, 0) ==> Covered(base, out, 0)
  {
    if Covered(up, out, 0) {
      forall i | 0 <= i < |base| ensures Within(base[i].ts, out, 0) {
        assert Within(up[i].ts, out, 0);
      }
    }
  }

  lemma RepresentsOne<V(!new)>(s: seq<Sample<V>>)
    requires Increasing(s)
    ensures Represents(s, [s], [])
  {
    forall i | 0 <= i < |s| ensures Within(s[i].ts, s, 0) {
      assert -0 <= s[i].ts - s[i].ts <= 0;
    }
    forall m | AllSpaced([s], m) ensures Spaced(s, m) {
      assert Spaced([s][0], m);
    }
  }

  /** Folding in one more replica keeps everything the fold guarantees. */
  lemma RepresentsStep<V(!new)>(out: seq<Sample<V>>, replicas: seq<seq<Sample<V>>>, ws: seq<int>, s: seq<Sample<V>>,
                                w: int, up: seq<Sample<V>>, out': seq<Sample<V>>)
    requires Represents(out, replicas, ws) && Increasing(s) && w >= 0 && forall i :: 0 <= i < |ws| ==> ws[i] >= 0
    requires var base := Base(out, s); |up| == |base| && forall k :: 0 <= k < |up| ==> up[k].ts == base[k].ts
    requires AntiAffinity(out', up, Other(out, s), w)
    ensures Represents(out', replicas + [s], ws + [w])
  {
    hide Within, Far, AntiAffinity, Reach;
    var base, other, all := Base(out, s), Other(out, s), replicas + [s];
    SameTimesFacts(up, base, out', 0);
    MergeStep(out', up, other, w);
    CoveredLoosen(base, out', 0, w);
    assert Covered(out, out', w) && Covered(s, out', w);
    ReachSnoc(ws, w);
    ReachNonNegative(ws);
    forall i | 0 <= i < |all| ensures |all[i]| <= |out'| && Covered(all[i], out', Reach(ws + [w])) {
      if i < |replicas| {
        assert all[i] == replicas[i];
        CoveredTrans(replicas[i], out, out', Reach(ws), w);
      } else {
        CoveredLoosen(s, out', w, Reach(ws + [w]));
      }
    }
    forall m | Allows(ws + [w], m) && AllSpaced(all, m) ensures Spaced(out', m) {
      AllowsInit(ws, w, m);
      SpacedInit(replicas, s, m);
      SameTimesFacts(up, base, out', m);
      MergeSpaced(out', up, other, w, m);
    }
    IncreasingOf(out', up, other, w);
  }

  lemma AllowsInit(ws: seq<int>, w: int, m: int)
    requires Allows(ws + [w], m)
    ensures Allows(ws, m) && m <= w + 1
  {
    var all := ws + [w];
    assert all[|ws|] == w;
    assert forall i :: 0 <= i < |ws| ==> all[i] == ws[i];
  }

  lemma SpacedInit<V(!new)>(replicas: seq<seq<Sample<V>>>, s: seq<Sample<V>>, m: int)
    requires AllSpaced(replicas + [s], m)
    ensures AllSpaced(replicas, m) && Spaced(s, m)
  {
    var all := replicas + [s];
    assert Spaced(all[|replicas|], m);
    forall i | 0 <= i < |replicas| ensures Spaced(replicas[i], m) {
      assert all[i] == replicas[i];
    }
  }

  lemma IncreasingOf<V(!new)>(out: seq<Sample<V>>, up: seq<Sample<V>>, other: seq<Sample<V>>, w: int)
    requires AntiAffinity(out, up, other, w)
    ensures Increasing(out)
  {
  }

  function FloatsOf<H>(series: seq<SampleStream<H>>): seq<seq<Sample<real>>> {
    seq(|series|, i requires 0 <= i < |series| => series[i].values)
  }

  function HistogramsOf<H>(series: seq<SampleStream<H>>): seq<seq<Sample<H>>> {
    seq(|series|, i requires 0 <= i < |series| => series[i].histograms)
  }

  /** The buffers of a fold over n replicas: one for each merge, the configured one unless they are estimated. */
  ghost predicate Buffers(ws: seq<int>, n: nat, configured: int, dynamic: bool) {
    |ws| == n - 1 && forall i :: 0 <= i < |ws| ==> ws[i] >= 0 && (!dynamic ==> ws[i] == configured)
  }

  /** The output stands for all replicas, floats and histograms alike. */
  ghost predicate Folded<H(!new)>(out: SampleStream<H>, series: seq<SampleStream<H>>, ws: seq<int>) {
    Represents(out.values, FloatsOf(series), ws) && Represents(out.histograms, HistogramsOf(series), ws)
  }

  /** A left fold of merges: from the first replica on, each further replica is merged into what there is so far, with
    the buffer that these two call for. */
  ghost predicate IsFold<H(!new)>(acc: seq<SampleStream<H>>, series: seq<SampleStream<H>>, ws: seq<int>,
                                  configured: int, dynamic: bool, preferMax: bool)
  {
    && |acc| == |series| == |ws| + 1 && acc[0] == series[0]
    && forall k :: 0 <= k < |ws| ==>
         && ws[k] == Buffer(configured, dynamic, acc[k], series[k+1])
         && StreamMerged(acc[k+1], acc[k], series[k+1], ws[k], preferMax)
  }

  lemma FoldSnoc<H(!new)>(acc: seq<SampleStream<H>>, series: seq<SampleStream<H>>, ws: seq<int>, configured: int,
                          dynamic: bool, preferMax: bool, next: SampleStream<H>, out: SampleStream<H>)
    requires IsFold(acc, series, ws, configured, dynamic, preferMax)
    requires StreamMerged(out, acc[|ws|], next, Buffer(configured, dynamic, acc[|ws|], next), preferMax)
    ensures IsFold(acc + [out], series + [next], ws + [Buffer(configured, dynamic, acc[|ws|], next)],
                   configured, dynamic, preferMax)
  {
    hide StreamMerged, Buffer;
    var acc', series', ws' := acc + [out], series + [next], ws + [Buffer(configured, dynamic, acc[|ws|], next)];
    forall k | 0 <= k < |ws'|
      ensures ws'[k] == Buffer(configured, dynamic, acc'[k], series'[k+1])
      ensures StreamMerged(acc'[k+1], acc'[k], series'[k+1], ws'[k], preferMax)
    {
      if k < |ws| {
        assert acc'[k] == acc[k] && acc'[k+1] == acc[k+1] && series'[k+1] == series[k+1] && ws'[k] == ws[k];
      }
    }
  }

  /** Every sample, or at least every value, comes from some replica. */
  ghost predicate SamplesFrom<V(!new)>(out: seq<Sample<V>>, replicas: seq<seq<Sample<V>>>) {
    forall s :: s in out ==> exists i :: 0 <= i < |replicas| && s in replicas[i]
  }

  ghost predicate ValuesFrom<V(!new)>(out: seq<Sample<V>>, replicas: seq<seq<Sample<V>>>) {
    forall s :: s in out ==> exists i :: 0 <= i < |replicas| && HasValue(replicas[i], s.v)
  }

  ghost predicate Comes<H(!new)>(out: SampleStream<H>, series: seq<SampleStream<H>>, preferMax: bool) {
    && (!preferMax ==> SamplesFrom(out.values, FloatsOf(series)))
    && ValuesFrom(out.values, FloatsOf(series))
    && SamplesFrom(out.histograms, HistogramsOf(series))
  }

  lemma SamplesStep<V(!new)>(out: seq<Sample<V>>, acc: seq<Sample<V>>, s: seq<Sample<V>>, replicas: seq<seq<Sample<V>>>)
    requires SamplesFrom(acc, replicas) && forall x :: x in out ==> x in acc || x in s
    ensures SamplesFrom(out, replicas + [s])
  {
    var all := replicas + [s];
    forall x | x in out ensures exists i :: 0 <= i < |all| && x in all[i] {
      if x in acc {
        var i :| 0 <= i < |replicas| && x in replicas[i];
        assert x in all[i];
      } else {
        assert x in all[|replicas|];
      }
    }
  }

  lemma ValuesStep<V(!new)>(out: seq<Sample<V>>, acc: seq<Sample<V>>, s: seq<Sample<V>>, replicas: seq<seq<Sample<V>>>)
    requires ValuesFrom(acc, replicas) && forall x :: x in out ==> HasValue(acc, x.v) || HasValue(s, x.v)
    ensures ValuesFrom(out, replicas + [s])
  {
    var all := replicas + [s];
    forall x | x in out ensures exists i :: 0 <= i < |all| && HasValue(all[i], x.v) {
      if HasValue(acc, x.v) {
        var j :| 0 <= j < |acc| && acc[j].v == x.v;
        assert acc[j] in acc;
        var i :| 0 <= i < |replicas| && HasValue(replicas[i], acc[j].v);
        assert HasValue(all[i], x.v);
      } else {
        assert HasValue(all[|replicas|], x.v);
      }
    }
  }

  lemma ComesOne<H(!new)>(s: SampleStream<H>, preferMax: bool)
    ensures Comes(s, [s], preferMax)
  {
    assert FloatsOf([s]) == [s.values] && HistogramsOf([s]) == [s.histograms];
    forall x | x in s.values ensures HasValue(FloatsOf([s])[0], x.v) {
      ValueOf(s.values, x);
    }
    assert forall x :: x in s.values ==> x in FloatsOf([s])[0];
    assert forall x :: x in s.histograms ==> x in HistogramsOf([s])[0];
  }

  lemma ComesStep<H(!new)>(out: SampleStream<H>, acc: SampleStream<H>, s: SampleStream<H>, series: seq<SampleStream<H>>,
                           w: int, preferMax: bool)
    requires Comes(acc, series, preferMax) && StreamMerged(out, acc, s, w, preferMax)
    ensures Comes(out, series + [s], preferMax)
  {
    hide SamplesFrom, ValuesFrom, Merged;
    var all := series + [s];
    assert FloatsOf(all) == FloatsOf(series) + [s.values] && HistogramsOf(all) == HistogramsOf(series) + [s.histograms];
    if !preferMax {
      MergedSamples(out.values, acc.values, s.values, w);
      SamplesStep(out.values, acc.values, s.values, FloatsOf(series));
    }
    MergedValues(out.values, acc.values, s.values, w, preferMax);
    ValuesStep(out.values, acc.values, s.values, FloatsOf(series));
    SamplesStep(out.histograms, acc.histograms, s.histograms, HistogramsOf(series));
  }

  /** mergeAntiAffinity: the fold over one series' copies, one from each replica. */
  method MergeReplicas<H(!new)>(fingerprint: Metric -> int, configured: int, dynamic: bool, preferMax: bool,
                                series: seq<SampleStream<H>>)
    returns (merged: Option<SampleStream<H>>)
    requires configured >= 0
    requires forall i :: 0 <= i < |series| ==> WellFormed(series[i]) && series[i].metric == series[0].metric
    ensures merged.None? <==> series == []
    ensures merged.Some? ==> merged.value.metric == series[0].metric
    ensures merged.Some? ==> exists acc, ws ::
              && IsFold(acc, series, ws, configured, dynamic, preferMax) && merged.value == acc[|series|-1]
              && Buffers(ws, |series|, configured, dynamic) && Folded(merged.value, series, ws)
    // The values: samples of the replicas, or with prefer-max at least their values.
    ensures merged.Some? && !preferMax ==>
              forall s :: s in merged.value.values ==> exists i :: 0 <= i < |series| && s in series[i].values
    ensures merged.Some? ==>
              forall s :: s in merged.value.values ==> exists i :: 0 <= i < |series| && HasValue(series[i].values, s.v)
    ensures merged.Some? ==>
              forall s :: s in merged.value.histograms ==> exists i :: 0 <= i < |series| && s in series[i].histograms
  {
    hide State, StreamMerged, Buffer, HasValue, Increasing;
    if |series| == 0 {
      return None;
    }
    var acc := series[0];
    ghost var accs, ws := [acc], [];
    StateStart(acc, configured, dynamic, preferMax);
    assert series[..1] == [acc];
    var k := 1;
    while k < |series|
      invariant 1 <= k <= |series| && acc.metric == series[0].metric && WellFormed(acc)
      invariant State(acc, accs, ws, series[..k], configured, dynamic, preferMax)
    {
      var r := MergeSampleStream(fingerprint, configured, dynamic, acc, series[k], preferMax);
      StateStep(acc, accs, ws, series[..k], configured, dynamic, preferMax, series[k], r.value);
      assert series[..k+1] == series[..k] + [series[k]];
      accs, ws := accs + [r.value], ws + [Buffer(configured, dynamic, acc, series[k])];
      acc := r.value;
      k := k + 1;
    }
    assert series[..k] == series;
    StateEnd(acc, accs, ws, series, configured, dynamic, preferMax);
    return Some(acc);
  }

  /** What the loop keeps: `accs` are the accumulators so far, the last of them `acc`. */
  ghost predicate State<H(!new)>(acc: SampleStream<H>, accs: seq<SampleStream<H>>, ws: seq<int>,
                                 series: seq<SampleStream<H>>, configured: int, dynamic: bool, preferMax: bool)
  {
    && IsFold(accs, series, ws, configured, dynamic, preferMax) && acc == accs[|series|-1]
    && Buffers(ws, |series|, configured, dynamic) && Folded(acc, series, ws) && Comes(acc, series, preferMax)
  }

  lemma StateStart<H(!new)>(acc: SampleStream<H>, configured: int, dynamic: bool, preferMax: bool)
    requires WellFormed(acc)
    ensures State(acc, [acc], [], [acc], configured, dynamic, preferMax)
  {
    hide Represents, Comes, StreamMerged;
    assert FloatsOf([acc]) == [acc.values] && HistogramsOf([acc]) == [acc.histograms];
    RepresentsOne(acc.values);
    RepresentsOne(acc.histograms);
    ComesOne(acc, preferMax);
  }

  lemma StateStep<H(!new)>(acc: SampleStream<H>, accs: seq<SampleStream<H>>, ws: seq<int>, series: seq<SampleStream<H>>,
                           configured: int, dynamic: bool, preferMax: bool, next: SampleStream<H>, out: SampleStream<H>)
    requires State(acc, accs, ws, series, configured, dynamic, preferMax)
    requires configured >= 0 && WellFormed(acc) && WellFormed(next) && acc.metric == next.metric
    requires StreamMerged(out, acc, next, Buffer(configured, dynamic, acc, next), preferMax)
    ensures State(out, accs + [out], ws + [Buffer(configured, dynamic, acc, next)], series + [next],
                  configured, dynamic, preferMax)
    ensures WellFormed(out) && out.metric == acc.metric
  {
    hide Represents, Comes, StreamMerged, Buffer, Increasing;
    var w := Buffer(configured, dynamic, acc, next);
    BufferNonNegative(configured, dynamic, acc, next);
    FixedBuffer(configured, acc, next);
    FoldSnoc(accs, series, ws, configured, dynamic, preferMax, next, out);
    ComesStep(out, acc, next, series, w, preferMax);
    MergedMetric(out, acc, next, w, preferMax);
    var all := series + [next];
    assert FloatsOf(all) == FloatsOf(series) + [next.values] &&
        HistogramsOf(all) == HistogramsOf(series) + [next.histograms];
    FoldStep(acc, next, out, w, preferMax, FloatsOf(series), HistogramsOf(series), ws);
    RepresentsIncreasing(out.values, FloatsOf(all), ws + [w]);
    RepresentsIncreasing(out.histograms, HistogramsOf(all), ws + [w]);
  }

  lemma StateEnd<H(!new)>(acc: SampleStream<H>, accs: seq<SampleStream<H>>, ws: seq<int>, series: seq<SampleStream<H>>,
                          configured: int, dynamic: bool, preferMax: bool)
    requires State(acc, accs, ws, series, configured, dynamic, preferMax)
    ensures IsFold(accs, series, ws, configured, dynamic, preferMax) && acc == accs[|series|-1]
    ensures Buffers(ws, |series|, configured, dynamic) && Folded(acc, series, ws)
    ensures !preferMax ==> forall s :: s in acc.values ==> exists i :: 0 <= i < |series| && s in series[i].values
    ensures forall s :: s in acc.values ==> exists i :: 0 <= i < |series| && HasValue(series[i].values, s.v)
    ensures forall s :: s in acc.histograms ==> exists i :: 0 <= i < |series| && s in series[i].histograms
  {
    hide IsFold, Buffers, Folded;
    ComesFrom(acc, series, preferMax);
  }

  lemma MergedMetric<H(!new)>(out: SampleStream<H>, a: SampleStream<H>, b: SampleStream<H>, w: int, preferMax: bool)
    requires StreamMerged(out, a, b, w, preferMax) && a.metric == b.metric
    ensures out.metric == a.metric
  {
  }

  lemma ComesFrom<H(!new)>(out: SampleStream<H>, series: seq<SampleStream<H>>, preferMax: bool)
    requires Comes(out, series, preferMax)
    ensures !preferMax ==> forall s :: s in out.values ==> exists i :: 0 <= i < |series| && s in series[i].values
    ensures forall s :: s in out.values ==> exists i :: 0 <= i < |series| && HasValue(series[i].values, s.v)
    ensures forall s :: s in out.histograms ==> exists i :: 0 <= i < |series| && s in series[i].histograms
  {
    hide HasValue;
    forall s | s in out.values && !preferMax ensures exists i :: 0 <= i < |series| && s in series[i].values {
      var i :| 0 <= i < |series| && s in FloatsOf(series)[i];
      assert s in series[i].values;
    }
    forall s | s in out.values ensures exists i :: 0 <= i < |series| && HasValue(series[i].values, s.v) {
      var i :| 0 <= i < |series| && HasValue(FloatsOf(series)[i], s.v);
      assert HasValue(series[i].values, s.v);
    }
    forall s | s in out.histograms ensures exists i :: 0 <= i < |series| && s in series[i].histograms {
      var i :| 0 <= i < |series| && s in HistogramsOf(series)[i];
      assert s in series[i].histograms;
    }
  }

  lemma FixedBuffer<H(!new)>(configured: int, a: SampleStream<H>, b: SampleStream<H>)
    ensures Buffer(configured, false, a, b) == configured
  {
  }

  /** With a fixed buffer w: every replica sample is within (n-1)*w of the output, and no gap is below
    min(w + 1, the smallest gap of any replica). */
  lemma FixedBufferFold<H(!new)>(out: SampleStream<H>, series: seq<SampleStream<H>>, ws: seq<int>, w: int, i: nat,
                                 m: int)
    requires Buffers(ws, |series|, w, false) && Folded(out, series, ws) && i < |series|
    ensures Increasing(out.values) && |series[i].values| <= |out.values|
    ensures Increasing(out.histograms) && |series[i].histograms| <= |out.histograms|
    ensures Covered(series[i].values, out.values, (|series| - 1) * w)
    ensures Covered(series[i].histograms, out.histograms, (|series| - 1) * w)
    ensures m <= w + 1 && AllSpaced(FloatsOf(series), m) ==> Spaced(out.values, m)
    ensures m <= w + 1 && AllSpaced(HistogramsOf(series), m) ==> Spaced(out.histograms, m)
  {
    hide Covered, AllSpaced, Spaced, Increasing, Reach;
    FixedReach(ws, w);
    assert FloatsOf(series)[i] == series[i].values && HistogramsOf(series)[i] == series[i].histograms;
    assert m <= w + 1 ==> Allows(ws, m);
  }

  lemma RepresentsIncreasing<V(!new)>(out: seq<Sample<V>>, replicas: seq<seq<Sample<V>>>, ws: seq<int>)
    requires Represents(out, replicas, ws)
    ensures Increasing(out)
  {
  }

  lemma FoldStep<H(!new)>(acc: SampleStream<H>, s: SampleStream<H>, r: SampleStream<H>, w: int, preferMax: bool,
                          floats: seq<seq<Sample<real>>>, histograms: seq<seq<Sample<H>>>, ws: seq<int>)
    requires w >= 0 && WellFormed(s) && forall i :: 0 <= i < |ws| ==> ws[i] >= 0
    requires Represents(acc.values, floats, ws) && Represents(acc.histograms, histograms, ws)
    requires StreamMerged(r, acc, s, w, preferMax)
    ensures Represents(r.values, floats + [s.values], ws + [w])
    ensures Represents(r.histograms, histograms + [s.histograms], ws + [w])
  {
    hide Represents, AntiAffinity, Increasing, StandsForBase;
    var up: seq<Sample<real>> :| StandsForBase(up, acc.values, s.values, w, preferMax) &&
                                 AntiAffinity(r.values, up, Other(acc.values, s.values), w);
    StandInTimes(up, acc.values, s.values, w, preferMax);
    RepresentsStep(acc.values, floats, ws, s.values, w, up, r.values);
    RepresentsStep(acc.histograms, histograms, ws, s.histograms, w, Base(acc.histograms, s.histograms), r.histograms);
  }
}
