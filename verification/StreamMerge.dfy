/** MergeSampleStream of pkg/promhttputil/merge.go as a whole: the per-series buffer estimate, and the float and
  histogram merges that use it. */
module StreamMerge {
  import opened Options
  import opened AntiAffinityMerge
  import opened Sorting

  datatype Result<T> = Ok(value: T) | Err

  type Metric = map<string, string>

  /** One series as a replica returned it. Float and histogram samples are kept apart. */
  datatype SampleStream<H> = SampleStream(metric: Metric, values: seq<Sample<real>>, histograms: seq<Sample<H>>)

  ghost predicate WellFormed<H(!new)>(s: SampleStream<H>) {
    Increasing(s.values) && Increasing(s.histograms)
  }

  // ----- The buffer estimate -----

  const MIN_DYNAMIC_GAPS := 3

  /** The positive deltas between neighbours. */
  function Gaps<V(!new)>(s: seq<Sample<V>>): seq<int> {
    if |s| < 2 then []
    else
      var d := s[|s|-1].ts - s[|s|-2].ts;
      Gaps(s[..|s|-1]) + if d > 0 then [d] else []
  }

  /** One gap for each pair of neighbours, in order. */
  ghost predicate NeighbourGaps<V(!new)>(gaps: seq<int>, s: seq<Sample<V>>) {
    && |gaps| == (if s == [] then 0 else |s| - 1)
    && forall i :: 0 <= i < |gaps| ==> gaps[i] == s[i+1].ts - s[i].ts
  }

  lemma {:induction false} GapsMeaning<V(!new)>(s: seq<Sample<V>>)
    requires Increasing(s)
    ensures NeighbourGaps(Gaps(s), s)
    decreases |s|
  {
    if |s| >= 2 {
      GapsMeaning(s[..|s|-1]);
    }
  }

  /** No other list is made of the gaps between neighbours. */
  lemma NeighbourGapsUnique<V(!new)>(x: seq<int>, y: seq<int>, s: seq<Sample<V>>)
    requires NeighbourGaps(x, s) && NeighbourGaps(y, s)
    ensures x == y
  {
    forall i | 0 <= i < |x| ensures x[i] == y[i] {
      assert x[i] == s[i+1].ts - s[i].ts;
      assert y[i] == s[i+1].ts - s[i].ts;
    }
  }

  /** appendGaps: the loop over neighbouring samples. */
  method AppendGaps<V(!new)>(gaps: seq<int>, s: seq<Sample<V>>) returns (r: seq<int>)
    ensures r == gaps + Gaps(s)
    ensures Increasing(s) && s != [] ==>
              |r| == |gaps| + |s| - 1 && forall i :: 0 <= i < |s| - 1 ==> r[|gaps| + i] == s[i+1].ts - s[i].ts
  {
    if Increasing(s) {
      GapsMeaning(s);
    }
    r := gaps;
    var i := 1;
    while i < |s|
      invariant 1 <= i && (i <= |s| || |s| == 0)
      invariant r == gaps + Gaps(s[..if i <= |s| then i else 0])
    {
      assert s[..i+1][..i] == s[..i];
      var d := s[i].ts - s[i-1].ts;
      if d > 0 {
        r := r + [d];
      }
      i := i + 1;
    }
    assert s[..|s|] == s;
  }

  /** The gaps the estimate looks at: those of `a`, joined by those of `b` when `a` has too few. */
  function PooledGaps<V(!new)>(a: seq<Sample<V>>, b: seq<Sample<V>>): seq<int> {
    if |Gaps(a)| < MIN_DYNAMIC_GAPS then Gaps(a) + Gaps(b) else Gaps(a)
  }

  lemma SortedGaps(gaps: seq<int>)
    ensures Ascending(Sort(gaps, IntLe), IntLe) && multiset(Sort(gaps, IntLe)) == multiset(gaps)
    ensures |Sort(gaps, IntLe)| == |gaps|
  {
    SortSorts(gaps, IntLe);
  }

  /** Half the median gap, or nothing when there are too few gaps to trust. */
  function HalfMedian(gaps: seq<int>): Option<int> {
    if |gaps| < MIN_DYNAMIC_GAPS then None
    else
      SortedGaps(gaps);
      Some(Sort(gaps, IntLe)[|gaps| / 2] / 2)
  }

  /** The same numbers in ascending order. */
  ghost predicate SortedFrom(sorted: seq<int>, gaps: seq<int>) {
    multiset(sorted) == multiset(gaps) && forall i, j :: 0 <= i < j < |sorted| ==> sorted[i] <= sorted[j]
  }

  lemma HalfMedianMeaning(gaps: seq<int>, sorted: seq<int>)
    requires SortedFrom(sorted, gaps)
    ensures |sorted| == |gaps|
    ensures HalfMedian(gaps) == if |gaps| < 3 then None else Some(sorted[|gaps| / 2] / 2)
  {
    hide Sort;
    assert |multiset(sorted)| == |multiset(gaps)|;
    SortedGaps(gaps);
    assert Ascending(sorted, IntLe);
    IntOrder();
    SortedUnique(sorted, Sort(gaps, IntLe), IntLe);
  }

  lemma IntOrder()
    ensures TotalOrder(IntLe)
  {
  }

  /** The estimate from a longer and a shorter side: the gaps between the neighbours of the longer one, joined by
    those of the shorter one when there are fewer than three; their median, halved, unless there are still fewer than
    three. */
  ghost predicate EstimatedFrom<V(!new)>(w: Option<int>, a: seq<Sample<V>>, b: seq<Sample<V>>) {
    forall ga, gb :: NeighbourGaps(ga, a) && NeighbourGaps(gb, b) ==> HalvesMedian(w, if |ga| >= 3 then ga else ga + gb)
  }

  ghost predicate HalvesMedian(w: Option<int>, gaps: seq<int>) {
    && (w.None? <==> |gaps| < 3)
    && forall sorted :: |gaps| >= 3 && SortedFrom(sorted, gaps) ==>
         |sorted| == |gaps| && w == Some(sorted[|gaps| / 2] / 2)
  }

  lemma PooledMeaning<V(!new)>(a: seq<Sample<V>>, b: seq<Sample<V>>)
    requires Increasing(a) && Increasing(b)
    ensures EstimatedFrom(HalfMedian(PooledGaps(a, b)), a, b)
  {
    hide Gaps, Sort;
    GapsMeaning(a);
    GapsMeaning(b);
    forall ga, gb | NeighbourGaps(ga, a) && NeighbourGaps(gb, b)
      ensures HalvesMedian(HalfMedian(PooledGaps(a, b)), if |ga| >= 3 then ga else ga + gb)
    {
      NeighbourGapsUnique(ga, Gaps(a), a);
      NeighbourGapsUnique(gb, Gaps(b), b);
      var pool := if |ga| >= 3 then ga else ga + gb;
      assert pool == PooledGaps(a, b);
      forall sorted | |pool| >= 3 && SortedFrom(sorted, pool)
        ensures |sorted| == |pool| && HalfMedian(pool) == Some(sorted[|pool| / 2] / 2)
      {
        HalfMedianMeaning(pool, sorted);
      }
    }
  }

  /** dynamicAntiAffinityFrom. */
  method DynamicAntiAffinity<V(!new)>(a: seq<Sample<V>>, b: seq<Sample<V>>) returns (w: Option<int>)
    ensures w == HalfMedian(PooledGaps(a, b))
    ensures Increasing(a) && Increasing(b) ==> EstimatedFrom(w, a, b)
  {
    hide Gaps, Sort, HalfMedian, EstimatedFrom;
    if Increasing(a) && Increasing(b) {
      PooledMeaning(a, b);
    }
    TooFewGaps(PooledGaps(a, b));
    var gaps := AppendGaps([], a);
    assert [] + Gaps(a) == Gaps(a);
    if |gaps| < MIN_DYNAMIC_GAPS {
      gaps := AppendGaps(gaps, b);
    }
    if |gaps| < MIN_DYNAMIC_GAPS {
      return None;
    }
    SortedGaps(gaps);
    var sorted := Sort(gaps, IntLe);
    var median := sorted[|sorted| / 2];
    HalfMedianMeaning(gaps, sorted);
    return Some(median / 2);
  }

  lemma TooFewGaps(gaps: seq<int>)
    ensures HalfMedian(gaps).None? <==> |gaps| < 3
  {
  }

  lemma {:induction false} GapsPositive<V(!new)>(s: seq<Sample<V>>)
    ensures forall g :: g in Gaps(s) ==> g > 0
    decreases |s|
  {
    if |s| >= 2 {
      GapsPositive(s[..|s|-1]);
    }
  }

  lemma HalfMedianNonNegative(gaps: seq<int>)
    requires forall g :: g in gaps ==> g > 0
    ensures HalfMedian(gaps).Some? ==> HalfMedian(gaps).value >= 0
  {
    if |gaps| >= MIN_DYNAMIC_GAPS {
      SortedGaps(gaps);
      var sorted := Sort(gaps, IntLe);
      assert sorted[|gaps| / 2] in multiset(sorted);
      assert sorted[|gaps| / 2] in gaps;
      assert HalfMedian(gaps) == Some(sorted[|gaps| / 2] / 2);
    }
  }

  lemma {:induction false} CountAtMost(s: seq<int>, g: int)
    ensures multiset(s)[g] <= |s|
  {
    if s != [] {
      assert s == s[..|s|-1] + [s[|s|-1]];
      CountAtMost(s[..|s|-1], g);
    }
  }

  /** In an ascending sequence every `g` comes after a smaller element and before a larger one. */
  lemma CountBeside(s: seq<int>, g: int, m: nat)
    requires Ascending(s, IntLe) && m < |s|
    ensures s[m] < g ==> multiset(s)[g] <= |s| - m - 1
    ensures s[m] > g ==> multiset(s)[g] <= m
  {
    var upto, from, after := s[..m], s[m..], s[m+1..];
    assert s == upto + from && from == [s[m]] + after;
    CountAtMost(upto, g);
    CountAtMost(after, g);
    if s[m] < g {
      assert g !in upto;
    }
    if s[m] > g {
      assert g !in from;
    }
  }

  /** A strict majority sits in the middle of any ascending sequence. */
  lemma MajorityIsMedian(s: seq<int>, g: int)
    requires Ascending(s, IntLe) && 2 * multiset(s)[g] > |s|
    ensures s != [] && s[|s| / 2] == g
  {
    CountAtMost(s, g);
    CountBeside(s, g, |s| / 2);
  }

  /** If most gaps are `g`, the estimate is `g / 2`, rounded down. */
  lemma MajorityGap(gaps: seq<int>, g: int)
    requires |gaps| >= MIN_DYNAMIC_GAPS && 2 * multiset(gaps)[g] > |gaps|
    ensures HalfMedian(gaps) == Some(g / 2)
  {
    SortedGaps(gaps);
    MajorityIsMedian(Sort(gaps, IntLe), g);
  }

  /** The dynamic estimate of a pair of streams: from the floats, else from the histograms. */
  function DynamicBuffer<H(!new)>(a: SampleStream<H>, b: SampleStream<H>): Option<int> {
    var fromFloats := HalfMedian(PooledGaps(Base(a.values, b.values), Other(a.values, b.values)));
    if fromFloats.Some? then fromFloats
    else HalfMedian(PooledGaps(Base(a.histograms, b.histograms), Other(a.histograms, b.histograms)))
  }

  /** The buffer a merge works with. */
  function Buffer<H(!new)>(configured: int, dynamic: bool, a: SampleStream<H>, b: SampleStream<H>): int {
    if dynamic && DynamicBuffer(a, b).Some? then DynamicBuffer(a, b).value else configured
  }

  /** Without the dynamic mode the configured buffer; with it the estimate from the floats, else from the histograms,
    else the configured buffer. The longer side comes first, on a tie the first. */
  lemma BufferMeaning<H(!new)>(configured: int, dynamic: bool, a: SampleStream<H>, b: SampleStream<H>)
    returns (fromFloats: Option<int>, fromHistograms: Option<int>)
    requires WellFormed(a) && WellFormed(b)
    ensures if |b.values| > |a.values| then EstimatedFrom(fromFloats, b.values, a.values)
            else EstimatedFrom(fromFloats, a.values, b.values)
    ensures if |b.histograms| > |a.histograms| then EstimatedFrom(fromHistograms, b.histograms, a.histograms)
            else EstimatedFrom(fromHistograms, a.histograms, b.histograms)
    ensures Buffer(configured, dynamic, a, b) ==
            if dynamic && fromFloats.Some? then fromFloats.value
            else if dynamic && fromHistograms.Some? then fromHistograms.value
            else configured
  {
    hide HalfMedian, EstimatedFrom, PooledGaps;
    var fa, fb := Base(a.values, b.values), Other(a.values, b.values);
    var ha, hb := Base(a.histograms, b.histograms), Other(a.histograms, b.histograms);
    fromFloats, fromHistograms := HalfMedian(PooledGaps(fa, fb)), HalfMedian(PooledGaps(ha, hb));
    PooledMeaning(fa, fb);
    PooledMeaning(ha, hb);
  }

  lemma BufferNonNegative<H(!new)>(configured: int, dynamic: bool, a: SampleStream<H>, b: SampleStream<H>)
    requires configured >= 0
    ensures Buffer(configured, dynamic, a, b) >= 0
  {
    var fa, fb := Base(a.values, b.values), Other(a.values, b.values);
    var ha, hb := Base(a.histograms, b.histograms), Other(a.histograms, b.histograms);
    GapsPositive(fa);
    GapsPositive(fb);
    HalfMedianNonNegative(PooledGaps(fa, fb));
    GapsPositive(ha);
    GapsPositive(hb);
    HalfMedianNonNegative(PooledGaps(ha, hb));
  }

  /** dynamicBufferForStream: estimate from the floats, anchored on the longer side, else from the histograms. */
  method DynamicBufferForStream<H(!new)>(a: SampleStream<H>, b: SampleStream<H>) returns (w: Option<int>)
    ensures w == DynamicBuffer(a, b)
  {
    var fa, fb := a.values, b.values;
    if |fb| > |fa| {
      fa, fb := fb, fa;
    }
    w := DynamicAntiAffinity(fa, fb);
    if w.Some? {
      return;
    }
    var ha, hb := a.histograms, b.histograms;
    if |hb| > |ha| {
      ha, hb := hb, ha;
    }
    w := DynamicAntiAffinity(ha, hb);
  }

  // ----- The merge of two streams -----

  ghost predicate StreamMerged<H(!new)>(out: SampleStream<H>, a: SampleStream<H>, b: SampleStream<H>, w: int,
                                        preferMax: bool)
  {
    && out.metric == (if |b.values| > |a.values| then b.metric else a.metric)
    && Merged(out.values, a.values, b.values, w, preferMax)
    && if |b.histograms| > |a.histograms| then AntiAffinity(out.histograms, b.histograms, a.histograms, w)
       else AntiAffinity(out.histograms, a.histograms, b.histograms, w)
  }

  /** MergeSampleStream. Fingerprints are compared, not label sets; the hash is a parameter. */
  method MergeSampleStream<H(!new)>(fingerprint: Metric -> int, configured: int, dynamic: bool,
                                    a: SampleStream<H>, b: SampleStream<H>, preferMax: bool)
    returns (r: Result<SampleStream<H>>)
    requires configured >= 0 && WellFormed(a) && WellFormed(b)
    ensures r.Err? <==> fingerprint(a.metric) != fingerprint(b.metric)
    ensures r.Ok? ==> StreamMerged(r.value, a, b, Buffer(configured, dynamic, a, b), preferMax)
  {
    hide Merged, AntiAffinity, Gaps, Sort;
    if fingerprint(a.metric) != fingerprint(b.metric) {
      return Err;
    }
    BufferNonNegative(configured, dynamic, a, b);
    var w := configured;
    if dynamic {
      var dyn := DynamicBufferForStream(a, b);
      if dyn.Some? {
        w := dyn.value;
      }
    }
    var histograms := MergeHistograms(w, a.histograms, b.histograms);
    var values := MergeFloats(w, a.values, b.values, preferMax);
    var metric := if |b.values| > |a.values| then b.metric else a.metric;
    return Ok(SampleStream(metric, values, histograms));
  }

  /** How many neighbouring samples are `g` apart. */
  ghost function ApartBy<V(!new)>(s: seq<Sample<V>>, g: int): set<int> {
    set j | 0 <= j < |s| - 1 && IsApartBy(s, j, g)
  }

  ghost predicate IsApartBy<V(!new)>(s: seq<Sample<V>>, j: int, g: int)
    requires 0 <= j < |s| - 1
  {
    s[j+1].ts - s[j].ts == g
  }

  lemma {:induction false} GapCount<V(!new)>(s: seq<Sample<V>>, g: int)
    requires Increasing(s)
    ensures multiset(Gaps(s))[g] == |ApartBy(s, g)|
    decreases |s|
  {
    if |s| >= 2 {
      GapCount(s[..|s|-1], g);
      ApartByInit(s, g);
    } else {
      assert ApartBy(s, g) == {};
    }
  }

  lemma ApartByInit<V(!new)>(s: seq<Sample<V>>, g: int)
    requires |s| >= 2
    ensures var n := |s| - 2;
            |ApartBy(s, g)| == |ApartBy(s[..n+1], g)| + if s[n+1].ts - s[n].ts == g then 1 else 0
  {
    var n, init := |s| - 2, s[..|s|-1];
    forall j | 0 <= j < n ensures IsApartBy(s, j, g) <==> IsApartBy(init, j, g) {
    }
    var before := ApartBy(init, g);
    assert ApartBy(s, g) == before + if IsApartBy(s, n, g) then {n} else {};
    assert n !in before;
  }

  /** With a regular series, a gap of ordinary length is never split: if of at least three gaps between neighbours of
    the base more than half are `g`, the buffer is `g / 2` rounded down and no sample of the other side lands inside a
    base gap of at most `g`. */
  lemma RegularGapStaysWhole<H(!new)>(configured: int, a: SampleStream<H>, b: SampleStream<H>, preferMax: bool,
                                      out: SampleStream<H>, base: seq<Sample<real>>, g: int, i: nat)
    requires configured >= 0 && WellFormed(a) && WellFormed(b)
    requires StreamMerged(out, a, b, Buffer(configured, true, a, b), preferMax)
    requires base == if |b.values| > |a.values| then b.values else a.values
    requires |base| - 1 >= 3 && 2 * |ApartBy(base, g)| > |base| - 1
    requires i + 1 < |base| && base[i+1].ts - base[i].ts <= g
    ensures Buffer(configured, true, a, b) == g / 2
    ensures forall s :: s in out.values ==> !(base[i].ts < s.ts < base[i+1].ts)
  {
    hide Gaps, Sort, AntiAffinity, StandsForBase, Increasing, ApartBy;
    var other := Other(a.values, b.values);
    GapsMeaning(base);
    GapCount(base, g);
    MajorityGap(Gaps(base), g);
    var w := g / 2;
    var up: seq<Sample<real>> :| StandsForBase(up, a.values, b.values, w, preferMax) &&
        AntiAffinity(out.values, up, other, w);
    StandInTimes(up, a.values, b.values, w, preferMax);
    NarrowBaseGap(out.values, up, other, w, i, base);
  }

  /** A base gap of at most twice the buffer plus one holds no inserted sample. */
  lemma NarrowBaseGap(out: seq<Sample<real>>, up: seq<Sample<real>>, other: seq<Sample<real>>, w: int, i: nat,
                      base: seq<Sample<real>>)
    requires AntiAffinity(out, up, other, w) && Increasing(base) && i + 1 < |base| == |up|
    requires forall k :: 0 <= k < |up| ==> up[k].ts == base[k].ts
    requires base[i+1].ts - base[i].ts <= 2 * w + 1
    ensures forall s :: s in out ==> !(base[i].ts < s.ts < base[i+1].ts)
  {
    hide Increasing, AntiAffinity, Far;
    forall s | s in out ensures !(base[i].ts < s.ts < base[i+1].ts) {
      EitherSide(out, up, other, w, s);
      if s in up {
        BaseOutside(up, base, i, s);
      } else {
        FarOutside(up, w, i, s.ts);
      }
    }
  }

  lemma EitherSide(out: seq<Sample<real>>, up: seq<Sample<real>>, other: seq<Sample<real>>, w: int, s: Sample<real>)
    requires AntiAffinity(out, up, other, w) && s in out
    ensures s in up || Far(s.ts, up, w)
  {
  }

  lemma BaseOutside(up: seq<Sample<real>>, base: seq<Sample<real>>, i: nat, s: Sample<real>)
    requires Increasing(base) && i + 1 < |base| == |up| && s in up
    requires forall k :: 0 <= k < |up| ==> up[k].ts == base[k].ts
    ensures !(base[i].ts < s.ts < base[i+1].ts)
  {
    var j :| 0 <= j < |up| && up[j] == s;
    assert base[j].ts == s.ts;
    assert j <= i || j >= i + 1;
  }

  lemma FarOutside(up: seq<Sample<real>>, w: int, i: nat, t: int)
    requires i + 1 < |up| && Far(t, up, w) && up[i+1].ts - up[i].ts <= 2 * w + 1
    ensures !(up[i].ts < t < up[i+1].ts)
  {
  }

  lemma StandInTimes(up: seq<Sample<real>>, a: seq<Sample<real>>, b: seq<Sample<real>>, w: int, preferMax: bool)
    requires StandsForBase(up, a, b, w, preferMax)
    ensures |up| == |Base(a, b)| && forall k :: 0 <= k < |up| ==> up[k].ts == Base(a, b)[k].ts
  {
    hide IsLarger;
  }
}
