/** The two-stream anti-affinity merge of pkg/promhttputil/merge.go.

  Two replicas of one series are woven into one stream: the longer stream (the "base") is kept whole, and a
  sample of the other stream is let in only when it is more than the buffer away from every base sample.

  The loops of the source are methods here; each is proved equal to `Weave`, a gap-by-gap description of the output,
  and `WeaveIsAntiAffinity` proves that this description has the order-free meaning `AntiAffinity`. */
module AntiAffinityMerge {

  /** One timestamped value; V is a number for float samples and an opaque type for native histograms. */
  datatype Sample<V> = Sample(ts: int, v: V)

  ghost predicate Increasing<V(!new)>(s: seq<Sample<V>>) {
    forall i, j :: 0 <= i < j < |s| ==> s[i].ts < s[j].ts
  }

  /** Time `t` is more than `w` away from every sample of `base`. */
  ghost predicate Far<V(!new)>(t: int, base: seq<Sample<V>>, w: int) {
    forall i :: 0 <= i < |base| ==> t - base[i].ts > w || base[i].ts - t > w
  }

  /** The meaning of a merge: in strict time order, every base sample and exactly the far samples of `other`. */
  ghost predicate AntiAffinity<V(!new)>(out: seq<Sample<V>>, base: seq<Sample<V>>, other: seq<Sample<V>>, w: int) {
    && Increasing(out)
    && forall s :: s in out <==> s in base || (s in other && Far(s.ts, base, w))
  }

  /** The side a merge keeps whole: the longer one, the first on a tie. */
  function Base<V(!new)>(a: seq<Sample<V>>, b: seq<Sample<V>>): seq<Sample<V>> {
    if |b| > |a| then b else a
  }

  function Other<V(!new)>(a: seq<Sample<V>>, b: seq<Sample<V>>): seq<Sample<V>> {
    if |b| > |a| then a else b
  }

  // ----- The gap-by-gap description of the output -----

  /** The samples of `b` strictly between `lo` and `hi`. */
  function Between<V(!new)>(b: seq<Sample<V>>, lo: int, hi: int): seq<Sample<V>> {
    if b == [] then []
    else
      var init := Between(b[..|b|-1], lo, hi);
      var last := b[|b|-1];
      if lo < last.ts < hi then init + [last] else init
  }

  /** The samples of `b` that belong before base sample `k` and after the one before it. */
  function Gap<V(!new)>(base: seq<Sample<V>>, b: seq<Sample<V>>, w: int, k: nat): seq<Sample<V>>
    requires k < |base|
  {
    if k == 0 then [] else Between(b, base[k-1].ts + w, base[k].ts - w)
  }

  /** What has been written after the first `k` base samples. */
  function WeaveTo<V(!new)>(base: seq<Sample<V>>, b: seq<Sample<V>>, w: int, k: nat): seq<Sample<V>>
    requires base != [] && b != [] && k <= |base|
  {
    if k == 0 then Between(b, b[0].ts - 1, base[0].ts - w)
    else WeaveTo(base, b, w, k - 1) + Gap(base, b, w, k - 1) + [base[k-1]]
  }

  function Weave<V(!new)>(base: seq<Sample<V>>, b: seq<Sample<V>>, w: int): seq<Sample<V>> {
    if base == [] then b
    else if b == [] then base
    else WeaveTo(base, b, w, |base|) + Between(b, base[|base|-1].ts + w, b[|b|-1].ts + 1)
  }

  /** `r` holds, in time order, exactly the samples of `b` strictly between `lo` and `hi`. */
  ghost predicate Picks<V(!new)>(r: seq<Sample<V>>, b: seq<Sample<V>>, lo: int, hi: int) {
    && Increasing(r)
    && forall s :: s in r <==> s in b && lo < s.ts < hi
  }

  lemma {:induction false} BetweenMeaning<V(!new)>(b: seq<Sample<V>>, lo: int, hi: int)
    requires Increasing(b)
    ensures Picks(Between(b, lo, hi), b, lo, hi)
  {
    if b != [] {
      var init, last := b[..|b|-1], b[|b|-1];
      BetweenMeaning(init, lo, hi);
      assert b == init + [last];
      var kept := Between(init, lo, hi);
      forall i | 0 <= i < |kept| ensures kept[i].ts < last.ts {
        assert kept[i] in kept;
        assert kept[i] in init;
      }
    }
  }

  lemma BetweenSnoc<V(!new)>(b: seq<Sample<V>>, n: nat, lo: int, hi: int)
    requires n < |b|
    ensures Between(b[..n+1], lo, hi) ==
            Between(b[..n], lo, hi) + (if lo < b[n].ts < hi then [b[n]] else [])
  {
    assert b[..n+1][..n] == b[..n];
  }

  /** Samples at or past `hi` add nothing. */
  lemma {:induction false} BetweenCut<V(!new)>(b: seq<Sample<V>>, n: nat, lo: int, hi: int)
    requires n <= |b| && forall j :: n <= j < |b| ==> b[j].ts >= hi
    ensures Between(b, lo, hi) == Between(b[..n], lo, hi)
    decreases |b|
  {
    if n == |b| {
      assert b[..n] == b;
    } else {
      BetweenCut(b[..|b|-1], n, lo, hi);
      assert b[..|b|-1][..n] == b[..n];
    }
  }

  /** A stretch that stays at or below `lo` is empty. */
  lemma {:induction false} BetweenNothing<V(!new)>(b: seq<Sample<V>>, lo: int, hi: int)
    requires forall j :: 0 <= j < |b| ==> !(lo < b[j].ts < hi)
    ensures Between(b, lo, hi) == []
    decreases |b|
  {
    if b != [] {
      BetweenNothing(b[..|b|-1], lo, hi);
    }
  }

  /** Appending a later sample keeps strict time order. */
  lemma IncreasingSnoc<V(!new)>(s: seq<Sample<V>>, t: seq<Sample<V>>)
    requires Increasing(s) && Increasing(t)
    requires forall x, y :: x in s && y in t ==> x.ts < y.ts
    ensures Increasing(s + t)
  {
    forall i, j | 0 <= i < j < |s + t| ensures (s + t)[i].ts < (s + t)[j].ts {
      if i < |s| <= j {
        assert (s + t)[i] in s && (s + t)[j] in t;
      }
    }
  }

  /** After k base samples: strict order, and exactly the far samples seen so far. */
  ghost predicate UpTo<V(!new)>(out: seq<Sample<V>>, base: seq<Sample<V>>, b: seq<Sample<V>>, w: int, k: nat)
    requires base != [] && k <= |base|
  {
    && Increasing(out)
    && forall s :: s in out <==>
         s in base[..k] || (s in b && Far(s.ts, base, w) && s.ts < base[if k == 0 then 0 else k - 1].ts)
  }

  lemma {:induction false} WeaveToMeaning<V(!new)>(base: seq<Sample<V>>, b: seq<Sample<V>>, w: int, k: nat)
    requires Increasing(base) && Increasing(b) && base != [] && b != [] && w >= 0 && k <= |base|
    ensures UpTo(WeaveTo(base, b, w, k), base, b, w, k)
  {
    hide Increasing, UpTo, Far, Picks, Between;
    if k == 0 {
      BetweenMeaning(b, b[0].ts - 1, base[0].ts - w);
      LeadInMeaning(base, b, w, WeaveTo(base, b, w, 0));
    } else {
      WeaveToMeaning(base, b, w, k - 1);
      if k > 1 {
        BetweenMeaning(b, base[k-2].ts + w, base[k-1].ts - w);
      }
      ExtendUpTo(WeaveTo(base, b, w, k - 1), Gap(base, b, w, k - 1), base, b, w, k - 1);
    }
  }

  lemma LeadInMeaning<V(!new)>(base: seq<Sample<V>>, b: seq<Sample<V>>, w: int, out: seq<Sample<V>>)
    requires Increasing(base) && Increasing(b) && base != [] && b != [] && w >= 0
    requires Picks(out, b, b[0].ts - 1, base[0].ts - w)
    ensures UpTo(out, base, b, w, 0)
  {
    forall s | s in b ensures (b[0].ts - 1 < s.ts < base[0].ts - w) <==> (Far(s.ts, base, w) && s.ts < base[0].ts) {
      var i :| 0 <= i < |b| && b[i] == s;
      if Far(s.ts, base, w) && s.ts < base[0].ts {
        assert base[0].ts - s.ts > w;
      }
    }
  }

  lemma ExtendUpTo<V(!new)>(before: seq<Sample<V>>, gap: seq<Sample<V>>, base: seq<Sample<V>>, b: seq<Sample<V>>,
                            w: int, k: nat)
    requires Increasing(base) && Increasing(b) && w >= 0 && k < |base|
    requires UpTo(before, base, b, w, k)
    requires if k == 0 then gap == [] else Picks(gap, b, base[k-1].ts + w, base[k].ts - w)
    ensures UpTo(before + gap + [base[k]], base, b, w, k + 1)
  {
    assert base[..k+1] == base[..k] + [base[k]];
    forall s | s in before ensures s.ts < base[k].ts && (k > 0 ==> s.ts <= base[k-1].ts) {
      if s in base[..k] {
        var i :| 0 <= i < k && base[i] == s;
      }
    }
    if k > 0 {
      GapIsFar(base, b, w, k);
    }
    IncreasingSnoc(before, gap);
    IncreasingSnoc(before + gap, [base[k]]);
  }

  /** Between two neighbouring base samples, "far from both" is "far from all". */
  lemma GapIsFar<V(!new)>(base: seq<Sample<V>>, b: seq<Sample<V>>, w: int, k: nat)
    requires Increasing(base) && Increasing(b) && w >= 0 && 0 < k < |base|
    ensures forall s :: s in b ==>
              (base[k-1].ts + w < s.ts < base[k].ts - w <==>
               Far(s.ts, base, w) && base[k-1].ts <= s.ts < base[k].ts)
  {
    forall s | s in b
      ensures base[k-1].ts + w < s.ts < base[k].ts - w <==> Far(s.ts, base, w) && base[k-1].ts <= s.ts < base[k].ts
    {
      if base[k-1].ts + w < s.ts < base[k].ts - w {
        forall i | 0 <= i < |base| ensures s.ts - base[i].ts > w || base[i].ts - s.ts > w {
          assert i < k - 1 ==> base[i].ts < base[k-1].ts;
          assert i > k ==> base[k].ts < base[i].ts;
        }
      }
    }
  }

  /** The merge law: the woven output is the base plus exactly the far samples, in strict time order. */
  lemma WeaveIsAntiAffinity<V(!new)>(base: seq<Sample<V>>, b: seq<Sample<V>>, w: int)
    requires Increasing(base) && Increasing(b) && w >= 0
    ensures AntiAffinity(Weave(base, b, w), base, b, w)
  {
    hide Increasing, UpTo, Far, AntiAffinity, Picks, Between, WeaveTo;
    if base == [] || b == [] {
      OneSided(base, b, w);
      return;
    }
    var last := base[|base|-1].ts;
    WeaveToMeaning(base, b, w, |base|);
    BetweenMeaning(b, last + w, b[|b|-1].ts + 1);
    CloseMerge(WeaveTo(base, b, w, |base|), Between(b, last + w, b[|b|-1].ts + 1), base, b, w);
  }

  lemma OneSided<V(!new)>(base: seq<Sample<V>>, b: seq<Sample<V>>, w: int)
    requires Increasing(base) && Increasing(b) && (base == [] || b == [])
    ensures AntiAffinity(if base == [] then b else base, base, b, w)
  {
  }

  lemma CloseMerge<V(!new)>(before: seq<Sample<V>>, tail: seq<Sample<V>>, base: seq<Sample<V>>, b: seq<Sample<V>>,
                            w: int)
    requires Increasing(base) && Increasing(b) && w >= 0 && base != []
    requires UpTo(before, base, b, w, |base|)
    requires b != [] && Picks(tail, b, base[|base|-1].ts + w, b[|b|-1].ts + 1)
    ensures AntiAffinity(before + tail, base, b, w)
  {
    var n := |base|;
    var last := base[n-1].ts;
    assert base[..n] == base;
    forall s | s in before ensures s.ts <= last {
      if s in base {
        var i :| 0 <= i < n && base[i] == s;
      }
    }
    IncreasingSnoc(before, tail);
    forall s | s in b ensures s in tail <==> Far(s.ts, base, w) && s.ts >= last {
      var i :| 0 <= i < |b| && b[i] == s;
      if s.ts - last > w {
        assert forall j :: 0 <= j < n ==> base[j].ts <= last;
      }
    }
  }

  /** The law leaves no freedom: two streams that obey it for the same inputs are the same stream. */
  lemma AntiAffinityUnique<V(!new)>(x: seq<Sample<V>>, y: seq<Sample<V>>, base: seq<Sample<V>>, b: seq<Sample<V>>,
                                    w: int)
    requires AntiAffinity(x, base, b, w) && AntiAffinity(y, base, b, w)
    ensures x == y
  {
    SameElements(x, y);
  }

  lemma {:induction false} SameElements<V(!new)>(x: seq<Sample<V>>, y: seq<Sample<V>>)
    requires Increasing(x) && Increasing(y)
    requires forall s :: s in x <==> s in y
    ensures x == y
    decreases |x|
  {
    assert x != [] ==> x[0] in y;
    assert y != [] ==> y[0] in x;
    if x != [] {
      LastIsLatest(x, y);
      LastIsLatest(y, x);
      var last := x[|x|-1];
      var initX, initY := x[..|x|-1], y[..|y|-1];
      assert x == initX + [last] && y == initY + [last];
      InitElements(initX, last);
      InitElements(initY, last);
      SameElements(initX, initY);
    }
  }

  lemma LastIsLatest<V(!new)>(x: seq<Sample<V>>, y: seq<Sample<V>>)
    requires Increasing(x) && Increasing(y) && x != [] && y != []
    requires forall s :: s in x <==> s in y
    ensures x[|x|-1] == y[|y|-1]
  {
    assert x[|x|-1] in y && y[|y|-1] in x;
  }

  lemma InitElements<V(!new)>(init: seq<Sample<V>>, last: Sample<V>)
    requires Increasing(init + [last])
    ensures Increasing(init)
    ensures forall s :: s in init <==> s in init + [last] && s != last
  {
    var all := init + [last];
    forall i | 0 <= i < |init| ensures init[i].ts < last.ts {
      assert all[i].ts < all[|init|].ts;
    }
    assert forall i, j :: 0 <= i < j < |init| ==> init[i] == all[i] && init[j] == all[j];
  }

  // ----- The loops -----

  /** The opening loop: copy the samples of `b` before `start`; the cursor stops on the first one that is not. */
  method LeadIn<V(!new)>(b: seq<Sample<V>>, start: int) returns (out: seq<Sample<V>>, bOffset: nat)
    requires b != [] && Increasing(b)
    ensures out == Between(b, b[0].ts - 1, start)
    ensures bOffset < |b| && forall j :: 0 <= j < bOffset ==> b[j].ts < start
  {
    hide Between;
    out, bOffset := [], 0;
    if b[0].ts < start {
      BetweenNothing<V>([], b[0].ts - 1, start);
      var i := 0;
      while i < |b|
        invariant 0 <= i <= |b| && bOffset <= i && bOffset < |b|
        invariant i > 0 ==> bOffset == i - 1
        invariant forall j :: 0 <= j < i ==> b[j].ts < start
        invariant out == Between(b[..i], b[0].ts - 1, start)
      {
        bOffset := i;
        if b[i].ts < start {
          BetweenSnoc(b, i, b[0].ts - 1, start);
          out := out + [b[i]];
        } else {
          break;
        }
        i := i + 1;
      }
      BetweenCut(b, i, b[0].ts - 1, start);
    } else {
      BetweenNothing(b, b[0].ts - 1, start);
    }
  }

  /** The gap loop: from the cursor on, copy the samples that fit between `lastTime` and the base sample at `t`. */
  method FillGap<V(!new)>(out: seq<Sample<V>>, b: seq<Sample<V>>, from: nat, lastTime: int, t: int, w: int)
    returns (out': seq<Sample<V>>, bOffset: nat)
    requires Increasing(b) && w >= 0 && from <= |b|
    requires forall j :: 0 <= j < from ==> b[j].ts <= lastTime + w
    ensures from <= bOffset <= |b|
    ensures forall j :: from <= j < bOffset ==> b[j].ts < t
    ensures out' == out + Between(b, lastTime + w, t - w)
  {
    hide Between;
    out', bOffset := out, from;
    BetweenNothing(b[..from], lastTime + w, t - w);
    while bOffset < |b|
      invariant from <= bOffset <= |b|
      invariant forall j :: from <= j < bOffset ==> b[j].ts < t
      invariant out' == out + Between(b[..bOffset], lastTime + w, t - w)
    {
      if b[bOffset].ts >= t {
        break;
      }
      BetweenSnoc(b, bOffset, lastTime + w, t - w);
      if lastTime + w < b[bOffset].ts < t - w {
        out' := out' + [b[bOffset]];
      }
      bOffset := bOffset + 1;
    }
    BetweenCut(b, bOffset, lastTime + w, t - w);
  }

  /** The closing loop: copy what lies past the last base sample. */
  method LeadOut<V(!new)>(out: seq<Sample<V>>, b: seq<Sample<V>>, from: nat, lastTime: int, w: int)
    returns (out': seq<Sample<V>>)
    requires b != [] && Increasing(b) && from <= |b|
    requires forall j :: 0 <= j < from ==> b[j].ts <= lastTime + w
    ensures out' == out + Between(b, lastTime + w, b[|b|-1].ts + 1)
  {
    ghost var hi := b[|b|-1].ts + 1;
    out' := out;
    var bOffset := from;
    BetweenNothing(b[..from], lastTime + w, hi);
    while bOffset < |b|
      invariant from <= bOffset <= |b|
      invariant out' == out + Between(b[..bOffset], lastTime + w, hi)
    {
      BetweenSnoc(b, bOffset, lastTime + w, hi);
      if b[bOffset].ts > lastTime + w {
        out' := out' + [b[bOffset]];
      }
      bOffset := bOffset + 1;
    }
    assert b[..|b|] == b;
  }

  /** Skipping the gap loop is right: a gap of at most twice the buffer has room for nothing. */
  lemma NarrowGap<V(!new)>(b: seq<Sample<V>>, lastTime: int, t: int, w: int)
    requires t - lastTime <= w * 2
    ensures Between(b, lastTime + w, t - w) == []
  {
    BetweenNothing(b, lastTime + w, t - w);
  }

  /** The state of the main loop before base sample k. */
  ghost predicate MergedTo<V(!new)>(out: seq<Sample<V>>, emitted: seq<Sample<V>>, b: seq<Sample<V>>, w: int,
                                    bOffset: nat, k: nat)
    requires emitted != [] && b != [] && k <= |emitted|
  {
    && bOffset <= |b|
    && out == WeaveTo(emitted, b, w, k)
    && (forall j :: 0 <= j < bOffset ==> b[j].ts < emitted[if k == 0 then 0 else k - 1].ts)
    && (k > 0 ==> out != [] && out[|out|-1].ts == emitted[k-1].ts)
  }

  lemma MergedStart<V(!new)>(out: seq<Sample<V>>, emitted: seq<Sample<V>>, b: seq<Sample<V>>, w: int, bOffset: nat)
    requires emitted != [] && b != [] && w >= 0 && bOffset <= |b|
    requires out == Between(b, b[0].ts - 1, emitted[0].ts - w)
    requires forall j :: 0 <= j < bOffset ==> b[j].ts < emitted[0].ts - w
    ensures MergedTo(out, emitted, b, w, bOffset, 0)
  {
  }

  /** An empty output means that the first base sample is next. */
  lemma MergedFirst<V(!new)>(emitted: seq<Sample<V>>, b: seq<Sample<V>>, w: int, bOffset: nat, k: nat)
    requires emitted != [] && b != [] && k < |emitted| && MergedTo([], emitted, b, w, bOffset, k)
    ensures k == 0 && MergedTo([emitted[0]], emitted, b, w, bOffset, 1)
  {
    hide Between;
  }

  lemma MergedEnd<V(!new)>(out: seq<Sample<V>>, emitted: seq<Sample<V>>, b: seq<Sample<V>>, w: int, bOffset: nat)
    requires emitted != [] && b != [] && w >= 0 && MergedTo(out, emitted, b, w, bOffset, |emitted|)
    ensures out != [] && out[|out|-1].ts == emitted[|emitted|-1].ts && bOffset <= |b|
    ensures forall j :: 0 <= j < bOffset ==> b[j].ts <= out[|out|-1].ts + w
    ensures out + Between(b, emitted[|emitted|-1].ts + w, b[|b|-1].ts + 1) == Weave(emitted, b, w)
  {
    hide Between;
  }

  /** With samples already written, the last of them is the previous base sample, or a lead-in sample before the
    first. */
  method GapBefore<V(!new)>(out: seq<Sample<V>>, b: seq<Sample<V>>, w: int, bOffset: nat, t: int,
                      ghost emitted: seq<Sample<V>>, ghost k: nat)
    returns (out': seq<Sample<V>>, bOffset': nat)
    requires Increasing(emitted) && Increasing(b) && emitted != [] && b != [] && w >= 0 && k < |emitted| &&
               t == emitted[k].ts
    requires MergedTo(out, emitted, b, w, bOffset, k) && out != []
    requires k == 0 ==> forall j :: 0 <= j < bOffset ==> b[j].ts < emitted[0].ts - w
    ensures bOffset' <= |b| && MergedTo(out' + [emitted[k]], emitted, b, w, bOffset', k + 1)
  {
    hide Between, Picks;
    out', bOffset' := out, bOffset;
    var lastTime := out[|out|-1].ts;
    if k == 0 {
      BetweenMeaning(b, b[0].ts - 1, emitted[0].ts - w);
      LeadInLast(out, b, emitted[0].ts - w, w);
      BetweenNothing(b, lastTime + w, t - w);
    }
    if t - lastTime > w * 2 {
      out', bOffset' := FillGap(out, b, bOffset, lastTime, t, w);
    } else {
      NarrowGap(b, lastTime, t, w);
    }
    assert k > 0 ==> emitted[k-1].ts < emitted[k].ts;
  }

  /** Before the first base sample the gap loop finds nothing: every fitting sample was in the lead-in. */
  lemma LeadInLast<V(!new)>(out: seq<Sample<V>>, b: seq<Sample<V>>, start: int, w: int)
    requires Increasing(b) && b != [] && w >= 0
    requires Picks(out, b, b[0].ts - 1, start) && out != []
    ensures forall j :: 0 <= j < |b| && b[j].ts < start ==> b[j].ts <= out[|out|-1].ts
  {
    forall j | 0 <= j < |b| && b[j].ts < start ensures b[j].ts <= out[|out|-1].ts {
      assert b[0].ts <= b[j].ts;
      assert b[j] in out;
      var i :| 0 <= i < |out| && out[i] == b[j];
    }
  }

  lemma LeadInEmpty<V(!new)>(out: seq<Sample<V>>, b: seq<Sample<V>>, start: int)
    requires Increasing(b) && b != [] && Picks(out, b, b[0].ts - 1, start)
    ensures out == [] <==> b[0].ts >= start
  {
    assert b[0] in b;
    if out != [] {
      assert out[0] in out;
      var i :| 0 <= i < |b| && b[i] == out[0];
    }
  }

  /** mergeHistogramSamples: the merge loop on native histogram samples, which has no prefer-max mode. */
  method MergeHistograms<H(!new)>(w: int, a0: seq<Sample<H>>, b0: seq<Sample<H>>) returns (out: seq<Sample<H>>)
    requires Increasing(a0) && Increasing(b0) && w >= 0
    ensures out == Weave(Base(a0, b0), Other(a0, b0), w)
    ensures if |b0| > |a0| then AntiAffinity(out, b0, a0, w) else AntiAffinity(out, a0, b0, w)
  {
    hide Between, Picks, AntiAffinity, Far, MergedTo, WeaveTo;
    WeaveIsAntiAffinity(Base(a0, b0), Other(a0, b0), w);
    if |a0| == 0 && |b0| == 0 {
      return [];
    }
    if |a0| == 0 {
      return b0;
    }
    if |b0| == 0 {
      return a0;
    }
    var a, b := a0, b0;
    if |b| > |a| {
      a, b := b, a;
    }
    var bOffset: nat;
    out, bOffset := LeadIn(b, a[0].ts - w);
    MergedStart(out, a, b, w, bOffset);
    var k := 0;
    while k < |a|
      invariant k <= |a| && bOffset <= |b| && MergedTo(out, a, b, w, bOffset, k)
      invariant k == 0 ==> forall j :: 0 <= j < bOffset ==> b[j].ts < a[0].ts - w
    {
      if out == [] {
        MergedFirst(a, b, w, bOffset, k);
        out := [a[k]];
      } else {
        out, bOffset := GapBefore(out, b, w, bOffset, a[k].ts, a, k);
        out := out + [a[k]];
      }
      k := k + 1;
    }
    MergedEnd(out, a, b, w, bOffset);
    out := LeadOut(out, b, bOffset, out[|out|-1].ts, w);
  }

  // ----- prefer-max -----

  /** The other side's sample counts as the same observation: same time, or strictly closer than the buffer. */
  predicate Near<V(!new)>(s: Sample<V>, t: int, w: int) {
    s.ts == t || t - w < s.ts < t + w
  }

  ghost predicate IsFirstNear<V(!new)>(b: seq<Sample<V>>, t: int, w: int, i: nat) {
    && i < |b| && Near(b[i], t, w)
    && forall j :: 0 <= j < i ==> !Near(b[j], t, w)
  }

  /** The base sample at `k` is written before anything else. */
  predicate OpensOutput<V(!new)>(base: seq<Sample<V>>, b: seq<Sample<V>>, w: int, k: nat)
    requires base != [] && b != []
  {
    k == 0 && b[0].ts >= base[0].ts - w
  }

  /** `v` is the larger of the base value at `k` and the value of the earliest near sample of `b`, if there is one. */
  ghost predicate IsLarger(base: seq<Sample<real>>, b: seq<Sample<real>>, w: int, k: nat, v: real)
    requires k < |base|
  {
    && (forall i: nat :: IsFirstNear(b, base[k].ts, w, i) ==> v == if b[i].v > base[k].v then b[i].v else base[k].v)
    && ((forall i :: 0 <= i < |b| ==> !Near(b[i], base[k].ts, w)) ==> v == base[k].v)
  }

  /** The first `k` base values are raised as prefer-max asks, except for a sample that opens the output. */
  ghost predicate RaisedTo(up: seq<Sample<real>>, base: seq<Sample<real>>, b: seq<Sample<real>>, w: int, k: nat)
    requires base != [] && b != [] && k <= |base|
  {
    && |up| == |base|
    && (forall j :: 0 <= j < |base| ==> up[j].ts == base[j].ts)
    && (forall j :: k <= j < |base| ==> up[j] == base[j])
    && (forall j :: 0 <= j < k ==>
          if OpensOutput(base, b, w, j) then up[j].v == base[j].v else IsLarger(base, b, w, j, up[j].v))
  }

  /** The first `n` samples of `b` are too early to be near `t`. */
  ghost predicate AllEarlier<V>(b: seq<Sample<V>>, n: nat, t: int, w: int)
    requires n <= |b|
  {
    forall j :: 0 <= j < n ==> b[j].ts <= t - w && b[j].ts < t
  }

  lemma RaisedNone(base: seq<Sample<real>>, b: seq<Sample<real>>, w: int)
    requires base != [] && b != []
    ensures RaisedTo(base, base, b, w, 0)
  {
  }

  lemma RaisedTimes(up: seq<Sample<real>>, base: seq<Sample<real>>, b: seq<Sample<real>>, w: int, k: nat)
    requires base != [] && b != [] && k <= |base| && Increasing(base) && RaisedTo(up, base, b, w, k)
    ensures Increasing(up) && |up| == |base| && (k < |base| ==> up[k] == base[k])
  {
  }

  lemma RaisedStep(up: seq<Sample<real>>, base: seq<Sample<real>>, b: seq<Sample<real>>, w: int, k: nat,
                   s: Sample<real>)
    requires base != [] && b != [] && k < |base| && Increasing(base) && RaisedTo(up, base, b, w, k)
    requires s.ts == base[k].ts
    requires if OpensOutput(base, b, w, k) then s == base[k] else IsLarger(base, b, w, k, s.v)
    ensures RaisedTo(up[k := s], base, b, w, k + 1) && Increasing(up) && Increasing(up[k := s])
  {
    hide IsLarger;
  }

  /** The base with every value raised as prefer-max asks, except a sample that opens the output. */
  ghost predicate Raised(up: seq<Sample<real>>, base: seq<Sample<real>>, b: seq<Sample<real>>, w: int)
    requires base != [] && b != []
  {
    RaisedTo(up, base, b, w, |base|)
  }

  /** The prefer-max scan from `lastOffset`: the value to write for base sample `k`, and the next scan's start. */
  method Prefer(base: seq<Sample<real>>, b: seq<Sample<real>>, w: int, k: nat, lastOffset: nat)
    returns (s: Sample<real>, next: nat)
    requires k < |base| && Increasing(b) && w >= 0 && lastOffset <= |b|
    requires AllEarlier(b, lastOffset, base[k].ts, w)
    ensures s.ts == base[k].ts && IsLarger(base, b, w, k, s.v)
    ensures next <= |b|
    ensures AllEarlier(b, next, base[k].ts, w)
  {
    s, next := base[k], lastOffset;
    var t := base[k].ts;
    var i := lastOffset;
    while i < |b|
      invariant lastOffset <= i <= |b|
      invariant AllEarlier(b, i, t, w)
    {
      if b[i].ts >= t + w && b[i].ts != t {
        break;
      }
      if b[i].ts == t || b[i].ts > t - w {
        next := i;
        assert IsFirstNear(b, t, w, i);
        if b[i].v > base[k].v {
          s := Sample(t, b[i].v);
        }
        return;
      }
      i := i + 1;
    }
    assert forall j :: i <= j < |b| ==> b[j].ts >= b[i].ts;
  }

  /** The whole meaning of a float merge: `up` stands for the base, raised when prefer-max is on. */
  ghost predicate Merged(out: seq<Sample<real>>, a: seq<Sample<real>>, b: seq<Sample<real>>, w: int, preferMax: bool) {
    exists up :: StandsForBase(up, a, b, w, preferMax) && AntiAffinity(out, up, Other(a, b), w)
  }

  ghost predicate StandsForBase(up: seq<Sample<real>>, a: seq<Sample<real>>, b: seq<Sample<real>>, w: int,
                                preferMax: bool)
  {
    if preferMax && a != [] && b != [] then Raised(up, Base(a, b), Other(a, b), w) else up == Base(a, b)
  }

  lemma EarlierLater<V(!new)>(a: seq<Sample<V>>, b: seq<Sample<V>>, n: nat, w: int, k: nat)
    requires Increasing(a) && k < |a| && n <= |b| && AllEarlier(b, n, a[if k == 0 then 0 else k - 1].ts, w)
    ensures AllEarlier(b, n, a[k].ts, w)
  {
    assert k > 0 ==> a[k-1].ts < a[k].ts;
  }

  /** The loops of the float merge, on a base `a` and another side `b` that both hold samples. */
  method WeaveFloats(w: int, a: seq<Sample<real>>, b: seq<Sample<real>>, preferMax: bool)
    returns (out: seq<Sample<real>>, ghost up: seq<Sample<real>>)
    requires Increasing(a) && Increasing(b) && w >= 0 && a != [] && b != []
    ensures if preferMax then Raised(up, a, b, w) else up == a
    ensures AntiAffinity(out, up, b, w)
  {
    hide Between, Picks, AntiAffinity, Far, IsLarger, RaisedTo, MergedTo, WeaveTo, Increasing, AllEarlier;
    up := a;
    RaisedNone(a, b, w);
    var bOffset: nat;
    out, bOffset := LeadIn(b, a[0].ts - w);
    BetweenMeaning(b, b[0].ts - 1, a[0].ts - w);
    LeadInEmpty(out, b, a[0].ts - w);
    MergedStart(out, up, b, w, bOffset);
    var lastOffset: nat := bOffset;
    EarlierStart(b, lastOffset, a[0].ts, w);
    var k := 0;
    while k < |a|
      invariant k <= |a| == |up| && bOffset <= |b| && lastOffset <= |b|
      invariant MergedTo(out, up, b, w, bOffset, k)
      invariant k == 0 ==> forall j :: 0 <= j < bOffset ==> b[j].ts < a[0].ts - w
      invariant k == 0 ==> (out == [] <==> OpensOutput(a, b, w, 0))
      invariant AllEarlier(b, lastOffset, a[if k == 0 then 0 else k - 1].ts, w)
      invariant if preferMax then RaisedTo(up, a, b, w, k) else up == a
    {
      EarlierLater(a, b, lastOffset, w, k);
      if preferMax {
        RaisedTimes(up, a, b, w, k);
      }
      if out == [] {
        MergedFirst(up, b, w, bOffset, k);
        if preferMax {
          RaisedStep(up, a, b, w, k, a[k]);
          assert up[k := a[k]] == up;
        }
        out := [a[k]];
      } else {
        out, bOffset := GapBefore(out, b, w, bOffset, a[k].ts, up, k);
        if !preferMax {
          out := out + [a[k]];
        } else {
          var s;
          s, lastOffset := Prefer(a, b, w, k, lastOffset);
          MergedUpdate(out, up, b, w, bOffset, k, s);
          RaisedStep(up, a, b, w, k, s);
          out, up := out + [s], up[k := s];
        }
      }
      k := k + 1;
    }
    if preferMax {
      RaisedTimes(up, a, b, w, k);
    }
    MergedEnd(out, up, b, w, bOffset);
    out := LeadOut(out, b, bOffset, out[|out|-1].ts, w);
    WeaveIsAntiAffinity(up, b, w);
  }

  lemma EarlierStart<V(!new)>(b: seq<Sample<V>>, n: nat, t: int, w: int)
    requires w >= 0 && n <= |b| && forall j :: 0 <= j < n ==> b[j].ts < t - w
    ensures AllEarlier(b, n, t, w)
  {
  }

  /** The float half of MergeSampleStream. */
  method MergeFloats(w: int, a0: seq<Sample<real>>, b0: seq<Sample<real>>, preferMax: bool)
    returns (out: seq<Sample<real>>)
    requires Increasing(a0) && Increasing(b0) && w >= 0
    ensures Merged(out, a0, b0, w, preferMax)
    ensures !preferMax ==> if |b0| > |a0| then AntiAffinity(out, b0, a0, w) else AntiAffinity(out, a0, b0, w)
  {
    hide AntiAffinity, Increasing, Raised;
    if |a0| == 0 || |b0| == 0 {
      OneSided(Base(a0, b0), Other(a0, b0), w);
      assert StandsForBase(Base(a0, b0), a0, b0, w, preferMax);
    }
    if |a0| == 0 && |b0| == 0 {
      return [];
    }
    if |a0| == 0 {
      return b0;
    } else if |b0| == 0 {
      return a0;
    }
    var a, b := a0, b0;
    if |b| > |a| {
      a, b := b, a;
    }
    ghost var up;
    out, up := WeaveFloats(w, a, b, preferMax);
    assert StandsForBase(up, a0, b0, w, preferMax);
  }

  /** Raising the value at `k` leaves everything written before it alone. */
  lemma MergedUpdate<V(!new)>(out: seq<Sample<V>>, emitted: seq<Sample<V>>, b: seq<Sample<V>>, w: int, bOffset: nat,
                              k: nat, s: Sample<V>)
    requires b != [] && k < |emitted| && s.ts == emitted[k].ts
    requires MergedTo(out + [emitted[k]], emitted, b, w, bOffset, k + 1)
    ensures MergedTo(out + [s], emitted[k := s], b, w, bOffset, k + 1)
  {
    hide Between;
    WeavePrefix(emitted, emitted[k := s], b, w, k);
    var before := WeaveTo(emitted, b, w, k) + Gap(emitted, b, w, k);
    assert out + [emitted[k]] == before + [emitted[k]];
    assert out == (out + [emitted[k]])[..|out|] == before;
    assert Gap(emitted[k := s], b, w, k) == Gap(emitted, b, w, k);
  }

  lemma {:induction false} WeavePrefix<V(!new)>(x: seq<Sample<V>>, y: seq<Sample<V>>, b: seq<Sample<V>>, w: int, k: nat)
    requires b != [] && x != [] && y != [] && k <= |x| && k <= |y| && x[0].ts == y[0].ts
    requires forall j :: 0 <= j < k ==> x[j] == y[j]
    ensures WeaveTo(x, b, w, k) == WeaveTo(y, b, w, k)
  {
    if k > 0 {
      WeavePrefix(x, y, b, w, k - 1);
    }
  }

  // ----- What prefer-max changes -----

  /** Farness depends on base timestamps alone. */
  lemma FarByTime<V(!new)>(t: int, x: seq<Sample<V>>, y: seq<Sample<V>>, w: int)
    requires |x| == |y| && forall i :: 0 <= i < |x| ==> x[i].ts == y[i].ts
    ensures Far(t, x, w) <==> Far(t, y, w)
  {
  }

  /** Prefer-max never moves, adds or removes a timestamp. */
  lemma PreferMaxKeepsTimes(off: seq<Sample<real>>, on: seq<Sample<real>>, base: seq<Sample<real>>,
                            up: seq<Sample<real>>, b: seq<Sample<real>>, w: int)
    requires base != [] && b != [] && w >= 0
    requires AntiAffinity(off, base, b, w) && AntiAffinity(on, up, b, w) && Raised(up, base, b, w)
    ensures Times(on) == Times(off)
  {
    forall t ensures HasTime(off, t) <==> HasTime(on, t) {
      TimesOfMerge(off, base, b, w, t);
      TimesOfMerge(on, up, b, w, t);
      FarByTime(t, base, up, w);
      if HasTime(base, t) {
        var i :| 0 <= i < |base| && base[i].ts == t;
        assert up[i].ts == t;
      }
      if HasTime(up, t) {
        var i :| 0 <= i < |up| && up[i].ts == t;
        assert base[i].ts == t;
      }
    }
    SameTimes(off, on);
  }

  function Times<V(!new)>(s: seq<Sample<V>>): (r: seq<int>) {
    seq(|s|, i requires 0 <= i < |s| => s[i].ts)
  }

  ghost predicate HasTime<V(!new)>(s: seq<Sample<V>>, t: int) {
    exists i :: 0 <= i < |s| && s[i].ts == t
  }

  lemma TimesOfMerge<V(!new)>(out: seq<Sample<V>>, base: seq<Sample<V>>, b: seq<Sample<V>>, w: int, t: int)
    requires AntiAffinity(out, base, b, w)
    ensures HasTime(out, t) <==> HasTime(base, t) || (HasTime(b, t) && Far(t, base, w))
  {
    if HasTime(out, t) {
      var i :| 0 <= i < |out| && out[i].ts == t;
      assert out[i] in out;
    }
    if HasTime(base, t) {
      var i :| 0 <= i < |base| && base[i].ts == t;
      assert base[i] in out;
    }
    if HasTime(b, t) && Far(t, base, w) {
      var i :| 0 <= i < |b| && b[i].ts == t;
      assert b[i] in out;
    }
  }

  /** Increasing streams that occupy the same times have the same time sequence. */
  lemma {:induction false} SameTimes<V(!new)>(x: seq<Sample<V>>, y: seq<Sample<V>>)
    requires Increasing(x) && Increasing(y)
    requires forall t :: HasTime(x, t) <==> HasTime(y, t)
    ensures Times(x) == Times(y)
  {
    var tx, ty := Stamped(x), Stamped(y);
    forall s ensures s in tx <==> s in ty {
      if s in tx {
        var i :| 0 <= i < |tx| && tx[i] == s;
        assert HasTime(x, s.ts) && x[i].ts == s.ts;
        assert HasTime(y, s.ts);
        var j :| 0 <= j < |y| && y[j].ts == s.ts;
        assert ty[j] == s;
      }
      if s in ty {
        var i :| 0 <= i < |ty| && ty[i] == s;
        assert HasTime(y, s.ts) && y[i].ts == s.ts;
        assert HasTime(x, s.ts);
        var j :| 0 <= j < |x| && x[j].ts == s.ts;
        assert tx[j] == s;
      }
    }
    SameElements(tx, ty);
    assert forall i :: 0 <= i < |x| ==> tx[i].ts == x[i].ts;
    assert forall i :: 0 <= i < |y| ==> ty[i].ts == y[i].ts;
  }

  /** A stream's timestamps as a stream of its own. */
  function Stamped<V(!new)>(s: seq<Sample<V>>): seq<Sample<()>> {
    seq(|s|, i requires 0 <= i < |s| => Sample(s[i].ts, ()))
  }

  // ----- The values of a prefer-max merge -----

  /** The base sample at `k`, unless it opens the output, comes out with the larger of its value and the value of the
    first sample of the other side that has the same time or is strictly closer than the buffer. */
  lemma PreferMaxValue(out: seq<Sample<real>>, base: seq<Sample<real>>, other: seq<Sample<real>>, w: int,
                       k: nat, i: nat, t: int)
    requires base != [] && other != [] && |other| <= |base|
    requires Merged(out, base, other, w, true) || (|other| < |base| && Merged(out, other, base, w, true))
    requires k < |base| && t == base[k].ts && (k > 0 || other[0].ts < t - w)
    requires i < |other| && (other[i].ts == t || t - w < other[i].ts < t + w)
    requires forall j :: 0 <= j < i ==> other[j].ts != t && !(t - w < other[j].ts < t + w)
    ensures Sample(t, if other[i].v > base[k].v then other[i].v else base[k].v) in out
  {
    hide Merged, AntiAffinity, Raised;
    var up := RaisedBase(out, base, other, w);
    RaisedAt(out, up, base, other, w, k);
    assert IsFirstNear(other, t, w, i);
  }

  /** With its own value, if there is no such sample, or if it opens the output. */
  lemma PreferMaxAlone(out: seq<Sample<real>>, base: seq<Sample<real>>, other: seq<Sample<real>>, w: int, k: nat,
                       t: int)
    requires base != [] && other != [] && |other| <= |base|
    requires Merged(out, base, other, w, true) || (|other| < |base| && Merged(out, other, base, w, true))
    requires k < |base| && t == base[k].ts
    requires (k == 0 ==> other[0].ts < t - w) ==>
               forall j :: 0 <= j < |other| ==> other[j].ts != t && !(t - w < other[j].ts < t + w)
    ensures base[k] in out
  {
    hide Merged, AntiAffinity, Raised;
    var up := RaisedBase(out, base, other, w);
    RaisedAt(out, up, base, other, w, k);
    if !OpensOutput(base, other, w, k) {
      assert k == 0 ==> other[0].ts < t - w;
      assert forall j :: 0 <= j < |other| ==> !Near(other[j], t, w);
    }
  }

  lemma RaisedAt(out: seq<Sample<real>>, up: seq<Sample<real>>, base: seq<Sample<real>>, other: seq<Sample<real>>,
                 w: int, k: nat)
    requires base != [] && other != [] && k < |base|
    requires Raised(up, base, other, w) && AntiAffinity(out, up, other, w)
    ensures k < |up| && up[k] in out && up[k].ts == base[k].ts
    ensures if OpensOutput(base, other, w, k) then up[k] == base[k] else IsLarger(base, other, w, k, up[k].v)
  {
    hide IsLarger, Increasing, Far, OpensOutput;
    assert up[k] in up;
  }

  lemma RaisedBase(out: seq<Sample<real>>, base: seq<Sample<real>>, other: seq<Sample<real>>, w: int)
    returns (up: seq<Sample<real>>)
    requires base != [] && other != [] && |other| <= |base|
    requires Merged(out, base, other, w, true) || (|other| < |base| && Merged(out, other, base, w, true))
    ensures Raised(up, base, other, w) && AntiAffinity(out, up, other, w)
  {
    hide Raised, AntiAffinity;
    if Merged(out, base, other, w, true) {
      up :| StandsForBase(up, base, other, w, true) && AntiAffinity(out, up, Other(base, other), w);
    } else {
      up :| StandsForBase(up, other, base, w, true) && AntiAffinity(out, up, Other(other, base), w);
    }
  }

  /** And every other sample of the output is a sample of the other side, far from the base. */
  lemma PreferMaxRest(out: seq<Sample<real>>, base: seq<Sample<real>>, other: seq<Sample<real>>, w: int,
                      s: Sample<real>)
    requires base != [] && other != [] && |other| <= |base|
    requires Merged(out, base, other, w, true) || (|other| < |base| && Merged(out, other, base, w, true))
    requires s in out && !HasTime(base, s.ts)
    ensures s in other && Far(s.ts, base, w)
  {
    var up := RaisedBase(out, base, other, w);
    RaisedOf(up, base, other, w, s);
    FarByTime(s.ts, up, base, w);
  }

  lemma RaisedOf(up: seq<Sample<real>>, base: seq<Sample<real>>, other: seq<Sample<real>>, w: int, s: Sample<real>)
    requires base != [] && other != [] && Raised(up, base, other, w)
    ensures s in up ==> HasTime(base, s.ts)
  {
    if s in up {
      var j :| 0 <= j < |up| && up[j] == s;
      assert base[j].ts == s.ts;
    }
  }

  // ----- Where the values come from -----

  /** Without prefer-max every sample of the output is a sample of one side. */
  lemma MergedSamples(out: seq<Sample<real>>, a: seq<Sample<real>>, b: seq<Sample<real>>, w: int)
    requires Merged(out, a, b, w, false)
    ensures forall s :: s in out ==> s in a || s in b
  {
  }

  /** In either mode every value of the output is the value of a sample of one side. */
  lemma MergedValues(out: seq<Sample<real>>, a: seq<Sample<real>>, b: seq<Sample<real>>, w: int, preferMax: bool)
    requires Merged(out, a, b, w, preferMax)
    ensures forall s :: s in out ==> HasValue(a, s.v) || HasValue(b, s.v)
  {
    hide AntiAffinity, StandsForBase, HasValue;
    var up :| StandsForBase(up, a, b, w, preferMax) && AntiAffinity(out, up, Other(a, b), w);
    forall s | s in out ensures HasValue(a, s.v) || HasValue(b, s.v) {
      FromEither(out, up, Other(a, b), w, s);
      if s in up {
        StandInValue(up, a, b, w, preferMax, s);
      } else {
        ValueOf(Other(a, b), s);
      }
    }
  }

  ghost predicate HasValue<V(!new)>(s: seq<Sample<V>>, v: V) {
    exists i :: 0 <= i < |s| && s[i].v == v
  }

  lemma ValueOf<V(!new)>(s: seq<Sample<V>>, x: Sample<V>)
    requires x in s
    ensures HasValue(s, x.v)
  {
    var i :| 0 <= i < |s| && s[i] == x;
  }

  lemma FromEither<V(!new)>(out: seq<Sample<V>>, up: seq<Sample<V>>, other: seq<Sample<V>>, w: int, s: Sample<V>)
    requires AntiAffinity(out, up, other, w) && s in out
    ensures s in up || s in other
  {
  }

  lemma StandInValue(up: seq<Sample<real>>, a: seq<Sample<real>>, b: seq<Sample<real>>, w: int, preferMax: bool,
                     s: Sample<real>)
    requires StandsForBase(up, a, b, w, preferMax) && s in up
    ensures HasValue(a, s.v) || HasValue(b, s.v)
  {
    var k :| 0 <= k < |up| && up[k] == s;
    var base, other := Base(a, b), Other(a, b);
    if preferMax && a != [] && b != [] {
      hide HasValue, IsLarger, OpensOutput;
      ValueOf(base, base[k]);
      assert if OpensOutput(base, other, w, k) then up[k].v == base[k].v else IsLarger(base, other, w, k, up[k].v);
      if !OpensOutput(base, other, w, k) {
        LargerValue(base, other, w, k, s.v);
      }
    } else {
      ValueOf(base, s);
    }
  }

  lemma LargerValue(base: seq<Sample<real>>, b: seq<Sample<real>>, w: int, k: nat, v: real)
    requires k < |base| && IsLarger(base, b, w, k, v)
    ensures v == base[k].v || HasValue(b, v)
  {
    FirstNear(b, base[k].ts, w);
    hide Near;
    if i: nat :| IsFirstNear(b, base[k].ts, w, i) {
      assert v == if b[i].v > base[k].v then b[i].v else base[k].v;
    }
  }

  /** If any sample is near, one is the first. */
  lemma FirstNear<V(!new)>(b: seq<Sample<V>>, t: int, w: int)
    ensures (exists i: nat :: IsFirstNear(b, t, w, i)) || forall j :: 0 <= j < |b| ==> !Near(b[j], t, w)
  {
    hide Near;
    var i := 0;
    while i < |b| && !Near(b[i], t, w)
      invariant 0 <= i <= |b| && forall j :: 0 <= j < i ==> !Near(b[j], t, w)
    {
      i := i + 1;
    }
    assert i < |b| ==> IsFirstNear(b, t, w, i);
  }
}
