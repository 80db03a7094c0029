/** The counting behind every scatter call of pkg/promclient/multi_api.go: answers arrive in any order, are counted in
  buckets, and the call is given up as soon as some bucket cannot reach the required number of successes. */
module Quorum {
  import opened Options

  // ----- Errors -----

  /** An error, as far as ranking looks at it: which classes its chain holds. */
  datatype Error = Error(queryCanceled: bool, queryTimeout: bool, storage: bool, contextCanceled: bool, text: string)

  const RANK_CANCELED := 0
  const RANK_STORAGE := 1
  const RANK_TIMEOUT := 2
  const RANK_REFUSED := 3

  function ErrorRank(e: Error): int {
    if e.queryCanceled then RANK_CANCELED
    else if e.queryTimeout then RANK_TIMEOUT
    else if e.storage then RANK_STORAGE
    else if e.contextCanceled then RANK_CANCELED
    else RANK_REFUSED
  }

  /** How the APIs answer: None is a success. */
  type Errors = seq<Option<Error>>

  /** A query canceled ranks lowest whatever else the chain holds, then storage failures, then timeouts, and an error of
    none of these kinds, a refused query, ranks highest. */
  lemma ErrorRanks(e: Error)
    ensures e.queryCanceled ==> ErrorRank(e) == 0
    ensures !e.queryCanceled && e.queryTimeout ==> ErrorRank(e) == 2
    ensures !e.queryCanceled && !e.queryTimeout && e.storage ==> ErrorRank(e) == 1
    ensures !e.queryCanceled && !e.queryTimeout && !e.storage && e.contextCanceled ==> ErrorRank(e) == 0
    ensures !e.queryCanceled && !e.queryTimeout && !e.storage && !e.contextCanceled ==> ErrorRank(e) == 3
  {
  }

  /** Among the APIs in `from`, the failure at `i` is reported: none ranks higher, none of its rank is earlier. */
  ghost predicate IsWorst(i: nat, errs: Errors, from: set<nat>) {
    && i < |errs| && i in from && errs[i].Some?
    && forall j :: j in from && j < |errs| && errs[j].Some? ==>
         || ErrorRank(errs[j].value) < ErrorRank(errs[i].value)
         || (ErrorRank(errs[j].value) == ErrorRank(errs[i].value) && i <= j)
  }

  /** The choice is determined by which APIs failed and how, not by the order in which they did. */
  lemma WorstUnique(i: nat, j: nat, errs: Errors, from: set<nat>)
    requires IsWorst(i, errs, from) && IsWorst(j, errs, from)
    ensures i == j
  {
  }

  /** errorPicker. */
  class ErrorPicker {
    var err: Option<Error>
    var rank: int
    var i: nat

    constructor ()
      ensures err == None
    {
      err, rank, i := None, 0, 0;
    }

    /** The picker holds the error to report for the failures among `seen`. */
    ghost predicate Picks(errs: Errors, seen: set<nat>)
      reads this
    {
      if err == None then forall j :: j in seen && j < |errs| ==> errs[j] == None
      else IsWorst(i, errs, seen) && err == errs[i] && rank == ErrorRank(err.value)
    }

    method Add(i: nat, err: Error, ghost errs: Errors, ghost seen: set<nat>)
      requires Picks(errs, seen) && i < |errs| && errs[i] == Some(err)
      modifies this
      ensures Picks(errs, seen + {i}) && this.err.Some?
    {
      var r := ErrorRank(err);
      if this.err == None || r > rank || (r == rank && i < this.i) {
        this.err, rank, this.i := Some(err), r, i;
      }
    }
  }

  // ----- Buckets -----

  /** The API indices 0 .. n - 1. */
  ghost function Indices(n: nat): (r: set<nat>)
    ensures forall i: nat :: i in r <==> i < n
  {
    if n == 0 then {} else Indices(n - 1) + {n - 1}
  }

  /** The members of bucket `fp` among `from`. */
  ghost function Bucket(fps: seq<int>, from: set<nat>, fp: int): set<nat> {
    set i | i in from && i < |fps| && fps[i] == fp
  }

  /** Those of them that answered. */
  ghost function Answering(fps: seq<int>, errs: Errors, from: set<nat>, fp: int): set<nat> {
    set i | i in from && i < |fps| && i < |errs| && fps[i] == fp && errs[i] == None
  }

  /** Every bucket has at least `required` successes. */
  ghost predicate QuorumMet(fps: seq<int>, errs: Errors, required: int)
    requires |errs| == |fps|
  {
    forall fp :: fp in fps ==> |Answering(fps, errs, Indices(|fps|), fp)| >= required
  }

  /** NewMultiAPI accepts: every bucket is large enough. */
  ghost predicate Accepted(fps: seq<int>, required: int) {
    forall fp :: fp in fps ==> |Bucket(fps, Indices(|fps|), fp)| >= required
  }

  function Count(m: map<int, int>, fp: int): int {
    if fp in m then m[fp] else 0
  }

  lemma BucketStep(fps: seq<int>, k: nat, fp: int)
    requires k < |fps|
    ensures |Bucket(fps, Indices(k + 1), fp)| == |Bucket(fps, Indices(k), fp)| + (if fps[k] == fp then 1 else 0)
  {
    if fps[k] == fp {
      assert Bucket(fps, Indices(k + 1), fp) == Bucket(fps, Indices(k), fp) + {k};
    } else {
      assert Bucket(fps, Indices(k + 1), fp) == Bucket(fps, Indices(k), fp);
    }
  }

  lemma CountStep(counts: map<int, int>, fps: seq<int>, k: nat)
    requires k < |fps| && forall fp :: Count(counts, fp) == |Bucket(fps, Indices(k), fp)|
    ensures var counts' := counts[fps[k] := Count(counts, fps[k]) + 1];
            forall fp :: Count(counts', fp) == |Bucket(fps, Indices(k + 1), fp)|
  {
    var counts' := counts[fps[k] := Count(counts, fps[k]) + 1];
    forall fp ensures Count(counts', fp) == |Bucket(fps, Indices(k + 1), fp)| {
      BucketStep(fps, k, fp);
    }
  }

  /** The counting loop of NewMultiAPI, which every scatter call repeats. */
  method CountBuckets(fps: seq<int>) returns (counts: map<int, int>)
    ensures forall fp :: Count(counts, fp) == |Bucket(fps, Indices(|fps|), fp)|
  {
    counts := map[];
    var k := 0;
    assert forall fp :: Bucket(fps, Indices(0), fp) == {};
    hide Bucket, Indices;
    while k < |fps|
      invariant 0 <= k <= |fps|
      invariant forall fp :: Count(counts, fp) == |Bucket(fps, Indices(k), fp)|
    {
      CountStep(counts, fps, k);
      counts := counts[fps[k] := Count(counts, fps[k]) + 1];
      k := k + 1;
    }
  }

  /** Does every bucket reach `required`? The source ranges over the map of counts, whose keys are the fingerprints. */
  method AllReach(counts: map<int, int>, fps: seq<int>, required: int) returns (ok: bool)
    ensures ok <==> forall fp :: fp in fps ==> Count(counts, fp) >= required
  {
    var k := 0;
    while k < |fps|
      invariant 0 <= k <= |fps| && forall i :: 0 <= i < k ==> Count(counts, fps[i]) >= required
    {
      if Count(counts, fps[k]) < required {
        return false;
      }
      k := k + 1;
    }
    return true;
  }

  /** NewMultiAPI's check. */
  method NewMultiAPI(fps: seq<int>, required: int) returns (ok: bool)
    ensures ok <==> Accepted(fps, required)
  {
    hide Bucket, Indices;
    var counts := CountBuckets(fps);
    ok := AllReach(counts, fps, required);
  }

  lemma SplitBucket(fps: seq<int>, errs: Errors, seen: set<nat>, all: set<nat>, fp: int)
    requires seen <= all
    ensures |Answering(fps, errs, all, fp)| <= |Answering(fps, errs, seen, fp)| + |Bucket(fps, all - seen, fp)|
    ensures |Bucket(fps, all - seen, fp)| + |Bucket(fps, seen, fp)| == |Bucket(fps, all, fp)|
  {
    var a, b, c := Answering(fps, errs, all, fp), Answering(fps, errs, seen, fp), Bucket(fps, all - seen, fp);
    assert a <= b + c;
    SubsetSize(a, b + c);
    UnionSize(b, c);
    var d := Bucket(fps, seen, fp);
    assert c !! d && c + d == Bucket(fps, all, fp);
  }

  lemma {:induction false} SubsetSize(a: set<nat>, b: set<nat>)
    requires a <= b
    ensures |a| <= |b|
  {
    if a != {} {
      var x :| x in a;
      SubsetSize(a - {x}, b - {x});
    }
  }

  lemma UnionSize(b: set<nat>, c: set<nat>)
    ensures |b + c| <= |b| + |c|
  {
    assert b + c == b + (c - b);
    SubsetSize(c - b, c);
  }

  /** Counts after one more arrival. */
  lemma ArrivalStep(fps: seq<int>, errs: Errors, seen: set<nat>, all: set<nat>, i: nat, fp: int)
    requires i in all && i !in seen && i < |fps| == |errs|
    ensures |Answering(fps, errs, seen + {i}, fp)| ==
            |Answering(fps, errs, seen, fp)| + (if fps[i] == fp && errs[i] == None then 1 else 0)
    ensures |Bucket(fps, all - (seen + {i}), fp)| == |Bucket(fps, all - seen, fp)| - (if fps[i] == fp then 1 else 0)
  {
    hide Answering, Bucket;
    AnsweringStep(fps, errs, seen, i, fp);
    OutstandingStep(fps, seen, all, i, fp);
  }

  lemma AnsweringStep(fps: seq<int>, errs: Errors, seen: set<nat>, i: nat, fp: int)
    requires i !in seen && i < |fps| == |errs|
    ensures |Answering(fps, errs, seen + {i}, fp)| ==
            |Answering(fps, errs, seen, fp)| + (if fps[i] == fp && errs[i] == None then 1 else 0)
  {
    var a := Answering(fps, errs, seen, fp);
    assert Answering(fps, errs, seen + {i}, fp) == if fps[i] == fp && errs[i] == None then a + {i} else a;
  }

  lemma OutstandingStep(fps: seq<int>, seen: set<nat>, all: set<nat>, i: nat, fp: int)
    requires i in all && i !in seen && i < |fps|
    ensures |Bucket(fps, all - (seen + {i}), fp)| == |Bucket(fps, all - seen, fp)| - (if fps[i] == fp then 1 else 0)
  {
    var b := Bucket(fps, all - seen, fp);
    assert Bucket(fps, all - (seen + {i}), fp) == if fps[i] == fp then b - {i} else b;
  }

  // ----- The state of a call -----

  /** The counters agree with what has arrived, and no failure so far has put its bucket out of reach. */
  ghost predicate Tallied(fps: seq<int>, required: int, errs: Errors, outstanding: map<int, int>,
                          success: map<int, int>,
                          seen: set<nat>)
  {
    && |errs| == |fps| && seen <= Indices(|fps|)
    && (forall fp :: Count(outstanding, fp) == |Bucket(fps, Indices(|fps|) - seen, fp)|)
    && (forall fp :: Count(success, fp) == |Answering(fps, errs, seen, fp)|)
    && (forall i :: i in seen && errs[i].Some? ==> Count(outstanding, fps[i]) + Count(success, fps[i]) >= required)
  }

  lemma TalliedStart(fps: seq<int>, required: int, errs: Errors, counts: map<int, int>)
    requires |errs| == |fps|
    requires forall fp :: Count(counts, fp) == |Bucket(fps, Indices(|fps|), fp)|
    ensures Tallied(fps, required, errs, counts, map[], {})
  {
    assert Indices(|fps|) - {} == Indices(|fps|);
    assert forall fp :: Answering(fps, errs, {}, fp) == {};
  }

  lemma CountsMove(fps: seq<int>, errs: Errors, outstanding: map<int, int>, success: map<int, int>,
                   seen: set<nat>, i: nat, outstanding': map<int, int>, success': map<int, int>)
    requires |errs| == |fps| && seen <= Indices(|fps|) && i < |fps| && i !in seen
    requires forall fp :: Count(outstanding, fp) == |Bucket(fps, Indices(|fps|) - seen, fp)|
    requires forall fp :: Count(success, fp) == |Answering(fps, errs, seen, fp)|
    requires outstanding' == outstanding[fps[i] := Count(outstanding, fps[i]) - 1]
    requires success' == if errs[i] == None then success[fps[i] := Count(success, fps[i]) + 1] else success
    ensures forall fp :: Count(outstanding', fp) == |Bucket(fps, Indices(|fps|) - (seen + {i}), fp)|
    ensures forall fp :: Count(success', fp) == |Answering(fps, errs, seen + {i}, fp)|
  {
    hide Bucket, Answering, Indices;
    var all, now := Indices(|fps|), seen + {i};
    forall fp ensures Count(outstanding', fp) == |Bucket(fps, all - now, fp)|
              ensures Count(success', fp) == |Answering(fps, errs, now, fp)|
    {
      ArrivalStep(fps, errs, seen, all, i, fp);
    }
  }

  /** Counting one more arrival. */
  lemma TalliedStep(fps: seq<int>, required: int, errs: Errors, outstanding: map<int, int>, success: map<int, int>,
                    seen: set<nat>, i: nat, outstanding': map<int, int>, success': map<int, int>)
    requires Tallied(fps, required, errs, outstanding, success, seen) && i < |fps| && i !in seen
    requires outstanding' == outstanding[fps[i] := Count(outstanding, fps[i]) - 1]
    requires success' == if errs[i] == None then success[fps[i] := Count(success, fps[i]) + 1] else success
    ensures errs[i].Some? && Count(outstanding', fps[i]) + Count(success', fps[i]) < required ==>
              |Bucket(fps, Indices(|fps|) - (seen + {i}), fps[i])|
              + |Answering(fps, errs, seen + {i}, fps[i])| < required
    ensures errs[i] == None || Count(outstanding', fps[i]) + Count(success', fps[i]) >= required ==>
              Tallied(fps, required, errs, outstanding', success', seen + {i})
  {
    hide Bucket, Answering, Indices, Count;
    CountsMove(fps, errs, outstanding, success, seen, i, outstanding', success');
    if errs[i] == None || Count(outstanding', fps[i]) + Count(success', fps[i]) >= required {
      ReachKept(fps, required, errs, outstanding, success, seen, i, outstanding', success');
    }
  }

  lemma ReachKept(fps: seq<int>, required: int, errs: Errors, outstanding: map<int, int>, success: map<int, int>,
                  seen: set<nat>, i: nat, outstanding': map<int, int>, success': map<int, int>)
    requires |errs| == |fps| && i < |fps| && forall j :: j in seen ==> j < |fps|
    requires forall j :: j in seen && errs[j].Some? ==> Count(outstanding, fps[j]) + Count(success, fps[j]) >= required
    requires outstanding' == outstanding[fps[i] := Count(outstanding, fps[i]) - 1]
    requires success' == if errs[i] == None then success[fps[i] := Count(success, fps[i]) + 1] else success
    requires errs[i] == None || Count(outstanding', fps[i]) + Count(success', fps[i]) >= required
    ensures forall j :: j in seen + {i} && errs[j].Some? ==>
              Count(outstanding', fps[j]) + Count(success', fps[j]) >= required
  {
    hide Count;
    forall j | j in seen + {i} && errs[j].Some?
      ensures Count(outstanding', fps[j]) + Count(success', fps[j]) >= required
    {
      if j != i {
        SumKept(outstanding, success, outstanding', success', fps[i], fps[j], errs[i] == None);
      }
    }
  }

  /** A success moves one from outstanding to answered; a failure only takes one away from its own bucket. */
  lemma SumKept(outstanding: map<int, int>, success: map<int, int>, outstanding': map<int, int>,
                success': map<int, int>,
                fp: int, other: int, ok: bool)
    requires outstanding' == outstanding[fp := Count(outstanding, fp) - 1]
    requires success' == if ok then success[fp := Count(success, fp) + 1] else success
    ensures other != fp || ok ==>
              Count(outstanding', other) + Count(success', other) == Count(outstanding, other) + Count(success, other)
  {
  }

  /** At the end of the loop, large enough buckets have met the quorum. */
  lemma TalliedEnd(fps: seq<int>, required: int, errs: Errors, outstanding: map<int, int>, success: map<int, int>)
    requires Tallied(fps, required, errs, outstanding, success, Indices(|fps|)) && Accepted(fps, required)
    ensures QuorumMet(fps, errs, required)
  {
    var all := Indices(|fps|);
    forall fp | fp in fps ensures |Answering(fps, errs, all, fp)| >= required {
      if i :| i in all && fps[i] == fp && errs[i].Some? {
        assert Count(outstanding, fps[i]) + Count(success, fps[i]) >= required;
        assert Bucket(fps, all - all, fp) == {};
      } else {
        assert Answering(fps, errs, all, fp) == Bucket(fps, all, fp);
      }
    }
  }

  /** Giving up early is right: the whole call cannot succeed. */
  lemma AbortIsFinal(fps: seq<int>, required: int, errs: Errors, seen: set<nat>, i: nat)
    requires |errs| == |fps| && seen <= Indices(|fps|) && i < |fps|
    requires |Bucket(fps, Indices(|fps|) - seen, fps[i])| + |Answering(fps, errs, seen, fps[i])| < required
    ensures !QuorumMet(fps, errs, required)
  {
    SplitBucket(fps, errs, seen, Indices(|fps|), fps[i]);
    assert fps[i] in fps;
  }

  /** What a scatter call keeps while answers come in. `errs` is how each API will answer; those in `seen` have. */
  class Tally {
    const fps: seq<int>
    const required: int
    ghost const errs: Errors
    var outstanding: map<int, int>
    var success: map<int, int>
    const picker: ErrorPicker
    ghost var seen: set<nat>

    ghost predicate Valid()
      reads this, picker
    {
      |errs| == |fps| && Tallied(fps, required, errs, outstanding, success, seen) && picker.Picks(errs, seen)
    }

    constructor (fps: seq<int>, required: int, ghost errs: Errors)
      requires |errs| == |fps|
      ensures Valid() && seen == {} && fresh(this) && fresh(picker)
      ensures this.fps == fps && this.required == required && this.errs == errs
    {
      this.fps, this.required, this.errs := fps, required, errs;
      var counts := CountBuckets(fps);
      TalliedStart(fps, required, errs, counts);
      var chosen := new ErrorPicker();
      outstanding, success, picker, seen := counts, map[], chosen, {};
    }

    /** One answer arrives. `abort` means that its bucket can no longer reach the required number, whatever the
      outstanding answers will be. */
    method Arrive(i: nat, err: Option<Error>) returns (abort: bool)
      requires Valid() && i < |fps| && i !in seen && err == errs[i]
      modifies this`outstanding, this`success, this`seen, picker
      ensures seen == old(seen) + {i}
      ensures !abort ==> Valid()
      ensures abort ==> err.Some? && picker.Picks(errs, seen) && picker.err.Some?
      ensures abort ==> |Bucket(fps, Indices(|fps|) - seen, fps[i])| + |Answering(fps, errs, seen, fps[i])| < required
    {
      hide Tallied, Bucket, Answering, Indices, IsWorst;
      var fp := fps[i];
      ghost var success' := if err == None then success[fp := Count(success, fp) + 1] else success;
      TalliedStep(fps, required, errs, outstanding, success, seen, i,
                  outstanding[fp := Count(outstanding, fp) - 1], success');
      outstanding := outstanding[fp := Count(outstanding, fp) - 1];
      if err.Some? {
        picker.Add(i, err.value, errs, seen);
        abort := Count(outstanding, fp) + Count(success, fp) < required;
      } else {
        success := success[fp := Count(success, fp) + 1];
        abort := false;
        PicksMore(picker, errs, seen, i);
      }
      seen := seen + {i};
    }

    /** The check after the loop, over every bucket. */
    method Short() returns (short: bool)
      requires Valid() && seen == Indices(|fps|)
      ensures short <==> !QuorumMet(fps, errs, required)
      ensures Accepted(fps, required) ==> !short
    {
      if Accepted(fps, required) {
        TalliedEnd(fps, required, errs, outstanding, success);
      }
      hide Bucket, Answering, Indices;
      var ok := AllReach(success, fps, required);
      return !ok;
    }
  }

  lemma PicksMore(p: ErrorPicker, errs: Errors, seen: set<nat>, i: nat)
    requires p.Picks(errs, seen) && i < |errs| && errs[i] == None
    ensures p.Picks(errs, seen + {i})
  {
  }
}
