/** The scatter calls of pkg/promclient/multi_api.go. `order` is the order in which the answers happen to arrive; every
  promise below holds for all of them, and none of the successful results depends on it. */
module ScatterGather {
  import opened Options
  import opened Quorum

  datatype Answer<T> = Ok(v: T) | Fail(err: Error)

  /** `early` failures leave the loop before all answers are in. */
  datatype Outcome<T> = Success(value: T) | Failure(err: Error, early: bool)

  function ErrorsOf<T>(answers: seq<Answer<T>>): Errors {
    seq(|answers|, i requires 0 <= i < |answers| => if answers[i].Ok? then None else Some(answers[i].err))
  }

  /** Every API answers once. */
  ghost predicate Arrival(order: seq<nat>, n: nat) {
    && |order| == n
    && (forall i :: 0 <= i < n ==> order[i] < n)
    && (forall i, j :: 0 <= i < j < n ==> order[i] != order[j])
    && (forall x: nat :: x < n ==> x in order)
  }

  ghost function Arrived(order: seq<nat>, k: nat): set<nat>
    requires k <= |order|
  {
    set j | 0 <= j < k :: order[j]
  }

  lemma ArrivedStep(order: seq<nat>, k: nat, n: nat)
    requires Arrival(order, n) && k < n
    ensures order[k] < n && order[k] !in Arrived(order, k)
    ensures Arrived(order, k + 1) == Arrived(order, k) + {order[k]}
  {
  }

  lemma ArrivedAll(order: seq<nat>, n: nat)
    requires Arrival(order, n)
    ensures Arrived(order, n) == Indices(n) && Arrived(order, 0) == {}
  {
    forall x: nat ensures x in Arrived(order, n) <==> x in Indices(n) {
      if x < n {
        assert x in order;
        var j :| 0 <= j < |order| && order[j] == x;
      }
    }
  }

  /** A call without Key()s: one bucket. */
  ghost predicate OneBucket(fps: seq<int>) {
    forall i, j :: 0 <= i < |fps| && 0 <= j < |fps| ==> fps[i] == fps[j]
  }

  /** What a scatter call promises about success and failure. */
  ghost predicate Judged<T, U>(r: Outcome<U>, fps: seq<int>, required: int, answers: seq<Answer<T>>)
    requires |answers| == |fps|
  {
    var errs := ErrorsOf(answers);
    // For buckets that NewMultiAPI accepts it succeeds exactly when every bucket has enough successes, and the check
    // after the loop never fails ..
    && (Accepted(fps, required) ==> (r.Success? <==> QuorumMet(fps, errs, required)) && (r.Success? || r.early))
    // .. for other buckets a call in which nobody fails counts as a success too: there is no error to report ..
    && (r.Success? <==> QuorumMet(fps, errs, required) || NoneFailed(errs))
    // .. and with one bucket of which one success is enough, the error reported is determined.
    && (r.Failure? && OneBucket(fps) && required == 1 && fps != [] ==>
          exists i: nat :: IsWorst(i, errs, Indices(|fps|)) && Some(r.err) == errs[i] && AllFailed(errs))
  }

  ghost predicate AllFailed(errs: Errors) {
    forall i :: 0 <= i < |errs| ==> errs[i].Some?
  }

  ghost predicate NoneFailed(errs: Errors) {
    forall i :: 0 <= i < |errs| ==> errs[i].None?
  }

  /** When nobody fails, every bucket has as many successes as members. */
  lemma NoneFailedAccepted(fps: seq<int>, required: int, errs: Errors)
    requires |errs| == |fps| && NoneFailed(errs) && Accepted(fps, required)
    ensures QuorumMet(fps, errs, required)
  {
    var all := Indices(|fps|);
    forall fp | fp in fps ensures |Answering(fps, errs, all, fp)| >= required {
      assert Answering(fps, errs, all, fp) == Bucket(fps, all, fp);
    }
  }

  /** Leaving early is judged correctly. */
  lemma JudgeAbort<T, U>(fps: seq<int>, required: int, answers: seq<Answer<T>>, seen: set<nat>, i: nat, p: ErrorPicker,
                         r: Outcome<U>)
    requires |answers| == |fps| && seen <= Indices(|fps|) && i < |fps|
    requires |Bucket(fps, Indices(|fps|) - seen, fps[i])| + |Answering(fps, ErrorsOf(answers), seen, fps[i])| < required
    requires p.Picks(ErrorsOf(answers), seen) && p.err.Some? && r == Failure(p.err.value, true)
    ensures Judged(r, fps, required, answers)
  {
    var errs, all := ErrorsOf(answers), Indices(|fps|);
    AbortIsFinal(fps, required, errs, seen, i);
    assert errs[p.i].Some?;
    if OneBucket(fps) && required == 1 {
      LastToFail(fps, errs, seen, i);
      assert IsWorst(p.i, errs, all);
    }
  }

  /** With one bucket and one success required, giving up means that everybody has failed. */
  lemma LastToFail(fps: seq<int>, errs: Errors, seen: set<nat>, i: nat)
    requires |errs| == |fps| && seen <= Indices(|fps|) && i < |fps| && OneBucket(fps)
    requires |Bucket(fps, Indices(|fps|) - seen, fps[i])| + |Answering(fps, errs, seen, fps[i])| < 1
    ensures seen == Indices(|fps|) && AllFailed(errs)
  {
    var rest, ok := Bucket(fps, Indices(|fps|) - seen, fps[i]), Answering(fps, errs, seen, fps[i]);
    assert rest == {} && ok == {};
    forall j: nat | j in Indices(|fps|) ensures j in seen {
      assert j !in rest;
    }
    forall j | 0 <= j < |errs| ensures errs[j].Some? {
      assert j !in ok;
    }
  }

  lemma JudgeShort<T, U>(fps: seq<int>, required: int, answers: seq<Answer<T>>, t: Tally, r: Outcome<U>)
    requires |answers| == |fps| && t.Valid() && t.seen == Indices(|fps|) && t.fps == fps && t.required == required
    requires t.errs == ErrorsOf(answers) && !QuorumMet(fps, t.errs, required) && !Accepted(fps, required)
    requires if t.picker.err.Some? then r == Failure(t.picker.err.value, false) else r.Success?
    ensures Judged(r, fps, required, answers)
    ensures r.Success? ==> !Accepted(fps, required) && NoneFailed(ErrorsOf(answers))
  {
    ReachesOne(fps);
  }

  /** What the check after the loop returns when a bucket fell short: the error picked, if any. Wrapping no error is no
    error, so with nothing picked the call gives an empty success. */
  function ShortOutcome<T>(err: Option<Error>): Outcome<seq<T>> {
    if err.Some? then Failure(err.value, false) else Success([])
  }

  /** Every bucket that exists has a member. */
  lemma ReachesOne(fps: seq<int>)
    ensures Accepted(fps, 1)
  {
    var all := Indices(|fps|);
    forall fp | fp in fps ensures |Bucket(fps, all, fp)| >= 1 {
      var i :| 0 <= i < |fps| && fps[i] == fp;
      assert i in Bucket(fps, all, fp);
    }
  }

  lemma JudgeSuccess<T, U>(fps: seq<int>, required: int, answers: seq<Answer<T>>, r: Outcome<U>)
    requires |answers| == |fps| && QuorumMet(fps, ErrorsOf(answers), required) && r.Success?
    ensures Judged(r, fps, required, answers)
  {
    if NoneFailed(ErrorsOf(answers)) && Accepted(fps, required) {
      NoneFailedAccepted(fps, required, ErrorsOf(answers));
    }
  }

  // ----- Series sets -----

  /** The successful answers in API order. */
  function Answered<T>(answers: seq<Answer<T>>): seq<T> {
    if answers == [] then []
    else
      var init := Answered(answers[..|answers|-1]);
      if answers[|answers|-1].Ok? then init + [answers[|answers|-1].v] else init
  }

  /** The indices of the successful answers, in order. */
  ghost predicate OkIndices<T>(indices: seq<nat>, answers: seq<Answer<T>>) {
    && (forall a, b :: 0 <= a < b < |indices| ==> indices[a] < indices[b])
    && (forall i: nat :: i in indices <==> i < |answers| && answers[i].Ok?)
  }

  /** The values at exactly these indices, in that order, are what a successful call passes on. */
  lemma {:induction false} AnsweredIndices<T(!new)>(answers: seq<Answer<T>>) returns (indices: seq<nat>)
    ensures OkIndices(indices, answers) && |Answered(answers)| == |indices|
    ensures forall j :: 0 <= j < |indices| ==>
              indices[j] < |answers| && answers[indices[j]].Ok? && Answered(answers)[j] == answers[indices[j]].v
    decreases |answers|
  {
    indices := [];
    if answers != [] {
      var n := |answers| - 1;
      indices := AnsweredIndices(answers[..n]);
      assert forall j :: 0 <= j < |indices| ==> indices[j] in indices;
      if answers[n].Ok? {
        indices := indices + [n];
      }
    }
  }

  function Filled<T>(slots: seq<Option<T>>): seq<T> {
    if slots == [] then []
    else
      var init := Filled(slots[..|slots|-1]);
      if slots[|slots|-1].Some? then init + [slots[|slots|-1].value] else init
  }

  lemma {:induction false} FilledSlots<T(!new)>(slots: seq<Option<T>>, answers: seq<Answer<T>>)
    requires |slots| == |answers|
    requires forall i :: 0 <= i < |slots| ==> slots[i] == if answers[i].Ok? then Some(answers[i].v) else None
    ensures Filled(slots) == Answered(answers)
    decreases |slots|
  {
    if slots != [] {
      FilledSlots(slots[..|slots|-1], answers[..|answers|-1]);
    }
  }

  ghost predicate Slotted<T(!new)>(slots: seq<Option<T>>, answers: seq<Answer<T>>, seen: set<nat>) {
    && |slots| == |answers|
    && forall i :: 0 <= i < |slots| ==> slots[i] == if i in seen && answers[i].Ok? then Some(answers[i].v) else None
  }

  /** scatterMerge, up to the merge itself: which sets reach it, and in which order. */
  method ScatterMerge<T(!new)>(fps: seq<int>, required: int, answers: seq<Answer<T>>, order: seq<nat>)
    returns (r: Outcome<seq<T>>)
    requires |answers| == |fps| && Arrival(order, |fps|)
    ensures Judged(r, fps, required, answers)
    ensures r.Success? ==> r.value == if QuorumMet(fps, ErrorsOf(answers), required) then Answered(answers) else []
  {
    hide Arrival, Arrived, Judged, QuorumMet, Accepted, Tallied;
    var errs := ErrorsOf(answers);
    var t := new Tally(fps, required, errs);
    var slots: seq<Option<T>> := seq(|fps|, i => None);
    ArrivedAll(order, |fps|);
    ArrivalSize(order, |fps|);
    var k := 0;
    while k < |fps|
      invariant 0 <= k <= |fps| && t.Valid() && t.seen == Arrived(order, k)
      invariant fresh(t) && fresh(t.picker) && t.fps == fps && t.required == required && t.errs == errs
      invariant Slotted(slots, answers, t.seen)
    {
      ArrivedStep(order, k, |fps|);
      var i := order[k];
      var abort := t.Arrive(i, errs[i]);
      if abort {
        r := Failure(t.picker.err.value, true);
        SeenBound(order, k + 1, |fps|);
        JudgeAbort(fps, required, answers, t.seen, i, t.picker, r);
        return;
      }
      if answers[i].Ok? {
        slots := slots[i := Some(answers[i].v)];
      }
      k := k + 1;
    }
    var short := t.Short();
    if short {
      r := ShortOutcome(t.picker.err);
      JudgeShort(fps, required, answers, t, r);
      return;
    }
    FilledSlots(slots, answers);
    r := Success(Filled(slots));
    JudgeSuccess(fps, required, answers, r);
  }

  lemma ArrivalSize(order: seq<nat>, n: nat)
    requires Arrival(order, n)
    ensures |order| == n
  {
  }

  lemma SeenBound(order: seq<nat>, k: nat, n: nat)
    requires Arrival(order, n) && k <= n
    ensures |order| == n && Arrived(order, k) <= Indices(n)
  {
  }

  // ----- Two levels: targets inside server groups -----

  /** APIs that expose no Key() share one fingerprint. */
  function Unkeyed(n: nat): (fps: seq<int>)
    ensures |fps| == n && forall i :: 0 <= i < n ==> fps[i] == 0
  {
    seq(n, i => 0)
  }

  lemma {:induction false} IndicesSize(n: nat)
    ensures |Indices(n)| == n
  {
    if n > 0 {
      IndicesSize(n - 1);
    }
  }

  /** One success is enough for a non-empty server group. */
  lemma AnyEnough(n: nat, errs: Errors)
    requires |errs| == n
    ensures QuorumMet(Unkeyed(n), errs, 1) <==> n == 0 || exists i :: 0 <= i < n && errs[i] == None
  {
    var fps := Unkeyed(n);
    var ok := Answering(fps, errs, Indices(n), 0);
    if n > 0 {
      assert fps[0] in fps;
      if i :| 0 <= i < n && errs[i] == None {
        assert i in ok;
        assert |ok| >= 1;
      } else {
        assert ok == {};
      }
      assert forall fp :: fp in fps ==> fp == 0;
    }
  }

  /** The top level needs every server group. */
  lemma AllNeeded(n: nat, errs: Errors)
    requires |errs| == n
    ensures QuorumMet(Unkeyed(n), errs, n) <==> forall i :: 0 <= i < n ==> errs[i] == None
  {
    var fps := Unkeyed(n);
    var all := Indices(n);
    var ok := Answering(fps, errs, all, 0);
    IndicesSize(n);
    if n > 0 {
      assert fps[0] in fps;
      assert forall fp :: fp in fps ==> fp == 0;
      if forall i :: 0 <= i < n ==> errs[i] == None {
        assert ok == all;
      } else {
        var i :| 0 <= i < n && errs[i] != None;
        assert ok <= all - {i};
        SubsetSize(ok, all - {i});
      }
    }
  }

  lemma AllNeededAccepted(n: nat)
    ensures Accepted(Unkeyed(n), n)
  {
    var fps := Unkeyed(n);
    IndicesSize(n);
    forall fp | fp in fps ensures |Bucket(fps, Indices(n), fp)| >= n {
      assert Bucket(fps, Indices(n), fp) == Indices(n);
    }
  }

  /** A server group answers, or need not: it has no targets, its errors are ignored, or some target succeeds. */
  predicate GroupAnswers<T>(targets: seq<Answer<T>>, ignoreError: bool) {
    targets == [] || ignoreError || exists i :: 0 <= i < |targets| && targets[i].Ok?
  }

  lemma {:induction false} NothingAnswered<T(!new)>(answers: seq<Answer<T>>)
    requires forall i :: 0 <= i < |answers| ==> !answers[i].Ok?
    ensures Answered(answers) == []
    decreases |answers|
  {
    if answers != [] {
      NothingAnswered(answers[..|answers|-1]);
    }
  }

  lemma {:induction false} AllAnswered<T(!new)>(answers: seq<Answer<T>>)
    requires forall i :: 0 <= i < |answers| ==> answers[i].Ok?
    ensures |Answered(answers)| == |answers|
    ensures forall i :: 0 <= i < |answers| ==> Answered(answers)[i] == answers[i].v
    decreases |answers|
  {
    if answers != [] {
      AllAnswered(answers[..|answers|-1]);
    }
  }

  lemma GroupAnswersIs<T>(targets: seq<Answer<T>>, ignoreError: bool)
    ensures GroupAnswers(targets, ignoreError) <==>
            targets == [] || ignoreError || exists i :: 0 <= i < |targets| && targets[i].Ok?
  {
  }

  /** A server group: its targets reach NewMultiAPI without keys, one success is enough, and a group configured to do so
    turns its error into an empty answer. */
  method GroupQuery<T(!new)>(targets: seq<Answer<T>>, ignoreError: bool, order: seq<nat>) returns (r: Answer<seq<T>>)
    requires Arrival(order, |targets|)
    ensures r.Ok? <==> targets == [] || ignoreError || exists i :: 0 <= i < |targets| && targets[i].Ok?
    ensures r.Ok? ==> r.v == Answered(targets)
  {
    hide Arrival, QuorumMet, Accepted, Answered;
    var n := |targets|;
    var out := ScatterMerge(Unkeyed(n), 1, targets, order);
    AnyEnough(n, ErrorsOf(targets));
    ReachesOne(Unkeyed(n));
    assert forall i :: 0 <= i < n ==> (ErrorsOf(targets)[i] == None <==> targets[i].Ok?);
    match out {
      case Success(sets) => r := Ok(sets);
      case Failure(err, _) =>
        NothingAnswered(targets);
        r := if ignoreError then Ok([]) else Fail(err);
    }
  }

  /** A query through both levels succeeds exactly when every server group answers, and then brings back, group by group
    in order, what the group's successful targets gave. */
  method StackedQuery<T(!new)>(groups: seq<seq<Answer<T>>>, ignoreError: seq<bool>, orders: seq<seq<nat>>,
                               topOrder: seq<nat>)
    returns (r: Outcome<seq<seq<T>>>)
    requires |ignoreError| == |orders| == |groups| && Arrival(topOrder, |groups|)
    requires forall g :: 0 <= g < |groups| ==> Arrival(orders[g], |groups[g]|)
    ensures r.Success? <==> forall g :: 0 <= g < |groups| ==> GroupAnswers(groups[g], ignoreError[g])
    ensures r.Success? || r.early
    ensures r.Success? ==> |r.value| == |groups| && forall g :: 0 <= g < |groups| ==> r.value[g] == Answered(groups[g])
  {
    hide Arrival, QuorumMet, Accepted, GroupAnswers, Answered;
    var n := |groups|;
    var answers: seq<Answer<seq<T>>> := [];
    var g := 0;
    while g < n
      invariant 0 <= g <= n && |answers| == g
      invariant forall h :: 0 <= h < g ==> (answers[h].Ok? <==> GroupAnswers(groups[h], ignoreError[h]))
      invariant forall h :: 0 <= h < g && answers[h].Ok? ==> answers[h].v == Answered(groups[h])
    {
      var a := GroupQuery(groups[g], ignoreError[g], orders[g]);
      GroupAnswersIs(groups[g], ignoreError[g]);
      answers := answers + [a];
      g := g + 1;
    }
    r := ScatterMerge(Unkeyed(n), n, answers, topOrder);
    AllNeeded(n, ErrorsOf(answers));
    AllNeededAccepted(n);
    assert forall h :: 0 <= h < n ==> (ErrorsOf(answers)[h] == None <==> answers[h].Ok?);
    if r.Success? {
      AllAnswered(answers);
    }
  }
}
