/** The scatter calls whose answers are lists: label names, label values and exemplars (pkg/promclient/multi_api.go).
  They are merged as they arrive, in completion order, and yet the result is the same for every order. */
module MergedAnswers {
  import opened Options
  import opened Quorum
  import opened Sorting
  import opened ScatterGather

  ghost predicate NoRepeats<T(!new)>(s: seq<T>) {
    forall i, j :: 0 <= i < j < |s| ==> s[i] != s[j]
  }

  /** `x` is in some successful answer among `from`. */
  ghost predicate Mentioned<T(!new)>(x: T, answers: seq<Answer<seq<T>>>, from: set<nat>) {
    exists i: nat :: i in from && i < |answers| && answers[i].Ok? && x in answers[i].v
  }

  /** The sorted union of the successful answers. */
  ghost predicate SortedUnion<T(!new)>(r: seq<T>, answers: seq<Answer<seq<T>>>, le: (T, T) -> bool) {
    && Ascending(r, le) && NoRepeats(r)
    && forall x :: x in r <==> Mentioned(x, answers, Indices(|answers|))
  }

  lemma {:induction false} NoRepeatsMultiset<T(!new)>(s: seq<T>)
    requires NoRepeats(s)
    ensures forall x :: multiset(s)[x] == if x in s then 1 else 0
    decreases |s|
  {
    if s != [] {
      var init, last := s[..|s|-1], s[|s|-1];
      NoRepeatsMultiset(init);
      assert s == init + [last];
    }
  }

  lemma NoRepeatsFrom<T(!new)>(s: seq<T>, i: nat, j: nat)
    requires i < j < |s| && s[i] == s[j]
    ensures multiset(s)[s[i]] >= 2
  {
    assert s == s[..j] + s[j..];
    assert s[i] in s[..j] && s[j] in s[j..] by {
      assert s[..j][i] == s[i] && s[j..][0] == s[j];
    }
    assert multiset(s) == multiset(s[..j]) + multiset(s[j..]);
  }

  lemma SortKeepsElements<T(!new)>(s: seq<T>, le: (T, T) -> bool)
    requires TotalOrder(le)
    ensures Ascending(Sort(s, le), le) && (forall x :: x in Sort(s, le) <==> x in s)
    ensures NoRepeats(s) ==> NoRepeats(Sort(s, le))
  {
    SortSorts(s, le);
    var r := Sort(s, le);
    forall x ensures x in r <==> x in s {
      assert x in multiset(r) <==> x in multiset(s);
    }
    hide Ascending;
    if NoRepeats(s) {
      NoRepeatsMultiset(s);
      forall i, j | 0 <= i < j < |r| ensures r[i] != r[j] {
        if r[i] == r[j] {
          NoRepeatsFrom(r, i, j);
        }
      }
    }
  }

  /** The sorted union does not depend on arrival order: there is only one. */
  lemma SortedUnionUnique<T(!new)>(a: seq<T>, b: seq<T>, answers: seq<Answer<seq<T>>>, le: (T, T) -> bool)
    requires TotalOrder(le) && SortedUnion(a, answers, le) && SortedUnion(b, answers, le)
    ensures a == b
  {
    hide Mentioned;
    NoRepeatsMultiset(a);
    NoRepeatsMultiset(b);
    assert multiset(a) == multiset(b);
    SortedUnique(a, b, le);
  }

  lemma MentionedStep<T(!new)>(answers: seq<Answer<seq<T>>>, seen: set<nat>, i: nat)
    requires i < |answers|
    ensures forall x :: Mentioned(x, answers, seen + {i}) <==>
                        Mentioned(x, answers, seen) || (answers[i].Ok? && x in answers[i].v)
    ensures forall x :: !Mentioned(x, answers, {})
  {
    forall x ensures Mentioned(x, answers, seen + {i}) <==>
                     Mentioned(x, answers, seen) || (answers[i].Ok? && x in answers[i].v)
    {
      if Mentioned(x, answers, seen) {
        var j: nat :| j in seen && j < |answers| && answers[j].Ok? && x in answers[j].v;
        assert j in seen + {i};
      }
      if answers[i].Ok? && x in answers[i].v {
        assert i in seen + {i};
      }
    }
  }

  // ----- Label names -----

  /** The elements of a set in some order, as ranging over a map gives them. */
  method Elements(s: set<string>) returns (r: seq<string>)
    ensures NoRepeats(r) && forall x :: x in r <==> x in s
  {
    r := [];
    var todo := s;
    while todo != {}
      invariant todo <= s && NoRepeats(r)
      invariant forall x :: x in r <==> x in s && x !in todo
      decreases |todo|
    {
      var x :| x in todo;
      r := r + [x];
      todo := todo - {x};
    }
  }

  /** MultiAPI.LabelNames. */
  method LabelNames(fps: seq<int>, required: int, answers: seq<Answer<seq<string>>>, order: seq<nat>)
    returns (r: Outcome<seq<string>>)
    requires |answers| == |fps| && Arrival(order, |fps|)
    ensures Judged(r, fps, required, answers)
    ensures r.Success? && !QuorumMet(fps, ErrorsOf(answers), required) ==> r.value == []
    ensures r.Success? && QuorumMet(fps, ErrorsOf(answers), required) ==> SortedUnion(r.value, answers, StringLe)
  {
    hide Arrival, Arrived, Judged, QuorumMet, Accepted, Tallied, Mentioned, TotalOrder, NoRepeats, Ascending;
    var errs := ErrorsOf(answers);
    var t := new Tally(fps, required, errs);
    var result: set<string> := {};
    ArrivedAll(order, |fps|);
    ArrivalSize(order, |fps|);
    NothingMentioned(answers);
    var k := 0;
    while k < |fps|
      invariant 0 <= k <= |fps| && t.Valid() && t.seen == Arrived(order, k)
      invariant fresh(t) && fresh(t.picker) && t.fps == fps && t.required == required && t.errs == errs
      invariant forall x :: x in result <==> Mentioned(x, answers, t.seen)
    {
      ArrivedStep(order, k, |fps|);
      var i := order[k];
      MentionedStep(answers, t.seen, i);
      var abort := t.Arrive(i, errs[i]);
      if abort {
        r := Failure(t.picker.err.value, true);
        SeenBound(order, k + 1, |fps|);
        JudgeAbort(fps, required, answers, t.seen, i, t.picker, r);
        return;
      }
      if answers[i].Ok? {
        result := result + (set x | x in answers[i].v);
      }
      k := k + 1;
    }
    var short := t.Short();
    if short {
      r := ShortOutcome(t.picker.err);
      JudgeShort(fps, required, answers, t, r);
      return;
    }
    var names := Elements(result);
    StringOrder();
    SortKeepsElements(names, StringLe);
    r := Success(Sort(names, StringLe));
    JudgeSuccess(fps, required, answers, r);
  }

  lemma NothingMentioned<T(!new)>(answers: seq<Answer<seq<T>>>)
    ensures forall x :: !Mentioned(x, answers, {})
  {
  }

  // ----- Label values -----

  /** Append to `a` what it does not hold yet; `known` is what it holds. */
  method AppendNew<T(==,!new)>(a: seq<T>, known: set<T>, b: seq<T>) returns (r: seq<T>, known': set<T>)
    requires forall x :: x in known <==> x in a
    ensures forall x :: x in r <==> x in a || x in b
    ensures forall x :: x in known' <==> x in r
    ensures NoRepeats(a) ==> NoRepeats(r)
  {
    r, known' := a, known;
    var k := 0;
    while k < |b|
      invariant 0 <= k <= |b|
      invariant forall x :: x in known' <==> x in r
      invariant forall x :: x in r <==> x in a || x in b[..k]
      invariant NoRepeats(a) ==> NoRepeats(r)
    {
      assert b[..k+1] == b[..k] + [b[k]];
      if b[k] !in known' {
        r := r + [b[k]];
        known' := known' + {b[k]};
      }
      k := k + 1;
    }
    assert b[..k] == b;
  }

  /** MergeLabelValues: append what is new. */
  method MergeLabelValues(a: seq<string>, b: seq<string>) returns (r: seq<string>)
    ensures forall x :: x in r <==> x in a || x in b
    ensures NoRepeats(a) ==> NoRepeats(r)
  {
    var known;
    r, known := AppendNew(a, (set x | x in a), b);
  }

  /** MultiAPI.LabelValues. The first answer is taken over as it is, so repeats inside it survive; when no answer
    repeats itself the result is the sorted union. */
  method LabelValues(fps: seq<int>, required: int, answers: seq<Answer<seq<string>>>, order: seq<nat>)
    returns (r: Outcome<seq<string>>)
    requires |answers| == |fps| && Arrival(order, |fps|)
    ensures Judged(r, fps, required, answers)
    ensures r.Success? && !QuorumMet(fps, ErrorsOf(answers), required) ==> r.value == []
    ensures r.Success? && QuorumMet(fps, ErrorsOf(answers), required) ==>
              Ascending(r.value, StringLe) && forall x :: x in r.value <==> Mentioned(x, answers, Indices(|fps|))
    ensures r.Success? && QuorumMet(fps, ErrorsOf(answers), required)
            && (forall i :: 0 <= i < |answers| && answers[i].Ok? ==> NoRepeats(answers[i].v)) ==>
              SortedUnion(r.value, answers, StringLe)
  {
    hide Arrival, Arrived, Judged, QuorumMet, Accepted, Tallied, Mentioned, TotalOrder, NoRepeats, Ascending;
    ghost var clean := forall i :: 0 <= i < |answers| && answers[i].Ok? ==> NoRepeats(answers[i].v);
    var errs := ErrorsOf(answers);
    var t := new Tally(fps, required, errs);
    var result: Option<seq<string>> := None;
    ghost var values: seq<string> := [];
    ArrivedAll(order, |fps|);
    ArrivalSize(order, |fps|);
    NothingMentioned(answers);
    NothingRepeats<string>();
    var k := 0;
    while k < |fps|
      invariant 0 <= k <= |fps| && t.Valid() && t.seen == Arrived(order, k)
      invariant fresh(t) && fresh(t.picker) && t.fps == fps && t.required == required && t.errs == errs
      invariant values == if result == None then [] else result.value
      invariant forall x :: x in values <==> Mentioned(x, answers, t.seen)
      invariant clean ==> NoRepeats(values)
    {
      ArrivedStep(order, k, |fps|);
      var i := order[k];
      MentionedStep(answers, t.seen, i);
      var abort := t.Arrive(i, errs[i]);
      if abort {
        r := Failure(t.picker.err.value, true);
        SeenBound(order, k + 1, |fps|);
        JudgeAbort(fps, required, answers, t.seen, i, t.picker, r);
        return;
      }
      if answers[i].Ok? {
        if result == None {
          result := Some(answers[i].v);
        } else {
          var merged := MergeLabelValues(result.value, answers[i].v);
          result := Some(merged);
        }
        values := result.value;
      }
      k := k + 1;
    }
    var short := t.Short();
    if short {
      r := ShortOutcome(t.picker.err);
      JudgeShort(fps, required, answers, t, r);
      return;
    }
    StringOrder();
    SortKeepsElements(values, StringLe);
    r := Success(Sort(if result == None then [] else result.value, StringLe));
    JudgeSuccess(fps, required, answers, r);
  }

  lemma NothingRepeats<T(!new)>()
    ensures NoRepeats<T>([])
  {
  }

  // ----- Exemplars -----

  /** An exemplar is identified by its timestamp, value and labels (here: their canonical text). */
  datatype Exemplar = Exemplar(ts: int, value: real, labels: string)

  /** The exemplars of one series; the series is named by the canonical text of its labels. */
  datatype ExemplarSeries = ExemplarSeries(labels: string, exemplars: seq<Exemplar>)

  predicate ExemplarLe(a: Exemplar, b: Exemplar) {
    if a.ts != b.ts then a.ts < b.ts
    else if a.value != b.value then a.value < b.value
    else StringLe(a.labels, b.labels)
  }

  /** The order of SortExemplars is total over exactly the fields that identify an exemplar. */
  lemma ExemplarOrder()
    ensures TotalOrder(ExemplarLe)
  {
    StringOrder();
    hide StringLe;
  }

  /** Which is by time, then by value, then by labels. */
  lemma ExemplarLeMeaning(a: Exemplar, b: Exemplar)
    ensures a.ts < b.ts ==> ExemplarLe(a, b) && !ExemplarLe(b, a)
    ensures a.ts == b.ts && a.value < b.value ==> ExemplarLe(a, b) && !ExemplarLe(b, a)
    ensures a.ts == b.ts && a.value == b.value ==> (ExemplarLe(a, b) <==> StringLe(a.labels, b.labels))
  {
  }

  function Names(v: seq<ExemplarSeries>): seq<string> {
    seq(|v|, i requires 0 <= i < |v| => v[i].labels)
  }

  /** Everything an answer says about one series. */
  function Of(v: seq<ExemplarSeries>, name: string): seq<Exemplar> {
    if v == [] then []
    else
      var init := Of(v[..|v|-1], name);
      if v[|v|-1].labels == name then init + v[|v|-1].exemplars else init
  }

  /** What one answer holds for a series: the exemplars of every entry with its labels. */
  lemma {:induction false} OfMeaning(v: seq<ExemplarSeries>, name: string, e: Exemplar)
    ensures e in Of(v, name) <==> exists j :: 0 <= j < |v| && v[j].labels == name && e in v[j].exemplars
    decreases |v|
  {
    if v != [] {
      OfMeaning(v[..|v|-1], name, e);
    }
  }

  function NameAnswers(answers: seq<Answer<seq<ExemplarSeries>>>): (r: seq<Answer<seq<string>>>)
    ensures |r| == |answers|
  {
    seq(|answers|, i requires 0 <= i < |answers| =>
      if answers[i].Ok? then Ok(Names(answers[i].v)) else Fail(answers[i].err))
  }

  function SeriesAnswers(answers: seq<Answer<seq<ExemplarSeries>>>, name: string): (r: seq<Answer<seq<Exemplar>>>)
    ensures |r| == |answers|
  {
    seq(|answers|, i requires 0 <= i < |answers| =>
      if answers[i].Ok? then Ok(Of(answers[i].v, name)) else Fail(answers[i].err))
  }

  /** What has been collected: by series, without repeats, and a set beside each list to recognise repeats. */
  ghost predicate Collected(merged: map<string, seq<Exemplar>>, seen: map<string, set<Exemplar>>) {
    && seen.Keys == merged.Keys
    && forall name :: name in merged ==>
         NoRepeats(merged[name]) && forall e :: e in seen[name] <==> e in merged[name]
  }

  function ListOf(merged: map<string, seq<Exemplar>>, name: string): seq<Exemplar> {
    if name in merged then merged[name] else []
  }

  /** The merge of one answer into what has been collected. */
  method AddAnswer(merged: map<string, seq<Exemplar>>, seen: map<string, set<Exemplar>>, v: seq<ExemplarSeries>)
    returns (merged': map<string, seq<Exemplar>>, seen': map<string, set<Exemplar>>)
    requires Collected(merged, seen)
    ensures Collected(merged', seen')
    ensures forall name :: name in merged' <==> name in merged || name in Names(v)
    ensures forall name, e :: e in ListOf(merged', name) <==> e in ListOf(merged, name) || e in Of(v, name)
  {
    hide NoRepeats, Of, ListOf, Collected, Names;
    merged', seen' := merged, seen;
    var j := 0;
    OfStep(v, 0);
    while j < |v|
      invariant 0 <= j <= |v| && Collected(merged', seen')
      invariant forall name :: name in merged' <==> name in merged || name in Names(v[..j])
      invariant forall name, e :: e in ListOf(merged', name) <==> e in ListOf(merged, name) || e in Of(v[..j], name)
    {
      var name := v[j].labels;
      OfStep(v, j);
      CollectedAt(merged', seen', name);
      var list, known := AppendNew(ListOf(merged', name), if name in seen' then seen'[name] else {}, v[j].exemplars);
      CollectedStep(merged', seen', name, list, known);
      merged', seen' := merged'[name := list], seen'[name := known];
      j := j + 1;
    }
    assert v[..j] == v;
  }

  lemma OfStep(v: seq<ExemplarSeries>, j: nat)
    ensures j < |v| ==> Names(v[..j+1]) == Names(v[..j]) + [v[j].labels]
    ensures j < |v| ==> forall name ::
              Of(v[..j+1], name) == Of(v[..j], name) + if v[j].labels == name then v[j].exemplars else []
    ensures Names([]) == [] && forall name :: Of([], name) == []
  {
    if j < |v| {
      assert v[..j+1][..j] == v[..j];
    }
  }

  lemma CollectedAt(merged: map<string, seq<Exemplar>>, seen: map<string, set<Exemplar>>, name: string)
    requires Collected(merged, seen)
    ensures name in seen <==> name in merged
    ensures NoRepeats(ListOf(merged, name))
    ensures forall e :: e in (if name in seen then seen[name] else {}) <==> e in ListOf(merged, name)
  {
  }

  lemma CollectedStep(merged: map<string, seq<Exemplar>>, seen: map<string, set<Exemplar>>, name: string,
                      list: seq<Exemplar>, known: set<Exemplar>)
    requires Collected(merged, seen) && NoRepeats(list) && forall e :: e in known <==> e in list
    ensures Collected(merged[name := list], seen[name := known])
    ensures forall other :: ListOf(merged[name := list], other) == if other == name then list else ListOf(merged, other)
  {
    hide NoRepeats;
    var merged' := merged[name := list];
    forall other ensures ListOf(merged', other) == if other == name then list else ListOf(merged, other) {
      assert other in merged' <==> other == name || other in merged;
    }
  }

  /** MultiAPI.QueryExemplars: the series in order of their names, and each one's exemplars as a totally ordered
    union. */
  method QueryExemplars(fps: seq<int>, required: int, answers: seq<Answer<seq<ExemplarSeries>>>, order: seq<nat>)
    returns (r: Outcome<seq<ExemplarSeries>>)
    requires |answers| == |fps| && Arrival(order, |fps|)
    ensures Judged(r, fps, required, answers)
    ensures r.Success? && !QuorumMet(fps, ErrorsOf(answers), required) ==> r.value == []
    ensures r.Success? && QuorumMet(fps, ErrorsOf(answers), required) ==>
              SortedUnion(Names(r.value), NameAnswers(answers), StringLe)
    ensures r.Success? && QuorumMet(fps, ErrorsOf(answers), required) ==> forall i :: 0 <= i < |r.value| ==>
              SortedUnion(r.value[i].exemplars, SeriesAnswers(answers, r.value[i].labels), ExemplarLe)
  {
    hide Arrival, Arrived, Judged, QuorumMet, Accepted, Tallied, Mentioned, TotalOrder, NoRepeats, Ascending, Of,
         Collected, ListOf;
    var errs := ErrorsOf(answers);
    var t := new Tally(fps, required, errs);
    var merged: map<string, seq<Exemplar>>, seen: map<string, set<Exemplar>> := map[], map[];
    ArrivedAll(order, |fps|);
    ArrivalSize(order, |fps|);
    GatheredStart(answers);
    var k := 0;
    while k < |fps|
      invariant 0 <= k <= |fps| && t.Valid() && t.seen == Arrived(order, k)
      invariant fresh(t) && fresh(t.picker) && t.fps == fps && t.required == required && t.errs == errs
      invariant Collected(merged, seen) && Gathered(merged, answers, t.seen)
    {
      ArrivedStep(order, k, |fps|);
      var i := order[k];
      ghost var before := t.seen;
      var abort := t.Arrive(i, errs[i]);
      if abort {
        r := Failure(t.picker.err.value, true);
        SeenBound(order, k + 1, |fps|);
        JudgeAbort(fps, required, answers, t.seen, i, t.picker, r);
        return;
      }
      ghost var merged0 := merged;
      if answers[i].Ok? {
        merged, seen := AddAnswer(merged, seen, answers[i].v);
      }
      GatheredStep(merged0, merged, answers, before, i);
      k := k + 1;
    }
    var short := t.Short();
    if short {
      r := ShortOutcome(t.picker.err);
      JudgeShort(fps, required, answers, t, r);
      return;
    }
    var out := SortSeries(merged, seen, answers);
    r := Success(out);
    JudgeSuccess(fps, required, answers, r);
  }

  /** The collected lists hold exactly what the answers in `from` mention. */
  ghost predicate Gathered(merged: map<string, seq<Exemplar>>, answers: seq<Answer<seq<ExemplarSeries>>>,
                           from: set<nat>)
  {
    && (forall name :: name in merged <==> Mentioned(name, NameAnswers(answers), from))
    && (forall name, e :: e in ListOf(merged, name) <==> Mentioned(e, SeriesAnswers(answers, name), from))
  }

  lemma GatheredStart(answers: seq<Answer<seq<ExemplarSeries>>>)
    ensures Collected(map[], map[]) && Gathered(map[], answers, {})
  {
  }

  lemma GatheredStep(merged: map<string, seq<Exemplar>>, merged': map<string, seq<Exemplar>>,
                     answers: seq<Answer<seq<ExemplarSeries>>>, from: set<nat>, i: nat)
    requires i < |answers| && Gathered(merged, answers, from)
    requires !answers[i].Ok? ==> merged' == merged
    requires answers[i].Ok? ==> forall name :: name in merged' <==> name in merged || name in Names(answers[i].v)
    requires answers[i].Ok? ==>
               forall name, e :: e in ListOf(merged', name) <==>
                   e in ListOf(merged, name) || e in Of(answers[i].v, name)
    ensures Gathered(merged', answers, from + {i})
  {
    hide Mentioned, Of, ListOf;
    MentionedStep(NameAnswers(answers), from, i);
    forall name ensures name in merged' <==> Mentioned(name, NameAnswers(answers), from + {i}) {
    }
    forall name, e ensures e in ListOf(merged', name) <==> Mentioned(e, SeriesAnswers(answers, name), from + {i}) {
      MentionedStep(SeriesAnswers(answers, name), from, i);
    }
  }

  /** The final step: sort each list, and the series by name. */
  method SortSeries(merged: map<string, seq<Exemplar>>, ghost seen: map<string, set<Exemplar>>,
                    ghost answers: seq<Answer<seq<ExemplarSeries>>>)
    returns (out: seq<ExemplarSeries>)
    requires Collected(merged, seen) && Gathered(merged, answers, Indices(|answers|))
    ensures SortedUnion(Names(out), NameAnswers(answers), StringLe)
    ensures forall i :: 0 <= i < |out| ==>
              SortedUnion(out[i].exemplars, SeriesAnswers(answers, out[i].labels), ExemplarLe)
  {
    hide Mentioned, Ascending, TotalOrder, Of, StringLe, ExemplarLe, NoRepeats, Collected, Gathered, SortedUnion;
    var names := Elements(merged.Keys);
    SortedNames(names, merged, answers);
    var sorted := Sort(names, StringLe);
    out := [];
    var k := 0;
    while k < |sorted|
      invariant 0 <= k <= |sorted| && |out| == k
      invariant forall i :: 0 <= i < k ==> out[i].labels == sorted[i]
      invariant forall i :: 0 <= i < k ==>
                  SortedUnion(out[i].exemplars, SeriesAnswers(answers, out[i].labels), ExemplarLe)
    {
      var name := sorted[k];
      assert name in sorted;
      SortedOne(merged, seen, answers, name);
      out := out + [ExemplarSeries(name, Sort(merged[name], ExemplarLe))];
      k := k + 1;
    }
    assert Names(out) == sorted;
  }

  lemma SortedNames(names: seq<string>, merged: map<string, seq<Exemplar>>, answers: seq<Answer<seq<ExemplarSeries>>>)
    requires Gathered(merged, answers, Indices(|answers|))
    requires NoRepeats(names) && forall x :: x in names <==> x in merged.Keys
    ensures SortedUnion(Sort(names, StringLe), NameAnswers(answers), StringLe)
    ensures forall x :: x in Sort(names, StringLe) ==> x in merged
  {
    hide Mentioned, Ascending, TotalOrder, StringLe, NoRepeats;
    StringOrder();
    SortKeepsElements(names, StringLe);
  }

  lemma SortedOne(merged: map<string, seq<Exemplar>>, seen: map<string, set<Exemplar>>,
                  answers: seq<Answer<seq<ExemplarSeries>>>, name: string)
    requires Collected(merged, seen) && Gathered(merged, answers, Indices(|answers|)) && name in merged
    ensures SortedUnion(Sort(merged[name], ExemplarLe), SeriesAnswers(answers, name), ExemplarLe)
  {
    hide Mentioned, Ascending, TotalOrder, Of, StringLe, ExemplarLe, NoRepeats;
    ExemplarOrder();
    SortKeepsElements(merged[name], ExemplarLe);
    assert ListOf(merged, name) == merged[name];
  }

  /** The exemplars returned do not depend on arrival order: there is only one answer that QueryExemplars may give. */
  lemma ExemplarsUnique(a: seq<ExemplarSeries>, b: seq<ExemplarSeries>, answers: seq<Answer<seq<ExemplarSeries>>>)
    requires SortedUnion(Names(a), NameAnswers(answers), StringLe) &&
               SortedUnion(Names(b), NameAnswers(answers), StringLe)
    requires forall i :: 0 <= i < |a| ==> SortedUnion(a[i].exemplars, SeriesAnswers(answers, a[i].labels), ExemplarLe)
    requires forall i :: 0 <= i < |b| ==> SortedUnion(b[i].exemplars, SeriesAnswers(answers, b[i].labels), ExemplarLe)
    ensures a == b
  {
    hide SortedUnion, Mentioned, TotalOrder, StringLe, ExemplarLe, Of;
    StringOrder();
    ExemplarOrder();
    SortedUnionUnique(Names(a), Names(b), NameAnswers(answers), StringLe);
    assert |a| == |Names(a)| == |Names(b)| == |b|;
    forall i | 0 <= i < |a| ensures a[i] == b[i] {
      assert a[i].labels == Names(a)[i] == Names(b)[i] == b[i].labels;
      SortedUnionUnique(a[i].exemplars, b[i].exemplars, SeriesAnswers(answers, a[i].labels), ExemplarLe);
    }
  }
}
