/** Label sets and matchers, and the two label steps of a server group: adding its labels to every series
  (pkg/promclient/label.go) and answering the matchers on those labels itself (pkg/promclient/filtermatcher.go). */
module Labels {
  import opened Options

  /** A label set. A label that is missing has the empty value. */
  type Labels = map<string, string>

  const METRIC_NAME := "__name__"

  /** Read a label; missing means empty. */
  function Get(ls: Labels, name: string): string {
    if name in ls then ls[name] else ""
  }

  /** As label sets are stored: an empty value is not written down. */
  ghost predicate Normal(ls: Labels) {
    forall k :: k in ls ==> ls[k] != ""
  }

  /** Normal label sets are told apart by what they answer. */
  lemma SameAnswers(x: Labels, y: Labels)
    requires Normal(x) && Normal(y) && forall k :: Get(x, k) == Get(y, k)
    ensures x == y
  {
    forall k ensures k in x <==> k in y {
      assert Get(x, k) == Get(y, k);
    }
    assert x.Keys == y.Keys;
    forall k | k in x ensures x[k] == y[k] {
      assert Get(x, k) == Get(y, k);
    }
  }

  // ----- Matchers -----

  datatype MatchType = Equal | NotEqual | Regexp | NotRegexp

  datatype Matcher = Matcher(kind: MatchType, name: string, value: string)

  /** How the regular-expression library answers: does the pattern match the whole value? */
  type Regex = (string, string) -> bool

  const SOMETHING := ".+"

  /** What is needed of the library: the pattern for "anything at all" rejects only the empty value. */
  ghost predicate Sound(re: Regex) {
    forall v :: re(SOMETHING, v) <==> v != ""
  }

  predicate Matches(re: Regex, m: Matcher, v: string) {
    match m.kind
    case Equal => v == m.value
    case NotEqual => v != m.value
    case Regexp => re(m.value, v)
    case NotRegexp => !re(m.value, v)
  }

  predicate Accepts(re: Regex, m: Matcher, ls: Labels) {
    Matches(re, m, Get(ls, m.name))
  }

  predicate AcceptsAll(re: Regex, ms: seq<Matcher>, ls: Labels) {
    forall i :: 0 <= i < |ms| ==> Accepts(re, ms[i], ls)
  }

  // ----- Adding labels -----

  /** The series as promxy shows it: the group's labels win, and an empty group label removes. */
  function Labelled(ls: Labels, added: Labels): Labels {
    map k | k in ls.Keys + added.Keys && (if k in added then added[k] else ls[k]) != "" ::
      if k in added then added[k] else ls[k]
  }

  lemma LabelledGet(ls: Labels, added: Labels, k: string)
    ensures Normal(Labelled(ls, added))
    ensures Get(Labelled(ls, added), k) == if k in added then added[k] else Get(ls, k)
  {
  }

  /** AddLabelClient.addLabels: set each label on a builder, in whatever order the map yields them. */
  method AddLabels(ls: Labels, added: Labels) returns (r: Labels)
    ensures r == Labelled(ls, added)
  {
    r := map k | k in ls && ls[k] != "" :: ls[k];
    var todo := added.Keys;
    NoneSet(ls, added);
    hide Labelled;
    while todo != {}
      invariant todo <= added.Keys && r == Labelled(ls, added - todo)
      decreases |todo|
    {
      var k :| k in todo;
      var v := added[k];
      SetStep(ls, added - todo, k, v);
      OneFewer(added, todo, k);
      r := if v == "" then r - {k} else r[k := v];
      todo := todo - {k};
    }
    assert added - {} == added;
  }

  lemma NoneSet(ls: Labels, added: Labels)
    ensures (map k | k in ls && ls[k] != "" :: ls[k]) == Labelled(ls, added - added.Keys)
  {
    assert added - added.Keys == map[];
  }

  lemma OneFewer(added: Labels, todo: set<string>, k: string)
    requires k in todo && k in added
    ensures (added - todo)[k := added[k]] == added - (todo - {k})
  {
  }

  lemma SetStep(ls: Labels, done: Labels, k: string, v: string)
    ensures Labelled(ls, done[k := v]) == if v == "" then Labelled(ls, done) - {k} else Labelled(ls, done)[k := v]
  {
  }

  /** Group labels that a series does not carry keep different series different. */
  lemma LabelledInjective(x: Labels, y: Labels, added: Labels)
    requires Normal(x) && Normal(y) && x.Keys !! added.Keys && y.Keys !! added.Keys
    requires Labelled(x, added) == Labelled(y, added)
    ensures x == y
  {
    forall k ensures Get(x, k) == Get(y, k) {
      LabelledGet(x, added, k);
      LabelledGet(y, added, k);
    }
    SameAnswers(x, y);
  }

  /** Two groups whose labels differ somewhere never show the same label set. */
  lemma LabelledApart(x: Labels, y: Labels, addedX: Labels, addedY: Labels, k: string)
    requires Get(addedX, k) != Get(addedY, k)
    requires k !in x && k !in y
    ensures Labelled(x, addedX) != Labelled(y, addedY)
  {
    LabelledGet(x, addedX, k);
    LabelledGet(y, addedY, k);
  }

  // ----- Answering matchers on added labels -----

  /** The matchers a group cannot answer from its own labels. */
  function Remaining(ms: seq<Matcher>, added: Labels): seq<Matcher> {
    if ms == [] then []
    else
      var init, last := Remaining(ms[..|ms|-1], added), ms[|ms|-1];
      if last.name in added then init else init + [last]
  }

  /** The matcher sent when none is left. */
  const ANYTHING_NAMED := Matcher(Regexp, METRIC_NAME, SOMETHING)

  /** What is asked of the group's servers, or nothing when the group's own labels rule it out. */
  function Stripped(re: Regex, added: Labels, ms: seq<Matcher>): Option<seq<Matcher>> {
    if exists i :: 0 <= i < |ms| && ms[i].name in added && !Matches(re, ms[i], added[ms[i].name]) then None
    else if Remaining(ms, added) == [] then Some([ANYTHING_NAMED])
    else Some(Remaining(ms, added))
  }

  /** FilterMatchers. */
  method FilterMatchers(re: Regex, added: Labels, ms: seq<Matcher>) returns (r: Option<seq<Matcher>>)
    ensures r == Stripped(re, added, ms)
    ensures r.None? <==> exists i :: 0 <= i < |ms| && ms[i].name in added && !Matches(re, ms[i], added[ms[i].name])
    ensures r.Some? && (forall i :: 0 <= i < |ms| ==> ms[i].name in added) ==>
              r.value == [Matcher(Regexp, "__name__", ".+")]
  {
    RemainingNone(ms, added);
    var filtered := [];
    var i := 0;
    while i < |ms|
      invariant 0 <= i <= |ms| && filtered == Remaining(ms[..i], added)
      invariant forall j :: 0 <= j < i && ms[j].name in added ==> Matches(re, ms[j], added[ms[j].name])
    {
      assert ms[..i+1][..i] == ms[..i];
      if ms[i].name in added {
        if !Matches(re, ms[i], added[ms[i].name]) {
          return None;
        }
      } else {
        filtered := filtered + [ms[i]];
      }
      i := i + 1;
    }
    assert ms[..i] == ms;
    if |filtered| == 0 {
      filtered := [ANYTHING_NAMED];
    }
    return Some(filtered);
  }

  /** The matchers left are those on other labels, in order. */
  lemma {:induction false} RemainingIndices(ms: seq<Matcher>, added: Labels) returns (indices: seq<nat>)
    ensures forall a, b :: 0 <= a < b < |indices| ==> indices[a] < indices[b]
    ensures forall i: nat :: i in indices <==> i < |ms| && ms[i].name !in added
    ensures |Remaining(ms, added)| == |indices|
    ensures forall j :: 0 <= j < |indices| ==> indices[j] < |ms| && Remaining(ms, added)[j] == ms[indices[j]]
    decreases |ms|
  {
    indices := [];
    if ms != [] {
      var n := |ms| - 1;
      indices := RemainingIndices(ms[..n], added);
      assert forall j :: 0 <= j < |indices| ==> indices[j] in indices;
      if ms[n].name !in added {
        indices := indices + [n];
      }
    }
  }

  lemma RemainingNone(ms: seq<Matcher>, added: Labels)
    ensures Remaining(ms, added) == [] <==> forall i :: 0 <= i < |ms| ==> ms[i].name in added
  {
    var indices := RemainingIndices(ms, added);
    if i :| 0 <= i < |ms| && ms[i].name !in added {
      assert i in indices;
    }
    if indices != [] {
      assert indices[0] in indices;
    }
  }

  lemma {:induction false} RemainingAccept(re: Regex, ms: seq<Matcher>, added: Labels, ls: Labels)
    ensures AcceptsAll(re, Remaining(ms, added), ls) <==>
            forall i :: 0 <= i < |ms| && ms[i].name !in added ==> Accepts(re, ms[i], ls)
    decreases |ms|
  {
    if ms != [] {
      var init := ms[..|ms|-1];
      RemainingAccept(re, init, added, ls);
      var rest := Remaining(init, added);
      if ms[|ms|-1].name !in added {
        var all := rest + [ms[|ms|-1]];
        assert AcceptsAll(re, all, ls) <==> AcceptsAll(re, rest, ls) && Accepts(re, ms[|ms|-1], ls) by {
          assert all[|rest|] == ms[|ms|-1];
          assert forall i :: 0 <= i < |rest| ==> all[i] == rest[i];
        }
      }
    }
  }

  /** Stripping is exact: a stored series passes the stripped matchers if and only if, with the group's labels on it, it
    passes the original ones and, where every matcher was stripped, it has a name. */
  lemma StrippingExact(re: Regex, added: Labels, ms: seq<Matcher>, ls: Labels)
    requires Sound(re)
    ensures Stripped(re, added, ms).None? ==> !AcceptsAll(re, ms, Labelled(ls, added))
    ensures Stripped(re, added, ms).Some? ==>
              (AcceptsAll(re, Stripped(re, added, ms).value, ls) <==>
               AcceptsAll(re, ms, Labelled(ls, added)) && (Remaining(ms, added) == [] ==> Get(ls, METRIC_NAME) != ""))
  {
    forall i | 0 <= i < |ms|
      ensures Accepts(re, ms[i], Labelled(ls, added)) <==>
              if ms[i].name in added then Matches(re, ms[i], added[ms[i].name]) else Accepts(re, ms[i], ls)
    {
      LabelledGet(ls, added, ms[i].name);
    }
    RemainingAccept(re, ms, added, ls);
    if Stripped(re, added, ms).Some? && Remaining(ms, added) == [] {
      assert AcceptsAll(re, [ANYTHING_NAMED], ls) <==> Accepts(re, [ANYTHING_NAMED][0], ls);
    }
  }
}
