/** The label filter's check of one matcher (pkg/promclient/labelfilter.go): can any known value of the label satisfy
  it? The answer is found by lookups where possible, and is the same as scanning every value. */
module LabelFilter {
  import opened Labels

  /** What the scan would answer. A label without an entry is unknown, and unknown is not filtered out. */
  ghost predicate Satisfiable(re: Regex, filter: map<string, set<string>>, m: Matcher) {
    m.name !in filter || exists v :: v in filter[m.name] && Matches(re, m, v)
  }

  /** SetMatches: when it lists anything, it lists exactly the values the pattern matches. */
  ghost predicate ListsMatches(re: Regex, m: Matcher, setMatches: seq<string>) {
    setMatches != [] && (m.kind.Regexp? || m.kind.NotRegexp?) ==> forall v :: re(m.value, v) <==> v in setMatches
  }

  function Distinct(values: seq<string>): set<string> {
    set v | v in values
  }

  lemma DistinctStep(values: seq<string>, k: nat)
    requires k < |values|
    ensures Distinct(values[..k+1]) == Distinct(values[..k]) + {values[k]}
  {
    assert values[..k+1] == values[..k] + [values[k]];
  }

  lemma DistinctNone()
    ensures Distinct([]) == {}
  {
  }

  /** countPresent: how many distinct values are in the set, repeats counted once. */
  method CountPresent(known: set<string>, values: seq<string>) returns (count: nat)
    ensures count == |known * Distinct(values)|
  {
    DistinctNone();
    hide Distinct;
    count := 0;
    var seen: set<string> := {};
    var k := 0;
    while k < |values|
      invariant 0 <= k <= |values|
      invariant seen == known * Distinct(values[..k]) && count == |seen|
    {
      var v := values[k];
      DistinctStep(values, k);
      if v in known && v !in seen {
        seen := seen + {v};
        count := count + 1;
      }
      k := k + 1;
    }
    assert values[..k] == values;
  }

  lemma {:induction false} SmallerSubset(a: set<string>, b: set<string>)
    requires a <= b
    ensures |a| <= |b| && (|a| < |b| <==> exists v :: v in b && v !in a)
  {
    if a == {} {
      if v :| v in b {
        assert |b| > 0;
      } else {
        assert b == {};
      }
    } else {
      var x :| x in a;
      SmallerSubset(a - {x}, b - {x});
      if v :| v in b && v !in a {
        assert v in b - {x} && v !in a - {x};
      } else if u :| u in b - {x} && u !in a - {x} {
        assert u in b && u !in a;
      }
    }
  }

  /** A set with a value besides `x`: at least two values, or one that is not `x`. */
  lemma OtherThan(known: set<string>, x: string)
    ensures (exists v :: v in known && v != x) <==> |known| > 1 || (|known| == 1 && x !in known)
  {
    SmallerSubset(known * {x}, known);
    if x in known {
      assert known * {x} == {x};
    } else {
      assert known * {x} == {};
    }
  }

  /** FilterLabelMatchers. */
  method FilterLabelMatchers(re: Regex, filter: map<string, set<string>>, m: Matcher, setMatches: seq<string>)
    returns (ok: bool)
    requires ListsMatches(re, m, setMatches)
    ensures ok <==> Satisfiable(re, filter, m)
  {
    if m.name !in filter {
      return true;
    }
    var known := filter[m.name];
    match m.kind {
      case Equal =>
        return m.value in known;
      case NotEqual =>
        OtherThan(known, m.value);
        if |known| == 0 {
          return false;
        } else if |known| == 1 {
          return m.value !in known;
        }
        return true;
      case Regexp =>
        if |setMatches| > 0 {
          var k := 0;
          while k < |setMatches|
            invariant 0 <= k <= |setMatches| && forall i :: 0 <= i < k ==> setMatches[i] !in known
          {
            if setMatches[k] in known {
              assert Matches(re, m, setMatches[k]);
              return true;
            }
            k := k + 1;
          }
          return false;
        }
      case NotRegexp =>
        if |setMatches| > 0 {
          var count := CountPresent(known, setMatches);
          SmallerSubset(known * Distinct(setMatches), known);
          return count < |known|;
        }
    }
    var todo := known;
    while todo != {}
      invariant todo <= known && forall v :: v in known && v !in todo ==> !Matches(re, m, v)
      decreases |todo|
    {
      var v :| v in todo;
      if Matches(re, m, v) {
        return true;
      }
      todo := todo - {v};
    }
    return false;
  }
}
