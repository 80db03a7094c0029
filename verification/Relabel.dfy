/** Relabelling in the client (pkg/promclient/metric_relabel.go): series are relabelled on the way back, so the
  matchers of a query are rewritten, rule by rule in reverse, to ask for the labels as they were before. */
module Relabel {
  import opened Options
  import opened Labels

  /** The two reversible actions: copy a label over another, and drop labels. */
  datatype Rule = Replace(source: string, target: string) | LabelDrop(source: string)

  /** The regular-expression library, as relabelling uses it: whether a pattern matches a whole text, and what a
    template becomes for a value that the pattern for everything has matched. */
  datatype Library = Library(matches: Regex, expand: (string, string) -> string)

  /** What is needed of the library: what "anything at all" matches, and that a template without a reference stands for
    itself. */
  ghost predicate Reliable(lib: Library) {
    Sound(lib.matches) && forall t, v :: '$' !in t ==> lib.expand(t, v) == t
  }

  /** ToRelabelConfig: what a rule does to a label set. The target of a copy is a template; an empty name is no label,
    and copying an empty value removes the target. The source of a drop is a pattern for label names. */
  function Apply(lib: Library, r: Rule, ls: Labels): Labels {
    match r
    case Replace(source, target) =>
      var v := Get(ls, source);
      var name := lib.expand(target, v);
      if name == "" then ls else if v == "" then ls - {name} else ls[name := v]
    case LabelDrop(source) => map k | k in ls && !lib.matches(source, k) :: ls[k]
  }

  /** The rules one after the other. */
  function Relabelled(lib: Library, rules: seq<Rule>, ls: Labels): Labels {
    if rules == [] then ls else Apply(lib, rules[|rules|-1], Relabelled(lib, rules[..|rules|-1], ls))
  }

  /** The matchers that already ask for an absent label. */
  predicate ExpectsNothing(m: Matcher) {
    (m.kind == Equal && m.value == "") || (m.kind == NotRegexp && m.value == SOMETHING)
  }

  /** One matcher taken back through the rules; None when the rules leave nothing for it to match. */
  function Rewrite(rules: seq<Rule>, m: Matcher): Option<Matcher> {
    if rules == [] then Some(m)
    else
      var init := rules[..|rules|-1];
      match rules[|rules|-1]
      case Replace(source, target) => Rewrite(init, if m.name == target then m.(name := source) else m)
      case LabelDrop(source) => if m.name == source && !ExpectsNothing(m) then None else Rewrite(init, m)
  }

  function RewriteAll(rules: seq<Rule>, ms: seq<Matcher>): Option<seq<Matcher>> {
    if ms == [] then Some([])
    else
      match (RewriteAll(rules, ms[..|ms|-1]), Rewrite(rules, ms[|ms|-1]))
      case (Some(init), Some(last)) => Some(init + [last])
      case _ => None
  }

  /** RewriteMatchers: over the matchers, and for each over the rules in reverse. */
  method RewriteMatchers(rules: seq<Rule>, matchers: seq<Matcher>) returns (r: Option<seq<Matcher>>)
    ensures r == RewriteAll(rules, matchers)
    ensures r.None? <==>
              exists i ::
                && 0 <= i < |matchers| && DroppedByName(rules, matchers[i].name)
                && !(matchers[i].kind == Equal && matchers[i].value == "")
                && !(matchers[i].kind == NotRegexp && matchers[i].value == ".+")
    ensures r.Some? ==> |r.value| == |matchers| && forall i :: 0 <= i < |matchers| ==>
              r.value[i] == Matcher(matchers[i].kind, Origin(rules, matchers[i].name), matchers[i].value)
  {
    RewriteAllIs(rules, matchers);
    var replaced: seq<Matcher> := [];
    var i := 0;
    while i < |matchers|
      invariant 0 <= i <= |matchers| && RewriteAll(rules, matchers[..i]) == Some(replaced)
    {
      assert matchers[..i+1][..i] == matchers[..i];
      var m := matchers[i];
      var x := |rules|;
      assert rules[..x] == rules;
      while x > 0
        invariant 0 <= x <= |rules| && Rewrite(rules[..x], m) == Rewrite(rules, matchers[i])
      {
        assert rules[..x][..x-1] == rules[..x-1];
        x := x - 1;
        match rules[x] {
          case Replace(source, target) =>
            if m.name == target {
              m := Matcher(m.kind, source, m.value);
            }
          case LabelDrop(source) =>
            if m.name == source && !ExpectsNothing(m) {
              RewriteFails(rules, matchers, i);
              return None;
            }
        }
      }
      replaced := replaced + [m];
      i := i + 1;
    }
    assert matchers[..i] == matchers;
    return Some(replaced);
  }

  lemma {:induction false} RewriteFails(rules: seq<Rule>, ms: seq<Matcher>, i: nat)
    requires i < |ms| && Rewrite(rules, ms[i]).None?
    ensures RewriteAll(rules, ms).None?
    decreases |ms|
  {
    if i < |ms| - 1 {
      RewriteFails(rules, ms[..|ms|-1], i);
    }
  }

  // ----- What the rewrite means -----

  /** A target that is the same label whatever the value. */
  ghost predicate Fixed(lib: Library, target: string) {
    target != "" && forall v :: lib.expand(target, v) == target
  }

  /** Every copy goes to a fixed label. */
  ghost predicate FixedTargets(lib: Library, rules: seq<Rule>) {
    forall i :: 0 <= i < |rules| && rules[i].Replace? ==> Fixed(lib, rules[i].target)
  }

  /** It does when no target holds a reference. */
  lemma PlainTargetsAreFixed(lib: Library, rules: seq<Rule>)
    requires Reliable(lib)
    requires forall i :: 0 <= i < |rules| && rules[i].Replace? ==> rules[i].target != "" && '$' !in rules[i].target
    ensures FixedTargets(lib, rules)
  {
  }

  /** The label that label `n` is copied from, through all rules. */
  function Origin(rules: seq<Rule>, n: string): string {
    if rules == [] then n
    else
      var init, last := rules[..|rules|-1], rules[|rules|-1];
      Origin(init, if last.Replace? && n == last.target then last.source else n)
  }

  /** On the way from its origin to `n` the value is dropped, as the patterns have it. */
  predicate Dropped(re: Regex, rules: seq<Rule>, n: string) {
    rules != [] &&
    var init, last := rules[..|rules|-1], rules[|rules|-1];
    match last
    case Replace(source, target) => Dropped(re, init, if n == target then source else n)
    case LabelDrop(source) => re(source, n) || Dropped(re, init, n)
  }

  /** The same, as the rewrite has it: by comparing names. */
  predicate DroppedByName(rules: seq<Rule>, n: string) {
    rules != [] &&
    var init, last := rules[..|rules|-1], rules[|rules|-1];
    match last
    case Replace(source, target) => DroppedByName(init, if n == target then source else n)
    case LabelDrop(source) => n == source || DroppedByName(init, n)
  }

  lemma ApplyGet(lib: Library, r: Rule, ls: Labels, n: string)
    requires r.Replace? ==> Fixed(lib, r.target)
    ensures Get(Apply(lib, r, ls), n) ==
            match r
            case Replace(source, target) => Get(ls, if n == target then source else n)
            case LabelDrop(source) => if lib.matches(source, n) then "" else Get(ls, n)
  {
  }

  /** A relabelled series carries at `n` the value of the origin, unless it was dropped on the way. */
  lemma {:induction false} RelabelledGet(lib: Library, rules: seq<Rule>, ls: Labels, n: string)
    requires Reliable(lib) && FixedTargets(lib, rules)
    ensures Get(Relabelled(lib, rules, ls), n) ==
            if Dropped(lib.matches, rules, n) then "" else Get(ls, Origin(rules, n))
    decreases |rules|
  {
    hide Apply, Reliable, Fixed;
    if rules != [] {
      var init, last := rules[..|rules|-1], rules[|rules|-1];
      ApplyGet(lib, last, Relabelled(lib, init, ls), n);
      match last
      case Replace(source, target) => RelabelledGet(lib, init, ls, if n == target then source else n);
      case LabelDrop(source) => RelabelledGet(lib, init, ls, n);
    }
  }

  /** The rewritten matcher asks the origin; it is given up exactly where a value it may want is dropped by name. */
  lemma {:induction false} RewriteIs(rules: seq<Rule>, m: Matcher)
    ensures Rewrite(rules, m) ==
            if DroppedByName(rules, m.name) && !ExpectsNothing(m) then None
            else Some(m.(name := Origin(rules, m.name)))
    decreases |rules|
  {
    if rules != [] {
      var init, last := rules[..|rules|-1], rules[|rules|-1];
      match last
      case Replace(source, target) => RewriteIs(init, if m.name == target then m.(name := source) else m);
      case LabelDrop(source) => RewriteIs(init, m);
    }
  }

  lemma ExpectsNothingMeaning(re: Regex, m: Matcher, v: string)
    requires Sound(re) && ExpectsNothing(m)
    ensures Matches(re, m, v) <==> v == ""
  {
  }

  // ----- One matcher -----

  /** The rewritten matcher lets series `ls` through. */
  ghost predicate LetsThrough(re: Regex, rules: seq<Rule>, m: Matcher, ls: Labels) {
    Rewrite(rules, m).Some? && Accepts(re, Rewrite(rules, m).value, ls)
  }

  /** If it does, the original matcher accepts the series once it is relabelled. */
  ghost predicate SoundOn(lib: Library, rules: seq<Rule>, m: Matcher, ls: Labels) {
    LetsThrough(lib.matches, rules, m, ls) ==> Accepts(lib.matches, m, Relabelled(lib, rules, ls))
  }

  /** And the other way round. */
  ghost predicate AgreeOn(lib: Library, rules: seq<Rule>, m: Matcher, ls: Labels) {
    LetsThrough(lib.matches, rules, m, ls) <==> Accepts(lib.matches, m, Relabelled(lib, rules, ls))
  }

  ghost predicate AcceptsNothing(re: Regex, m: Matcher) {
    forall v :: !Matches(re, m, v)
  }

  /** The matcher does not look at the value. */
  ghost predicate Indifferent(re: Regex, m: Matcher) {
    forall v :: Matches(re, m, v) <==> Matches(re, m, "")
  }

  lemma OneMatcher(lib: Library, rules: seq<Rule>, m: Matcher, ls: Labels)
    requires Reliable(lib) && FixedTargets(lib, rules)
    ensures var v := Get(ls, Origin(rules, m.name));
            && (LetsThrough(lib.matches, rules, m, ls) <==> Rewrite(rules, m).Some? && Matches(lib.matches, m, v))
            && (Accepts(lib.matches, m, Relabelled(lib, rules, ls)) <==>
                  Matches(lib.matches, m, if Dropped(lib.matches, rules, m.name) then "" else v))
  {
    RewriteIs(rules, m);
    RelabelledGet(lib, rules, ls, m.name);
  }

  /** Rewriting a matcher is sound for all series exactly when it is given up, or its label is not dropped, or it
    accepts the empty value, or nothing at all. */
  lemma RewriteSoundExact(lib: Library, rules: seq<Rule>, m: Matcher)
    requires Reliable(lib) && FixedTargets(lib, rules)
    ensures (forall ls :: SoundOn(lib, rules, m, ls)) <==>
            || Rewrite(rules, m).None?
            || !Dropped(lib.matches, rules, m.name)
            || Matches(lib.matches, m, "")
            || AcceptsNothing(lib.matches, m)
  {
    hide Relabelled, Rewrite, Dropped, Origin, Reliable, Matches, LetsThrough;
    forall ls: Labels
      ensures SoundOn(lib, rules, m, ls) <==>
              var v := Get(ls, Origin(rules, m.name));
              (Rewrite(rules, m).Some? && Matches(lib.matches, m, v) ==>
                 Matches(lib.matches, m, if Dropped(lib.matches, rules, m.name) then "" else v))
    {
      OneMatcher(lib, rules, m, ls);
    }
    if v :| Matches(lib.matches, m, v) {
      var ls: Labels := map[Origin(rules, m.name) := v];
      assert Get(ls, Origin(rules, m.name)) == v;
      assert SoundOn(lib, rules, m, ls) <==>
             (Rewrite(rules, m).Some? ==>
                Matches(lib.matches, m, if Dropped(lib.matches, rules, m.name) then "" else v));
    }
  }

  /** The condition for exactness: a matcher that is given up must have nothing left to accept, and any other must not
    be dropped, or not care. */
  ghost predicate ExactCondition(re: Regex, rules: seq<Rule>, m: Matcher) {
    if Rewrite(rules, m).None? then
      if Dropped(re, rules, m.name) then !Matches(re, m, "") else AcceptsNothing(re, m)
    else !Dropped(re, rules, m.name) || Indifferent(re, m)
  }

  lemma RewriteExactCondition(lib: Library, rules: seq<Rule>, m: Matcher)
    requires Reliable(lib) && FixedTargets(lib, rules)
    ensures (forall ls :: AgreeOn(lib, rules, m, ls)) <==> ExactCondition(lib.matches, rules, m)
  {
    hide Relabelled, Rewrite, Dropped, Origin, Reliable, Matches, LetsThrough;
    forall ls: Labels
      ensures AgreeOn(lib, rules, m, ls) <==>
              var v := Get(ls, Origin(rules, m.name));
              (Rewrite(rules, m).Some? && Matches(lib.matches, m, v) <==>
                 Matches(lib.matches, m, if Dropped(lib.matches, rules, m.name) then "" else v))
    {
      OneMatcher(lib, rules, m, ls);
    }
    if forall ls :: AgreeOn(lib, rules, m, ls) {
      forall v
        ensures Rewrite(rules, m).Some? && Matches(lib.matches, m, v) <==>
                Matches(lib.matches, m, if Dropped(lib.matches, rules, m.name) then "" else v)
      {
        var ls: Labels := map[Origin(rules, m.name) := v];
        assert Get(ls, Origin(rules, m.name)) == v;
        assert AgreeOn(lib, rules, m, ls);
      }
    }
  }

  // ----- Names that are their own patterns -----

  /** Every dropped name, read as a pattern, matches itself and nothing else. */
  ghost predicate LiteralDrops(re: Regex, rules: seq<Rule>) {
    forall i :: 0 <= i < |rules| && rules[i].LabelDrop? ==> forall n :: re(rules[i].source, n) <==> n == rules[i].source
  }

  lemma {:induction false} LiteralDropped(re: Regex, rules: seq<Rule>, n: string)
    requires LiteralDrops(re, rules)
    ensures Dropped(re, rules, n) <==> DroppedByName(rules, n)
    decreases |rules|
  {
    if rules != [] {
      var init, last := rules[..|rules|-1], rules[|rules|-1];
      match last
      case Replace(source, target) => LiteralDropped(re, init, if n == target then source else n);
      case LabelDrop(source) => LiteralDropped(re, init, n);
    }
  }

  /** Then rewriting is sound: whatever a rewritten matcher accepts, the original accepts after relabelling. */
  lemma RewriteSound(lib: Library, rules: seq<Rule>, m: Matcher, ls: Labels)
    requires Reliable(lib) && FixedTargets(lib, rules) && LiteralDrops(lib.matches, rules)
    ensures SoundOn(lib, rules, m, ls)
  {
    LiteralDropped(lib.matches, rules, m.name);
    RewriteIs(rules, m);
    if ExpectsNothing(m) {
      ExpectsNothingMeaning(lib.matches, m, "");
    }
    RewriteSoundExact(lib, rules, m);
  }

  /** And it is exact if and only if it is not a matcher that accepts the empty value on a label that is dropped. */
  lemma RewriteExact(lib: Library, rules: seq<Rule>, m: Matcher)
    requires Reliable(lib) && FixedTargets(lib, rules) && LiteralDrops(lib.matches, rules)
    ensures (forall ls :: AgreeOn(lib, rules, m, ls)) <==>
              !(Matches(lib.matches, m, "") && DroppedByName(rules, m.name))
  {
    LiteralDropped(lib.matches, rules, m.name);
    RewriteIs(rules, m);
    RewriteExactCondition(lib, rules, m);
    if ExpectsNothing(m) {
      ExpectsNothingMeaning(lib.matches, m, "");
      ExpectsNothingMeaning(lib.matches, m, "x");
    }
    hide Matches, Dropped, DroppedByName, Rewrite;
  }

  // ----- Whole matcher lists -----

  /** The list is given up exactly when a matcher reads a name that is dropped and is not one of the two that ask for
    emptiness in so many words; otherwise every matcher asks its origin. */
  lemma RewriteAllIs(rules: seq<Rule>, ms: seq<Matcher>)
    ensures RewriteAll(rules, ms).None? <==>
              exists i ::
                && 0 <= i < |ms| && DroppedByName(rules, ms[i].name)
                && !(ms[i].kind == Equal && ms[i].value == "") && !(ms[i].kind == NotRegexp && ms[i].value == ".+")
    ensures RewriteAll(rules, ms).Some? ==>
              var r := RewriteAll(rules, ms).value;
              |r| == |ms| && forall i :: 0 <= i < |ms| ==>
                r[i] == Matcher(ms[i].kind, Origin(rules, ms[i].name), ms[i].value)
  {
    RewriteAllAt(rules, ms);
    forall i | 0 <= i < |ms|
      ensures Rewrite(rules, ms[i]) == if DroppedByName(rules, ms[i].name) && !ExpectsNothing(ms[i]) then None
                                       else Some(ms[i].(name := Origin(rules, ms[i].name)))
    {
      RewriteIs(rules, ms[i]);
    }
    hide Rewrite, RewriteAll, Origin, DroppedByName;
  }

  lemma {:induction false} RewriteAllAt(rules: seq<Rule>, ms: seq<Matcher>)
    ensures RewriteAll(rules, ms).None? <==> exists i :: 0 <= i < |ms| && Rewrite(rules, ms[i]).None?
    ensures RewriteAll(rules, ms).Some? ==>
              var r := RewriteAll(rules, ms).value;
              |r| == |ms| && forall i :: 0 <= i < |ms| ==> Rewrite(rules, ms[i]) == Some(r[i])
    decreases |ms|
  {
    if ms != [] {
      var init := ms[..|ms|-1];
      RewriteAllAt(rules, init);
      if i :| 0 <= i < |ms| && Rewrite(rules, ms[i]).None? {
        RewriteFails(rules, ms, i);
      } else {
        assert forall i :: 0 <= i < |init| ==> init[i] == ms[i];
      }
    }
  }

  /** The rewritten matchers let series `ls` through. */
  ghost predicate AllLetThrough(re: Regex, rules: seq<Rule>, ms: seq<Matcher>, ls: Labels) {
    RewriteAll(rules, ms).Some? && AcceptsAll(re, RewriteAll(rules, ms).value, ls)
  }

  ghost predicate AllSoundOn(lib: Library, rules: seq<Rule>, ms: seq<Matcher>, ls: Labels) {
    AllLetThrough(lib.matches, rules, ms, ls) ==> AcceptsAll(lib.matches, ms, Relabelled(lib, rules, ls))
  }

  ghost predicate AllAgreeOn(lib: Library, rules: seq<Rule>, ms: seq<Matcher>, ls: Labels) {
    AllLetThrough(lib.matches, rules, ms, ls) <==> AcceptsAll(lib.matches, ms, Relabelled(lib, rules, ls))
  }

  /** Matcher `i` reads a label whose value the rules drop. */
  predicate ReadsDropped(re: Regex, rules: seq<Rule>, ms: seq<Matcher>, i: int)
    requires 0 <= i < |ms|
  {
    Dropped(re, rules, ms[i].name)
  }

  /** Among all matchers, or among those alone that still get to see their label, matcher `i` counts. */
  predicate Counts(re: Regex, rules: seq<Rule>, ms: seq<Matcher>, i: int, all: bool)
    requires 0 <= i < |ms|
  {
    all || !ReadsDropped(re, rules, ms, i)
  }

  /** Value `v` of label `n` before relabelling suits every matcher that counts. */
  predicate Fits(re: Regex, rules: seq<Rule>, ms: seq<Matcher>, n: string, v: string, all: bool) {
    forall i :: 0 <= i < |ms| && Counts(re, rules, ms, i, all) && Origin(rules, ms[i].name) == n ==>
        Matches(re, ms[i], v)
  }

  /** The series suits every matcher that counts. */
  ghost predicate Suits(re: Regex, rules: seq<Rule>, ms: seq<Matcher>, ls: Labels, all: bool) {
    forall i :: 0 <= i < |ms| && Counts(re, rules, ms, i, all) ==>
        Matches(re, ms[i], Get(ls, Origin(rules, ms[i].name)))
  }

  /** Some matcher rejects the emptiness that a dropped label leaves it with. */
  ghost predicate RejectsDropped(re: Regex, rules: seq<Rule>, ms: seq<Matcher>) {
    exists i :: 0 <= i < |ms| && ReadsDropped(re, rules, ms, i) && !Matches(re, ms[i], "")
  }

  /** Among the matchers that count, those on some label contradict each other. */
  ghost predicate Contradictory(re: Regex, rules: seq<Rule>, ms: seq<Matcher>, all: bool) {
    exists i :: 0 <= i < |ms| && Counts(re, rules, ms, i, all) &&
      forall v :: !Fits(re, rules, ms, Origin(rules, ms[i].name), v, all)
  }

  /** What a matcher on a dropped label asks of its origin follows from the matchers that still see that label. */
  ghost predicate DroppedFollows(re: Regex, rules: seq<Rule>, ms: seq<Matcher>) {
    forall i, v ::
      0 <= i < |ms| && ReadsDropped(re, rules, ms, i) && Fits(re, rules, ms, Origin(rules, ms[i].name), v, false) ==>
        Matches(re, ms[i], v)
  }

  lemma RelabelledSuits(lib: Library, rules: seq<Rule>, ms: seq<Matcher>, ls: Labels)
    requires Reliable(lib) && FixedTargets(lib, rules)
    ensures AcceptsAll(lib.matches, ms, Relabelled(lib, rules, ls)) <==>
            Suits(lib.matches, rules, ms, ls, false) && !RejectsDropped(lib.matches, rules, ms)
  {
    forall i | 0 <= i < |ms|
      ensures Accepts(lib.matches, ms[i], Relabelled(lib, rules, ls)) <==>
              Matches(lib.matches, ms[i],
                      if ReadsDropped(lib.matches, rules, ms, i) then "" else Get(ls, Origin(rules, ms[i].name)))
    {
      OneMatcher(lib, rules, ms[i], ls);
    }
    hide Relabelled, Dropped, Origin, Reliable, Matches;
  }

  lemma RewrittenSuits(re: Regex, rules: seq<Rule>, ms: seq<Matcher>, ls: Labels)
    ensures AllLetThrough(re, rules, ms, ls) <==> RewriteAll(rules, ms).Some? && Suits(re, rules, ms, ls, true)
  {
    RewriteAllAt(rules, ms);
    forall i | 0 <= i < |ms|
      ensures Rewrite(rules, ms[i]).Some? ==> Rewrite(rules, ms[i]).value == ms[i].(name := Origin(rules, ms[i].name))
    {
      RewriteIs(rules, ms[i]);
    }
    hide Rewrite, RewriteAll, Origin;
    if RewriteAll(rules, ms).Some? {
      var r := RewriteAll(rules, ms).value;
      forall i | 0 <= i < |ms|
        ensures Accepts(re, r[i], ls) <==> Matches(re, ms[i], Get(ls, Origin(rules, ms[i].name)))
      {
        assert Rewrite(rules, ms[i]) == Some(r[i]);
      }
      hide Matches;
      assert AcceptsAll(re, r, ls) <==> forall i :: 0 <= i < |ms| ==> Accepts(re, r[i], ls);
    }
  }

  /** Without a contradiction, a series can be put together label by label. */
  lemma {:induction false} ComposeFirst(re: Regex, rules: seq<Rule>, ms: seq<Matcher>, all: bool, k: nat)
    returns (ls: Labels)
    requires k <= |ms| && !Contradictory(re, rules, ms, all)
    ensures forall i :: 0 <= i < k && Counts(re, rules, ms, i, all) ==>
              Fits(re, rules, ms, Origin(rules, ms[i].name), Get(ls, Origin(rules, ms[i].name)), all)
  {
    hide Fits, Origin, Counts;
    ls := map[];
    if k > 0 {
      ls := ComposeFirst(re, rules, ms, all, k - 1);
      if Counts(re, rules, ms, k - 1, all) {
        var n := Origin(rules, ms[k-1].name);
        var v :| Fits(re, rules, ms, n, v, all);
        ls := ls[n := v];
      }
    }
  }

  lemma Compose(re: Regex, rules: seq<Rule>, ms: seq<Matcher>, all: bool) returns (ls: Labels)
    requires !Contradictory(re, rules, ms, all)
    ensures Suits(re, rules, ms, ls, all)
  {
    ls := ComposeFirst(re, rules, ms, all, |ms|);
    FittingSuits(re, rules, ms, ls, all);
  }

  lemma FittingSuits(re: Regex, rules: seq<Rule>, ms: seq<Matcher>, ls: Labels, all: bool)
    ensures Suits(re, rules, ms, ls, all) <==> forall i :: 0 <= i < |ms| && Counts(re, rules, ms, i, all) ==>
              Fits(re, rules, ms, Origin(rules, ms[i].name), Get(ls, Origin(rules, ms[i].name)), all)
    ensures Suits(re, rules, ms, ls, all) ==> forall n :: Fits(re, rules, ms, n, Get(ls, n), all)
  {
    hide Origin, Counts, Matches;
  }

  /** Changing one label to a value that fits keeps a series suitable. */
  lemma SuitsChanged(re: Regex, rules: seq<Rule>, ms: seq<Matcher>, ls: Labels, n: string, v: string, all: bool)
    requires Suits(re, rules, ms, ls, all) && Fits(re, rules, ms, n, v, all)
    ensures Suits(re, rules, ms, ls[n := v], all)
  {
    hide Origin, Counts, Matches;
  }

  lemma SuitsFewer(re: Regex, rules: seq<Rule>, ms: seq<Matcher>, ls: Labels)
    ensures Suits(re, rules, ms, ls, true) ==> Suits(re, rules, ms, ls, false)
    ensures forall all :: Suits(re, rules, ms, ls, all) ==> !Contradictory(re, rules, ms, all)
  {
    forall all | Suits(re, rules, ms, ls, all) ensures !Contradictory(re, rules, ms, all) {
      FittingSuits(re, rules, ms, ls, all);
      hide Fits, Origin, Counts;
    }
    hide Origin, ReadsDropped, Matches;
  }

  /** Rewriting a list is sound for all series exactly when it is given up, or no matcher rejects the emptiness of a
    dropped label, or the list contradicts itself. */
  lemma RewriteAllSoundExact(lib: Library, rules: seq<Rule>, ms: seq<Matcher>)
    requires Reliable(lib) && FixedTargets(lib, rules)
    ensures (forall ls :: AllSoundOn(lib, rules, ms, ls)) <==>
            || RewriteAll(rules, ms).None?
            || !RejectsDropped(lib.matches, rules, ms)
            || Contradictory(lib.matches, rules, ms, true)
  {
    var re := lib.matches;
    forall ls: Labels
      ensures AllSoundOn(lib, rules, ms, ls) <==>
              (RewriteAll(rules, ms).Some? && Suits(re, rules, ms, ls, true) ==> !RejectsDropped(re, rules, ms))
      ensures Suits(re, rules, ms, ls, true) ==> !Contradictory(re, rules, ms, true)
    {
      RelabelledSuits(lib, rules, ms, ls);
      RewrittenSuits(re, rules, ms, ls);
      SuitsFewer(re, rules, ms, ls);
    }
    hide AllSoundOn, RewriteAll, RejectsDropped, Suits, Contradictory;
    if !Contradictory(re, rules, ms, true) {
      var ls := Compose(re, rules, ms, true);
      assert AllSoundOn(lib, rules, ms, ls) <==> (RewriteAll(rules, ms).Some? ==> !RejectsDropped(re, rules, ms));
    }
  }

  /** The condition for a list to be rewritten exactly. Given up, nothing may be left to accept. Otherwise, if some
    matcher rejects what a drop leaves, the list must contradict itself; and if none does, the matchers that still see
    their labels must contradict each other or imply the rest. */
  ghost predicate AllExactCondition(re: Regex, rules: seq<Rule>, ms: seq<Matcher>) {
    if RewriteAll(rules, ms).None? then RejectsDropped(re, rules, ms) || Contradictory(re, rules, ms, false)
    else if RejectsDropped(re, rules, ms) then Contradictory(re, rules, ms, true)
    else Contradictory(re, rules, ms, false) || DroppedFollows(re, rules, ms)
  }

  lemma RewriteAllExactCondition(lib: Library, rules: seq<Rule>, ms: seq<Matcher>)
    requires Reliable(lib) && FixedTargets(lib, rules)
    ensures (forall ls :: AllAgreeOn(lib, rules, ms, ls)) <==> AllExactCondition(lib.matches, rules, ms)
  {
    var re := lib.matches;
    forall ls: Labels
      ensures AllAgreeOn(lib, rules, ms, ls) <==>
              (RewriteAll(rules, ms).Some? && Suits(re, rules, ms, ls, true) <==>
                 Suits(re, rules, ms, ls, false) && !RejectsDropped(re, rules, ms))
      ensures forall all :: Suits(re, rules, ms, ls, all) ==> !Contradictory(re, rules, ms, all)
      ensures Suits(re, rules, ms, ls, true) ==> Suits(re, rules, ms, ls, false)
      ensures DroppedFollows(re, rules, ms) && Suits(re, rules, ms, ls, false) ==> Suits(re, rules, ms, ls, true)
    {
      RelabelledSuits(lib, rules, ms, ls);
      RewrittenSuits(re, rules, ms, ls);
      SuitsFewer(re, rules, ms, ls);
      FollowsSuits(re, rules, ms, ls);
    }
    hide AllAgreeOn, RewriteAll, RejectsDropped, Suits, Contradictory, DroppedFollows;
    if !Contradictory(re, rules, ms, true) {
      var ls := Compose(re, rules, ms, true);
      assert AllAgreeOn(lib, rules, ms, ls) <==> (RewriteAll(rules, ms).Some? <==> !RejectsDropped(re, rules, ms));
    }
    if !Contradictory(re, rules, ms, false) {
      var ls := Compose(re, rules, ms, false);
      assert AllAgreeOn(lib, rules, ms, ls) <==>
             (RewriteAll(rules, ms).Some? && Suits(re, rules, ms, ls, true) <==> !RejectsDropped(re, rules, ms));
      if !DroppedFollows(re, rules, ms) {
        var ls' := Apart(re, rules, ms, ls);
        assert AllAgreeOn(lib, rules, ms, ls') <==> RejectsDropped(re, rules, ms);
      }
    }
  }

  lemma FollowsSuits(re: Regex, rules: seq<Rule>, ms: seq<Matcher>, ls: Labels)
    ensures DroppedFollows(re, rules, ms) && Suits(re, rules, ms, ls, false) ==> Suits(re, rules, ms, ls, true)
  {
    FittingSuits(re, rules, ms, ls, false);
    hide Origin, ReadsDropped, Matches, Fits;
  }

  /** If the rest does not follow, some series suits the matchers that still see their labels, but not all of them. */
  lemma Apart(re: Regex, rules: seq<Rule>, ms: seq<Matcher>, ls: Labels) returns (ls': Labels)
    requires Suits(re, rules, ms, ls, false) && !DroppedFollows(re, rules, ms)
    ensures Suits(re, rules, ms, ls', false) && !Suits(re, rules, ms, ls', true)
  {
    hide Origin, ReadsDropped, Matches, Fits, Suits;
    var i, v :| 0 <= i < |ms| && ReadsDropped(re, rules, ms, i) &&
                Fits(re, rules, ms, Origin(rules, ms[i].name), v, false) && !Matches(re, ms[i], v);
    var n := Origin(rules, ms[i].name);
    SuitsChanged(re, rules, ms, ls, n, v, false);
    ls' := ls[n := v];
    NotSuited(re, rules, ms, ls', i);
  }

  lemma NotSuited(re: Regex, rules: seq<Rule>, ms: seq<Matcher>, ls: Labels, i: nat)
    requires i < |ms| && !Matches(re, ms[i], Get(ls, Origin(rules, ms[i].name)))
    ensures !Suits(re, rules, ms, ls, true)
  {
    assert Counts(re, rules, ms, i, true);
  }

  /** For names that are their own patterns: a series that the rewritten matchers accept is accepted by the originals
    after relabelling. */
  lemma RewriteAllSound(lib: Library, rules: seq<Rule>, ms: seq<Matcher>, ls: Labels)
    requires Reliable(lib) && FixedTargets(lib, rules) && LiteralDrops(lib.matches, rules)
    ensures AllSoundOn(lib, rules, ms, ls)
  {
    RewriteAllAt(rules, ms);
    if AllLetThrough(lib.matches, rules, ms, ls) {
      forall i | 0 <= i < |ms| ensures Accepts(lib.matches, ms[i], Relabelled(lib, rules, ls)) {
        assert Accepts(lib.matches, RewriteAll(rules, ms).value[i], ls);
        RewriteSound(lib, rules, ms[i], ls);
      }
    }
  }

  /** No matcher accepts the empty value on a label that is dropped; in particular when none accepts the empty value. */
  ghost predicate NoneExpectsDropped(re: Regex, rules: seq<Rule>, ms: seq<Matcher>) {
    forall i :: 0 <= i < |ms| ==> !(Matches(re, ms[i], "") && DroppedByName(rules, ms[i].name))
  }

  /** For such names and matchers the rewrite is exact, and giving up means that no series could have matched after
    relabelling. */
  lemma RewriteAllExact(lib: Library, rules: seq<Rule>, ms: seq<Matcher>, ls: Labels)
    requires Reliable(lib) && FixedTargets(lib, rules) && LiteralDrops(lib.matches, rules)
    requires NoneExpectsDropped(lib.matches, rules, ms)
    ensures AllAgreeOn(lib, rules, ms, ls)
    ensures RewriteAll(rules, ms).None? ==> !AcceptsAll(lib.matches, ms, Relabelled(lib, rules, ls))
  {
    RewriteAllAt(rules, ms);
    forall i | 0 <= i < |ms| ensures AgreeOn(lib, rules, ms[i], ls) {
      RewriteExact(lib, rules, ms[i]);
    }
    hide Relabelled, Rewrite, RewriteAll, Reliable, Accepts;
    if RewriteAll(rules, ms).Some? {
      var r := RewriteAll(rules, ms).value;
      forall i | 0 <= i < |r|
        ensures Accepts(lib.matches, r[i], ls) <==> Accepts(lib.matches, ms[i], Relabelled(lib, rules, ls))
      {
        assert AgreeOn(lib, rules, ms[i], ls);
      }
    } else {
      var i :| 0 <= i < |ms| && Rewrite(rules, ms[i]).None?;
      assert AgreeOn(lib, rules, ms[i], ls);
    }
  }

  // ----- Inputs on which it goes wrong -----

  /** The pattern matches another name: the rewrite does not see that the label is dropped, and lets a series through
    that the matcher rejects afterwards. */
  lemma PatternDropsAnother(lib: Library)
    requires Reliable(lib) && lib.matches("k8s.pod", "k8s_pod")
    ensures !SoundOn(lib, [LabelDrop("k8s.pod")], Matcher(Equal, "k8s_pod", "x"), map["k8s_pod" := "x"])
  {
    var rules, m, ls := [LabelDrop("k8s.pod")], Matcher(Equal, "k8s_pod", "x"), map["k8s_pod" := "x"];
    assert rules[..0] == [] && rules[0] == LabelDrop("k8s.pod");
    assert Rewrite(rules, m) == Some(m);
    assert Relabelled(lib, rules, ls) == Apply(lib, rules[0], ls);
  }

  /** The pattern does not match its own text: the rewrite gives up, though the label survives and the series matches.
    */
  lemma PatternMissesItself(lib: Library)
    requires Reliable(lib) && !lib.matches("a+b", "a+b")
    ensures var rules, m, ls := [LabelDrop("a+b")], Matcher(Equal, "a+b", "x"), map["a+b" := "x"];
            Rewrite(rules, m).None? && Accepts(lib.matches, m, Relabelled(lib, rules, ls))
  {
    var rules, m, ls := [LabelDrop("a+b")], Matcher(Equal, "a+b", "x"), map["a+b" := "x"];
    assert rules[..0] == [] && rules[0] == LabelDrop("a+b");
    assert Relabelled(lib, rules, ls) == Apply(lib, rules[0], ls);
  }

  /** A copy to a target that is not fixed: for all matchers and series, rewriting agrees with relabelling if and only
    if the target is the same label whatever the value. */
  lemma TargetExact(lib: Library, source: string, target: string)
    requires Reliable(lib) && target != "" && target != source
    ensures (forall m, ls :: AgreeOn(lib, [Replace(source, target)], m, ls)) <==> Fixed(lib, target)
  {
    var rules := [Replace(source, target)];
    if Fixed(lib, target) {
      forall m, ls ensures AgreeOn(lib, rules, m, ls) {
        RewriteExactCondition(lib, rules, m);
        OneCopy(lib, source, target, m, ls);
      }
    } else {
      var v :| lib.expand(target, v) != target;
      var m := Matcher(Equal, target, if v == "" then "x" else v);
      var ls: Labels := if v == "" then map[target := "x"] else map[source := v];
      OneCopy(lib, source, target, m, ls);
      assert !AgreeOn(lib, rules, m, ls);
    }
  }

  lemma OneCopy(lib: Library, source: string, target: string, m: Matcher, ls: Labels)
    ensures var rules := [Replace(source, target)];
            && Rewrite(rules, m) == Some(if m.name == target then m.(name := source) else m)
            && Relabelled(lib, rules, ls) == Apply(lib, rules[0], ls)
            && !Dropped(lib.matches, rules, m.name)
  {
    var rules := [Replace(source, target)];
    assert rules[..0] == [] && rules[0] == Replace(source, target);
    assert Rewrite([], m.(name := source)) == Some(m.(name := source)) && Rewrite([], m) == Some(m);
    assert Relabelled(lib, [], ls) == ls;
  }

  /** A target that refers to the value: the copy goes to a label of that name, not to the one the rewrite looks for. */
  lemma TargetIsExpanded(lib: Library)
    requires Reliable(lib) && lib.expand("$1", "x") == "x"
    ensures !SoundOn(lib, [Replace("a", "$1")], Matcher(Equal, "$1", "x"), map["a" := "x"])
  {
    var ls := map["a" := "x"];
    OneCopy(lib, "a", "$1", Matcher(Equal, "$1", "x"), ls);
    assert Apply(lib, Replace("a", "$1"), ls) == ls["x" := "x"];
  }
}
