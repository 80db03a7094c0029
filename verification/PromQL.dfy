/** A small PromQL at one evaluation time: element-wise inner expressions, grouping, and the aggregations that promxy
  pushes down. It is the meaning against which pkg/proxystorage/proxy.go's rewrites are judged. */
module PromQL {
  import opened Options
  import opened Labels

  datatype Element = Element(labels: Labels, value: real)

  type Vector = seq<Element>

  /** A stored series; D is its raw samples. */
  datatype Series<D> = Series(labels: Labels, data: D)

  // ----- Inner expressions -----

  /** What may stand under a pushed-down aggregation: one selector, and functions applied element by element. */
  datatype Inner<!D> =
    | Select(ms: seq<Matcher>, latest: D -> Option<real>)  // foo{..}: the sample the lookback finds, if any
    | Over(ms: seq<Matcher>, window: D -> Option<real>)  // rate(foo{..}[5m]) and its kind: the name is dropped
    | Apply(fn: real -> real, arg: Inner<D>)  // abs(..), .. * 2: the name is dropped
    | Compare(holds: real -> bool, arg: Inner<D>)  // .. > 2: keeps the element or drops it
    | KeepName(arg: Inner<D>)  // label_replace(..): copies the metric name to a label that survives arithmetic

  function WithoutName(ls: Labels): Labels {
    ls - {METRIC_NAME}
  }

  /** The label that carries the metric name where the name itself would be dropped. */
  const NAME_COPY := "__name"

  /** label_replace(.., dst, "$1", src, "(.*)"): an empty source removes the target. */
  function Preserve(ls: Labels, src: string, dst: string): Labels {
    if Get(ls, src) == "" then ls - {dst} else ls[dst := Get(ls, src)]
  }

  function PreserveAll(v: Vector, src: string, dst: string): Vector {
    seq(|v|, i requires 0 <= i < |v| => Element(Preserve(v[i].labels, src, dst), v[i].value))
  }

  function EvalOne<D(!new)>(re: Regex, e: Inner<D>, s: Series<D>): Option<Element> {
    match e
    case Select(ms, latest) =>
      if AcceptsAll(re, ms, s.labels) && latest(s.data).Some?
      then Some(Element(s.labels, latest(s.data).value)) else None
    case Over(ms, window) =>
      if AcceptsAll(re, ms, s.labels) && window(s.data).Some?
      then Some(Element(WithoutName(s.labels), window(s.data).value)) else None
    case Apply(fn, arg) =>
      (match EvalOne(re, arg, s)
       case None => None
       case Some(x) => Some(Element(WithoutName(x.labels), fn(x.value))))
    case Compare(holds, arg) =>
      (match EvalOne(re, arg, s)
       case None => None
       case Some(x) => if holds(x.value) then Some(x) else None)
    case KeepName(arg) =>
      (match EvalOne(re, arg, s)
       case None => None
       case Some(x) => Some(Element(Preserve(x.labels, METRIC_NAME, NAME_COPY), x.value)))
  }

  function Eval<D(!new)>(re: Regex, e: Inner<D>, store: seq<Series<D>>): Vector {
    if store == [] then []
    else
      var init := Eval(re, e, store[..|store|-1]);
      match EvalOne(re, e, store[|store|-1])
      case None => init
      case Some(x) => init + [x]
  }

  /** FilterMatcherVisitor: the expression sent to a server group, or nothing when the group's labels rule it out. */
  function Strip<D(!new)>(re: Regex, e: Inner<D>, added: Labels): Option<Inner<D>> {
    match e
    case Select(ms, latest) =>
      (match Stripped(re, added, ms) case None => None case Some(kept) => Some(Select(kept, latest)))
    case Over(ms, window) =>
      (match Stripped(re, added, ms) case None => None case Some(kept) => Some(Over(kept, window)))
    case Apply(fn, arg) =>
      (match Strip(re, arg, added) case None => None case Some(a) => Some(Apply(fn, a)))
    case Compare(holds, arg) =>
      (match Strip(re, arg, added) case None => None case Some(a) => Some(Compare(holds, a)))
    case KeepName(arg) =>
      (match Strip(re, arg, added) case None => None case Some(a) => Some(KeepName(a)))
  }

  predicate CopiesName<D>(e: Inner<D>) {
    match e
    case Select(_, _) => false
    case Over(_, _) => false
    case Apply(_, arg) => CopiesName(arg)
    case Compare(_, arg) => CopiesName(arg)
    case KeepName(_) => true
  }

  /** A group's labels stay clear of the metric name, and of its copy where one is made. */
  predicate Spares<D>(added: Labels, e: Inner<D>) {
    METRIC_NAME !in added && (CopiesName(e) ==> NAME_COPY !in added)
  }

  function LabelElement(x: Element, added: Labels): Element {
    Element(Labelled(x.labels, added), x.value)
  }

  function LabelAll(v: Vector, added: Labels): Vector {
    seq(|v|, i requires 0 <= i < |v| => LabelElement(v[i], added))
  }

  function LabelStore<D>(store: seq<Series<D>>, added: Labels): seq<Series<D>> {
    seq(|store|, i requires 0 <= i < |store| => Series(Labelled(store[i].labels, added), store[i].data))
  }

  /** A series as servers store it, for a group that adds `added`: named, and nothing is written down empty. */
  ghost predicate Stored<D>(s: Series<D>) {
    Normal(s.labels) && Get(s.labels, METRIC_NAME) != ""
  }

  lemma DropNameCommutes(ls: Labels, added: Labels)
    requires METRIC_NAME !in added
    ensures WithoutName(Labelled(ls, added)) == Labelled(WithoutName(ls), added)
  {
  }

  lemma CopyNameCommutes(ls: Labels, added: Labels)
    requires METRIC_NAME !in added && NAME_COPY !in added
    ensures Preserve(Labelled(ls, added), METRIC_NAME, NAME_COPY) ==
            Labelled(Preserve(ls, METRIC_NAME, NAME_COPY), added)
  {
    LabelledGet(ls, added, METRIC_NAME);
  }

  /** Element by element, evaluating over labelled series is labelling what the stripped expression gives. */
  lemma {:induction false} StripOne<D(!new)>(re: Regex, e: Inner<D>, added: Labels, s: Series<D>)
    requires Sound(re) && Stored(s) && Spares(added, e)
    ensures EvalOne(re, e, Series(Labelled(s.labels, added), s.data)) ==
            match Strip(re, e, added)
            case None => None
            case Some(e') =>
              match EvalOne(re, e', s) case None => None case Some(x) => Some(LabelElement(x, added))
  {
    match e
    case Select(ms, _) =>
      StrippingExact(re, added, ms, s.labels);
    case Over(ms, _) =>
      StrippingExact(re, added, ms, s.labels);
      DropNameCommutes(s.labels, added);
    case Apply(fn, arg) =>
      StripOne(re, arg, added, s);
      match Strip(re, arg, added) {
        case None =>
        case Some(a) =>
          match EvalOne(re, a, s) {
            case None =>
            case Some(x) => DropNameCommutes(x.labels, added);
          }
      }
    case Compare(_, arg) =>
      StripOne(re, arg, added, s);
    case KeepName(arg) =>
      StripOne(re, arg, added, s);
      match Strip(re, arg, added) {
        case None =>
        case Some(a) =>
          match EvalOne(re, a, s) {
            case None =>
            case Some(x) => CopyNameCommutes(x.labels, added);
          }
      }
  }

  /** What the server group as a whole contributes to the inner expression, before labels are added. */
  function GroupVector<D(!new)>(re: Regex, e: Inner<D>, added: Labels, store: seq<Series<D>>): Vector {
    match Strip(re, e, added)
    case None => []
    case Some(e') => Eval(re, e', store)
  }

  /** AddLabelClient.Query preserves meaning: strip, evaluate, label equals label, evaluate. */
  lemma {:induction false} StripEval<D(!new)>(re: Regex, e: Inner<D>, added: Labels, store: seq<Series<D>>)
    requires Sound(re) && Spares(added, e) && forall i :: 0 <= i < |store| ==> Stored(store[i])
    ensures Eval(re, e, LabelStore(store, added)) == LabelAll(GroupVector(re, e, added, store), added)
    decreases |store|
  {
    hide EvalOne, Labelled, Strip;
    if store != [] {
      var init, last := store[..|store|-1], store[|store|-1];
      StripEval(re, e, added, init);
      StripOne(re, e, added, last);
      assert LabelStore(store, added)[..|store|-1] == LabelStore(init, added);
      var before := GroupVector(re, e, added, init);
      match Strip(re, e, added) {
        case None =>
        case Some(e') =>
          match EvalOne(re, e', last) {
            case None =>
            case Some(x) => assert LabelAll(before + [x], added) == LabelAll(before, added) + [LabelElement(x, added)];
          }
      }
    }
  }

  // ----- Grouping -----

  datatype Grouping = By(names: set<string>) | Without(names: set<string>)

  function Key(g: Grouping, ls: Labels): Labels {
    match g
    case By(names) => map k | k in ls && k in names :: ls[k]
    case Without(names) => ls - (names + {METRIC_NAME})
  }

  /** `by` keeps the labels named, `without` the others except for the metric name. */
  lemma KeyLabels(g: Grouping, ls: Labels, k: string)
    ensures k in Key(g, ls) <==> k in ls && (if g.By? then k in g.names else k !in g.names && k != "__name__")
    ensures k in Key(g, ls) ==> Key(g, ls)[k] == ls[k]
  {
  }

  /** Grouping before labelling loses nothing that grouping after labelling would have seen. */
  lemma KeyOfLabelled(g: Grouping, ls: Labels, added: Labels)
    ensures Key(g, Labelled(ls, added)) == Key(g, Labelled(Key(g, ls), added))
    ensures Key(g, Key(g, ls)) == Key(g, ls)
  {
  }

  // ----- Aggregation as a fold -----

  datatype Op = Sum | Min | Max | Group | Count

  /** What one element contributes. */
  function Lift(op: Op, x: real): real {
    if op.Group? || op.Count? then 1.0 else x
  }

  /** How two partial aggregates combine; None is the aggregate of nothing. */
  function Merge(op: Op, a: Option<real>, b: Option<real>): Option<real> {
    if a.None? then b
    else if b.None? then a
    else
      match op
      case Sum => Some(a.value + b.value)
      case Count => Some(a.value + b.value)
      case Min => if b.value < a.value then b else a
      case Max => if b.value > a.value then b else a
      case Group => Some(1.0)
  }

  function Fold(op: Op, xs: seq<real>): Option<real> {
    if xs == [] then None else Merge(op, Fold(op, xs[..|xs|-1]), Some(Lift(op, xs[|xs|-1])))
  }

  /** The values of the elements whose group is in `keys`. */
  function ValuesIn(g: Grouping, v: Vector, keys: set<Labels>): seq<real> {
    if v == [] then []
    else
      var init, last := ValuesIn(g, v[..|v|-1], keys), v[|v|-1];
      if Key(g, last.labels) in keys then init + [last.value] else init
  }

  function Keys(g: Grouping, v: Vector): set<Labels> {
    set x | x in v :: Key(g, x.labels)
  }

  /** A comparison with a literal, which keeps a result or drops it; `Always` is no comparison. */
  datatype Filter =
    | Always
    | Above(c: real)
    | AtLeast(c: real)
    | Below(c: real)
    | AtMost(c: real)
    | Equals(c: real)
    | Differs(c: real)

  predicate Passes(f: Filter, x: real) {
    match f
    case Always => true
    case Above(c) => x > c
    case AtLeast(c) => x >= c
    case Below(c) => x < c
    case AtMost(c) => x <= c
    case Equals(c) => x == c
    case Differs(c) => x != c
  }

  function Keep(f: Filter, a: Option<real>): Option<real> {
    if a.Some? && Passes(f, a.value) then a else None
  }

  /** The result for one group: the aggregate of its values, if the filter lets it through. */
  function GroupResult(op: Op, f: Filter, g: Grouping, v: Vector, key: Labels): Option<real> {
    Keep(f, Fold(op, ValuesIn(g, v, {key})))
  }

  /** `op by/without (..) (v)`, compared as `f` says: one value for each group that passes. */
  function Aggregate(op: Op, f: Filter, g: Grouping, v: Vector): map<Labels, real> {
    map key | key in Keys(g, v) && GroupResult(op, f, g, v, key).Some? :: GroupResult(op, f, g, v, key).value
  }

  /** The average, which is not a fold of partial averages. */
  function Average(g: Grouping, v: Vector): map<Labels, real> {
    map key | key in Keys(g, v) && Fold(Sum, ValuesIn(g, v, {key})).Some? ::
      Fold(Sum, ValuesIn(g, v, {key})).value / (|ValuesIn(g, v, {key})| as real)
  }

  // ----- Division -----

  /** No two label sets differ in the metric name only. */
  ghost predicate Apart(m: map<Labels, real>) {
    forall k, k' :: k in m && k' in m && WithoutName(k) == WithoutName(k') ==> k == k'
  }

  /** The result with the metric names dropped. */
  ghost function Nameless(m: map<Labels, real>): map<Labels, real>
    requires Apart(m)
  {
    map k | k in m :: WithoutName(k) := m[k]
  }

  ghost predicate HasPartner(k: Labels, b: map<Labels, real>) {
    exists k' :: k' in b && WithoutName(k') == WithoutName(k)
  }

  /** The elements of `a` that have a partner in `b`. */
  ghost function Partnered(a: map<Labels, real>, b: map<Labels, real>): map<Labels, real> {
    map k | k in a && HasPartner(k, b) :: a[k]
  }

  /** Key by key. */
  function Ratio(a: map<Labels, real>, b: map<Labels, real>): map<Labels, real> {
    map k | k in a && k in b && b[k] != 0.0 :: a[k] / b[k]
  }

  /** One-to-one division: partners have the same labels apart from the metric name, which the result drops. It fails
    when an element of the right side, or one with a partner on the left, is not alone with its labels. */
  ghost function Divide(a: map<Labels, real>, b: map<Labels, real>): Option<map<Labels, real>> {
    if a == map[] then Some(map[])
    else if !Apart(b) || !Apart(Partnered(a, b)) then None
    else Some(Ratio(Nameless(Partnered(a, b)), Nameless(b)))
  }
}
