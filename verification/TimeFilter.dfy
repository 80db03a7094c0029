/** Time windows of a server group (pkg/promclient/timefilter.go). A range query truncated to a window must keep
  asking for the same step points; a point that is not one of the original steps would be a different query. */
module TimeFilter {
  import opened Options

  /** A window's edges; an unset edge does not bound. */
  datatype Window = Window(start: Option<int>, end: Option<int>)

  predicate Inside(w: Window, t: int) {
    (w.start.Some? ==> w.start.value <= t) && (w.end.Some? ==> t <= w.end.value)
  }

  /** A range query: the points start, start + step, .. up to end. */
  datatype Range = Range(start: int, end: int, step: int)

  ghost predicate Evaluates(r: Range, t: int) {
    exists k: nat :: t == r.start + k * r.step && t <= r.end
  }

  /** What a filter does with a range query: answer with nothing, or ask the wrapped API. */
  ghost predicate Asks(sent: Option<Range>, t: int) {
    sent.Some? && Evaluates(sent.value, t)
  }
  /** `start` is the first step of `r` that is not before `from`. */
  ghost predicate FirstStepFrom(r: Range, from: int, start: int) {
    exists m: nat :: IsStep(r, m, start) && start >= from && (m > 0 ==> start - r.step < from)
  }

  ghost predicate IsStep(r: Range, m: nat, t: int) {
    t == r.start + m * r.step
  }

  /** Rounding the remainder up lands on the first step inside the window. */
  lemma AlignedStart(r: Range, from: int, start: int)
    requires r.step > 0 && r.start < from
    requires var rem := (from - r.start) % r.step; start == if rem > 0 then from + (r.step - rem) else from
    ensures FirstStepFrom(r, from, start)
  {
    var d := from - r.start;
    var q, rem := d / r.step, d % r.step;
    assert d == q * r.step + rem;
    assert q >= 0;
    if rem > 0 {
      assert (q + 1) * r.step == q * r.step + r.step;
      assert IsStep(r, q + 1, start);
    } else {
      assert IsStep(r, q, start);
    }
  }

  lemma SameStart(r: Range, from: int)
    requires r.start >= from
    ensures FirstStepFrom(r, from, r.start)
  {
    assert IsStep(r, 0, r.start);
  }

  lemma Scale(a: int, b: int, c: int)
    requires a <= b && c > 0
    ensures a * c <= b * c
  {
  }

  lemma PointBounds(r: Range, t: int)
    requires r.step > 0 && Evaluates(r, t)
    ensures r.start <= t <= r.end
  {
    var k: nat :| t == r.start + k * r.step && t <= r.end;
    Scale(0, k, r.step);
  }

  /** From the first step in the window on, truncated and original steps are the same. */
  lemma TruncatedPoint(r: Range, from: int, start: int, end: int, t: int)
    requires r.step > 0 && FirstStepFrom(r, from, start) && end <= r.end
    ensures Evaluates(Range(start, end, r.step), t) <==> Evaluates(r, t) && from <= t <= end
  {
    var m: nat :| IsStep(r, m, start) && start >= from && (m > 0 ==> start - r.step < from);
    var sent := Range(start, end, r.step);
    if Evaluates(sent, t) {
      var k: nat :| t == start + k * r.step && t <= end;
      PointBounds(sent, t);
      assert (m + k) * r.step == m * r.step + k * r.step;
      assert t == r.start + (m + k) * r.step;
    }
    if Evaluates(r, t) && from <= t <= end {
      var j: nat :| t == r.start + j * r.step && t <= r.end;
      if j < m {
        Scale(j, m - 1, r.step);
        assert (m - 1) * r.step == m * r.step - r.step;
      } else {
        assert j * r.step == m * r.step + (j - m) * r.step;
        assert t == start + (j - m) * r.step;
      }
    }
  }

  /** A range evaluates nothing exactly when it runs backwards. */
  lemma NoPoints(r: Range)
    requires r.step > 0
    ensures r.start > r.end <==> forall t :: !Evaluates(r, t)
  {
    if r.start <= r.end {
      assert r.start == r.start + 0 * r.step;
      assert Evaluates(r, r.start);
    } else {
      forall t ensures !Evaluates(r, t) {
        if Evaluates(r, t) {
          PointBounds(r, t);
        }
      }
    }
  }

  /** QueryRange of AbsoluteTimeFilter, and of RelativeTimeFilter once its window is computed. With truncation, what is
    sent evaluates exactly the original steps that lie inside the window; it runs backwards when there are none. */
  method QueryRange(w: Window, truncate: bool, r: Range) returns (sent: Option<Range>)
    requires r.step > 0
    ensures sent.None? <==>
              (w.start.Some? && r.end < w.start.value) || (w.end.Some? && w.end.value < r.start)
    ensures sent.Some? ==> sent.value.step == r.step
    ensures truncate ==> forall t :: Asks(sent, t) <==> Evaluates(r, t) && Inside(w, t)
    ensures !truncate && sent.Some? ==> sent.value == r
    ensures !truncate && sent.None? ==> forall t :: Evaluates(r, t) ==> !Inside(w, t)
    ensures sent.Some? ==> (sent.value.start > sent.value.end <==> forall t :: !Asks(sent, t))
  {
    if (w.start.Some? && r.end < w.start.value) || (w.end.Some? && r.start > w.end.value) {
      forall t | Evaluates(r, t) ensures !Inside(w, t) {
        PointBounds(r, t);
      }
      return None;
    }
    var start, end := r.start, r.end;
    if truncate {
      if w.start.Some? && start < w.start.value {
        var remainder := (w.start.value - start) % r.step;
        if remainder > 0 {
          start := w.start.value + (r.step - remainder);
        } else {
          start := w.start.value;
        }
      }
      if w.end.Some? && end > w.end.value {
        end := w.end.value;
      }
    }
    sent := Some(Range(start, end, r.step));
    NoPoints(sent.value);
    assert forall t :: Asks(sent, t) <==> Evaluates(sent.value, t);
    if truncate {
      ghost var from := if w.start.Some? && r.start < w.start.value then w.start.value else r.start;
      if from == r.start {
        SameStart(r, from);
      } else {
        AlignedStart(r, from, start);
      }
      forall t ensures Asks(sent, t) <==> Evaluates(r, t) && Inside(w, t) {
        TruncatedPoint(r, from, start, end, t);
        if Evaluates(r, t) {
          PointBounds(r, t);
        }
      }
    }
  }

  /** A distance from now that lies between the edges that are set. */
  predicate InsideRelative(start: Option<int>, end: Option<int>, distance: int) {
    (start.Some? ==> start.value <= distance) && (end.Some? ==> distance <= end.value)
  }

  /** RelativeTimeFilter.window: its edges, at the time of the call. */
  method RelativeWindow(now: int, start: Option<int>, end: Option<int>) returns (w: Window)
    ensures forall t :: Inside(w, t) <==> InsideRelative(start, end, t - now)
  {
    w := Window(None, None);
    if start.Some? {
      w := w.(start := Some(now + start.value));
    }
    if end.Some? {
      w := w.(end := Some(now + end.value));
    }
  }

  /** The relative filter wraps the absolute one, and each of them truncates or not. What reaches the servers is the
    steps inside the windows of those that truncate; a query that reaches nobody has no step inside both. */
  method NestedQueryRange(absolute: Window, cutAbsolute: bool, now: int, start: Option<int>, end: Option<int>,
                          cutRelative: bool, r: Range)
    returns (sent: Option<Range>)
    requires r.step > 0
    ensures sent.Some? ==> forall t :: Asks(sent, t) <==>
              && Evaluates(r, t)
              && (cutAbsolute ==> Inside(absolute, t))
              && (cutRelative ==> InsideRelative(start, end, t - now))
    ensures sent.None? ==> forall t :: Evaluates(r, t) && Inside(absolute, t) ==> !InsideRelative(start, end, t - now)
    ensures cutAbsolute && cutRelative ==> forall t :: Asks(sent, t) <==>
              Evaluates(r, t) && Inside(absolute, t) && InsideRelative(start, end, t - now)
  {
    hide Evaluates;
    var w := RelativeWindow(now, start, end);
    var outer := QueryRange(w, cutRelative, r);
    if outer.None? {
      assert forall t :: Evaluates(r, t) ==> !Asks(outer, t) && !Inside(w, t);
      return None;
    }
    assert forall t :: Asks(outer, t) <==> Evaluates(outer.value, t);
    sent := QueryRange(absolute, cutAbsolute, outer.value);
    assert sent.Some? ==> forall t :: Asks(sent, t) <==> Evaluates(sent.value, t);
  }

  /** truncateWindow: for requests without a step grid, plain clamping to the window. */
  method TruncateWindow(start: int, end: int, w: Window) returns (s: int, e: int)
    ensures forall t :: s <= t <= e <==> start <= t <= end && Inside(w, t)
    ensures Inside(w, start) && Inside(w, end) && start <= end ==> s == start && e == end
  {
    s, e := start, end;
    if w.start.Some? && s < w.start.value {
      s := w.start.value;
    }
    if w.end.Some? && e > w.end.value {
      e := w.end.value;
    }
  }
}
