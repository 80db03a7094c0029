/** Encoder.WriteFloatSample of pkg/expfmt/encode.go and the loop of pkg/federate/federate.go that drives it. */
module Encoder {
  import opened Options
  import opened Exposition
  import Labels

  /** A series' sample before it is written; the value and the time are already rendered. */
  datatype Point = Point(name: string, labels: seq<Label>, value: string, time: string)

  /** labels.Get: the value, or empty when the series does not carry the name. */
  function Get(ls: seq<Label>, name: string): string {
    if ls == [] then "" else if ls[0].name == name then ls[0].value else Get(ls[1..], name)
  }

  /** That is the value of the first label of that name. */
  lemma {:induction false} GetMeaning(ls: seq<Label>, name: string)
    ensures (forall i :: 0 <= i < |ls| ==> ls[i].name != name) ==> Get(ls, name) == ""
    ensures forall i :: 0 <= i < |ls| && ls[i].name == name && (forall j :: 0 <= j < i ==> ls[j].name != name) ==>
              Get(ls, name) == ls[i].value
    decreases |ls|
  {
    if ls != [] {
      GetMeaning(ls[1..], name);
      forall i | 0 < i < |ls| ensures ls[i] == ls[1..][i-1] {
      }
    }
  }

  function Own(ls: seq<Label>, esc: string -> string): seq<Label> {
    if ls == [] then []
    else if ls[0].name == Labels.METRIC_NAME || ls[0].value == "" then Own(ls[1..], esc)
    else [Label(esc(ls[0].name), ls[0].value)] + Own(ls[1..], esc)
  }

  function Added(external: seq<Label>, ls: seq<Label>, esc: string -> string): seq<Label> {
    if external == [] then []
    else if Get(ls, external[0].name) != "" then Added(external[1..], ls, esc)
    else [Label(esc(external[0].name), external[0].value)] + Added(external[1..], ls, esc)
  }

  /** The labels that reach the line: the series' own without the metric name and the empty ones, then the external
    ones that the series does not carry. */
  function Kept(ls: seq<Label>, external: seq<Label>, esc: string -> string): seq<Label> {
    Own(ls, esc) + Added(external, ls, esc)
  }

  function Written(p: Point, external: seq<Label>, esc: string -> string): Sample {
    Sample(esc(p.name), Kept(p.labels, external, esc), p.value, p.time)
  }

  // ----- The lines of a stream -----

  /** A TYPE line whenever the name changes. */
  function Lines(last: Option<string>, samples: seq<Sample>): seq<Line>
    decreases |samples|
  {
    if samples == [] then []
    else Headed(last, samples[0]) + Lines(Some(samples[0].name), samples[1..])
  }

  function Headed(last: Option<string>, s: Sample): seq<Line> {
    (if last == Some(s.name) then [] else [TypeLine(s.name)]) + [SampleLine(s)]
  }

  function Names(samples: seq<Sample>): seq<string> {
    seq(|samples|, i requires 0 <= i < |samples| => samples[i].name)
  }

  /** The names of the TYPE lines, in order. */
  function Headers(lines: seq<Line>): seq<string> {
    if lines == [] then []
    else (if lines[0].TypeLine? then [lines[0].name] else []) + Headers(lines[1..])
  }

  /** The samples of the lines, in order. */
  function Samples(lines: seq<Line>): seq<Sample> {
    if lines == [] then []
    else (if lines[0].SampleLine? then [lines[0].sample] else []) + Samples(lines[1..])
  }

  /** The names at which a run of equal names starts. */
  function Runs(last: Option<string>, names: seq<string>): seq<string>
    decreases |names|
  {
    if names == [] then []
    else (if last == Some(names[0]) then [] else [names[0]]) + Runs(Some(names[0]), names[1..])
  }

  lemma {:induction false} LinesMeaning(last: Option<string>, samples: seq<Sample>)
    ensures Headers(Lines(last, samples)) == Runs(last, Names(samples))
    ensures Samples(Lines(last, samples)) == samples
    decreases |samples|
  {
    if samples != [] {
      var rest := Lines(Some(samples[0].name), samples[1..]);
      LinesMeaning(Some(samples[0].name), samples[1..]);
      HeadedMeaning(last, samples[0], rest);
      assert Names(samples)[1..] == Names(samples[1..]);
      assert samples == [samples[0]] + samples[1..];
    }
  }

  lemma HeadedMeaning(last: Option<string>, s: Sample, rest: seq<Line>)
    ensures Headers(Headed(last, s) + rest) == (if last == Some(s.name) then [] else [s.name]) + Headers(rest)
    ensures Samples(Headed(last, s) + rest) == [s] + Samples(rest)
  {
    var lines := [SampleLine(s)] + rest;
    assert lines[1..] == rest;
    if last == Some(s.name) {
      assert Headed(last, s) + rest == lines;
    } else {
      assert Headed(last, s) + rest == [TypeLine(s.name)] + lines;
      assert (Headed(last, s) + rest)[1..] == lines;
    }
  }

  // ----- One TYPE line per name -----

  predicate Grouped(names: seq<string>) {
    forall i, j, k :: 0 <= i < j < k < |names| && names[i] == names[k] ==> names[j] == names[i]
  }

  predicate NoRepeats(names: seq<string>) {
    forall i, j :: 0 <= i < j < |names| ==> names[i] != names[j]
  }

  lemma {:induction false} RunsElements(last: string, names: seq<string>, x: string)
    ensures x in [last] + Runs(Some(last), names) <==> x in [last] + names
    decreases |names|
  {
    if names != [] {
      RunsElements(names[0], names[1..], x);
      assert names == [names[0]] + names[1..];
      assert [names[0]] + names[1..] == names;
    }
  }

  lemma GroupedSame(x: string, names: seq<string>)
    ensures Grouped([x, x] + names) <==> Grouped([x] + names)
  {
    var a, b := [x, x] + names, [x] + names;
    assert b == a[1..];
    if Grouped(b) {
      forall i, j, k | 0 <= i < j < k < |a| && a[i] == a[k] ensures a[j] == a[i] {
        if 1 < j {
          assert a[j] == b[j-1] && a[k] == b[k-1] && a[i] == b[if i == 0 then 0 else i - 1];
        }
      }
    }
  }

  lemma GroupedOther(x: string, names: seq<string>)
    requires names != [] && names[0] != x
    ensures Grouped([x] + names) <==> Grouped(names) && x !in names
  {
    var a := [x] + names;
    if Grouped(a) {
      forall i, j, k | 0 <= i < j < k < |names| && names[i] == names[k] ensures names[j] == names[i] {
        assert a[i+1] == names[i] && a[j+1] == names[j] && a[k+1] == names[k];
      }
      forall k | 0 <= k < |names| ensures names[k] != x {
        assert a[0] == x && a[1] == names[0] && a[k+1] == names[k];
      }
    }
    if Grouped(names) && x !in names {
      forall i, j, k | 0 <= i < j < k < |a| && a[i] == a[k] ensures a[j] == a[i] {
        assert a[j] == names[j-1] && a[k] == names[k-1];
        assert i > 0 ==> a[i] == names[i-1];
      }
    }
  }

  lemma NoRepeatsOther(x: string, names: seq<string>)
    ensures NoRepeats([x] + names) <==> NoRepeats(names) && x !in names
  {
    var a := [x] + names;
    if NoRepeats(a) {
      forall i, j | 0 <= i < j < |names| ensures names[i] != names[j] {
        assert a[i+1] == names[i] && a[j+1] == names[j];
      }
      forall k | 0 <= k < |names| ensures names[k] != x {
        assert a[0] == x && a[k+1] == names[k];
      }
    }
  }

  lemma {:induction false} RunsUnique(last: string, names: seq<string>)
    ensures NoRepeats([last] + Runs(Some(last), names)) <==> Grouped([last] + names)
    decreases |names|
  {
    hide Grouped, NoRepeats;
    if names == [] {
      assert [last] + Runs(Some(last), names) == [last] && [last] + names == [last];
      OneName(last);
    } else {
      var n, rest := names[0], names[1..];
      RunsUnique(n, rest);
      assert [n] + rest == names;
      if n == last {
        GroupedSame(last, rest);
        assert [last] + names == [last, last] + rest;
        assert Runs(Some(last), names) == Runs(Some(n), rest);
      } else {
        GroupedOther(last, names);
        NoRepeatsOther(last, [n] + Runs(Some(n), rest));
        RunsElements(n, rest, last);
      }
    }
  }

  lemma OneName(x: string)
    ensures Grouped([x]) && NoRepeats([x])
  {
  }

  /** No name gets two TYPE lines exactly when the samples come grouped by their escaped name. */
  lemma OneHeaderPerName(samples: seq<Sample>)
    ensures NoRepeats(Headers(Lines(None, samples))) <==> Grouped(Names(samples))
    ensures forall n :: n in Headers(Lines(None, samples)) <==> n in Names(samples)
  {
    hide Grouped, NoRepeats, Lines, Headers;
    var names := Names(samples);
    LinesMeaning(None, samples);
    if names == [] {
      NoNames();
    } else {
      RunsUnique(names[0], names[1..]);
      assert names == [names[0]] + names[1..];
      forall n ensures n in Runs(None, names) <==> n in names {
        RunsElements(names[0], names[1..], n);
      }
    }
  }

  lemma NoNames()
    ensures Grouped([]) && NoRepeats([])
  {
  }

  /** The name that the latest TYPE line declares. */
  function Declared(last: Option<string>, lines: seq<Line>): Option<string>
    decreases |lines|
  {
    if lines == [] then last
    else Declared(if lines[0].TypeLine? then Some(lines[0].name) else last, lines[1..])
  }

  /** Every sample line stands under a TYPE line of its own name, with no other TYPE line in between. */
  lemma {:induction false} SampleUnderItsHeader(last: Option<string>, samples: seq<Sample>, j: nat)
    requires j < |Lines(last, samples)| && Lines(last, samples)[j].SampleLine?
    ensures Declared(last, Lines(last, samples)[..j]) == Some(Lines(last, samples)[j].sample.name)
    decreases |samples|
  {
    var lines, head := Lines(last, samples), Headed(last, samples[0]);
    var name := Some(samples[0].name);
    var rest := Lines(name, samples[1..]);
    if j < |head| {
      assert lines[..j] == head[..j];
      assert lines[j] == head[j];
    } else {
      SampleUnderItsHeader(name, samples[1..], j - |head|);
      assert lines[..j] == head + rest[..j - |head|];
      HeadedDeclares(last, samples[0], rest[..j - |head|]);
    }
  }

  lemma HeadedDeclares(last: Option<string>, s: Sample, rest: seq<Line>)
    ensures Declared(last, Headed(last, s) + rest) == Declared(Some(s.name), rest)
  {
    var lines := [SampleLine(s)] + rest;
    assert lines[1..] == rest;
    if last == Some(s.name) {
      assert Headed(last, s) + rest == lines;
    } else {
      assert Headed(last, s) + rest == [TypeLine(s.name)] + lines;
      assert (Headed(last, s) + rest)[1..] == lines;
    }
  }

  lemma {:induction false} LinesConcat(last: Option<string>, a: seq<Sample>, s: Sample)
    ensures Lines(last, a + [s]) == Lines(last, a) + Headed(if a == [] then last else Some(a[|a|-1].name), s)
    decreases |a|
  {
    hide Headed;
    if a == [] {
      assert a + [s] == [s];
    } else {
      LinesConcat(Some(a[0].name), a[1..], s);
      assert (a + [s])[1..] == a[1..] + [s];
    }
  }

  predicate Renders(s: Sample) {
    Number(s.value) && Number(s.time)
  }

  lemma {:induction false} LinesRendered(last: Option<string>, samples: seq<Sample>)
    requires forall i :: 0 <= i < |samples| ==> Renders(samples[i])
    ensures AllRendered(Lines(last, samples))
    decreases |samples|
  {
    if samples != [] {
      assert Renders(samples[0]);
      LinesRendered(Some(samples[0].name), samples[1..]);
    }
  }

  /** From the text alone a reader gets back every sample that was written, in order. */
  lemma StreamReadBack(samples: seq<Sample>)
    requires forall i :: 0 <= i < |samples| ==> Renders(samples[i])
    ensures ReadText(Text(Lines(None, samples))).Some?
    ensures Samples(ReadText(Text(Lines(None, samples))).value) == samples
  {
    hide Lines, Text, ReadText, Renders, Rendered;
    LinesRendered(None, samples);
    TextRoundTrip(Lines(None, samples));
    LinesMeaning(None, samples);
  }

  // ----- Grouping by the names before escaping -----

  function PointNames(points: seq<Point>): seq<string> {
    seq(|points|, i requires 0 <= i < |points| => points[i].name)
  }

  function AllWritten(points: seq<Point>, external: seq<Label>, esc: string -> string): seq<Sample> {
    seq(|points|, i requires 0 <= i < |points| => Written(points[i], external, esc))
  }

  predicate InjectiveOn(esc: string -> string, names: seq<string>) {
    forall i, j :: 0 <= i < j < |names| && esc(names[i]) == esc(names[j]) ==> names[i] == names[j]
  }

  /** A stream grouped by name gets one TYPE line per name when no two of its names are escaped to the same text; for
    such an escaping, grouping is also needed. */
  lemma GroupedStream(points: seq<Point>, external: seq<Label>, esc: string -> string)
    requires InjectiveOn(esc, PointNames(points))
    ensures NoRepeats(Headers(Lines(None, AllWritten(points, external, esc)))) <==> Grouped(PointNames(points))
  {
    hide NoRepeats, Headers, Lines, Kept;
    var samples := AllWritten(points, external, esc);
    OneHeaderPerName(samples);
    var before, after := PointNames(points), Names(samples);
    assert forall i :: 0 <= i < |after| ==> after[i] == esc(before[i]);
    GroupedEscaped(before, after, esc);
  }

  lemma GroupedEscaped(before: seq<string>, after: seq<string>, esc: string -> string)
    requires |after| == |before| && forall i :: 0 <= i < |after| ==> after[i] == esc(before[i])
    requires InjectiveOn(esc, before)
    ensures Grouped(before) <==> Grouped(after)
  {
    forall i, j | 0 <= i < j < |before| ensures before[i] == before[j] <==> after[i] == after[j] {
    }
  }

  /** What the labels of a line are, without the order. */
  lemma KeptMeaning(ls: seq<Label>, external: seq<Label>, esc: string -> string, l: Label)
    ensures l in Kept(ls, external, esc) <==>
      || (exists k :: k in ls && k.name != Labels.METRIC_NAME && k.value != "" && l == Label(esc(k.name), k.value))
      || (exists e :: e in external && Get(ls, e.name) == "" && l == Label(esc(e.name), e.value))
    ensures Kept(ls, external, esc) == Own(ls, esc) + Added(external, ls, esc)
  {
    OwnMeaning(ls, esc, l);
    AddedMeaning(external, ls, esc, l);
  }

  lemma {:induction false} OwnMeaning(ls: seq<Label>, esc: string -> string, l: Label)
    ensures l in Own(ls, esc) <==>
      exists k :: k in ls && k.name != Labels.METRIC_NAME && k.value != "" && l == Label(esc(k.name), k.value)
  {
    if ls != [] {
      OwnMeaning(ls[1..], esc, l);
      assert ls == [ls[0]] + ls[1..];
    }
  }

  lemma {:induction false} AddedMeaning(external: seq<Label>, ls: seq<Label>, esc: string -> string, l: Label)
    ensures l in Added(external, ls, esc) <==>
      exists e :: e in external && Get(ls, e.name) == "" && l == Label(esc(e.name), e.value)
  {
    if external != [] {
      AddedMeaning(external[1..], ls, esc, l);
      assert external == [external[0]] + external[1..];
    }
  }

  lemma {:induction false} OwnSnoc(ls: seq<Label>, l: Label, esc: string -> string)
    ensures Own(ls + [l], esc) ==
            Own(ls, esc) + if l.name == "__name__" || l.value == "" then [] else [Label(esc(l.name), l.value)]
  {
    if ls == [] {
      assert ls + [l] == [l] && [l][1..] == [];
    } else {
      OwnSnoc(ls[1..], l, esc);
      assert (ls + [l])[1..] == ls[1..] + [l];
    }
  }

  lemma {:induction false} AddedSnoc(external: seq<Label>, e: Label, ls: seq<Label>, esc: string -> string)
    ensures Added(external + [e], ls, esc) ==
            Added(external, ls, esc) + if Get(ls, e.name) != "" then [] else [Label(esc(e.name), e.value)]
  {
    hide Get;
    if external == [] {
      assert external + [e] == [e] && [e][1..] == [];
    } else {
      AddedSnoc(external[1..], e, ls, esc);
      assert (external + [e])[1..] == external[1..] + [e];
    }
  }

  /** Positions in increasing order. */
  ghost predicate Rising(indices: seq<nat>, n: nat) {
    && (forall a, b :: 0 <= a < b < |indices| ==> indices[a] < indices[b])
    && (forall j :: 0 <= j < |indices| ==> indices[j] < n)
  }

  /** One more position, or not. */
  function Longer(indices: seq<nat>, n: nat, kept: bool): seq<nat> {
    if kept then indices + [n] else indices
  }

  lemma RisingSnoc(indices: seq<nat>, n: nat, kept: bool)
    requires Rising(indices, n)
    ensures Rising(Longer(indices, n, kept), n + 1)
    ensures forall i: nat :: i in Longer(indices, n, kept) <==> i in indices || (kept && i == n)
  {
  }

  /** The series' own labels in their order. */
  lemma {:induction false} OwnIndices(ls: seq<Label>, esc: string -> string) returns (indices: seq<nat>)
    ensures Rising(indices, |ls|) && |Own(ls, esc)| == |indices|
    ensures forall i: nat :: i in indices <==> i < |ls| && ls[i].name != "__name__" && ls[i].value != ""
    ensures forall j :: 0 <= j < |indices| ==>
              Own(ls, esc)[j] == Label(esc(ls[indices[j]].name), ls[indices[j]].value)
    decreases |ls|
  {
    indices := [];
    if ls != [] {
      var n := |ls| - 1;
      var l, kept := ls[n], ls[n].name != "__name__" && ls[n].value != "";
      var before := OwnIndices(ls[..n], esc);
      OwnSnoc(ls[..n], l, esc);
      RisingSnoc(before, n, kept);
      assert ls == ls[..n] + [l];
      var own := Own(ls[..n], esc);
      hide Own, Rising;
      indices := Longer(before, n, kept);
      forall j | 0 <= j < |before| ensures own[j] == Label(esc(ls[before[j]].name), ls[before[j]].value) {
        assert ls[..n][before[j]] == ls[before[j]];
      }
    }
  }

  /** The external labels that are added, in their order. */
  lemma {:induction false} AddedIndices(external: seq<Label>, ls: seq<Label>, esc: string -> string)
    returns (indices: seq<nat>)
    ensures Rising(indices, |external|) && |Added(external, ls, esc)| == |indices|
    ensures forall i: nat :: i in indices <==> i < |external| && Get(ls, external[i].name) == ""
    ensures forall j :: 0 <= j < |indices| ==>
              Added(external, ls, esc)[j] == Label(esc(external[indices[j]].name), external[indices[j]].value)
    decreases |external|
  {
    indices := [];
    if external != [] {
      var n := |external| - 1;
      var e, kept := external[n], Get(ls, external[n].name) == "";
      var before := AddedIndices(external[..n], ls, esc);
      AddedSnoc(external[..n], e, ls, esc);
      RisingSnoc(before, n, kept);
      assert external == external[..n] + [e];
      var added := Added(external[..n], ls, esc);
      hide Added, Rising, Get;
      indices := Longer(before, n, kept);
      forall j | 0 <= j < |before|
        ensures added[j] == Label(esc(external[before[j]].name), external[before[j]].value)
      {
        assert external[..n][before[j]] == external[before[j]];
      }
    }
  }

  // ----- The encoder -----

  method WritePair(w: string, sep: char, l: Label) returns (w': string)
    ensures w' == w + ([sep] + PairText(l))
  {
    hide NameText, Escape;
    w' := WriteName(w + [sep], l.name);
    w' := w' + "=\"";
    w' := WriteEscaped(w', l.value, true);
    w' := w' + "\"";
  }

  /** The pairs written one after the other: the first separator is given, the others are commas. */
  lemma {:induction false} PairsSnoc(sep: char, ls: seq<Label>, l: Label)
    ensures PairsText(sep, ls + [l]) == PairsText(sep, ls) + ([if ls == [] then sep else ','] + PairText(l))
    decreases |ls|
  {
    hide PairText;
    if ls == [] {
      assert ls + [l] == [l];
      assert [l][1..] == [];
    } else {
      PairsSnoc(',', ls[1..], l);
      assert (ls + [l])[1..] == ls[1..] + [l];
    }
  }

  lemma NoPairs(sep: char)
    ensures PairsText(sep, []) == []
  {
  }

  lemma NoLabels(ls: seq<Label>, esc: string -> string)
    ensures Own([], esc) == [] && Added([], ls, esc) == []
  {
  }

  lemma OwnStep(ls: seq<Label>, i: nat, esc: string -> string)
    requires i < |ls|
    ensures Own(ls[i..], esc) == (if ls[i].name == Labels.METRIC_NAME || ls[i].value == "" then []
                                  else [Label(esc(ls[i].name), ls[i].value)]) + Own(ls[i+1..], esc)
  {
    assert ls[i..][1..] == ls[i+1..];
  }

  lemma AddedStep(external: seq<Label>, i: nat, ls: seq<Label>, esc: string -> string)
    requires i < |external|
    ensures Added(external[i..], ls, esc) == (if Get(ls, external[i].name) != "" then []
                                              else [Label(esc(external[i].name), external[i].value)])
                                           + Added(external[i+1..], ls, esc)
  {
    assert external[i..][1..] == external[i+1..];
  }

  /** The two loops of WriteFloatSample over the labels, with `sep` and `braces`. */
  method WriteLabels(w: string, first: char, ls: seq<Label>, external: seq<Label>, esc: string -> string)
    returns (w': string, wrote: bool)
    ensures w' == w + PairsText(first, Kept(ls, external, esc))
    ensures wrote <==> Kept(ls, external, esc) != []
  {
    hide PairsText, PairText, Own, Added;
    NoLabels(ls, esc);
    w' := w;
    wrote := false;
    var sep := first;
    ghost var done: seq<Label> := [];
    NoPairs(first);
    var i := 0;
    assert ls[0..] == ls;
    while i < |ls|
      invariant 0 <= i <= |ls| && done + Own(ls[i..], esc) == Own(ls, esc)
      invariant w' == w + PairsText(first, done)
      invariant wrote <==> done != []
      invariant sep == if done == [] then first else ','
    {
      OwnStep(ls, i, esc);
      if ls[i].name != Labels.METRIC_NAME && ls[i].value != "" {
        var l := Label(esc(ls[i].name), ls[i].value);
        PairsSnoc(first, done, l);
        w' := WritePair(w', sep, l);
        wrote := true;
        sep := ',';
        done := done + [l];
      }
      i := i + 1;
    }
    assert ls[i..] == [];
    assert done == Own(ls, esc);
    i := 0;
    assert external[0..] == external;
    while i < |external|
      invariant 0 <= i <= |external| && done + Added(external[i..], ls, esc) == Kept(ls, external, esc)
      invariant w' == w + PairsText(first, done)
      invariant wrote <==> done != []
      invariant sep == if done == [] then first else ','
    {
      AddedStep(external, i, ls, esc);
      if Get(ls, external[i].name) == "" {
        var l := Label(esc(external[i].name), external[i].value);
        PairsSnoc(first, done, l);
        w' := WritePair(w', sep, l);
        wrote := true;
        sep := ',';
        done := done + [l];
      }
      i := i + 1;
    }
    assert external[i..] == [];
    assert done == Kept(ls, external, esc);
  }

  /** The name-and-labels part of a sample line. */
  method WriteSeries(w: string, name: string, ls: seq<Label>, external: seq<Label>, esc: string -> string)
    returns (w': string)
    ensures w' == w + SeriesText(name, Kept(ls, external, esc))
  {
    hide PairsText, Kept, Quoted, ValidName;
    var sep, braces := '{', false;
    w' := w;
    if !ValidName(name) {
      braces := true;
      w' := w' + "{";
      sep := ',';
    }
    w' := WriteName(w', name);
    var wrote: bool;
    w', wrote := WriteLabels(w', sep, ls, external, esc);
    NoPairs(sep);
    if braces || wrote {
      w' := w' + "}";
    }
  }

  method WriteType(w: string, name: string) returns (w': string)
    ensures w' == w + (LineText(TypeLine(name)) + "\n")
  {
    hide NameText;
    w' := WriteName(w + "# TYPE ", name);
    w' := w' + " untyped\n";
  }

  method WriteLine(w: string, name: string, p: Point, external: seq<Label>, esc: string -> string) returns (w': string)
    ensures w' == w + (LineText(SampleLine(Sample(name, Kept(p.labels, external, esc), p.value, p.time))) + "\n")
  {
    hide SeriesText, Kept;
    w' := WriteSeries(w, name, p.labels, external, esc);
    w' := w' + " " + p.value + " " + p.time + "\n";
  }

  lemma HeadedText(last: Option<string>, s: Sample)
    ensures Text(Headed(last, s))
         == (if last == Some(s.name) then "" else LineText(TypeLine(s.name)) + "\n") + (LineText(SampleLine(s)) + "\n")
  {
    hide LineText;
    OneLine(SampleLine(s));
    if last == Some(s.name) {
      assert Headed(last, s) == [SampleLine(s)];
    } else {
      OneLine(TypeLine(s.name));
      TextConcat([TypeLine(s.name)], [SampleLine(s)]);
    }
  }

  lemma OneLine(l: Line)
    ensures Text([l]) == LineText(l) + "\n"
  {
    hide LineText;
    assert [l][1..] == [];
    assert Text([]) == "";
  }

  class Encoder {
    var out: string
    const esc: string -> string
    var lastName: string
    var started: bool

    constructor (esc: string -> string)
      ensures out == "" && !started && this.esc == esc
    {
      this.esc := esc;
      out, lastName, started := "", "", false;
    }

    function Last(): Option<string>
      reads this
    {
      if started then Some(lastName) else None
    }

    /** Writes the TYPE line when the name changed, then the sample line. */
    method WriteFloatSample(p: Point, external: seq<Label>)
      modifies this
      ensures out == old(out) + Text(Headed(old(Last()), Written(p, external, esc)))
      ensures out == old(out)
                     + (if old(started) && old(lastName) == esc(p.name) then ""
                        else "# TYPE " + NameText(esc(p.name)) + " untyped\n")
                     + (SeriesText(esc(p.name), Kept(p.labels, external, esc)) + " " + p.value + " " + p.time + "\n")
      ensures Last() == Some(esc(p.name))
    {
      hide LineText, Kept, Headed, Text, NameText, SeriesText;
      HeadedText(Last(), Written(p, external, esc));
      LineForms(esc(p.name), Kept(p.labels, external, esc), p.value, p.time);
      var name := esc(p.name);
      var w := out;
      if !started || name != lastName {
        w := WriteType(w, name);
        lastName := name;
        started := true;
      }
      out := WriteLine(w, name, p, external, esc);
    }
  }

  lemma NoLines()
    ensures Text(Lines(None, [])) == ""
  {
  }

  lemma {:induction false} LinesAppend(last: Option<string>, a: seq<Sample>, b: seq<Sample>)
    ensures Lines(last, a + b) == Lines(last, a) + Lines(if a == [] then last else Some(a[|a|-1].name), b)
    decreases |a|
  {
    hide Headed;
    if a == [] {
      assert a + b == b;
    } else {
      var name := Some(a[0].name);
      LinesAppend(name, a[1..], b);
      assert a + b == [a[0]] + (a[1..] + b) && a == [a[0]] + a[1..];
      LinesCons(last, a[0], a[1..] + b);
      LinesCons(last, a[0], a[1..]);
      hide Lines;
      Regroup(Headed(last, a[0]), Lines(name, a[1..]), Lines(Some(a[|a|-1].name), b));
    }
  }

  lemma LinesCons(last: Option<string>, s: Sample, rest: seq<Sample>)
    ensures Lines(last, [s] + rest) == Headed(last, s) + Lines(Some(s.name), rest)
  {
    hide Headed;
    assert ([s] + rest)[1..] == rest;
  }

  lemma Regroup(x: seq<Line>, y: seq<Line>, z: seq<Line>)
    ensures x + (y + z) == x + y + z
  {
  }

  /** What is written for the first samples is a beginning of what is written for all. */
  lemma TextPrefix(samples: seq<Sample>, n: nat)
    requires n <= |samples|
    ensures Text(Lines(None, samples[..n])) <= Text(Lines(None, samples))
  {
    hide Lines, Text;
    var rest := Lines(if n == 0 then None else Some(samples[n-1].name), samples[n..]);
    assert samples == samples[..n] + samples[n..];
    LinesAppend(None, samples[..n], samples[n..]);
    TextConcat(Lines(None, samples[..n]), rest);
  }

  /** How many samples the encoder was handed: the one after which the destination turned out dead is the last. */
  function Handed(written: nat, n: nat): nat {
    if written < n then written + 1 else n
  }

  /** writeSamples of pkg/federate/federate.go. `dead[i]` is whether the destination is known to have failed once the
    i-th sample is written; `out` is the text handed over, of which a dead destination has taken some beginning. */
  method WriteSamples(points: seq<Point>, external: seq<Label>, esc: string -> string, dead: seq<bool>)
    returns (out: string, written: nat)
    requires |dead| == |points|
    ensures written <= |points| && (forall i :: 0 <= i < written ==> !dead[i]) && (written < |points| ==> dead[written])
    ensures out == Text(Lines(None, AllWritten(points, external, esc)[..Handed(written, |points|)]))
    ensures out <= Text(Lines(None, AllWritten(points, external, esc)))
    ensures written == |points| ==> out == Text(Lines(None, AllWritten(points, external, esc)))
  {
    hide Kept, Lines, Headed, LineText, Text, SeriesText, NameText;
    var enc := new Encoder(esc);
    ghost var samples := AllWritten(points, external, esc);
    NoLines();
    written := 0;
    while written < |points|
      invariant written <= |points| && enc.esc == esc && forall i :: 0 <= i < written ==> !dead[i]
      invariant enc.out == Text(Lines(None, samples[..written]))
      invariant enc.Last() == if written == 0 then None else Some(samples[written-1].name)
    {
      LinesConcat(None, samples[..written], samples[written]);
      assert samples[..written+1] == samples[..written] + [samples[written]];
      TextConcat(Lines(None, samples[..written]), Headed(enc.Last(), samples[written]));
      enc.WriteFloatSample(points[written], external);
      if dead[written] {
        TextPrefix(samples, written + 1);
        return enc.out, written;
      }
      written := written + 1;
    }
    assert samples[..written] == samples;
    out := enc.out;
  }
}
