/** MetadataOnePerKey of pkg/promclient/multi_api.go: one member of each group of replicas answers for the group, and
  successive calls start from successive members. */
module MetadataRotation {
  import opened Options

  type Metadata = map<string, string>

  // ----- Grouping APIs by key -----

  /** The members of group `fp`, in API order. */
  function Members(fps: seq<int>, fp: int): seq<nat> {
    if fps == [] then []
    else
      var init := Members(fps[..|fps|-1], fp);
      if fps[|fps|-1] == fp then init + [|fps| - 1] else init
  }

  /** The groups, in the order in which they are first seen. */
  function KeyOrder(fps: seq<int>): seq<int> {
    if fps == [] then []
    else
      var init := KeyOrder(fps[..|fps|-1]);
      if fps[|fps|-1] in init then init else init + [fps[|fps|-1]]
  }

  lemma {:induction false} MembersMeaning(fps: seq<int>, fp: int)
    ensures forall i: nat :: i in Members(fps, fp) <==> i < |fps| && fps[i] == fp
    ensures forall a, b :: 0 <= a < b < |Members(fps, fp)| ==> Members(fps, fp)[a] < Members(fps, fp)[b]
    decreases |fps|
  {
    if fps != [] {
      var init := fps[..|fps|-1];
      MembersMeaning(init, fp);
      forall a | 0 <= a < |Members(init, fp)| ensures Members(init, fp)[a] < |init| {
        assert Members(init, fp)[a] in Members(init, fp);
      }
    }
  }

  lemma {:induction false} KeyOrderMeaning(fps: seq<int>)
    ensures forall fp :: fp in KeyOrder(fps) <==> fp in fps
    ensures forall a, b :: 0 <= a < b < |KeyOrder(fps)| ==> KeyOrder(fps)[a] != KeyOrder(fps)[b]
    decreases |fps|
  {
    if fps != [] {
      KeyOrderMeaning(fps[..|fps|-1]);
      assert fps == fps[..|fps|-1] + [fps[|fps|-1]];
    }
  }

  /** Group `fp` has a member before API `j`. */
  ghost predicate SeenBefore(fps: seq<int>, fp: int, j: int) {
    exists i :: 0 <= i < |fps| && i < j && fps[i] == fp
  }

  /** The keys, each once, in the order of their first members. */
  ghost predicate FirstSeenOrder(keys: seq<int>, fps: seq<int>) {
    && (forall fp :: fp in keys <==> fp in fps)
    && (forall a, b :: 0 <= a < b < |keys| ==> keys[a] != keys[b])
    && (forall a, b, j :: 0 <= a < b < |keys| && 0 <= j < |fps| && fps[j] == keys[b] ==> SeenBefore(fps, keys[a], j))
  }

  lemma {:induction false} KeyOrderFirstSeen(fps: seq<int>)
    ensures FirstSeenOrder(KeyOrder(fps), fps)
    decreases |fps|
  {
    KeyOrderMeaning(fps);
    if fps != [] {
      var n := |fps| - 1;
      var init, keys := fps[..n], KeyOrder(fps);
      KeyOrderFirstSeen(init);
      KeyOrderMeaning(init);
      forall a, b, j | 0 <= a < b < |keys| && 0 <= j < |fps| && fps[j] == keys[b] ensures SeenBefore(fps, keys[a], j) {
        if j < n {
          assert init[j] == keys[b] && keys[b] in init;
          assert keys[b] in KeyOrder(init);
          assert SeenBefore(init, keys[a], j);
        } else {
          assert keys[a] == KeyOrder(init)[a] && keys[a] in init;
          var i :| 0 <= i < n && init[i] == keys[a];
          assert fps[i] == keys[a];
        }
      }
    }
  }

  lemma MembersNonEmpty(fps: seq<int>, fp: int)
    requires fp in fps
    ensures Members(fps, fp) != []
  {
    var i :| 0 <= i < |fps| && fps[i] == fp;
    MembersMeaning(fps, fp);
    assert i in Members(fps, fp);
  }

  /** The grouping loop. */
  method GroupByKey(fps: seq<int>) returns (keyOrder: seq<int>, groups: map<int, seq<nat>>)
    ensures keyOrder == KeyOrder(fps) && FirstSeenOrder(keyOrder, fps)
    ensures forall fp :: fp in fps ==> fp in groups && groups[fp] == Members(fps, fp)
  {
    keyOrder, groups := [], map[];
    var i := 0;
    while i < |fps|
      invariant 0 <= i <= |fps| && keyOrder == KeyOrder(fps[..i])
      invariant forall fp :: fp in groups <==> fp in keyOrder
      invariant forall fp :: Members(fps[..i], fp) == if fp in groups then groups[fp] else []
    {
      assert fps[..i+1][..i] == fps[..i];
      var fp := fps[i];
      if fp !in groups {
        keyOrder := keyOrder + [fp];
      }
      groups := groups[fp := (if fp in groups then groups[fp] else []) + [i]];
      i := i + 1;
    }
    assert fps[..i] == fps;
    KeyOrderFirstSeen(fps);
  }

  // ----- The cyclic order -----

  lemma ModUnique(q: int, x: int, n: int)
    requires 0 <= x < n
    ensures (q * n + x) % n == x
  {
    var d := (q * n + x) / n;
    assert d * n <= q * n + x < (d + 1) * n by {
      assert q * n + x == d * n + (q * n + x) % n;
    }
    if d < q {
      assert (d + 1) * n <= q * n by { Scale(d + 1, q, n); }
    } else if d > q {
      assert (q + 1) * n <= d * n by { Scale(q + 1, d, n); }
    }
  }

  lemma Scale(a: int, b: int, n: int)
    requires a <= b && n > 0
    ensures a * n <= b * n
  {
  }

  /** Position c after the start, counted round the group. */
  lemma Around(r: nat, c: nat, n: nat)
    requires c < n
    ensures (r + c) % n == if r % n + c < n then r % n + c else r % n + c - n
  {
    var q, k := r / n, r % n;
    assert r == q * n + k;
    if k + c < n {
      ModUnique(q, k + c, n);
    } else {
      ModUnique(q + 1, k + c - n, n);
      assert (q + 1) * n + (k + c - n) == r + c;
    }
  }

  /** The members of a group, tried from the rotating start: every member once, in cyclic order. */
  function Turn(members: seq<nat>, r: nat): seq<nat> {
    seq(|members|, c requires 0 <= c < |members| => members[(r + c) % |members|])
  }

  lemma TurnIsRotation(members: seq<nat>, r: nat)
    requires members != []
    ensures var k := r % |members|; Turn(members, r) == members[k..] + members[..k]
    ensures multiset(Turn(members, r)) == multiset(members)
  {
    var n := |members|;
    var k := r % n;
    var t, rotated := Turn(members, r), members[k..] + members[..k];
    forall c | 0 <= c < n ensures t[c] == rotated[c] {
      Around(r, c, n);
    }
    assert t == rotated;
    assert members == members[..k] + members[k..];
  }

  // ----- One group -----

  ghost predicate InRange(members: seq<nat>, n: nat) {
    forall i :: 0 <= i < |members| ==> members[i] < n
  }

  /** The group was asked properly: from the rotating start, each member at most once in cyclic order, and no further
    than the first that answers. */
  ghost predicate AskedInTurn(asked: seq<nat>, members: seq<nat>, rotation: nat, answers: seq<Option<Metadata>>) {
    && asked <= Turn(members, rotation) && asked != [] && InRange(asked, |answers|)
    && (forall j :: 0 <= j < |asked| - 1 ==> answers[asked[j]].None?)
    && (answers[asked[|asked|-1]].Some? || asked == Turn(members, rotation))
  }

  /** The answer that ended a group's turn. */
  function Reply(answers: seq<Option<Metadata>>, asked: seq<nat>): Option<Metadata> {
    if asked != [] && asked[|asked|-1] < |answers| then answers[asked[|asked|-1]] else None
  }

  /** The answers that the groups' turns ended with, in group order. */
  function Replies(answers: seq<Option<Metadata>>, asked: seq<seq<nat>>): seq<Metadata> {
    seq(|asked|, g requires 0 <= g < |asked| => match Reply(answers, asked[g]) case Some(md) => md case None => map[])
  }

  ghost predicate SomeAnswer(fps: seq<int>, fp: int, answers: seq<Option<Metadata>>)
    requires |answers| == |fps|
  {
    exists i :: 0 <= i < |fps| && fps[i] == fp && answers[i].Some?
  }

  /** The inner loop: members in turn until one answers. `asked` is the order in which they were asked. */
  method AskGroup(members: seq<nat>, rotation: nat, answers: seq<Option<Metadata>>)
    returns (md: Option<Metadata>, asked: seq<nat>)
    requires members != [] && InRange(members, |answers|)
    ensures AskedInTurn(asked, members, rotation, answers) && md == Reply(answers, asked)
  {
    md, asked := None, [];
    ghost var turn := Turn(members, rotation);
    var n := 0;
    while n < |members|
      invariant 0 <= n <= |members| && md.None? && asked == turn[..n] && InRange(asked, |answers|)
      invariant forall j :: 0 <= j < n ==> answers[turn[j]].None?
    {
      var i := members[(rotation + n) % |members|];
      asked := asked + [i];
      if answers[i].Some? {
        md := answers[i];
        return;
      }
      n := n + 1;
    }
    assert asked == turn;
  }

  /** A group's turn finds an answer exactly when some member has one. */
  lemma TurnFinds(fps: seq<int>, fp: int, answers: seq<Option<Metadata>>, rotation: nat, asked: seq<nat>)
    requires |answers| == |fps| && fp in fps && AskedInTurn(asked, Members(fps, fp), rotation, answers)
    ensures Reply(answers, asked).Some? <==> SomeAnswer(fps, fp, answers)
  {
    var turn, last := Turn(Members(fps, fp), rotation), asked[|asked|-1];
    TurnMembers(fps, fp, rotation);
    hide Members, Turn;
    assert turn[|asked|-1] == last && last in turn;
    if SomeAnswer(fps, fp, answers) && asked == turn {
      var i: nat :| i < |fps| && fps[i] == fp && answers[i].Some?;
      assert i in turn;
    }
  }

  lemma TurnMembers(fps: seq<int>, fp: int, rotation: nat)
    requires fp in fps
    ensures forall i: nat :: i in Turn(Members(fps, fp), rotation) <==> i < |fps| && fps[i] == fp
  {
    var members := Members(fps, fp);
    MembersNonEmpty(fps, fp);
    MembersMeaning(fps, fp);
    TurnIsRotation(members, rotation);
    var turn := Turn(members, rotation);
    hide Members, Turn;
    forall i: nat ensures i in turn <==> i in members {
      assert i in multiset(turn) <==> i in multiset(members);
    }
  }

  // ----- Merging across groups -----

  /** First writer wins, key by key. */
  function FirstWins(ms: seq<Metadata>): Metadata {
    if ms == [] then map[] else ms[|ms|-1] + FirstWins(ms[..|ms|-1])
  }

  lemma FirstWinsStep(ms: seq<Metadata>, m: Metadata)
    ensures FirstWins(ms + [m]) == m + FirstWins(ms) && FirstWins([]) == map[]
  {
    assert (ms + [m])[..|ms|] == ms;
  }

  lemma {:induction false} FirstWinsMeaning(ms: seq<Metadata>, g: nat, key: string)
    requires g < |ms| && key in ms[g] && forall h :: 0 <= h < g ==> key !in ms[h]
    ensures key in FirstWins(ms) && FirstWins(ms)[key] == ms[g][key]
    decreases |ms|
  {
    if g < |ms| - 1 {
      FirstWinsMeaning(ms[..|ms|-1], g, key);
    } else {
      Unwritten(ms[..|ms|-1], key);
    }
  }

  lemma {:induction false} Unwritten(ms: seq<Metadata>, key: string)
    requires forall h :: 0 <= h < |ms| ==> key !in ms[h]
    ensures key !in FirstWins(ms)
    decreases |ms|
  {
    if ms != [] {
      Unwritten(ms[..|ms|-1], key);
    }
  }

  // ----- The client -----

  class Client {
    const fps: seq<int>
    /** Advances on every call. */
    var rotation: nat

    constructor (fps: seq<int>)
      ensures this.fps == fps && rotation == 0
    {
      this.fps, rotation := fps, 0;
    }

    /** MetadataOnePerKey. `asked[g]` is whom the call asked in the g-th group; a group with no answering member fails
      the call, and the groups after it are not asked. */
    method MetadataOnePerKey(answers: seq<Option<Metadata>>) returns (r: Option<Metadata>, asked: seq<seq<nat>>)
      requires |answers| == |fps|
      modifies this
      ensures rotation == old(rotation) + 1
      ensures r.Some? <==> forall fp :: fp in fps ==> SomeAnswer(fps, fp, answers)
      ensures |asked| <= |KeyOrder(fps)| && (r.Some? ==> |asked| == |KeyOrder(fps)|)
      ensures forall g :: 0 <= g < |asked| ==>
                AskedInTurn(asked[g], Members(fps, KeyOrder(fps)[g]), old(rotation), answers)
      ensures r.Some? ==> r.value == FirstWins(Replies(answers, asked))
    {
      hide Members, KeyOrder, AskedInTurn, Turn, SomeAnswer, Reply, FirstWins;
      FirstWinsStep([], map[]);
      var keyOrder, groups := GroupByKey(fps);
      KeyOrderMeaning(fps);
      var start := rotation;
      rotation := rotation + 1;
      var result: Metadata := map[];
      var replies: seq<Metadata> := [];
      asked := [];
      var g := 0;
      while g < |keyOrder|
        invariant 0 <= g <= |keyOrder| == |KeyOrder(fps)| && |asked| == |replies| == g && rotation == start + 1
        invariant forall h :: 0 <= h < g ==> AskedInTurn(asked[h], Members(fps, KeyOrder(fps)[h]), start, answers)
        invariant forall h :: 0 <= h < g ==>
                    Reply(answers, asked[h]) == Some(replies[h]) && SomeAnswer(fps, keyOrder[h], answers)
        invariant result == FirstWins(replies)
      {
        var fp := keyOrder[g];
        assert fp in keyOrder;
        MembersNonEmpty(fps, fp);
        RangeOf(fps, fp);
        var md, tried := AskGroup(groups[fp], start, answers);
        asked := asked + [tried];
        TurnFinds(fps, fp, answers, start, tried);
        if md.None? {
          return None, asked;
        }
        FirstWinsStep(replies, md.value);
        result := md.value + result;
        replies := replies + [md.value];
        g := g + 1;
      }
      assert replies == Replies(answers, asked);
      forall fp | fp in fps ensures SomeAnswer(fps, fp, answers) {
        assert fp in keyOrder;
        var h :| 0 <= h < |keyOrder| && keyOrder[h] == fp;
      }
      return Some(result), asked;
    }

    /** With every target healthy, as many consecutive calls as a group has members ask each of them exactly once.
      `answers[c]` is what the targets answer to the c-th of these calls. */
    method ConsecutiveCalls(answers: seq<seq<Option<Metadata>>>, g: nat) returns (asked: seq<nat>)
      requires forall c :: 0 <= c < |answers| ==> Healthy(answers[c], |fps|)
      requires g < |KeyOrder(fps)| && |answers| == |Members(fps, KeyOrder(fps)[g])|
      modifies this
      ensures multiset(asked) == multiset(Members(fps, KeyOrder(fps)[g]))
      ensures rotation == old(rotation) + |asked|
    {
      ghost var members := Members(fps, KeyOrder(fps)[g]);
      GroupSize(fps, g);
      ghost var start := rotation;
      TurnIsRotation(members, start);
      var n := |answers|;
      hide Members, KeyOrder, AskedInTurn, SomeAnswer;
      asked := [];
      var c := 0;
      while c < n
        invariant 0 <= c <= n == |members| && |asked| == c && rotation == start + c
        invariant forall j :: 0 <= j < c ==> asked[j] == members[(start + j) % n]
      {
        EveryoneAnswers(fps, answers[c]);
        var r, tried := MetadataOnePerKey(answers[c]);
        FirstAnswers(tried[g], members, start + c, answers[c]);
        asked := asked + [tried[g][0]];
        c := c + 1;
      }
      assert asked == Turn(members, start);
    }
  }

  lemma GroupSize(fps: seq<int>, g: nat)
    requires g < |KeyOrder(fps)|
    ensures KeyOrder(fps)[g] in fps && Members(fps, KeyOrder(fps)[g]) != []
  {
    KeyOrderMeaning(fps);
    assert KeyOrder(fps)[g] in KeyOrder(fps);
    MembersNonEmpty(fps, KeyOrder(fps)[g]);
  }

  lemma RangeOf(fps: seq<int>, fp: int)
    ensures InRange(Members(fps, fp), |fps|)
  {
    MembersMeaning(fps, fp);
    forall i | 0 <= i < |Members(fps, fp)| ensures Members(fps, fp)[i] < |fps| {
      assert Members(fps, fp)[i] in Members(fps, fp);
    }
  }

  /** Every one of `n` targets answers. */
  ghost predicate Healthy(answers: seq<Option<Metadata>>, n: nat) {
    |answers| == n && forall i :: 0 <= i < |answers| ==> answers[i].Some?
  }

  lemma EveryoneAnswers(fps: seq<int>, answers: seq<Option<Metadata>>)
    requires Healthy(answers, |fps|)
    ensures forall fp :: fp in fps ==> SomeAnswer(fps, fp, answers)
  {
  }

  lemma FirstAnswers(asked: seq<nat>, members: seq<nat>, rotation: nat, answers: seq<Option<Metadata>>)
    requires AskedInTurn(asked, members, rotation, answers) && forall i :: 0 <= i < |answers| ==> answers[i].Some?
    requires members != []
    ensures |asked| == 1 && asked[0] == members[rotation % |members|]
  {
    assert Turn(members, rotation)[0] == members[(rotation + 0) % |members|];
  }
}
