/** What the library sorts do, for any total order, and the order of strings. */
module Sorting {

  ghost predicate TotalOrder<T(!new)>(le: (T, T) -> bool) {
    && (forall x, y :: le(x, y) || le(y, x))
    && (forall x, y :: le(x, y) && le(y, x) ==> x == y)
    && (forall x, y, z :: le(x, y) && le(y, z) ==> le(x, z))
  }

  ghost predicate Ascending<T>(s: seq<T>, le: (T, T) -> bool) {
    forall i, j :: 0 <= i < j < |s| ==> le(s[i], s[j])
  }

  function Insert<T>(x: T, s: seq<T>, le: (T, T) -> bool): seq<T> {
    if s == [] || le(x, s[0]) then [x] + s else [s[0]] + Insert(x, s[1..], le)
  }

  function Sort<T>(s: seq<T>, le: (T, T) -> bool): seq<T> {
    if s == [] then [] else Insert(s[0], Sort(s[1..], le), le)
  }

  lemma AscendingCons<T(!new)>(h: T, rest: seq<T>, le: (T, T) -> bool)
    requires Ascending(rest, le) && forall y :: y in rest ==> le(h, y)
    ensures Ascending([h] + rest, le)
  {
    var all := [h] + rest;
    forall i, j | 0 <= i < j < |all| ensures le(all[i], all[j]) {
      assert all[j] == rest[j-1] && all[j] in rest;
    }
  }

  lemma HeadLeast<T(!new)>(h: T, tail: seq<T>, le: (T, T) -> bool)
    requires Ascending([h] + tail, le)
    ensures Ascending(tail, le) && forall y :: y in tail ==> le(h, y)
  {
    var all := [h] + tail;
    assert forall i :: 0 <= i < |tail| ==> tail[i] == all[i+1];
    forall y | y in tail ensures le(h, y) {
      var i :| 0 <= i < |tail| && tail[i] == y;
      assert le(all[0], all[i+1]);
    }
  }

  lemma {:induction false} InsertAscending<T(!new)>(x: T, s: seq<T>, le: (T, T) -> bool)
    requires TotalOrder(le) && Ascending(s, le)
    ensures Ascending(Insert(x, s, le), le) && multiset(Insert(x, s, le)) == multiset(s) + multiset{x}
  {
    if s == [] {
    } else {
      var tail := s[1..];
      assert s == [s[0]] + tail;
      HeadLeast(s[0], tail, le);
      if le(x, s[0]) {
        forall y | y in s ensures le(x, y) {
          assert y == s[0] || y in tail;
        }
        AscendingCons(x, s, le);
      } else {
        var rest := Insert(x, tail, le);
        InsertAscending(x, tail, le);
        hide Ascending, Insert;
        forall y | y in rest ensures le(s[0], y) {
          assert y in multiset(rest);
        }
        AscendingCons(s[0], rest, le);
        assert Insert(x, s, le) == [s[0]] + rest;
      }
    }
  }

  /** A sort rearranges, and puts in order. */
  lemma {:induction false} SortSorts<T(!new)>(s: seq<T>, le: (T, T) -> bool)
    requires TotalOrder(le)
    ensures Ascending(Sort(s, le), le) && multiset(Sort(s, le)) == multiset(s) && |Sort(s, le)| == |s|
  {
    hide Ascending, Insert;
    if s != [] {
      assert s == [s[0]] + s[1..];
      SortSorts(s[1..], le);
      InsertAscending(s[0], Sort(s[1..], le), le);
    } else {
      EmptyAscending(le);
    }
    assert |multiset(Sort(s, le))| == |multiset(s)|;
  }

  lemma EmptyAscending<T(!new)>(le: (T, T) -> bool)
    ensures Ascending([], le)
  {
  }

  /** With a total order there is only one way to be sorted. */
  lemma {:induction false} SortedUnique<T(!new)>(a: seq<T>, b: seq<T>, le: (T, T) -> bool)
    requires TotalOrder(le) && Ascending(a, le) && Ascending(b, le) && multiset(a) == multiset(b)
    ensures a == b
    decreases |a|
  {
    hide Ascending, TotalOrder;
    assert |multiset(a)| == |multiset(b)|;
    if a != [] {
      SameHead(a, b, le);
      TailOf(a, le);
      TailOf(b, le);
      SortedUnique(a[1..], b[1..], le);
    }
  }

  lemma TailOf<T(!new)>(a: seq<T>, le: (T, T) -> bool)
    requires Ascending(a, le) && a != []
    ensures a == [a[0]] + a[1..] && Ascending(a[1..], le) && multiset(a[1..]) == multiset(a) - multiset{a[0]}
  {
    assert a == [a[0]] + a[1..];
    HeadLeast(a[0], a[1..], le);
    hide Ascending;
    assert multiset(a) == multiset{a[0]} + multiset(a[1..]);
  }

  lemma SameHead<T(!new)>(a: seq<T>, b: seq<T>, le: (T, T) -> bool)
    requires TotalOrder(le) && Ascending(a, le) && Ascending(b, le) && multiset(a) == multiset(b)
    requires a != [] && b != []
    ensures a[0] == b[0]
  {
    assert a[0] in multiset(a) && b[0] in multiset(b);
    HeadBelow(a, b[0], le);
    HeadBelow(b, a[0], le);
  }

  lemma HeadBelow<T(!new)>(a: seq<T>, x: T, le: (T, T) -> bool)
    requires TotalOrder(le) && Ascending(a, le) && x in multiset(a)
    ensures le(a[0], x)
  {
    var i :| 0 <= i < |a| && a[i] == x;
  }

  // ----- Strings -----

  /** The order of strings: by the first character that differs, a prefix first. */
  predicate StringLe(a: string, b: string) {
    if a == [] then true
    else if b == [] then false
    else if a[0] != b[0] then a[0] < b[0]
    else StringLe(a[1..], b[1..])
  }

  lemma {:induction false} StringTotal(a: string, b: string)
    ensures StringLe(a, b) || StringLe(b, a)
    ensures StringLe(a, b) && StringLe(b, a) ==> a == b
  {
    if a != [] && b != [] && a[0] == b[0] {
      StringTotal(a[1..], b[1..]);
      assert a == [a[0]] + a[1..] && b == [b[0]] + b[1..];
    }
  }

  lemma {:induction false} StringTrans(a: string, b: string, c: string)
    requires StringLe(a, b) && StringLe(b, c)
    ensures StringLe(a, c)
  {
    if a != [] && b != [] && c != [] && a[0] == b[0] == c[0] {
      StringTrans(a[1..], b[1..], c[1..]);
    }
  }

  lemma StringOrder()
    ensures TotalOrder(StringLe)
  {
    forall a, b ensures StringLe(a, b) || StringLe(b, a) {
      StringTotal(a, b);
    }
    forall a, b ensures StringLe(a, b) && StringLe(b, a) ==> a == b {
      StringTotal(a, b);
    }
    forall a, b, c | StringLe(a, b) && StringLe(b, c) ensures StringLe(a, c) {
      StringTrans(a, b, c);
    }
  }

  /** What that order is: `a` is a prefix of `b`, or has the smaller character at the first place where they differ. */
  lemma {:induction false} StringLeMeaning(a: string, b: string)
    ensures StringLe(a, b) <==>
            a <= b || exists k :: 0 <= k < |a| && k < |b| && a[..k] == b[..k] && a[k] < b[k]
  {
    if a != [] && b != [] && a[0] == b[0] {
      var a', b' := a[1..], b[1..];
      StringLeMeaning(a', b');
      assert a == [a[0]] + a' && b == [b[0]] + b';
      assert a <= b <==> a' <= b';
      if k :| 0 <= k < |a'| && k < |b'| && a'[..k] == b'[..k] && a'[k] < b'[k] {
        assert a[..k+1] == [a[0]] + a'[..k] && b[..k+1] == [b[0]] + b'[..k];
        assert a[k+1] == a'[k] && b[k+1] == b'[k];
      }
      if k :| 0 <= k < |a| && k < |b| && a[..k] == b[..k] && a[k] < b[k] {
        assert k > 0;
        assert a'[..k-1] == a[1..k] == a[..k][1..] && b'[..k-1] == b[1..k] == b[..k][1..];
        assert a'[k-1] == a[k] && b'[k-1] == b[k];
      }
    } else if a != [] && b != [] {
      assert a[..0] == b[..0];
      assert forall k :: 0 < k < |a| && k < |b| ==> a[..k][0] != b[..k][0];
    }
  }

  predicate IntLe(a: int, b: int) {
    a <= b
  }
}
