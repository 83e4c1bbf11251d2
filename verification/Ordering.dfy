/** Text as a sequence of character numbers, its lexicographic order, and sorting by a text key. */
module Ordering {
  /** UTF-16 code units where JavaScript compares strings, code points where Python does. */
  type Text = seq<nat>

  predicate Less(a: Text, b: Text)
    decreases |a|
  {
    if b == [] then false
    else if a == [] then true
    else a[0] < b[0] || (a[0] == b[0] && Less(a[1..], b[1..]))
  }

  /** A text is less than another when it differs first in a smaller character, or ends first. */
  lemma {:induction false} LessIff(a: Text, b: Text)
    ensures Less(a, b) <==> exists k: nat :: FirstDifference(a, b, k) && (k == |a| || a[k] < b[k])
    decreases |a|
  {
    if a == [] || b == [] || a[0] != b[0] {
      if Less(a, b) {
        assert FirstDifference(a, b, 0);
      }
      forall k: nat | FirstDifference(a, b, k) && (k == |a| || a[k] < b[k])
        ensures Less(a, b)
      {
        assert k > 0 ==> a[..k][0] == b[..k][0];
      }
    } else {
      LessIff(a[1..], b[1..]);
      if Less(a, b) {
        var k: nat :| FirstDifference(a[1..], b[1..], k) && (k == |a| - 1 || a[1..][k] < b[1..][k]);
        assert a[..k + 1] == [a[0]] + a[1..][..k] && b[..k + 1] == [b[0]] + b[1..][..k];
        assert FirstDifference(a, b, k + 1);
      }
      forall k: nat | FirstDifference(a, b, k) && (k == |a| || a[k] < b[k])
        ensures Less(a, b)
      {
        assert k > 0;
        assert a[1..][..k - 1] == a[..k][1..] && b[1..][..k - 1] == b[..k][1..];
        assert FirstDifference(a[1..], b[1..], k - 1);
      }
    }
  }

  /** The texts agree up to `k`, where the first may end but the second does not. */
  predicate FirstDifference(a: Text, b: Text, k: nat) {
    k <= |a| && k < |b| && a[..k] == b[..k]
  }

  lemma {:induction false} LessTotal(a: Text, b: Text)
    ensures a == b || Less(a, b) || Less(b, a)
    ensures !(Less(a, b) && Less(b, a)) && !Less(a, a)
    decreases |a|
  {
    if a != [] {
      LessTotal(a[1..], a[1..]);
      if b != [] {
        LessTotal(a[1..], b[1..]);
        if a[0] == b[0] && a[1..] == b[1..] {
          assert a == [a[0]] + a[1..] && b == [b[0]] + b[1..];
        }
      }
    }
  }

  lemma {:induction false} LessTransitive(a: Text, b: Text, c: Text)
    requires Less(a, b) && Less(b, c)
    ensures Less(a, c)
    decreases |a|
  {
    if a != [] && a[0] == b[0] == c[0] {
      LessTransitive(a[1..], b[1..], c[1..]);
    }
  }

  /** Strictly ascending by key, hence without repetition. */
  ghost predicate Ascending<T>(key: T -> Text, s: seq<T>) {
    forall i, j :: 0 <= i < j < |s| ==> Less(key(s[i]), key(s[j]))
  }

  ghost predicate Distinct<T>(key: T -> Text, s: seq<T>) {
    forall i, j :: 0 <= i < j < |s| ==> key(s[i]) != key(s[j])
  }

  function Insert<T>(key: T -> Text, x: T, s: seq<T>): seq<T>
    decreases |s|
  {
    if s == [] then [x]
    else if Less(key(x), key(s[0])) then [x] + s
    else [s[0]] + Insert(key, x, s[1..])
  }

  function SortBy<T>(key: T -> Text, s: seq<T>): seq<T>
    decreases |s|
  {
    if s == [] then [] else Insert(key, s[0], SortBy(key, s[1..]))
  }

  function Self(t: Text): Text {
    t
  }

  function Sort(s: seq<Text>): seq<Text> {
    SortBy(Self, s)
  }

  lemma {:induction false} InsertMember<T>(key: T -> Text, x: T, s: seq<T>, y: T)
    ensures y in Insert(key, x, s) <==> y == x || y in s
    decreases |s|
  {
    if s != [] && !Less(key(x), key(s[0])) {
      InsertMember(key, x, s[1..], y);
      assert s == [s[0]] + s[1..];
    }
  }

  lemma {:induction false} InsertAscending<T>(key: T -> Text, x: T, s: seq<T>)
    requires Ascending(key, s) && forall y :: y in s ==> key(y) != key(x)
    ensures Ascending(key, Insert(key, x, s))
    decreases |s|
  {
    if s == [] {
    } else if Less(key(x), key(s[0])) {
      forall j | 0 <= j < |s|
        ensures Less(key(x), key(s[j]))
      {
        if j > 0 {
          LessTransitive(key(x), key(s[0]), key(s[j]));
        }
      }
    } else {
      assert s[0] in s;
      LessTotal(key(x), key(s[0]));
      InsertAscending(key, x, s[1..]);
      var t := Insert(key, x, s[1..]);
      forall j | 0 <= j < |t|
        ensures Less(key(s[0]), key(t[j]))
      {
        assert t[j] in t;
        InsertMember(key, x, s[1..], t[j]);
        if t[j] != x {
          var tail := s[1..];
          assert t[j] in tail;
          var i :| 0 <= i < |tail| && tail[i] == t[j];
          assert Less(key(s[0]), key(s[i + 1]));
        }
      }
    }
  }

  lemma {:induction false} SortMember<T>(key: T -> Text, s: seq<T>, y: T)
    ensures y in SortBy(key, s) <==> y in s
    decreases |s|
  {
    if s != [] {
      SortMember(key, s[1..], y);
      InsertMember(key, s[0], SortBy(key, s[1..]), y);
      assert s == [s[0]] + s[1..];
    }
  }

  lemma {:induction false} SortAscending<T>(key: T -> Text, s: seq<T>)
    requires Distinct(key, s)
    ensures Ascending(key, SortBy(key, s))
    decreases |s|
  {
    if s != [] {
      SortAscending(key, s[1..]);
      forall y | y in SortBy(key, s[1..])
        ensures key(y) != key(s[0])
      {
        SortMember(key, s[1..], y);
        var tail := s[1..];
        assert y in tail;
        var i :| 0 <= i < |tail| && tail[i] == y;
        assert key(s[0]) != key(s[i + 1]);
      }
      InsertAscending(key, s[0], SortBy(key, s[1..]));
    }
  }

  lemma AscendingTail<T>(key: T -> Text, a: seq<T>)
    requires Ascending(key, a) && a != []
    ensures a[0] !in a[1..] && Ascending(key, a[1..])
    ensures forall y :: y in a <==> y == a[0] || y in a[1..]
  {
    assert a == [a[0]] + a[1..];
    if a[0] in a[1..] {
      var j :| 0 <= j < |a| - 1 && a[1..][j] == a[0];
      assert Less(key(a[0]), key(a[j + 1]));
      LessTotal(key(a[0]), key(a[0]));
    }
  }

  lemma FirstIsLeast<T>(key: T -> Text, a: seq<T>, y: T)
    requires Ascending(key, a) && y in a
    ensures a[0] == y || Less(key(a[0]), key(y))
  {
    var j :| 0 <= j < |a| && a[j] == y;
  }

  /** An ascending list is determined by its members. */
  lemma {:induction false} AscendingUnique<T>(key: T -> Text, a: seq<T>, b: seq<T>)
    requires Ascending(key, a) && Ascending(key, b)
    requires forall y :: y in a <==> y in b
    ensures a == b
    decreases |a|
  {
    assert a != [] ==> a[0] in a;
    assert b != [] ==> b[0] in b;
    if a != [] {
      FirstIsLeast(key, a, b[0]);
      FirstIsLeast(key, b, a[0]);
      LessTotal(key(a[0]), key(b[0]));
      AscendingTail(key, a);
      AscendingTail(key, b);
      assert forall y :: y in a[1..] <==> y in a && y != a[0];
      assert forall y :: y in b[1..] <==> y in b && y != b[0];
      AscendingUnique(key, a[1..], b[1..]);
    }
  }

  /** Sorting forgets the order: lists with the same members sort alike. */
  lemma SortCanonical<T>(key: T -> Text, a: seq<T>, b: seq<T>)
    requires Distinct(key, a) && Distinct(key, b)
    requires forall y :: y in a <==> y in b
    ensures SortBy(key, a) == SortBy(key, b)
  {
    forall y
      ensures y in SortBy(key, a) <==> y in SortBy(key, b)
    {
      SortMember(key, a, y);
      SortMember(key, b, y);
    }
    SortAscending(key, a);
    SortAscending(key, b);
    AscendingUnique(key, SortBy(key, a), SortBy(key, b));
  }
}
