/** The character-wise order on strings, and the strictly sorted list of a set of strings. */
module TextOrder {

  predicate Less(a: string, b: string) {
    b != [] && (a == [] || a[0] < b[0] || (a[0] == b[0] && Less(a[1..], b[1..])))
  }

  lemma {:induction false} LessTransitive(a: string, b: string, c: string)
    requires Less(a, b) && Less(b, c)
    ensures Less(a, c)
  {
    if a != [] && a[0] == b[0] == c[0] {
      LessTransitive(a[1..], b[1..], c[1..]);
    }
  }

  lemma {:induction false} LessTotal(a: string, b: string)
    ensures Less(a, b) || a == b || Less(b, a)
    ensures !(Less(a, b) && Less(b, a))
    ensures !Less(a, a)
  {
    if a != [] && b != [] {
      LessTotal(a[1..], b[1..]);
      if a[0] == b[0] && a[1..] == b[1..] {
        assert a == [a[0]] + a[1..] == b;
      }
    }
    if a != [] && a != b { LessTotal(a[1..], a[1..]); }
  }

  /** Between concatenations, the first parts decide unless they are equal. */
  lemma {:induction false} LessConcat(a: string, b: string, x: string, y: string)
    requires |a| == |b|
    ensures Less(a + x, b + y) <==> Less(a, b) || (a == b && Less(x, y))
  {
    if a == [] {
      assert a + x == x && b + y == y;
    } else {
      assert (a + x)[1..] == a[1..] + x && (b + y)[1..] == b[1..] + y;
      LessConcat(a[1..], b[1..], x, y);
      assert a == [a[0]] + a[1..] && b == [b[0]] + b[1..];
    }
  }

  ghost predicate StrictlySorted(s: seq<string>) {
    forall i, j :: 0 <= i < j < |s| ==> Less(s[i], s[j])
  }

  function Elements(s: seq<string>): set<string> {
    set x | x in s
  }

  lemma ElementsEmpty(s: seq<string>)
    ensures s == [] <==> Elements(s) == {}
  {
    assert s != [] ==> s[0] in Elements(s);
  }

  /** A strictly sorted list is determined by its elements. */
  lemma {:induction false} SortedUnique(a: seq<string>, b: seq<string>)
    requires StrictlySorted(a) && StrictlySorted(b)
    requires Elements(a) == Elements(b)
    ensures a == b
  {
    ElementsEmpty(a);
    ElementsEmpty(b);
    if a != [] {
      assert a[0] in Elements(b) && b[0] in Elements(a);
      var i :| 0 <= i < |b| && b[i] == a[0];
      var j :| 0 <= j < |a| && a[j] == b[0];
      LessTotal(a[0], b[0]);
      assert a[0] == b[0];
      forall x ensures x in a[1..] <==> x in b[1..] {
        LessTotal(a[0], a[0]);
        assert x in a <==> x in Elements(a);
        assert x in b <==> x in Elements(b);
        assert a == [a[0]] + a[1..] && b == [b[0]] + b[1..];
        assert a[0] !in a[1..] && b[0] !in b[1..];
      }
      SortedUnique(a[1..], b[1..]);
      assert a == [a[0]] + a[1..] && b == [b[0]] + b[1..];
    }
  }

  ghost predicate IsLeast(m: string, s: set<string>) {
    m in s && forall x :: x in s && x != m ==> Less(m, x)
  }

  /** Every non-empty set of strings has a least element. */
  lemma {:induction false} LeastExists(s: set<string>)
    requires s != {}
    ensures exists m :: IsLeast(m, s)
  {
    var y :| y in s;
    if s == {y} {
      assert IsLeast(y, s);
    } else {
      LeastExists(s - {y});
      var z :| IsLeast(z, s - {y});
      LessTotal(z, y);
      var m := if Less(z, y) then z else y;
      forall x | x in s && x != m ensures Less(m, x) {
        if m == y && x != z { LessTransitive(y, z, x); }
      }
      assert IsLeast(m, s);
    }
  }

  ghost function Least(s: set<string>): (m: string)
    requires s != {}
    ensures IsLeast(m, s)
  {
    LeastExists(s);
    var m :| IsLeast(m, s);
    m
  }

  /** The elements of `s` in increasing order. */
  ghost function SortedList(s: set<string>): (r: seq<string>)
    ensures StrictlySorted(r)
    ensures Elements(r) == s
  {
    if s == {} then []
    else
      var rest := SortedList(s - {Least(s)});
      assert forall x :: x in rest <==> x in Elements(rest);
      var r := [Least(s)] + rest;
      assert forall x :: x in r <==> x == Least(s) || x in rest;
      r
  }

  lemma SortedListTail(s: set<string>)
    requires s != {}
    ensures SortedList(s) == [Least(s)] + SortedList(s - {Least(s)})
  {
  }

  lemma LeastUnique(m: string, s: set<string>)
    requires IsLeast(m, s)
    ensures s != {} && m == Least(s)
  {
    LessTotal(m, Least(s));
  }

  method FindLeast(s: set<string>) returns (m: string)
    requires s != {}
    ensures m in s && m == Least(s)
  {
    m :| m in s;
    var others := s - {m};
    while others != {}
      invariant others <= s && m in s
      invariant forall x :: x in s && x !in others && x != m ==> Less(m, x)
      decreases |others|
    {
      var x :| x in others;
      LessTotal(m, x);
      if Less(x, m) {
        forall y | y in s && y !in others && y != m ensures Less(x, y) { LessTransitive(x, m, y); }
        m := x;
      }
      others := others - {x};
    }
    LeastUnique(m, s);
  }

  /** Sorting by repeated choice of the least element. */
  method ToSortedList(s: set<string>) returns (r: seq<string>)
    ensures r == SortedList(s)
  {
    hide StrictlySorted;
    hide Elements;
    hide IsLeast;
    r := [];
    var rest := s;
    while rest != {}
      invariant r + SortedList(rest) == SortedList(s)
      decreases |rest|
    {
      var m := FindLeast(rest);
      SortedListTail(rest);
      ghost var tail := SortedList(rest - {m});
      assert SortedList(rest) == [m] + tail;
      assert r + [m] + tail == r + ([m] + tail);
      r := r + [m];
      rest := rest - {m};
    }
  }
}
