/**
 * Ordinal string order and the `Distinct().OrderBy(i => i)` pipeline that
 * builds a syntax tree's variable names: a strictly ascending sequence with
 * exactly the elements of its input.
 */
module StringOrder {

  /** Ordinal lexicographic order: compare character codes; a proper prefix comes first. */
  predicate StringLess(a: string, b: string)
    decreases |a|
  {
    if a == [] then b != []
    else if b == [] then false
    else if a[0] != b[0] then a[0] < b[0]
    else StringLess(a[1..], b[1..])
  }

  lemma {:induction false} StringLessIrreflexive(a: string)
    ensures !StringLess(a, a)
    decreases |a|
  {
    if a != [] {
      StringLessIrreflexive(a[1..]);
    }
  }

  lemma {:induction false} StringLessTransitive(a: string, b: string, c: string)
    requires StringLess(a, b) && StringLess(b, c)
    ensures StringLess(a, c)
    decreases |a|
  {
    if a != [] && a[0] == b[0] && b[0] == c[0] {
      StringLessTransitive(a[1..], b[1..], c[1..]);
    }
  }

  lemma {:induction false} StringLessTotal(a: string, b: string)
    requires a != b
    ensures StringLess(a, b) || StringLess(b, a)
    decreases |a|
  {
    if a != [] && b != [] && a[0] == b[0] {
      assert a == [a[0]] + a[1..] && b == [b[0]] + b[1..];
      StringLessTotal(a[1..], b[1..]);
    }
  }

  function Elements(s: seq<string>): set<string> {
    set y | y in s
  }

  lemma {:induction false} ElementsCons(h: string, t: seq<string>)
    ensures Elements([h] + t) == {h} + Elements(t)
  {
    var s := [h] + t;
    assert forall k :: 0 < k < |s| ==> s[k] == t[k - 1];
    assert forall y :: y in t ==> y in s;
  }

  lemma {:induction false} ElementsEmpty(s: seq<string>)
    ensures Elements(s) == {} <==> s == []
  {
    if s != [] {
      assert s[0] in Elements(s);
    }
  }

  /** Each element is ordinally below every later one; so there are no duplicates. */
  predicate StrictlyAscending(s: seq<string>) {
    forall i, j :: 0 <= i < j < |s| ==> StringLess(s[i], s[j])
  }

  /** `x` placed into the ascending sequence `s`, unless it is already there. */
  function InsertSorted(x: string, s: seq<string>): (r: seq<string>)
    requires StrictlyAscending(s)
    ensures StrictlyAscending(r)
    ensures Elements(r) == {x} + Elements(s)
    decreases |s|
  {
    if s == [] then [x]
    else if x == s[0] then s
    else if StringLess(x, s[0]) then
      InsertBefore(x, s);
      ElementsCons(x, s);
      [x] + s
    else
      StringLessTotal(x, s[0]);
      var tail := InsertSorted(x, s[1..]);
      InsertAfter(s[0], s[1..], tail, x);
      ElementsCons(s[0], tail);
      ElementsCons(s[0], s[1..]);
      assert [s[0]] + s[1..] == s;
      [s[0]] + tail
  }

  lemma {:induction false} InsertBefore(x: string, s: seq<string>)
    requires StrictlyAscending(s) && s != [] && StringLess(x, s[0])
    ensures StrictlyAscending([x] + s)
  {
    forall j | 0 < j < |s|
      ensures StringLess(x, s[j])
    {
      StringLessTransitive(x, s[0], s[j]);
    }
    var r := [x] + s;
    assert forall j :: 0 < j < |r| ==> r[j] == s[j - 1];
  }

  lemma {:induction false} InsertAfter(h: string, rest: seq<string>, tail: seq<string>, x: string)
    requires StrictlyAscending([h] + rest) && StrictlyAscending(tail) && StringLess(h, x)
    requires Elements(tail) == {x} + Elements(rest)
    ensures StrictlyAscending([h] + tail)
  {
    var s := [h] + rest;
    forall j | 0 <= j < |tail|
      ensures StringLess(h, tail[j])
    {
      assert tail[j] in Elements(tail);
      if tail[j] != x {
        assert tail[j] in Elements(rest);
        var k :| 0 <= k < |rest| && rest[k] == tail[j];
        assert s[0] == h && s[k + 1] == rest[k];
      }
    }
    var r := [h] + tail;
    assert forall j :: 0 < j < |r| ==> r[j] == tail[j - 1];
  }

  /** `Distinct().OrderBy(i => i)` under the ordinal order. */
  function SortDistinct(s: seq<string>): (r: seq<string>)
    ensures StrictlyAscending(r)
    ensures Elements(r) == Elements(s)
  {
    if s == [] then []
    else
      var r := InsertSorted(s[|s| - 1], SortDistinct(s[..|s| - 1]));
      assert s == s[..|s| - 1] + [s[|s| - 1]];
      assert forall y :: y in s ==> y in s[..|s| - 1] || y == s[|s| - 1];
      r
  }

  /** Two strictly ascending sequences with the same elements are equal: the sorted, distinct order is unique. */
  lemma {:induction false} AscendingUnique(a: seq<string>, b: seq<string>)
    requires StrictlyAscending(a) && StrictlyAscending(b)
    requires Elements(a) == Elements(b)
    ensures a == b
    decreases |a|
  {
    ElementsEmpty(a);
    ElementsEmpty(b);
    if a != [] && b != [] {
      assert a[0] in Elements(b);
      assert b[0] in Elements(a);
      if a[0] != b[0] {
        var i :| 0 <= i < |b| && b[i] == a[0];
        var j :| 0 <= j < |a| && a[j] == b[0];
        StringLessIrreflexive(a[0]);
        assert StringLess(b[0], a[0]);
        assert StringLess(a[0], b[0]);
        StringLessTransitive(a[0], b[0], a[0]);
      }
      forall y | y in a[1..]
        ensures y in b[1..]
      {
        var k :| 1 <= k < |a| && a[k] == y;
        assert y in Elements(b);
        var m :| 0 <= m < |b| && b[m] == y;
        if m == 0 {
          StringLessIrreflexive(a[0]);
        }
      }
      forall y | y in b[1..]
        ensures y in a[1..]
      {
        var k :| 1 <= k < |b| && b[k] == y;
        assert y in Elements(a);
        var m :| 0 <= m < |a| && a[m] == y;
        if m == 0 {
          StringLessIrreflexive(b[0]);
        }
      }
      AscendingUnique(a[1..], b[1..]);
      assert a == [a[0]] + a[1..] && b == [b[0]] + b[1..];
    }
  }
}
