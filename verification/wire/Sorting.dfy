/** msg_cmp_func, and a sort with qsort's contract (section 7.22.5.2 of ISO/IEC 9899:2018). */
module Sorting {
  import opened Memory

  /** A line of the listing. */
  datatype Row = Row(name: CString, size: nat, publishers: nat, subscribers: nat)

  /** strcmp: the sign of the first difference between the bytes, terminators included. */
  function StrCmp(a: CString, b: CString): (sign: int)
    ensures -1 <= sign <= 1
  {
    if a == [] && b == [] then 0
    else if a == [] then -1
    else if b == [] then 1
    else if a[0] < b[0] then -1
    else if a[0] > b[0] then 1
    else StrCmp(a[1..], b[1..])
  }

  lemma {:induction false} StrCmpZero(a: CString, b: CString)
    ensures StrCmp(a, b) == 0 <==> a == b
    ensures StrCmp(b, a) == -StrCmp(a, b)
    decreases |a|
  {
    if a != [] && b != [] {
      StrCmpZero(a[1..], b[1..]);
      assert a == [a[0]] + a[1..] && b == [b[0]] + b[1..];
    }
  }

  lemma {:induction false} StrCmpTransitive(a: CString, b: CString, c: CString)
    requires StrCmp(a, b) <= 0 && StrCmp(b, c) <= 0
    ensures StrCmp(a, c) <= 0
    ensures StrCmp(a, b) < 0 || StrCmp(b, c) < 0 ==> StrCmp(a, c) < 0
    decreases |a|
  {
    if a != [] && b != [] && c != [] && a[0] == b[0] == c[0] {
      StrCmpTransitive(a[1..], b[1..], c[1..]);
    }
  }

  /** They agree on k bytes, and then a ends or has the smaller byte. */
  ghost predicate DifferAt(a: CString, b: CString, k: nat) {
    k <= |a| && k < |b| && a[..k] == b[..k] && (k == |a| || a[k] < b[k])
  }

  lemma SameFirstByte(a: CString, b: CString, k: nat)
    requires DifferAt(a, b, k) && k > 0
    ensures a[0] == b[0]
  {
    assert a[..k][0] == b[..k][0];
  }

  /** strcmp is negative exactly when the first string comes first in a dictionary. */
  lemma {:induction false} StrCmpIsDictionary(a: CString, b: CString)
    ensures StrCmp(a, b) < 0 <==> exists k: nat :: DifferAt(a, b, k)
    decreases |a|
  {
    if a != [] && b != [] && a[0] == b[0] {
      StrCmpIsDictionary(a[1..], b[1..]);
      if k: nat :| DifferAt(a[1..], b[1..], k) {
        assert a[..k + 1] == [a[0]] + a[1..][..k] && b[..k + 1] == [b[0]] + b[1..][..k];
        assert DifferAt(a, b, k + 1);
      }
      if k: nat :| DifferAt(a, b, k) {
        assert a[1..][..k - 1] == a[..k][1..] && b[1..][..k - 1] == b[..k][1..];
        assert DifferAt(a[1..], b[1..], k - 1);
      }
    } else if StrCmp(a, b) < 0 {
      assert DifferAt(a, b, 0);
    } else if k: nat :| DifferAt(a, b, k) {
      SameFirstByte(a, b, k);
      assert false;
    }
  }

  /** The place for x in a list in order: in front of the rows at the end that come after it. */
  function Place(s: seq<Row>, x: Row): (j: nat)
    ensures j <= |s|
    ensures forall k :: j <= k < |s| ==> StrCmp(x.name, s[k].name) < 0
    ensures j > 0 ==> StrCmp(x.name, s[j - 1].name) >= 0
  {
    if s == [] || StrCmp(x.name, s[|s| - 1].name) >= 0 then |s| else Place(s[..|s| - 1], x)
  }

  lemma PlaceIs(s: seq<Row>, x: Row, j: nat)
    requires j <= |s| && (forall k :: j <= k < |s| ==> StrCmp(x.name, s[k].name) < 0)
    requires j > 0 ==> StrCmp(x.name, s[j - 1].name) >= 0
    ensures Place(s, x) == j
  {
    var p := Place(s, x);
    if p < j {
      assert false;
    } else if j < p {
      assert false;
    }
  }

  /** The list with a row put in at position j. */
  function Gap(s: seq<Row>, j: nat, y: Row): (r: seq<Row>)
    requires j <= |s|
    ensures |r| == |s| + 1
  {
    s[..j] + [y] + s[j..]
  }

  function Insert(s: seq<Row>, x: Row): (r: seq<Row>)
    ensures |r| == |s| + 1
  {
    Gap(s, Place(s, x), x)
  }

  lemma GapAtEnd(s: seq<Row>, x: Row)
    ensures Gap(s, |s|, x) == s + [x]
  {
  }

  lemma GapFilled(s: seq<Row>, j: nat, y: Row, x: Row)
    requires j <= |s|
    ensures Gap(s, j, y)[j := x] == Gap(s, j, x)
  {
  }

  /** Moving a row up by one moves the gap down. */
  lemma GapMoves(s: seq<Row>, j: nat, y: Row)
    requires 0 < j <= |s|
    ensures Gap(s, j, y)[j - 1] == s[j - 1]
    ensures Gap(s, j, y)[j := s[j - 1]] == Gap(s, j - 1, s[j - 1])
  {
  }

  function SortRows(s: seq<Row>): (r: seq<Row>)
    ensures |r| == |s|
  {
    if s == [] then [] else Insert(SortRows(s[..|s| - 1]), s[|s| - 1])
  }

  ghost predicate Ordered(s: seq<Row>) {
    forall i, j :: 0 <= i < j < |s| ==> StrCmp(s[i].name, s[j].name) <= 0
  }

  ghost predicate StrictlyOrdered(s: seq<Row>) {
    forall i, j :: 0 <= i < j < |s| ==> StrCmp(s[i].name, s[j].name) < 0
  }

  lemma InsertElements(s: seq<Row>, x: Row)
    ensures multiset(Insert(s, x)) == multiset(s) + multiset{x}
  {
    assert s == s[..Place(s, x)] + s[Place(s, x)..];
  }

  lemma InsertKeepsOrder(s: seq<Row>, x: Row)
    requires Ordered(s)
    ensures Ordered(Insert(s, x))
  {
    hide StrCmp;
    hide Place;
    var j := Place(s, x);
    forall k | 0 <= k < j
      ensures StrCmp(s[k].name, x.name) <= 0
    {
      StrCmpZero(s[j - 1].name, x.name);
      if k < j - 1 {
        StrCmpTransitive(s[k].name, s[j - 1].name, x.name);
      }
    }
    AroundPlace(s[..j], x, s[j..]);
  }

  lemma AroundPlace(before: seq<Row>, x: Row, after: seq<Row>)
    requires Ordered(before + after)
    requires forall k :: 0 <= k < |before| ==> StrCmp(before[k].name, x.name) <= 0
    requires forall k :: 0 <= k < |after| ==> StrCmp(x.name, after[k].name) <= 0
    ensures Ordered(before + [x] + after)
  {
    hide StrCmp;
    var s, r := before + after, before + [x] + after;
    forall i, j | 0 <= i < j < |r|
      ensures StrCmp(r[i].name, r[j].name) <= 0
    {
      if i != |before| && j != |before| {
        var k, l := if i < |before| then i else i - 1, if j < |before| then j else j - 1;
        assert s[k] == r[i] && s[l] == r[j];
      }
    }
  }

  /** The result of the sort is a permutation in order. */
  lemma {:induction false} SortRowsSorts(s: seq<Row>)
    ensures Ordered(SortRows(s)) && multiset(SortRows(s)) == multiset(s)
    decreases |s|
  {
    hide Insert;
    hide StrCmp;
    if s != [] {
      var front := SortRows(s[..|s| - 1]);
      SortRowsSorts(s[..|s| - 1]);
      InsertKeepsOrder(front, s[|s| - 1]);
      InsertElements(front, s[|s| - 1]);
      hide Ordered;
      assert s == s[..|s| - 1] + [s[|s| - 1]];
    }
  }

  ghost predicate NamesDistinct(s: seq<Row>) {
    forall i, j :: 0 <= i < j < |s| ==> s[i].name != s[j].name
  }

  /** In a list of distinct names, a row is determined by its name. */
  lemma SameNameSameRow(s: seq<Row>, x: Row, y: Row)
    requires NamesDistinct(s) && x in s && y in s && x.name == y.name
    ensures x == y && multiset(s)[x] == 1
  {
    var i :| 0 <= i < |s| && s[i] == x;
    var j :| 0 <= j < |s| && s[j] == y;
    assert s == s[..i] + [x] + s[i + 1..];
    assert x !in s[..i] && x !in s[i + 1..];
  }

  /** With distinct names the order is strict. */
  lemma StrictIfDistinct(s: seq<Row>, r: seq<Row>)
    requires NamesDistinct(s) && Ordered(r) && multiset(r) == multiset(s)
    ensures StrictlyOrdered(r)
  {
    forall i, j | 0 <= i < j < |r|
      ensures StrCmp(r[i].name, r[j].name) < 0
    {
      StrCmpZero(r[i].name, r[j].name);
      assert r[i] in multiset(r) && r[j] in multiset(r);
      if r[i].name == r[j].name {
        SameNameSameRow(s, r[i], r[j]);
        Twice(r, i, j);
      }
    }
  }

  lemma Twice(r: seq<Row>, i: int, j: int)
    requires 0 <= i < j < |r| && r[i] == r[j]
    ensures multiset(r)[r[i]] >= 2
  {
    assert r == r[..i] + [r[i]] + r[i + 1..];
    assert r[i + 1..][j - i - 1] == r[j];
  }

  /** There is only one way to put rows in strict order. */
  lemma {:induction false} OneStrictOrder(r: seq<Row>, t: seq<Row>)
    requires StrictlyOrdered(r) && StrictlyOrdered(t) && multiset(r) == multiset(t)
    ensures r == t
    decreases |r|
  {
    hide StrCmp;
    assert |r| == |multiset(r)| == |multiset(t)| == |t|;
    if r != [] {
      SameFirst(r, t);
      RestElements(r);
      RestElements(t);
      OneStrictOrder(r[1..], t[1..]);
      assert r == [r[0]] + r[1..] && t == [t[0]] + t[1..];
    }
  }

  lemma RestElements(s: seq<Row>)
    requires s != []
    ensures multiset(s[1..]) == multiset(s) - multiset{s[0]}
  {
    assert s == [s[0]] + s[1..];
  }

  lemma SameFirst(r: seq<Row>, t: seq<Row>)
    requires StrictlyOrdered(r) && StrictlyOrdered(t) && multiset(r) == multiset(t) && r != [] && t != []
    ensures r[0] == t[0]
  {
    assert r[0] in multiset(t) && t[0] in multiset(r);
    var i :| 0 <= i < |t| && t[i] == r[0];
    var j :| 0 <= j < |r| && r[j] == t[0];
    StrCmpZero(r[0].name, t[0].name);
  }

  // ---------- in place ----------

  /** The inner loop: rows that come after x move up by one, and x takes the place they leave. */
  method InsertInPlace(a: array<Row>, i: nat)
    requires i < a.Length
    modifies a
    ensures a[..i + 1] == Insert(old(a[..i]), old(a[i])) && a[i + 1..] == old(a[i + 1..])
  {
    hide StrCmp;
    hide Place;
    hide Gap;
    var x, j := a[i], i;
    ghost var s := a[..i];
    GapAtEnd(s, x);
    assert a[..i + 1] == s + [x];
    while j > 0 && StrCmp(x.name, a[j - 1].name) < 0
      invariant j <= i && a[..i + 1] == Gap(s, j, a[j])
      invariant a[i + 1..] == old(a[i + 1..])
      invariant forall k :: j <= k < i ==> StrCmp(x.name, s[k].name) < 0
    {
      ghost var v := a[..i + 1];
      GapMoves(s, j, a[j]);
      assert a[j - 1] == v[j - 1];
      a[j] := a[j - 1];
      assert a[..i + 1] == v[j := s[j - 1]];
      j := j - 1;
    }
    ghost var v := a[..i + 1];
    if j > 0 {
      GapMoves(s, j, a[j]);
      assert a[j - 1] == v[j - 1];
    }
    GapFilled(s, j, a[j], x);
    a[j] := x;
    assert a[..i + 1] == v[j := x];
    PlaceIs(s, x, j);
  }

  lemma SortNone()
    ensures SortRows([]) == []
  {
  }

  lemma SortOneMore(s: seq<Row>, i: nat)
    requires i < |s|
    ensures SortRows(s[..i + 1]) == Insert(SortRows(s[..i]), s[i])
  {
    assert s[..i + 1][..i] == s[..i];
  }

  /** vector_sort on the first n rows. */
  method SortInPlace(a: array<Row>, n: nat)
    requires n <= a.Length
    modifies a
    ensures a[..n] == SortRows(old(a[..n])) && a[n..] == old(a[n..])
  {
    hide SortRows;
    hide Insert;
    ghost var s := a[..n];
    SortNone();
    assert s[..0] == [];
    for i := 0 to n
      invariant a[..i] == SortRows(s[..i]) && a[i..] == old(a[i..])
    {
      assert a[i] == s[i];
      SortOneMore(s, i);
      InsertInPlace(a, i);
      assert a[i + 1..] == old(a[i..])[1..];
    }
    assert s[..n] == s;
  }
}
