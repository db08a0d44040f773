/** Byte-wise string order and sorted key lists, as `sort.Strings` produces them. */
module Strings {

  /** Lexicographic order. */
  predicate Le(a: string, b: string) {
    a == "" || (b != "" && (a[0] < b[0] || (a[0] == b[0] && Le(a[1..], b[1..]))))
  }

  lemma {:induction false} LeTotal(a: string, b: string)
    ensures Le(a, b) || Le(b, a)
  {
    if a != "" && b != "" { LeTotal(a[1..], b[1..]); }
  }

  lemma {:induction false} LeAntisymmetric(a: string, b: string)
    requires Le(a, b) && Le(b, a)
    ensures a == b
  {
    if a != "" && b != "" {
      LeAntisymmetric(a[1..], b[1..]);
      assert a == [a[0]] + a[1..] && b == [b[0]] + b[1..];
    }
  }

  lemma {:induction false} LeTransitive(a: string, b: string, c: string)
    requires Le(a, b) && Le(b, c)
    ensures Le(a, c)
  {
    if a != "" && b != "" && c != "" && a[0] == b[0] == c[0] {
      LeTransitive(a[1..], b[1..], c[1..]);
    }
  }

  /** The first different character decides, and a beginning comes before the whole. */
  lemma {:induction false} LeIsBytewise(p: string, a: string, b: string)
    requires b != "" && (a == "" || a[0] < b[0])
    ensures Le(p + a, p + b) && !Le(p + b, p + a)
  {
    if p == "" {
      assert p + a == a && p + b == b;
    } else {
      assert (p + a)[1..] == p[1..] + a && (p + b)[1..] == p[1..] + b;
      LeIsBytewise(p[1..], a, b);
    }
  }

  predicate Sorted(s: seq<string>) {
    forall i, j | 0 <= i < j < |s| :: Le(s[i], s[j])
  }

  predicate Distinct<T(==)>(s: seq<T>) {
    forall i, j | 0 <= i < j < |s| :: s[i] != s[j]
  }

  function Insert(x: string, s: seq<string>): (r: seq<string>)
    requires Sorted(s)
    ensures Sorted(r) && multiset(r) == multiset(s) + multiset{x}
  {
    if s == [] then [x]
    else if Le(x, s[0]) then
      InsertFront(x, s);
      [x] + s
    else
      var t := Insert(x, s[1..]);
      assert multiset(s) == multiset{s[0]} + multiset(s[1..]) by { assert s == [s[0]] + s[1..]; }
      InsertBehind(x, s, t);
      [s[0]] + t
  }

  lemma InsertFront(x: string, s: seq<string>)
    requires Sorted(s) && s != [] && Le(x, s[0])
    ensures Sorted([x] + s)
  {
    forall i | 0 <= i < |s| ensures Le(x, s[i]) {
      if i > 0 { LeTransitive(x, s[0], s[i]); }
    }
  }

  lemma InsertBehind(x: string, s: seq<string>, t: seq<string>)
    requires s != [] && Sorted(s) && !Le(x, s[0]) && Sorted(t)
    requires multiset(t) == multiset(s[1..]) + multiset{x}
    ensures Sorted([s[0]] + t)
  {
    LeTotal(x, s[0]);
    forall i | 0 <= i < |t| ensures Le(s[0], t[i]) {
      assert t[i] in multiset(t);
      assert t[i] == x || t[i] in s[1..];
    }
  }

  /** `sort.Strings`. */
  function Sort(s: seq<string>): (r: seq<string>)
    ensures Sorted(r) && multiset(r) == multiset(s)
  {
    if s == [] then []
    else
      assert s == [s[0]] + s[1..];
      Insert(s[0], Sort(s[1..]))
  }

  /** The elements of a set in some order. */
  ghost function Listed<T(!new)>(s: set<T>): (r: seq<T>)
    ensures Distinct(r) && forall x :: x in r <==> x in s
  {
    if s == {} then []
    else
      var x :| x in s;
      [x] + Listed(s - {x})
  }

  /** Every key of a map once, in the order in which Go's range statement hands them out. */
  ghost predicate IsOrder(order: seq<string>, keys: set<string>) {
    Distinct(order) && forall k :: k in order <==> k in keys
  }

  lemma OrderStartingWith(keys: set<string>, k: string) returns (order: seq<string>)
    requires k in keys
    ensures IsOrder(order, keys) && order != [] && order[0] == k
  {
    order := [k] + Listed(keys - {k});
    assert forall j :: j in order <==> j == k || j in Listed(keys - {k});
    assert Distinct(order) by {
      var rest := Listed(keys - {k});
      assert forall i | 0 <= i < |rest| :: rest[i] in rest;
    }
  }

  ghost predicate Enumerates(s: seq<string>, keys: set<string>) {
    Sorted(s) && Distinct(s) && forall k :: k in s <==> k in keys
  }

  lemma SomeEnumeration(keys: set<string>)
    ensures exists s :: Enumerates(s, keys)
  {
    SortKeepsKeys(Listed(keys));
    assert Enumerates(Sort(Listed(keys)), keys);
  }

  /** The elements of a set in increasing order. */
  ghost function Ordered(keys: set<string>): seq<string> {
    SomeEnumeration(keys);
    var s :| Enumerates(s, keys);
    s
  }

  lemma OrderedKeys(keys: set<string>)
    ensures Sorted(Ordered(keys)) && Distinct(Ordered(keys))
    ensures forall k :: k in Ordered(keys) <==> k in keys
  {
    SomeEnumeration(keys);
  }

  lemma DistinctAppend<T>(s: seq<T>, x: T)
    requires Distinct(s) && x !in s
    ensures Distinct(s + [x])
  {
  }

  lemma DistinctTail<T>(s: seq<T>)
    requires Distinct(s) && s != []
    ensures Distinct(s[1..]) && s[0] !in s[1..] && s == [s[0]] + s[1..]
    ensures forall x :: x in s <==> x == s[0] || x in s[1..]
  {
    assert s == [s[0]] + s[1..];
    assert forall i | 0 <= i < |s[1..]| :: s[1..][i] == s[i + 1];
  }

  lemma SortedTail(s: seq<string>)
    requires Sorted(s) && s != []
    ensures Sorted(s[1..])
  {
    assert forall i | 0 <= i < |s[1..]| :: s[1..][i] == s[i + 1];
  }

  lemma DistinctIsSingle<T>(s: seq<T>)
    ensures Distinct(s) <==> forall x | x in s :: multiset(s)[x] == 1
  {
    if s != [] {
      var t := s[1..];
      assert s == [s[0]] + t;
      DistinctIsSingle(t);
      if Distinct(s) {
        assert Distinct(t) by { assert forall i | 0 <= i < |t| :: t[i] == s[i + 1]; }
        assert s[0] !in t by { assert forall i | 0 <= i < |t| :: t[i] == s[i + 1]; }
      } else if forall x | x in s :: multiset(s)[x] == 1 {
        assert s[0] !in t by { assert s[0] in s; }
        forall x | x in t ensures multiset(t)[x] == 1 { assert x in s; }
      }
    }
  }

  lemma SortKeepsKeys(s: seq<string>)
    requires Distinct(s)
    ensures Distinct(Sort(s)) && forall k :: k in Sort(s) <==> k in s
  {
    DistinctIsSingle(s);
    DistinctIsSingle(Sort(s));
    assert forall k :: k in Sort(s) <==> k in multiset(Sort(s));
    assert forall k :: k in s <==> k in multiset(s);
  }

  lemma SameHead(a: seq<string>, b: seq<string>)
    requires a != [] && b != [] && Sorted(a) && Sorted(b)
    requires a[0] in b && b[0] in a
    ensures a[0] == b[0]
  {
    var i :| 0 <= i < |b| && b[i] == a[0];
    var j :| 0 <= j < |a| && a[j] == b[0];
    if i > 0 && j > 0 { LeAntisymmetric(a[0], b[0]); }
  }

  lemma EmptyTogether<T>(a: seq<T>, b: seq<T>)
    requires forall k :: k in a <==> k in b
    ensures a == [] <==> b == []
  {
    if a != [] { assert a[0] in b; }
    if b != [] { assert b[0] in a; }
  }

  /** A set has one increasing enumeration, so sorting forgets the order of collection. */
  lemma {:induction false} SortedUnique(a: seq<string>, b: seq<string>)
    requires Sorted(a) && Sorted(b) && Distinct(a) && Distinct(b)
    requires forall k :: k in a <==> k in b
    ensures a == b
  {
    EmptyTogether(a, b);
    if a != [] {
      assert a[0] in a && b[0] in b;
      SameHead(a, b);
      DistinctTail(a);
      DistinctTail(b);
      SortedTail(a);
      SortedTail(b);
      SortedUnique(a[1..], b[1..]);
    }
  }

  lemma OrderedIs(keys: set<string>, s: seq<string>)
    requires Sorted(s) && Distinct(s) && forall k :: k in s <==> k in keys
    ensures Ordered(keys) == s
  {
    OrderedKeys(keys);
    SortedUnique(Ordered(keys), s);
  }
}
