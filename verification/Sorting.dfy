/** Ordering as Python's `sorted` gives it: a total order, an insertion sort and
    the lexicographic order of strings and tuples. */
module Sorting {

  ghost predicate TotalOrder<T(!new)>(leq: (T, T) -> bool) {
    && (forall x, y :: leq(x, y) || leq(y, x))
    && (forall x, y :: leq(x, y) && leq(y, x) ==> x == y)
    && (forall x, y, z :: leq(x, y) && leq(y, z) ==> leq(x, z))
  }

  ghost predicate Sorted<T>(leq: (T, T) -> bool, s: seq<T>) {
    forall i, j :: 0 <= i < j < |s| ==> leq(s[i], s[j])
  }

  ghost predicate Distinct<T>(s: seq<T>) {
    forall i, j :: 0 <= i < j < |s| ==> s[i] != s[j]
  }

  ghost function SetOf<T(!new)>(s: seq<T>): (r: set<T>)
    ensures forall x :: x in r <==> x in s
  {
    set x | x in s
  }

  /** A list has as many members as places exactly when it repeats none. */
  lemma {:induction false} DistinctBySize<T(!new)>(s: seq<T>)
    ensures |SetOf(s)| <= |s| && (|SetOf(s)| == |s| <==> Distinct(s))
  {
    if s != [] {
      var n := |s| - 1;
      var rest, last := s[..n], s[n];
      DistinctBySize(rest);
      assert s == rest + [last];
      assert SetOf(s) == SetOf(rest) + {last};
      if last in rest {
        var i :| 0 <= i < n && rest[i] == last;
        assert s[i] == s[n];
      }
    }
  }

  lemma SortedCons<T>(leq: (T, T) -> bool, x: T, s: seq<T>)
    requires Sorted(leq, s)
    requires forall y :: y in s ==> leq(x, y)
    ensures Sorted(leq, [x] + s)
  {
  }

  lemma BelowAll<T(!new)>(leq: (T, T) -> bool, x: T, s: seq<T>)
    requires TotalOrder(leq) && Sorted(leq, s) && s != [] && leq(x, s[0])
    ensures forall y :: y in s ==> leq(x, y)
  {
    forall y | y in s ensures leq(x, y) {
      var i :| 0 <= i < |s| && s[i] == y;
      assert leq(s[0], s[i]);
    }
  }

  function Insert<T(!new)>(leq: (T, T) -> bool, x: T, s: seq<T>): (r: seq<T>)
    requires TotalOrder(leq) && Sorted(leq, s)
    ensures Sorted(leq, r) && multiset(r) == multiset(s) + multiset{x}
  {
    if s == [] then
      [x]
    else if leq(x, s[0]) then
      BelowAll(leq, x, s);
      SortedCons(leq, x, s);
      [x] + s
    else
      var t := Insert(leq, x, s[1..]);
      InsertKeepsHeadFirst(leq, x, s, t);
      [s[0]] + t
  }

  lemma InsertKeepsHeadFirst<T(!new)>(leq: (T, T) -> bool, x: T, s: seq<T>, t: seq<T>)
    requires TotalOrder(leq) && Sorted(leq, s) && s != [] && leq(s[0], x)
    requires Sorted(leq, t) && multiset(t) == multiset(s[1..]) + multiset{x}
    ensures Sorted(leq, [s[0]] + t)
    ensures multiset([s[0]] + t) == multiset(s) + multiset{x}
  {
    forall y | y in t ensures leq(s[0], y) {
      assert y in multiset(t);
      assert y == x || y in s[1..];
    }
    SortedCons(leq, s[0], t);
    assert s == [s[0]] + s[1..];
  }

  /** Python's `sorted`: the elements of `s`, in order. */
  function Sort<T(!new)>(leq: (T, T) -> bool, s: seq<T>): (r: seq<T>)
    requires TotalOrder(leq)
    ensures Sorted(leq, r) && multiset(r) == multiset(s)
  {
    if s == [] then []
    else
      assert s == [s[0]] + s[1..];
      Insert(leq, s[0], Sort(leq, s[1..]))
  }

  lemma SameMultiset<T>(a: seq<T>, b: seq<T>)
    requires multiset(a) == multiset(b)
    ensures |a| == |b|
    ensures forall x :: x in a <==> x in b
    ensures Distinct(a) ==> Distinct(b)
  {
    assert |a| == |multiset(a)| == |multiset(b)| == |b|;
    forall x ensures x in a <==> x in b {
      assert x in a <==> x in multiset(a);
      assert x in b <==> x in multiset(b);
    }
    if Distinct(a) {
      forall i, j | 0 <= i < j < |b| ensures b[i] != b[j] {
        if b[i] == b[j] {
          OccursTwice(b, i, j);
          OccursOnce(a, b[i]);
        }
      }
    }
  }

  lemma OccursTwice<T>(s: seq<T>, i: nat, j: nat)
    requires i < j < |s| && s[i] == s[j]
    ensures multiset(s)[s[i]] >= 2
  {
    assert s == s[..j] + [s[j]] + s[j + 1..];
    assert s[..j][i] == s[i];
    assert s[i] in multiset(s[..j]);
  }

  lemma {:induction false} OccursOnce<T>(s: seq<T>, x: T)
    requires Distinct(s)
    ensures multiset(s)[x] <= 1
  {
    if s != [] {
      assert s == [s[0]] + s[1..];
      OccursOnce(s[1..], x);
      if x == s[0] {
        assert x !in s[1..];
        assert x !in multiset(s[1..]);
      }
    }
  }

  /** A sorted sequence is determined by its multiset, so sorting forgets the input order. */
  lemma {:induction false} SortedUnique<T(!new)>(leq: (T, T) -> bool, a: seq<T>, b: seq<T>)
    requires TotalOrder(leq) && Sorted(leq, a) && Sorted(leq, b)
    requires multiset(a) == multiset(b)
    ensures a == b
  {
    hide TotalOrder, Sorted;
    SameMultiset(a, b);
    if a != [] {
      SameHead(leq, a, b);
      TailMultiset(a);
      TailMultiset(b);
      SortedUnique(leq, a[1..], b[1..]);
      SameParts(a, b);
    }
  }

  lemma SameParts<T>(a: seq<T>, b: seq<T>)
    requires a != [] && b != [] && a[0] == b[0] && a[1..] == b[1..]
    ensures a == b
  {
    assert a == [a[0]] + a[1..] && b == [b[0]] + b[1..];
  }

  lemma TailMultiset<T>(s: seq<T>)
    requires s != []
    ensures multiset(s[1..]) == multiset(s) - multiset{s[0]}
  {
    assert s == [s[0]] + s[1..];
  }

  lemma SameHead<T(!new)>(leq: (T, T) -> bool, a: seq<T>, b: seq<T>)
    requires TotalOrder(leq) && Sorted(leq, a) && Sorted(leq, b)
    requires a != [] && b != [] && (forall x :: x in a <==> x in b)
    ensures a[0] == b[0]
    ensures Sorted(leq, a[1..]) && Sorted(leq, b[1..])
  {
    assert leq(a[0], a[0]) && leq(b[0], b[0]);
    assert a[0] in b && b[0] in a;
    BelowAll(leq, a[0], a);
    BelowAll(leq, b[0], b);
  }

  method Elements<T(==, !new)>(s: set<T>) returns (r: seq<T>)
    ensures Distinct(r) && SetOf(r) == s
  {
    r := [];
    var rest := s;
    while rest != {}
      invariant rest <= s && Distinct(r) && SetOf(r) == s - rest
      decreases rest
    {
      var x :| x in rest;
      assert x !in SetOf(r);
      r, rest := r + [x], rest - {x};
    }
  }

  predicate LexLeq<T(==)>(leq: (T, T) -> bool, a: seq<T>, b: seq<T>) {
    || a == []
    || (b != [] && if a[0] == b[0] then LexLeq(leq, a[1..], b[1..]) else leq(a[0], b[0]))
  }

  /** Python compares strings and tuples element by element. */
  function Lex<T(==)>(leq: (T, T) -> bool): (seq<T>, seq<T>) -> bool {
    (a, b) => LexLeq(leq, a, b)
  }

  lemma {:induction false} LexTotal<T(!new)>(leq: (T, T) -> bool)
    requires TotalOrder(leq)
    ensures TotalOrder(Lex(leq))
  {
    forall a, b ensures Lex(leq)(a, b) || Lex(leq)(b, a) { LexConnected(leq, a, b); }
    forall a, b | Lex(leq)(a, b) && Lex(leq)(b, a) ensures a == b { LexAntisymmetric(leq, a, b); }
    forall a, b, c | Lex(leq)(a, b) && Lex(leq)(b, c) ensures Lex(leq)(a, c) { LexTransitive(leq, a, b, c); }
  }

  lemma {:induction false} LexConnected<T(!new)>(leq: (T, T) -> bool, a: seq<T>, b: seq<T>)
    requires TotalOrder(leq)
    ensures LexLeq(leq, a, b) || LexLeq(leq, b, a)
  {
    if a != [] && b != [] && a[0] == b[0] { LexConnected(leq, a[1..], b[1..]); }
  }

  lemma {:induction false} LexAntisymmetric<T(!new)>(leq: (T, T) -> bool, a: seq<T>, b: seq<T>)
    requires TotalOrder(leq) && LexLeq(leq, a, b) && LexLeq(leq, b, a)
    ensures a == b
  {
    if a != [] && b != [] && a[0] == b[0] {
      LexAntisymmetric(leq, a[1..], b[1..]);
      assert a == [a[0]] + a[1..] && b == [b[0]] + b[1..];
    }
  }

  lemma {:induction false} LexTransitive<T(!new)>(leq: (T, T) -> bool, a: seq<T>, b: seq<T>, c: seq<T>)
    requires TotalOrder(leq) && LexLeq(leq, a, b) && LexLeq(leq, b, c)
    ensures LexLeq(leq, a, c)
  {
    if a != [] && a[0] == b[0] == c[0] { LexTransitive(leq, a[1..], b[1..], c[1..]); }
  }

  predicate CharLeq(a: char, b: char) { a <= b }

  function StringLeq(): (string, string) -> bool { Lex(CharLeq) }

  function TupleLeq(): (seq<string>, seq<string>) -> bool { Lex(StringLeq()) }

  lemma StringOrder()
    ensures TotalOrder(StringLeq()) && TotalOrder(TupleLeq())
  {
    LexTotal(CharLeq);
    LexTotal(StringLeq());
  }
}
