/**
 Sorting by a key: tuples of strings compare element by element, strings character by character,
 and a sorted arrangement of elements with distinct keys is unique.
 */
module Ordering {

  ghost predicate TotalOrder<T(!new)>(leq: (T, T) -> bool) {
    && (forall a, b :: leq(a, b) || leq(b, a))
    && (forall a, b :: leq(a, b) && leq(b, a) ==> a == b)
    && (forall a, b, c :: leq(a, b) && leq(b, c) ==> leq(a, c))
  }

  ghost predicate TotalPreorder<T(!new)>(leq: (T, T) -> bool) {
    && (forall a, b :: leq(a, b) || leq(b, a))
    && (forall a, b, c :: leq(a, b) && leq(b, c) ==> leq(a, c))
  }

  /** No two different elements are tied. */
  ghost predicate Separates<T>(leq: (T, T) -> bool, s: seq<T>) {
    forall i, j :: 0 <= i < |s| && 0 <= j < |s| && leq(s[i], s[j]) && leq(s[j], s[i]) ==> s[i] == s[j]
  }

  /** Comparison by a key. */
  function By<T, K>(key: T -> K, leq: (K, K) -> bool): (T, T) -> bool {
    (a, b) => leq(key(a), key(b))
  }

  lemma ByIsPreorder<T(!new), K(!new)>(key: T -> K, leq: (K, K) -> bool)
    requires TotalOrder(leq)
    ensures TotalPreorder(By(key, leq))
  {
  }

  predicate Sorted<T>(leq: (T, T) -> bool, s: seq<T>) {
    forall i, j :: 0 <= i < j < |s| ==> leq(s[i], s[j])
  }

  function Insert<T>(leq: (T, T) -> bool, x: T, s: seq<T>): seq<T> {
    if s == [] || leq(x, s[0]) then [x] + s else [s[0]] + Insert(leq, x, s[1..])
  }

  function Sort<T>(leq: (T, T) -> bool, s: seq<T>): seq<T> {
    if s == [] then [] else Insert(leq, s[0], Sort(leq, s[1..]))
  }

  lemma {:induction false} InsertSorts<T(!new)>(leq: (T, T) -> bool, x: T, s: seq<T>)
    requires TotalPreorder(leq) && Sorted(leq, s)
    ensures Sorted(leq, Insert(leq, x, s)) && multiset(Insert(leq, x, s)) == multiset(s) + multiset{x}
    decreases |s|
  {
    if s != [] && !leq(x, s[0]) {
      InsertSorts(leq, x, s[1..]);
      InsertBehind(leq, x, s, Insert(leq, x, s[1..]));
    } else {
      assert s == [] || s == [s[0]] + s[1..];
    }
  }

  lemma InsertBehind<T(!new)>(leq: (T, T) -> bool, x: T, s: seq<T>, rest: seq<T>)
    requires TotalPreorder(leq) && Sorted(leq, s) && s != [] && !leq(x, s[0])
    requires Sorted(leq, rest) && multiset(rest) == multiset(s[1..]) + multiset{x}
    ensures Sorted(leq, [s[0]] + rest) && multiset([s[0]] + rest) == multiset(s) + multiset{x}
  {
    assert s == [s[0]] + s[1..];
    forall j | 0 <= j < |rest| ensures leq(s[0], rest[j]) {
      assert rest[j] in multiset(s[1..]) + multiset{x};
    }
  }

  lemma {:induction false} SortSorts<T(!new)>(leq: (T, T) -> bool, s: seq<T>)
    requires TotalPreorder(leq)
    ensures Sorted(leq, Sort(leq, s)) && multiset(Sort(leq, s)) == multiset(s)
    decreases |s|
  {
    if s != [] {
      SortSorts(leq, s[1..]);
      InsertSorts(leq, s[0], Sort(leq, s[1..]));
      assert s == [s[0]] + s[1..];
    }
  }

  /** Two sorted arrangements of the same elements are the same. */
  lemma {:induction false} SortedUnique<T(!new)>(leq: (T, T) -> bool, s: seq<T>, t: seq<T>)
    requires TotalPreorder(leq) && Sorted(leq, s) && Sorted(leq, t) && multiset(s) == multiset(t) && Separates(leq, s)
    ensures s == t
    decreases |s|
  {
    assert |s| == |multiset(s)| == |multiset(t)| == |t|;
    if s != [] {
      SameHead(leq, s, t);
      TailElements(s);
      TailElements(t);
      SortedUnique(leq, s[1..], t[1..]);
      assert s == [s[0]] + s[1..] && t == [t[0]] + t[1..];
    }
  }

  lemma SameHead<T(!new)>(leq: (T, T) -> bool, s: seq<T>, t: seq<T>)
    requires TotalPreorder(leq) && Sorted(leq, s) && Sorted(leq, t) && multiset(s) == multiset(t) && Separates(leq, s)
      && s != [] && t != []
    ensures s[0] == t[0]
  {
    assert s[0] in multiset(t) && t[0] in multiset(s);
    var i :| 0 <= i < |t| && t[i] == s[0];
    var j :| 0 <= j < |s| && s[j] == t[0];
  }

  lemma TailElements<T>(s: seq<T>)
    requires s != []
    ensures multiset(s[1..]) == multiset(s) - multiset{s[0]}
  {
    assert s == [s[0]] + s[1..];
  }

  /** Reading rows back in any order and sorting them restores a list exactly when it was sorted. */
  lemma SortRestores<T(!new)>(leq: (T, T) -> bool, list: seq<T>, rows: seq<T>)
    requires TotalPreorder(leq) && multiset(rows) == multiset(list) && Separates(leq, list)
    ensures Sort(leq, rows) == list <==> Sorted(leq, list)
  {
    SortSorts(leq, rows);
    if Sorted(leq, list) {
      SortedUnique(leq, list, Sort(leq, rows));
    }
  }

  /** Sorting forgets the order of its input. */
  lemma SortOfSame<T(!new)>(leq: (T, T) -> bool, s: seq<T>, t: seq<T>)
    requires TotalPreorder(leq) && multiset(s) == multiset(t) && Separates(leq, s)
    ensures Sort(leq, s) == Sort(leq, t)
  {
    SortSorts(leq, s);
    SortSorts(leq, t);
    SeparatesSame(leq, s, Sort(leq, s));
    SortedUnique(leq, Sort(leq, s), Sort(leq, t));
  }

  lemma SeparatesSame<T>(leq: (T, T) -> bool, s: seq<T>, t: seq<T>)
    requires Separates(leq, s) && multiset(s) == multiset(t)
    ensures Separates(leq, t)
  {
    forall i, j | 0 <= i < |t| && 0 <= j < |t| && leq(t[i], t[j]) && leq(t[j], t[i]) ensures t[i] == t[j] {
      assert t[i] in multiset(s) && t[j] in multiset(s);
      var a :| 0 <= a < |s| && s[a] == t[i];
      var b :| 0 <= b < |s| && s[b] == t[j];
    }
  }

  /** The elements of a multiset in some order. */
  ghost function Listed<T>(m: multiset<T>): (s: seq<T>)
    ensures multiset(s) == m
    decreases |m|
  {
    if m == multiset{} then [] else
      var x :| x in m;
      [x] + Listed(m - multiset{x})
  }

  // ---- lexicographic order ----

  predicate LexLeq<T(==)>(leq: (T, T) -> bool, a: seq<T>, b: seq<T>) {
    a == [] || (b != [] && if a[0] == b[0] then LexLeq(leq, a[1..], b[1..]) else leq(a[0], b[0]))
  }

  lemma {:induction false} LexTotal<T(!new)>(leq: (T, T) -> bool, a: seq<T>, b: seq<T>)
    requires TotalOrder(leq)
    ensures LexLeq(leq, a, b) || LexLeq(leq, b, a)
    ensures LexLeq(leq, a, b) && LexLeq(leq, b, a) ==> a == b
    decreases |a|
  {
    if a != [] && b != [] && a[0] == b[0] {
      LexTotal(leq, a[1..], b[1..]);
      assert a == [a[0]] + a[1..] && b == [b[0]] + b[1..];
    }
  }

  lemma {:induction false} LexTransitive<T(!new)>(leq: (T, T) -> bool, a: seq<T>, b: seq<T>, c: seq<T>)
    requires TotalOrder(leq) && LexLeq(leq, a, b) && LexLeq(leq, b, c)
    ensures LexLeq(leq, a, c)
    decreases |a|
  {
    if a != [] && a[0] == b[0] == c[0] {
      LexTransitive(leq, a[1..], b[1..], c[1..]);
    }
  }

  function Lex<T(==)>(leq: (T, T) -> bool): (seq<T>, seq<T>) -> bool {
    (a, b) => LexLeq(leq, a, b)
  }

  lemma LexIsTotalOrder<T(!new)>(leq: (T, T) -> bool)
    requires TotalOrder(leq)
    ensures TotalOrder(Lex(leq))
  {
    forall a: seq<T>, b: seq<T> ensures Lex(leq)(a, b) || Lex(leq)(b, a) { LexTotal(leq, a, b); }
    forall a: seq<T>, b: seq<T> | Lex(leq)(a, b) && Lex(leq)(b, a) ensures a == b { LexTotal(leq, a, b); }
    forall a: seq<T>, b: seq<T>, c: seq<T> | Lex(leq)(a, b) && Lex(leq)(b, c)
      ensures Lex(leq)(a, c)
    {
      LexTransitive(leq, a, b, c);
    }
  }

  function CharLeq(): (char, char) -> bool {
    (a, b) => a <= b
  }

  /** The order of strings by code point. */
  function StringLeq(): (string, string) -> bool {
    Lex(CharLeq())
  }

  function TupleLeq(): (seq<string>, seq<string>) -> bool {
    Lex(StringLeq())
  }

  lemma StringOrder()
    ensures TotalOrder(StringLeq()) && TotalOrder(TupleLeq())
  {
    assert TotalOrder(CharLeq());
    LexIsTotalOrder(CharLeq());
    LexIsTotalOrder(StringLeq());
  }

  type Rank = (seq<string>, nat)

  /** Tuples of strings, ties broken by a number. */
  function RankLeq(): (Rank, Rank) -> bool {
    (a: Rank, b: Rank) => if a.0 == b.0 then a.1 <= b.1 else TupleLeq()(a.0, b.0)
  }

  lemma RankOrder()
    ensures TotalOrder(RankLeq())
  {
    StringOrder();
    forall a: Rank, b: Rank ensures RankLeq()(a, b) || RankLeq()(b, a) {
      assert TupleLeq()(a.0, b.0) || TupleLeq()(b.0, a.0);
    }
    forall a: Rank, b: Rank | RankLeq()(a, b) && RankLeq()(b, a) ensures a == b {
      assert TupleLeq()(a.0, b.0) && TupleLeq()(b.0, a.0) ==> a.0 == b.0;
    }
    forall a: Rank, b: Rank, c: Rank | RankLeq()(a, b) && RankLeq()(b, c) ensures RankLeq()(a, c) {
      if a.0 != b.0 && b.0 != c.0 {
        assert TupleLeq()(a.0, b.0) && TupleLeq()(b.0, c.0) && TupleLeq()(a.0, c.0);
      }
    }
  }

  /** A common prefix does not matter. */
  lemma {:induction false} LexPrefix<T>(leq: (T, T) -> bool, prefix: seq<T>, a: seq<T>, b: seq<T>)
    ensures LexLeq(leq, prefix + a, prefix + b) == LexLeq(leq, a, b)
    decreases |prefix|
  {
    if prefix == [] {
      assert prefix + a == a && prefix + b == b;
    } else {
      assert (prefix + a)[1..] == prefix[1..] + a && (prefix + b)[1..] == prefix[1..] + b;
      LexPrefix(leq, prefix[1..], a, b);
    }
  }

  lemma TwiceInMultiset<T>(s: seq<T>, i: nat, j: nat)
    requires i < j < |s| && s[i] == s[j]
    ensures multiset(s)[s[i]] >= 2
  {
    assert s == s[..j] + s[j..] && s[i] in s[..j] && s[j] in s[j..];
  }

  lemma {:induction false} SinglesInMultiset<T>(s: seq<T>, x: T)
    requires forall i, j :: 0 <= i < j < |s| ==> s[i] != s[j]
    ensures multiset(s)[x] <= 1
    decreases |s|
  {
    if s != [] {
      assert s == [s[0]] + s[1..];
      SinglesInMultiset(s[1..], x);
      if s[0] == x {
        assert x !in s[1..];
      }
    }
  }
}
