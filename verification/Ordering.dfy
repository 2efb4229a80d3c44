/** The orders and the stable sort behind Python's `sorted`.

    Strings compare by code point, tuples of strings compare lexicographically, and
    `Sort` is stable: elements whose keys tie keep their input order. */
module Ordering {

  predicate StringLe(a: string, b: string) {
    if a == "" then true
    else if b == "" then false
    else if a[0] != b[0] then a[0] < b[0]
    else StringLe(a[1..], b[1..])
  }

  predicate TupleLe(a: seq<string>, b: seq<string>) {
    if a == [] then true
    else if b == [] then false
    else if a[0] != b[0] then StringLe(a[0], b[0])
    else TupleLe(a[1..], b[1..])
  }

  /** A total preorder: what a sort key induces. */
  ghost predicate Preorder<T(!new)>(le: (T, T) -> bool) {
    && (forall x, y :: le(x, y) || le(y, x))
    && (forall x, y, z :: le(x, y) && le(y, z) ==> le(x, z))
  }

  ghost predicate Antisymmetric<T(!new)>(le: (T, T) -> bool) {
    forall x, y :: le(x, y) && le(y, x) ==> x == y
  }

  lemma {:induction false} StringLeTotal(a: string, b: string)
    ensures StringLe(a, b) || StringLe(b, a)
    ensures StringLe(a, b) && StringLe(b, a) ==> a == b
  {
    if a != "" && b != "" && a[0] == b[0] {
      StringLeTotal(a[1..], b[1..]);
      assert a == [a[0]] + a[1..] && b == [b[0]] + b[1..];
    }
  }

  lemma {:induction false} StringLeTransitive(a: string, b: string, c: string)
    requires StringLe(a, b) && StringLe(b, c)
    ensures StringLe(a, c)
  {
    if a != "" && a[0] == b[0] && b[0] == c[0] {
      StringLeTransitive(a[1..], b[1..], c[1..]);
    }
  }

  lemma {:induction false} StringOrder()
    ensures Preorder(StringLe) && Antisymmetric(StringLe)
  {
    forall a, b ensures (StringLe(a, b) || StringLe(b, a)) && (StringLe(a, b) && StringLe(b, a) ==> a == b) {
      StringLeTotal(a, b);
    }
    forall a, b, c | StringLe(a, b) && StringLe(b, c) ensures StringLe(a, c) {
      StringLeTransitive(a, b, c);
    }
  }

  lemma {:induction false} TupleLeTotal(a: seq<string>, b: seq<string>)
    ensures TupleLe(a, b) || TupleLe(b, a)
    ensures TupleLe(a, b) && TupleLe(b, a) ==> a == b
  {
    if a != [] && b != [] {
      StringLeTotal(a[0], b[0]);
      if a[0] == b[0] {
        TupleLeTotal(a[1..], b[1..]);
        assert a == [a[0]] + a[1..] && b == [b[0]] + b[1..];
      }
    }
  }

  lemma {:induction false} TupleLeTransitive(a: seq<string>, b: seq<string>, c: seq<string>)
    requires TupleLe(a, b) && TupleLe(b, c)
    ensures TupleLe(a, c)
  {
    if a != [] {
      StringLeTotal(a[0], b[0]);
      StringLeTotal(b[0], c[0]);
      if a[0] == b[0] && b[0] == c[0] {
        TupleLeTransitive(a[1..], b[1..], c[1..]);
      } else {
        StringLeTransitive(a[0], b[0], c[0]);
      }
    }
  }

  lemma {:induction false} TupleOrder()
    ensures Preorder(TupleLe) && Antisymmetric(TupleLe)
  {
    forall a, b ensures (TupleLe(a, b) || TupleLe(b, a)) && (TupleLe(a, b) && TupleLe(b, a) ==> a == b) {
      TupleLeTotal(a, b);
    }
    forall a, b, c | TupleLe(a, b) && TupleLe(b, c) ensures TupleLe(a, c) {
      TupleLeTransitive(a, b, c);
    }
  }

  lemma {:induction false} SameFirst<T>(a: seq<T>, b: seq<T>, i: nat)
    requires 0 < i <= |a| && i <= |b| && a[..i] == b[..i]
    ensures a[0] == b[0]
  {
    assert a[0] == a[..i][0] && b[0] == b[..i][0];
  }

  /** Two strings first differ at position `i`, where `a` has the smaller character. */
  ghost predicate SmallerAt(a: string, b: string, i: nat) {
    i < |a| && i < |b| && a[..i] == b[..i] && a[i] < b[i]
  }

  /** The order of strings: a prefix comes first, and otherwise the first difference decides by code point. */
  lemma {:induction false} StringLeIff(a: string, b: string)
    ensures StringLe(a, b) <==> a <= b || exists i :: SmallerAt(a, b, i)
  {
    if a != "" && b != "" {
      if a[0] == b[0] {
        StringLeIff(a[1..], b[1..]);
        assert a == [a[0]] + a[1..] && b == [b[0]] + b[1..];
        if i: nat :| SmallerAt(a[1..], b[1..], i) {
          assert a[..i + 1] == [a[0]] + a[1..][..i] && b[..i + 1] == [b[0]] + b[1..][..i];
          assert SmallerAt(a, b, i + 1);
        }
        if i: nat :| SmallerAt(a, b, i) {
          assert i > 0;
          assert a[1..][..i - 1] == a[..i][1..] && b[1..][..i - 1] == b[..i][1..];
          assert SmallerAt(a[1..], b[1..], i - 1);
        }
      } else {
        if a[0] < b[0] { assert SmallerAt(a, b, 0); }
        forall i: nat | SmallerAt(a, b, i) ensures i == 0 {
          if i > 0 { SameFirst(a, b, i); }
        }
      }
    }
  }

  /** Tuples compare likewise, by their first different element. */
  lemma {:induction false} TupleLeIff(a: seq<string>, b: seq<string>)
    ensures TupleLe(a, b) <==> a <= b || exists i :: LesserAt(a, b, i)
  {
    hide StringLe;
    if a != [] && b != [] {
      if a[0] == b[0] {
        TupleLeIff(a[1..], b[1..]);
        assert a == [a[0]] + a[1..] && b == [b[0]] + b[1..];
        if i: nat :| LesserAt(a[1..], b[1..], i) {
          assert a[..i + 1] == [a[0]] + a[1..][..i] && b[..i + 1] == [b[0]] + b[1..][..i];
          assert LesserAt(a, b, i + 1);
        }
        if i: nat :| LesserAt(a, b, i) {
          assert i > 0;
          assert a[1..][..i - 1] == a[..i][1..] && b[1..][..i - 1] == b[..i][1..];
          assert LesserAt(a[1..], b[1..], i - 1);
        }
      } else {
        if StringLe(a[0], b[0]) { assert LesserAt(a, b, 0); }
        forall i: nat | LesserAt(a, b, i) ensures i == 0 {
          if i > 0 { SameFirst(a, b, i); }
        }
      }
    }
  }

  /** Two tuples first differ at position `i`, where `a` has the smaller string. */
  ghost predicate LesserAt(a: seq<string>, b: seq<string>, i: nat) {
    i < |a| && i < |b| && a[..i] == b[..i] && a[i] != b[i] && StringLe(a[i], b[i])
  }

  // ---------------------------------------------------------------- stable sort

  function Insert<T>(le: (T, T) -> bool, x: T, s: seq<T>): seq<T> {
    if s == [] then [x]
    else if le(x, s[0]) then [x] + s
    else [s[0]] + Insert(le, x, s[1..])
  }

  /** Python's `sorted`: each element goes in front of the elements it ties with. */
  function Sort<T>(le: (T, T) -> bool, s: seq<T>): seq<T> {
    if s == [] then [] else Insert(le, s[0], Sort(le, s[1..]))
  }

  ghost predicate Sorted<T>(le: (T, T) -> bool, s: seq<T>) {
    forall i, j :: 0 <= i < j < |s| ==> le(s[i], s[j])
  }

  predicate NoDuplicates<T(==)>(s: seq<T>) {
    forall i, j :: 0 <= i < j < |s| ==> s[i] != s[j]
  }

  lemma {:induction false} InsertPermutes<T>(le: (T, T) -> bool, x: T, s: seq<T>)
    ensures multiset(Insert(le, x, s)) == multiset{x} + multiset(s)
    ensures |Insert(le, x, s)| == |s| + 1
  {
    if s != [] && !le(x, s[0]) {
      InsertPermutes(le, x, s[1..]);
      assert s == [s[0]] + s[1..];
    }
  }

  lemma {:induction false} SortPermutes<T>(le: (T, T) -> bool, s: seq<T>)
    ensures multiset(Sort(le, s)) == multiset(s)
    ensures |Sort(le, s)| == |s|
  {
    if s != [] {
      SortPermutes(le, s[1..]);
      InsertPermutes(le, s[0], Sort(le, s[1..]));
      assert s == [s[0]] + s[1..];
    }
  }

  lemma {:induction false} InsertKeepsSorted<T(!new)>(le: (T, T) -> bool, x: T, s: seq<T>)
    requires Preorder(le) && Sorted(le, s)
    ensures Sorted(le, Insert(le, x, s))
  {
    if s != [] && !le(x, s[0]) {
      var r := Insert(le, x, s[1..]);
      InsertKeepsSorted(le, x, s[1..]);
      InsertPermutes(le, x, s[1..]);
      forall j | 0 <= j < |r| ensures le(s[0], r[j]) {
        assert r[j] in multiset(r);
        assert r[j] in multiset{x} + multiset(s[1..]);
      }
    }
  }

  lemma {:induction false} SortSorts<T(!new)>(le: (T, T) -> bool, s: seq<T>)
    requires Preorder(le)
    ensures Sorted(le, Sort(le, s))
  {
    if s != [] {
      SortSorts(le, s[1..]);
      InsertKeepsSorted(le, s[0], Sort(le, s[1..]));
    }
  }

  lemma {:induction false} SortMembers<T>(le: (T, T) -> bool, s: seq<T>)
    ensures forall x :: x in Sort(le, s) <==> x in s
  {
    SortPermutes(le, s);
    assert forall x :: x in Sort(le, s) <==> x in multiset(Sort(le, s));
  }

  lemma {:induction false} SameHead<T(!new)>(le: (T, T) -> bool, a: seq<T>, b: seq<T>)
    requires Preorder(le) && Sorted(le, a) && Sorted(le, b) && |a| > 0 && |b| > 0
    requires a[0] in b && b[0] in a
    requires forall x, y :: x in a && y in a && le(x, y) && le(y, x) ==> x == y
    ensures a[0] == b[0]
  {
    var i :| 0 <= i < |a| && a[i] == b[0];
    var j :| 0 <= j < |b| && b[j] == a[0];
    assert le(a[0], a[i]) && le(b[0], b[j]);
  }

  lemma {:induction false} TailMultiset<T>(a: seq<T>)
    requires |a| > 0
    ensures a == [a[0]] + a[1..] && multiset(a[1..]) == multiset(a) - multiset{a[0]}
  {
    assert a == [a[0]] + a[1..];
  }

  lemma {:induction false} AppendElement<T>(s: seq<T>, x: T)
    ensures NoDuplicates(s) && x !in Elements(s) ==> NoDuplicates(s + [x]) && Elements(s + [x]) == Elements(s) + {x}
  {
  }

  lemma {:induction false} RemoveAt<T>(s: seq<T>, p: nat)
    requires p < |s|
    ensures s == s[..p] + [s[p]] + s[p + 1..]
    ensures multiset(s[..p] + s[p + 1..]) == multiset(s) - multiset{s[p]}
  {
    assert s == s[..p] + [s[p]] + s[p + 1..];
    assert multiset(s) == multiset(s[..p]) + multiset{s[p]} + multiset(s[p + 1..]);
    assert multiset(s[..p] + s[p + 1..]) == multiset(s[..p]) + multiset(s[p + 1..]);
  }

  /** Two sorted arrangements of the same elements agree when no two distinct elements tie. */
  lemma {:induction false} SortedUnique<T(!new)>(le: (T, T) -> bool, a: seq<T>, b: seq<T>)
    requires Preorder(le) && Sorted(le, a) && Sorted(le, b)
    requires multiset(a) == multiset(b)
    requires forall x, y :: x in a && y in a && le(x, y) && le(y, x) ==> x == y
    ensures a == b
  {
    hide Preorder;
    assert |multiset(a)| == |a| && |multiset(b)| == |b|;
    if a != [] {
      assert a[0] in multiset(b) && b[0] in multiset(a);
      SameHead(le, a, b);
      TailMultiset(a);
      TailMultiset(b);
      assert forall x :: x in a[1..] ==> x in a;
      SortedUnique(le, a[1..], b[1..]);
    }
  }

  /** Sorting forgets the input order when keys do not tie. */
  lemma {:induction false} SortOfPermutation<T(!new)>(le: (T, T) -> bool, s: seq<T>, t: seq<T>)
    requires Preorder(le) && multiset(s) == multiset(t)
    requires forall x, y :: x in s && y in s && le(x, y) && le(y, x) ==> x == y
    ensures Sort(le, s) == Sort(le, t)
  {
    SortSorts(le, s);
    SortSorts(le, t);
    SortPermutes(le, s);
    SortPermutes(le, t);
    SortMembers(le, s);
    SortedUnique(le, Sort(le, s), Sort(le, t));
  }

  /** The elements that tie with `x`, in their order. */
  function Ties<T>(le: (T, T) -> bool, x: T, s: seq<T>): seq<T> {
    if s == [] then []
    else if le(x, s[0]) && le(s[0], x) then [s[0]] + Ties(le, x, s[1..])
    else Ties(le, x, s[1..])
  }

  lemma {:induction false} InsertInFrontOfTies<T(!new)>(le: (T, T) -> bool, y: T, s: seq<T>, x: T)
    requires Preorder(le) && Sorted(le, s)
    ensures Ties(le, x, Insert(le, y, s)) == (if le(x, y) && le(y, x) then [y] else []) + Ties(le, x, s)
  {
    if s == [] {
    } else if le(y, s[0]) {
      assert ([y] + s)[1..] == s;
    } else {
      InsertInFrontOfTies(le, y, s[1..], x);
      assert ([s[0]] + Insert(le, y, s[1..]))[1..] == Insert(le, y, s[1..]);
    }
  }

  /** The sort is stable: elements that tie keep their input order. */
  lemma {:induction false} SortIsStable<T(!new)>(le: (T, T) -> bool, s: seq<T>, x: T)
    requires Preorder(le)
    ensures Ties(le, x, Sort(le, s)) == Ties(le, x, s)
  {
    if s != [] {
      SortIsStable(le, s[1..], x);
      SortSorts(le, s[1..]);
      InsertInFrontOfTies(le, s[0], Sort(le, s[1..]), x);
    }
  }

  // ---------------------------------------------------------------- sets of strings

  ghost predicate StrictlySorted(s: seq<string>) {
    && (forall i, j :: 0 <= i < j < |s| ==> StringLe(s[i], s[j]))
    && NoDuplicates(s)
  }

  function Elements<T>(s: seq<T>): set<T> {
    set x | x in s
  }

  lemma {:induction false} PrefixElements<T>(s: seq<T>, i: nat)
    requires i < |s|
    ensures Elements(s[..i + 1]) == Elements(s[..i]) + {s[i]} && s[i] in Elements(s)
  {
    assert s[..i + 1] == s[..i] + [s[i]];
  }

  lemma {:induction false} WholePrefix<T>(s: seq<T>)
    ensures s[..|s|] == s && Elements(s[..0]) == {}
  {
  }

  lemma {:induction false} LeastExists(s: set<string>) returns (m: string)
    requires s != {}
    ensures m in s && forall y :: y in s ==> StringLe(m, y)
  {
    var x :| x in s;
    var rest := s - {x};
    if rest == {} {
      m := x;
      StringLeTotal(x, x);
      assert s == {x};
    } else {
      var k := LeastExists(rest);
      StringLeTotal(x, k);
      StringLeTotal(x, x);
      m := if StringLe(x, k) then x else k;
      forall y | y in s ensures StringLe(m, y) {
        if y != x {
          assert y in rest;
          if m == x { StringLeTransitive(x, k, y); }
        }
      }
    }
  }

  function Least(s: set<string>): (m: string)
    requires s != {}
    ensures m in s && forall y :: y in s ==> StringLe(m, y)
  {
    assert exists x :: x in s && forall y :: y in s ==> StringLe(x, y) by {
      var m := LeastExists(s);
    }
    StringOrder();
    var m :| m in s && forall y :: y in s ==> StringLe(m, y);
    m
  }

  /** `sorted(s)` for a set of strings. */
  function SortedSet(s: set<string>): (r: seq<string>)
    ensures StrictlySorted(r) && Elements(r) == s && |r| == |s|
  {
    if s == {} then []
    else
      var m := Least(s);
      var rest := SortedSet(s - {m});
      SortedSetStep(s, m, rest);
      [m] + rest
  }

  lemma {:induction false} SortedSetStep(s: set<string>, m: string, rest: seq<string>)
    requires m in s && forall y :: y in s ==> StringLe(m, y)
    requires StrictlySorted(rest) && Elements(rest) == s - {m} && |rest| == |s - {m}|
    ensures StrictlySorted([m] + rest) && Elements([m] + rest) == s && |[m] + rest| == |s|
  {
    hide StringLe;
    var r := [m] + rest;
    forall j | 1 <= j < |r| ensures r[j] == rest[j - 1] && r[j] in s && r[j] != m {
      assert rest[j - 1] in Elements(rest);
    }
    forall x | x in s ensures x in r {
      if x != m { assert x in Elements(rest); }
    }
    assert Elements(r) == s;
  }

  lemma {:induction false} NoDuplicatesCardinality<T>(s: seq<T>)
    requires NoDuplicates(s)
    ensures |Elements(s)| == |s|
  {
    if s != [] {
      NoDuplicatesCardinality(s[1..]);
      assert Elements(s) == {s[0]} + Elements(s[1..]);
    }
  }

  lemma {:induction false} NoDuplicatesMultiset<T>(s: seq<T>)
    requires NoDuplicates(s)
    ensures multiset(s) == multiset(Elements(s))
  {
    if s != [] {
      NoDuplicatesMultiset(s[1..]);
      assert s == [s[0]] + s[1..];
      assert Elements(s) == {s[0]} + Elements(s[1..]);
    }
  }

  lemma {:induction false} StrictlySortedUnique(a: seq<string>, b: seq<string>)
    requires StrictlySorted(a) && StrictlySorted(b) && Elements(a) == Elements(b)
    ensures a == b
  {
    StringOrder();
    NoDuplicatesMultiset(a);
    NoDuplicatesMultiset(b);
    assert Sorted(StringLe, a) && Sorted(StringLe, b);
    SortedUnique(StringLe, a, b);
  }

  /** Sorting a duplicate-free list of strings lists its set in order. */
  lemma {:induction false} SortOfDistinct(s: seq<string>)
    requires NoDuplicates(s)
    ensures Sort(StringLe, s) == SortedSet(Elements(s))
  {
    StringOrder();
    SortSorts(StringLe, s);
    SortPermutes(StringLe, s);
    NoDuplicatesMultiset(s);
    NoDuplicatesMultiset(SortedSet(Elements(s)));
    assert Sorted(StringLe, SortedSet(Elements(s)));
    SortedUnique(StringLe, Sort(StringLe, s), SortedSet(Elements(s)));
  }

  // ---------------------------------------------------------------- keys

  ghost predicate DistinctKeys<K, T>(items: seq<T>, key: T -> K) {
    forall i, j :: 0 <= i < j < |items| ==> key(items[i]) != key(items[j])
  }

  lemma {:induction false} SameEntry<K, T>(items: seq<T>, key: T -> K, x: T, y: T)
    requires DistinctKeys(items, key) && x in items && y in items && key(x) == key(y)
    ensures x == y
  {
    var i :| 0 <= i < |items| && items[i] == x;
    var j :| 0 <= j < |items| && items[j] == y;
  }

  lemma {:induction false} CountedOnce<K, T>(items: seq<T>, key: T -> K, x: T)
    requires DistinctKeys(items, key)
    ensures multiset(items)[x] <= 1
  {
    if items != [] {
      var front, last := items[..|items| - 1], items[|items| - 1];
      CountedOnce(front, key, x);
      assert items == front + [last];
      assert last !in front;
    }
  }

  lemma {:induction false} CountedTwice<T>(items: seq<T>, i: nat, j: nat)
    requires i < j < |items|
    ensures items[i] == items[j] ==> multiset(items)[items[i]] >= 2
  {
    assert items == items[..j] + items[j..];
    assert items[..j][i] == items[i] && items[j..][0] == items[j];
  }

  /** Rearranging keeps keys distinct. */
  lemma {:induction false} DistinctPermuted<K, T>(a: seq<T>, b: seq<T>, key: T -> K)
    requires DistinctKeys(a, key) && multiset(a) == multiset(b)
    ensures DistinctKeys(b, key)
  {
    hide DistinctKeys;
    forall i, j | 0 <= i < j < |b| ensures key(b[i]) != key(b[j]) {
      assert b[i] in multiset(a) && b[j] in multiset(a);
      CountedOnce(a, key, b[i]);
      CountedTwice(b, i, j);
      if key(b[i]) == key(b[j]) {
        SameEntry(a, key, b[i], b[j]);
      }
    }
    KeysDiffer(b, key);
  }

  lemma {:induction false} KeysDiffer<K, T>(items: seq<T>, key: T -> K)
    requires forall i, j :: 0 <= i < j < |items| ==> key(items[i]) != key(items[j])
    ensures DistinctKeys(items, key)
  {
  }

  lemma {:induction false} SubsetSize<T>(a: set<T>, b: set<T>)
    requires a <= b
    ensures |a| <= |b|
  {
    assert b == a + (b - a);
    assert |b| == |a| + |b - a|;
  }
}
