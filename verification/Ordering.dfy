/** Byte-wise string order and stable sorting, as `str::cmp` and `slice::sort_by` provide them. */
module Ordering {

  /** Lexicographic order on code points, which is the order of the UTF-8 bytes. */
  predicate StringLe(a: string, b: string) {
    a == [] || (b != [] && (a[0] < b[0] || (a[0] == b[0] && StringLe(a[1..], b[1..]))))
  }

  lemma {:induction false} StringLeTotal(a: string, b: string)
    ensures StringLe(a, b) || StringLe(b, a)
  {
    if a != [] && b != [] && a[0] == b[0] {
      StringLeTotal(a[1..], b[1..]);
    }
  }

  lemma {:induction false} StringLeTransitive(a: string, b: string, c: string)
    requires StringLe(a, b) && StringLe(b, c)
    ensures StringLe(a, c)
  {
    if a != [] && a[0] == b[0] == c[0] {
      StringLeTransitive(a[1..], b[1..], c[1..]);
    }
  }

  lemma {:induction false} StringLeAntisymmetric(a: string, b: string)
    requires StringLe(a, b) && StringLe(b, a)
    ensures a == b
  {
    if a != [] {
      StringLeAntisymmetric(a[1..], b[1..]);
      assert a == [a[0]] + a[1..] && b == [b[0]] + b[1..];
    }
  }

  /** `b` goes on where `a` ends, or is greater at the first place where they differ. */
  ghost predicate Lexicographic(a: string, b: string) {
    a <= b || exists k :: 0 <= k < |a| && k < |b| && a[..k] == b[..k] && a[k] < b[k]
  }

  lemma {:induction false} StringLeIsLexicographic(a: string, b: string)
    ensures StringLe(a, b) <==> Lexicographic(a, b)
  {
    if a != [] && b != [] {
      var s, t := a[1..], b[1..];
      assert a == [a[0]] + s && b == [b[0]] + t;
      StringLeIsLexicographic(s, t);
      if a[0] < b[0] {
        assert a[..0] == b[..0];
      } else if a[0] == b[0] {
        LexicographicBehind(a[0], s, t);
      } else {
        assert forall k :: 0 < k < |a| && k < |b| ==> a[..k][0] == a[0] != b[0] == b[..k][0];
      }
    }
  }

  lemma LexicographicBehind(c: char, s: string, t: string)
    ensures Lexicographic([c] + s, [c] + t) <==> Lexicographic(s, t)
  {
    var a, b := [c] + s, [c] + t;
    assert a[1..] == s && b[1..] == t;
    if k :| 0 <= k < |s| && k < |t| && s[..k] == t[..k] && s[k] < t[k] {
      assert a[..k + 1] == [c] + s[..k] && b[..k + 1] == [c] + t[..k];
      assert a[k + 1] < b[k + 1];
    }
    if k :| 0 <= k < |a| && k < |b| && a[..k] == b[..k] && a[k] < b[k] {
      assert k > 0;
      assert s[..k - 1] == a[..k][1..] && t[..k - 1] == b[..k][1..];
      assert s[k - 1] < t[k - 1];
    }
  }

  ghost predicate TotalPreorder<T(!new)>(le: (T, T) -> bool) {
    && (forall a, b :: le(a, b) || le(b, a))
    && (forall a, b, c :: le(a, b) && le(b, c) ==> le(a, c))
  }

  ghost predicate Sorted<T>(le: (T, T) -> bool, s: seq<T>) {
    forall i, j :: 0 <= i < j < |s| ==> le(s[i], s[j])
  }

  /** Inserts `x` behind every element that is not greater than it. */
  function Insert<T>(le: (T, T) -> bool, s: seq<T>, x: T): seq<T> {
    if s == [] || le(s[|s| - 1], x) then
      s + [x]
    else
      Insert(le, s[..|s| - 1], x) + [s[|s| - 1]]
  }

  /** The stable sort. */
  function Sort<T>(le: (T, T) -> bool, s: seq<T>): seq<T> {
    if s == [] then [] else Insert(le, Sort(le, s[..|s| - 1]), s[|s| - 1])
  }

  /** The elements of `s` that compare equal to `x`, in their order in `s`. */
  ghost function Ties<T>(le: (T, T) -> bool, x: T, s: seq<T>): seq<T> {
    if s == [] then
      []
    else
      var init := Ties(le, x, s[..|s| - 1]);
      var y := s[|s| - 1];
      if le(x, y) && le(y, x) then init + [y] else init
  }

  lemma {:induction false} TiesExtend<T>(le: (T, T) -> bool, x: T, s: seq<T>, y: T)
    ensures Ties(le, x, s + [y]) == Ties(le, x, s) + if le(x, y) && le(y, x) then [y] else []
  {
    assert (s + [y])[..|s|] == s;
  }

  lemma {:induction false} TiesConcat<T>(le: (T, T) -> bool, x: T, s: seq<T>, t: seq<T>)
    ensures Ties(le, x, s + t) == Ties(le, x, s) + Ties(le, x, t)
  {
    if t == [] {
      assert s + t == s;
    } else {
      TiesConcat(le, x, s, t[..|t| - 1]);
      assert (s + t)[..|s + t| - 1] == s + t[..|t| - 1];
    }
  }

  lemma {:induction false} InsertFacts<T(!new)>(le: (T, T) -> bool, s: seq<T>, x: T)
    requires TotalPreorder(le) && Sorted(le, s)
    ensures multiset(Insert(le, s, x)) == multiset(s) + multiset{x}
    ensures Sorted(le, Insert(le, s, x))
    ensures forall z :: Ties(le, z, Insert(le, s, x)) == Ties(le, z, s + [x])
  {
    if s == [] || le(s[|s| - 1], x) {
    } else {
      var init, y := s[..|s| - 1], s[|s| - 1];
      InsertFacts(le, init, x);
      assert s == init + [y];
      var r := Insert(le, init, x);
      forall i | 0 <= i < |r| ensures le(r[i], y) {
        assert r[i] in multiset(r);
      }
      forall z ensures Ties(le, z, r + [y]) == Ties(le, z, s + [x]) {
        TiesExtend(le, z, r, y);
        TiesExtend(le, z, init, x);
        TiesExtend(le, z, init, y);
        TiesExtend(le, z, s, x);
      }
    }
  }

  /** The sort is an ordered permutation that keeps tied elements in their input order. */
  lemma {:induction false} SortFacts<T(!new)>(le: (T, T) -> bool, s: seq<T>)
    requires TotalPreorder(le)
    ensures multiset(Sort(le, s)) == multiset(s)
    ensures Sorted(le, Sort(le, s))
    ensures forall z :: Ties(le, z, Sort(le, s)) == Ties(le, z, s)
  {
    hide Insert, Ties;
    if s != [] {
      var init, y := s[..|s| - 1], s[|s| - 1];
      SortFacts(le, init);
      InsertFacts(le, Sort(le, init), y);
      assert s == init + [y];
      forall z ensures Ties(le, z, Sort(le, s)) == Ties(le, z, s) {
        TiesExtend(le, z, Sort(le, init), y);
        TiesExtend(le, z, init, y);
      }
    }
  }

  lemma {:induction false} TiesMembers<T>(le: (T, T) -> bool, x: T, s: seq<T>)
    ensures forall y :: y in Ties(le, x, s) <==> y in s && le(x, y) && le(y, x)
  {
    if s != [] {
      TiesMembers(le, x, s[..|s| - 1]);
      assert s == s[..|s| - 1] + [s[|s| - 1]];
    }
  }

  /** Two ordered sequences that agree on every group of tied elements are the same sequence. */
  lemma {:induction false} SortedByTies<T(!new)>(le: (T, T) -> bool, a: seq<T>, b: seq<T>)
    requires TotalPreorder(le)
    requires Sorted(le, a) && Sorted(le, b)
    requires forall z :: Ties(le, z, a) == Ties(le, z, b)
    ensures a == b
    decreases |a| + |b|
  {
    if a == [] && b == [] {
    } else {
      SameLast(le, a, b);
      var x := a[|a| - 1];
      var a', b' := a[..|a| - 1], b[..|b| - 1];
      assert a == a' + [x] && b == b' + [x];
      forall z ensures Ties(le, z, a') == Ties(le, z, b') {
        TiesExtend(le, z, a', x);
        TiesExtend(le, z, b', x);
        if le(z, x) && le(x, z) {
          assert Ties(le, z, a)[..|Ties(le, z, a')|] == Ties(le, z, a');
          assert Ties(le, z, b)[..|Ties(le, z, b')|] == Ties(le, z, b');
        }
      }
      SortedByTies(le, a', b');
    }
  }

  lemma SameLast<T(!new)>(le: (T, T) -> bool, a: seq<T>, b: seq<T>)
    requires TotalPreorder(le)
    requires Sorted(le, a) && Sorted(le, b)
    requires forall z :: Ties(le, z, a) == Ties(le, z, b)
    requires a != [] || b != []
    ensures a != [] && b != [] && a[|a| - 1] == b[|b| - 1]
  {
    if a != [] {
      LastIsShared(le, a, b);
    }
    if b != [] {
      LastIsShared(le, b, a);
    }
    var x, y := a[|a| - 1], b[|b| - 1];
    assert le(x, y) && le(y, x);
    LastTie(le, x, a);
    LastTie(le, x, b);
    assert Ties(le, x, a) == Ties(le, x, b);
  }

  lemma LastIsShared<T(!new)>(le: (T, T) -> bool, a: seq<T>, b: seq<T>)
    requires TotalPreorder(le) && a != []
    requires forall z :: Ties(le, z, a) == Ties(le, z, b)
    ensures a[|a| - 1] in b
  {
    var x := a[|a| - 1];
    LastTie(le, x, a);
    assert Ties(le, x, a) == Ties(le, x, b);
    TiesMembers(le, x, b);
  }

  lemma LastTie<T(!new)>(le: (T, T) -> bool, x: T, s: seq<T>)
    requires TotalPreorder(le) && s != [] && le(x, s[|s| - 1]) && le(s[|s| - 1], x)
    ensures Ties(le, x, s) != [] && Ties(le, x, s)[|Ties(le, x, s)| - 1] == s[|s| - 1]
  {
  }

  /** A stable sort leaves an ordered sequence alone. */
  lemma SortOfSorted<T(!new)>(le: (T, T) -> bool, s: seq<T>)
    requires TotalPreorder(le) && Sorted(le, s)
    ensures Sort(le, s) == s
  {
    SortFacts(le, s);
    SortedByTies(le, Sort(le, s), s);
  }

  lemma StringLeIsTotalPreorder()
    ensures TotalPreorder(StringLe)
  {
    forall a, b ensures StringLe(a, b) || StringLe(b, a) {
      StringLeTotal(a, b);
    }
    forall a, b, c | StringLe(a, b) && StringLe(b, c) ensures StringLe(a, c) {
      StringLeTransitive(a, b, c);
    }
  }

  ghost predicate Distinct<T>(s: seq<T>) {
    forall i, j :: 0 <= i < j < |s| ==> s[i] != s[j]
  }

  /** The rows of an `ORDER BY` query: every key once, in ascending order. */
  method SortedKeys(keys: set<string>) returns (s: seq<string>)
    ensures Distinct(s) && Sorted(StringLe, s)
    ensures forall k :: k in s <==> k in keys
    ensures |s| == |keys|
  {
    var listed: seq<string> := [];
    var rest := keys;
    while rest != {}
      invariant rest <= keys
      invariant Distinct(listed)
      invariant forall k :: k in listed <==> k in keys - rest
      invariant |listed| + |rest| == |keys|
      decreases |rest|
    {
      var k :| k in rest;
      assert k !in listed;
      listed := listed + [k];
      rest := rest - {k};
    }
    StringLeIsTotalPreorder();
    SortFacts(StringLe, listed);
    s := Sort(StringLe, listed);
    DistinctPermutation(listed, s);
  }

  lemma {:induction false} DistinctMultiset<T>(s: seq<T>)
    ensures Distinct(s) <==> forall x :: multiset(s)[x] <= 1
    ensures forall x :: x in s <==> x in multiset(s)
  {
    if s != [] {
      var init, last := s[..|s| - 1], s[|s| - 1];
      DistinctMultiset(init);
      assert s == init + [last];
      assert multiset(s) == multiset(init) + multiset{last};
      assert Distinct(s) <==> Distinct(init) && last !in init;
      assert forall x :: multiset(s)[x] == multiset(init)[x] + if x == last then 1 else 0;
      if forall x :: multiset(s)[x] <= 1 {
        assert forall x :: multiset(init)[x] <= multiset(s)[x];
        assert multiset(s)[last] <= 1;
      }
    }
  }

  lemma DistinctPermutation<T>(s: seq<T>, t: seq<T>)
    requires multiset(s) == multiset(t)
    ensures Distinct(s) ==> Distinct(t)
    ensures forall x :: x in s <==> x in t
    ensures |s| == |t|
  {
    DistinctMultiset(s);
    DistinctMultiset(t);
    assert |s| == |multiset(s)| == |multiset(t)| == |t|;
  }

  lemma SubsetSize<T>(a: set<T>, b: set<T>)
    requires a <= b
    ensures |a| <= |b|
  {
    assert b == a + (b - a);
  }
}
