/** Byte order on strings, and sorting with a comparison function as sort.Slice and sort.Strings do;
    the order of elements that compare equal is left open. */
module Sorting {
  import opened SkillTypes

  /** Strings compare byte by byte, a proper prefix first. */
  predicate Less(a: string, b: string) {
    b != "" && (a == "" || a[0] < b[0] || (a[0] == b[0] && Less(a[1..], b[1..])))
  }

  lemma {:induction false} LessTransitive(a: string, b: string, c: string)
    requires Less(a, b) && Less(b, c)
    ensures Less(a, c)
  {
    if a != "" && a[0] == b[0] == c[0] { LessTransitive(a[1..], b[1..], c[1..]); }
  }

  lemma {:induction false} LessTotal(a: string, b: string)
    ensures !Less(a, a)
    ensures a == b || Less(a, b) || Less(b, a)
  {
    if a != "" && b != "" {
      if a[0] == b[0] {
        LessTotal(a[1..], b[1..]);
        assert a == [a[0]] + a[1..] && b == [b[0]] + b[1..];
      } else {
        LessTotal(a[1..], a[1..]);
      }
    } else if a != "" {
      LessTotal(a[1..], a[1..]);
    }
  }

  /** After a common beginning comes the end of a, or a lesser byte. */
  ghost predicate SmallerAt(a: string, b: string, k: nat) {
    k <= |a| && k < |b| && a[..k] == b[..k] && (k == |a| || a[k] < b[k])
  }

  lemma SameHead(a: string, b: string, k: nat)
    requires SmallerAt(a, b, k) && k > 0
    ensures a != "" && b != "" && a[0] == b[0]
  {
    assert a[..k][0] == b[..k][0];
  }

  lemma {:induction false} LessMeans(a: string, b: string)
    ensures Less(a, b) <==> exists k: nat :: SmallerAt(a, b, k)
  {
    if a != "" && b != "" && a[0] == b[0] {
      LessMeans(a[1..], b[1..]);
      if k: nat :| SmallerAt(a[1..], b[1..], k) {
        assert a[..k+1] == [a[0]] + a[1..][..k] && b[..k+1] == [b[0]] + b[1..][..k];
        assert SmallerAt(a, b, k + 1);
      }
      if k: nat :| SmallerAt(a, b, k) {
        assert k > 0 && a[1..][..k-1] == a[..k][1..] && b[1..][..k-1] == b[..k][1..];
        assert SmallerAt(a[1..], b[1..], k - 1);
      }
    } else if b != "" {
      if k: nat :| SmallerAt(a, b, k) && k > 0 { SameHead(a, b, k); }
      if Less(a, b) { assert SmallerAt(a, b, 0); }
    }
  }

  ghost predicate StrictOrder<T(!new)>(less: (T, T) -> bool) {
    && (forall a :: !less(a, a))
    && (forall a, b, c :: less(a, b) && less(b, c) ==> less(a, c))
  }

  ghost predicate Ordered<T>(s: seq<T>, less: (T, T) -> bool) {
    forall i, j :: 0 <= i < j < |s| ==> !less(s[j], s[i])
  }

  lemma InsertOrdered<T>(r: seq<T>, x: T, k: nat, less: (T, T) -> bool)
    requires k <= |r| && Ordered(r, less)
    requires forall j :: 0 <= j < k ==> !less(x, r[j])
    requires forall j :: k <= j < |r| ==> !less(r[j], x)
    ensures Ordered(r[..k] + [x] + r[k..], less)
  {
    var t := r[..k] + [x] + r[k..];
    forall i, j | 0 <= i < j < |t| ensures !less(t[j], t[i]) {
      assert t[i] == if i < k then r[i] else if i == k then x else r[i-1];
      assert t[j] == if j < k then r[j] else if j == k then x else r[j-1];
    }
  }

  lemma TransitiveAt<T(!new)>(a: T, b: T, c: T, less: (T, T) -> bool)
    requires StrictOrder(less)
    ensures less(a, b) && less(b, c) ==> less(a, c)
  {}

  method Sort<T(!new)>(s: seq<T>, less: (T, T) -> bool) returns (r: seq<T>)
    requires StrictOrder(less)
    ensures multiset(r) == multiset(s) && Ordered(r, less)
  {
    r := [];
    for i := 0 to |s|
      invariant multiset(r) == multiset(s[..i]) && Ordered(r, less)
    {
      var x, k := s[i], 0;
      while k < |r| && !less(x, r[k])
        invariant 0 <= k <= |r|
        invariant forall j :: 0 <= j < k ==> !less(x, r[j])
      {
        k := k + 1;
      }
      forall j | k <= j < |r| ensures !less(r[j], x) {
        TransitiveAt(r[j], x, r[k], less);
      }
      InsertOrdered(r, x, k, less);
      assert s[..i+1] == s[..i] + [x];
      assert r == r[..k] + r[k..];
      r := r[..k] + [x] + r[k..];
    }
    assert s[..|s|] == s;
  }

  /** Elements that compare equal are equal. */
  ghost predicate Separates<T>(m: multiset<T>, less: (T, T) -> bool) {
    forall x, y :: x in m && y in m && x != y ==> less(x, y) || less(y, x)
  }

  /** Then there is one sorted arrangement. */
  lemma {:induction false} OrderedUnique<T>(a: seq<T>, b: seq<T>, less: (T, T) -> bool)
    requires multiset(a) == multiset(b) && Ordered(a, less) && Ordered(b, less)
    requires Separates(multiset(a), less)
    ensures a == b
  {
    assert |a| == |multiset(a)| == |multiset(b)| == |b|;
    if a != [] {
      HeadsAgree(a, b, less);
      Uncons(a);
      Uncons(b);
      OrderedUnique(a[1..], b[1..], less);
    }
  }

  lemma Uncons<T>(a: seq<T>)
    requires a != []
    ensures a == [a[0]] + a[1..] && multiset(a[1..]) == multiset(a) - multiset{a[0]}
  {
    assert a == [a[0]] + a[1..];
  }

  lemma HeadsAgree<T>(a: seq<T>, b: seq<T>, less: (T, T) -> bool)
    requires multiset(a) == multiset(b) && Ordered(a, less) && Ordered(b, less) && a != [] && b != []
    requires Separates(multiset(a), less)
    ensures a[0] == b[0]
  {
    assert a[0] in multiset(b) && b[0] in multiset(a);
    var i :| 0 <= i < |b| && b[i] == a[0];
    var j :| 0 <= j < |a| && a[j] == b[0];
  }

  lemma ElemsSnoc<T>(s: seq<T>, x: T)
    ensures Elems(s + [x]) == Elems(s) + {x}
  {
    assert forall y :: y in s + [x] <==> y in s || y == x;
  }

  lemma {:induction false} OnceEach<T>(s: seq<T>, x: T)
    requires NoDup(s)
    ensures multiset(s)[x] <= 1
  {
    if s != [] {
      OnceEach(s[1..], x);
      assert s == [s[0]] + s[1..];
      if x == s[0] { assert x !in s[1..]; }
    }
  }

  lemma Twice<T>(r: seq<T>, i: nat, j: nat)
    requires i < j < |r| && r[i] == r[j]
    ensures multiset(r)[r[i]] >= 2
  {
    assert r == (r[..i] + [r[i]]) + r[i+1..];
    assert r[i+1..][j-i-1] == r[j];
    assert r[j] in multiset(r[i+1..]);
  }

  lemma SameElements<T>(s: seq<T>, r: seq<T>)
    requires multiset(r) == multiset(s)
    ensures Elems(r) == Elems(s)
    ensures NoDup(s) ==> NoDup(r)
  {
    forall x ensures x in Elems(r) <==> x in Elems(s) { assert x in multiset(r) <==> x in multiset(s); }
    if NoDup(s) {
      forall i, j | 0 <= i < j < |r| ensures r[i] != r[j] {
        OnceEach(s, r[i]);
        if r[i] == r[j] { Twice(r, i, j); }
      }
    }
  }
}
