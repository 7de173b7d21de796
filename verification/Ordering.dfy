/** Python's `sorted` and the string orders the repository sorts by. */
module Ordering {

  /** Lexicographic order on code sequences, as Python compares strings and tuples. */
  predicate LexLess(a: seq<int>, b: seq<int>) {
    b != [] && (a == [] || a[0] < b[0] || (a[0] == b[0] && LexLess(a[1..], b[1..])))
  }

  lemma LexIrreflexive(a: seq<int>)
    ensures !LexLess(a, a)
  {}

  lemma {:induction false} LexTransitive(a: seq<int>, b: seq<int>, c: seq<int>)
    requires LexLess(a, b) && LexLess(b, c)
    ensures LexLess(a, c)
  {
    if a != [] && a[0] == b[0] == c[0] {
      LexTransitive(a[1..], b[1..], c[1..]);
    }
  }

  lemma {:induction false} LexConnected(a: seq<int>, b: seq<int>)
    requires a != b
    ensures LexLess(a, b) || LexLess(b, a)
  {
    if a != [] && b != [] && a[0] == b[0] {
      assert a == [a[0]] + a[1..] && b == [b[0]] + b[1..];
      LexConnected(a[1..], b[1..]);
    }
  }

  /** The code points of a string: Python's order on `str`. */
  function Codes(s: string): (r: seq<int>)
    ensures |r| == |s| && forall i :: 0 <= i < |s| ==> r[i] == s[i] as int
  {
    seq(|s|, i requires 0 <= i < |s| => s[i] as int)
  }

  /** The order on `Path` objects compares part by part, so the separator sorts below every character. */
  function PathCodes(s: string): (r: seq<int>)
    ensures |r| == |s| && forall i :: 0 <= i < |s| ==> r[i] == if s[i] == '/' then 0 else s[i] as int + 1
  {
    seq(|s|, i requires 0 <= i < |s| => if s[i] == '/' then 0 else s[i] as int + 1)
  }

  lemma CodesInjective(s: string, t: string)
    requires Codes(s) == Codes(t) || PathCodes(s) == PathCodes(t)
    ensures s == t
  {
    assert |Codes(s)| == |s| && |PathCodes(s)| == |s| && |Codes(t)| == |t| && |PathCodes(t)| == |t|;
    forall i | 0 <= i < |s| ensures s[i] == t[i] {
      assert Codes(s)[i] == Codes(t)[i] || PathCodes(s)[i] == PathCodes(t)[i];
    }
  }

  predicate CodeLess(x: string, y: string) { LexLess(Codes(x), Codes(y)) }

  predicate PathLess(x: string, y: string) { LexLess(PathCodes(x), PathCodes(y)) }

  /** The two agree up to `k`, and there the first one ends or has the smaller entry. */
  ghost predicate SmallerAt(a: seq<int>, b: seq<int>, k: nat) {
    k <= |a| && k < |b| && a[..k] == b[..k] && (k == |a| || a[k] < b[k])
  }

  /** Lexicographic order decides at the first difference. */
  lemma {:induction false} LexDecides(a: seq<int>, b: seq<int>)
    ensures LexLess(a, b) <==> exists k :: SmallerAt(a, b, k)
  {
    if LexLess(a, b) {
      var k := LexWhere(a, b);
    }
    if k :| SmallerAt(a, b, k) {
      LexFrom(a, b, k);
    }
  }

  lemma {:induction false} LexWhere(a: seq<int>, b: seq<int>) returns (k: nat)
    requires LexLess(a, b)
    ensures SmallerAt(a, b, k)
  {
    if a == [] || a[0] < b[0] {
      k := 0;
    } else {
      var n := LexWhere(a[1..], b[1..]);
      k := n + 1;
      assert a[..k] == [a[0]] + a[1..][..n] && b[..k] == [b[0]] + b[1..][..n];
    }
  }

  lemma {:induction false} LexFrom(a: seq<int>, b: seq<int>, k: nat)
    requires SmallerAt(a, b, k)
    ensures LexLess(a, b)
  {
    if k > 0 {
      assert a[0] == a[..k][0] == b[..k][0] == b[0];
      assert a[1..][..k - 1] == a[..k][1..] == b[..k][1..] == b[1..][..k - 1];
      LexFrom(a[1..], b[1..], k - 1);
    }
  }

  /** Python's order on strings: at the first difference the first string ends or has the smaller character. */
  lemma CodeLessDecides(x: string, y: string)
    ensures CodeLess(x, y) <==>
            exists k :: 0 <= k <= |x| && k < |y| && x[..k] == y[..k] && (k == |x| || x[k] < y[k])
  {
    LexDecides(Codes(x), Codes(y));
    forall k | 0 <= k <= |x| && k < |y| ensures SmallerAt(Codes(x), Codes(y), k) <==> x[..k] == y[..k] && (k == |x| || x[k] < y[k]) {
      SamePrefix(x, y, k);
    }
  }

  /** The order on paths: the separator comes before every other character. */
  lemma PathLessDecides(x: string, y: string)
    ensures PathLess(x, y) <==>
            exists k :: 0 <= k <= |x| && k < |y| && x[..k] == y[..k]
                        && (k == |x| || (y[k] != '/' && (x[k] == '/' || x[k] < y[k])))
  {
    LexDecides(PathCodes(x), PathCodes(y));
    forall k | 0 <= k <= |x| && k < |y|
      ensures SmallerAt(PathCodes(x), PathCodes(y), k) <==>
              x[..k] == y[..k] && (k == |x| || (y[k] != '/' && (x[k] == '/' || x[k] < y[k])))
    {
      SamePrefix(x, y, k);
    }
  }

  lemma SamePrefix(x: string, y: string, k: nat)
    requires k <= |x| && k <= |y|
    ensures Codes(x)[..k] == Codes(y)[..k] <==> x[..k] == y[..k]
    ensures PathCodes(x)[..k] == PathCodes(y)[..k] <==> x[..k] == y[..k]
  {
    if Codes(x)[..k] == Codes(y)[..k] {
      forall i | 0 <= i < k ensures x[i] == y[i] {
        assert Codes(x)[..k][i] == Codes(y)[..k][i];
      }
    }
    if PathCodes(x)[..k] == PathCodes(y)[..k] {
      forall i | 0 <= i < k ensures x[i] == y[i] {
        assert PathCodes(x)[..k][i] == PathCodes(y)[..k][i];
      }
    }
    if x[..k] == y[..k] {
      forall i | 0 <= i < k ensures x[i] == y[i] {
        assert x[..k][i] == y[..k][i];
      }
    }
  }

  ghost predicate StrictOrder<T(!new)>(less: (T, T) -> bool) {
    && (forall x :: !less(x, x))
    && (forall x, y, z :: less(x, y) && less(y, z) ==> less(x, z))
  }

  /** Every two elements at different positions are ordered one way or the other. */
  ghost predicate Comparable<T>(s: seq<T>, less: (T, T) -> bool) {
    forall i, j :: 0 <= i < j < |s| ==> less(s[i], s[j]) || less(s[j], s[i])
  }

  ghost predicate Sorted<T>(s: seq<T>, less: (T, T) -> bool) {
    forall i, j :: 0 <= i < j < |s| ==> less(s[i], s[j])
  }

  lemma CodeLessStrict()
    ensures StrictOrder(CodeLess) && StrictOrder(PathLess)
  {
    forall x, y, z | CodeLess(x, y) && CodeLess(y, z) ensures CodeLess(x, z) {
      LexTransitive(Codes(x), Codes(y), Codes(z));
    }
    forall x, y, z | PathLess(x, y) && PathLess(y, z) ensures PathLess(x, z) {
      LexTransitive(PathCodes(x), PathCodes(y), PathCodes(z));
    }
    forall x ensures !CodeLess(x, x) && !PathLess(x, x) {
      LexIrreflexive(Codes(x));
      LexIrreflexive(PathCodes(x));
    }
  }

  lemma CodeLessConnected(x: string, y: string)
    requires x != y
    ensures CodeLess(x, y) || CodeLess(y, x)
    ensures PathLess(x, y) || PathLess(y, x)
  {
    if Codes(x) == Codes(y) || PathCodes(x) == PathCodes(y) {
      CodesInjective(x, y);
    }
    LexConnected(Codes(x), Codes(y));
    LexConnected(PathCodes(x), PathCodes(y));
  }

  function Insert<T>(x: T, s: seq<T>, less: (T, T) -> bool): seq<T> {
    if s == [] then [x]
    else if less(x, s[0]) then [x] + s
    else [s[0]] + Insert(x, s[1..], less)
  }

  function Sort<T>(s: seq<T>, less: (T, T) -> bool): seq<T> {
    if s == [] then [] else Insert(s[0], Sort(s[1..], less), less)
  }

  lemma {:induction false} InsertPermutes<T>(x: T, s: seq<T>, less: (T, T) -> bool)
    ensures multiset(Insert(x, s, less)) == multiset{x} + multiset(s)
    ensures |Insert(x, s, less)| == |s| + 1
  {
    if s != [] {
      assert s == [s[0]] + s[1..];
      if !less(x, s[0]) {
        InsertPermutes(x, s[1..], less);
      }
    }
  }

  lemma {:induction false} InsertSorts<T(!new)>(x: T, s: seq<T>, less: (T, T) -> bool)
    requires StrictOrder(less) && Sorted(s, less)
    requires forall i :: 0 <= i < |s| ==> less(x, s[i]) || less(s[i], x)
    ensures Sorted(Insert(x, s, less), less)
  {
    if s != [] && !less(x, s[0]) {
      var t := Insert(x, s[1..], less);
      InsertSorts(x, s[1..], less);
      InsertPermutes(x, s[1..], less);
      forall i | 0 <= i < |t| ensures less(s[0], t[i]) {
        assert t[i] in multiset(t);
        assert t[i] == x || t[i] in s[1..];
      }
    }
  }

  lemma {:induction false} SortPermutes<T>(s: seq<T>, less: (T, T) -> bool)
    ensures multiset(Sort(s, less)) == multiset(s)
    ensures |Sort(s, less)| == |s|
  {
    if s != [] {
      assert s == [s[0]] + s[1..];
      SortPermutes(s[1..], less);
      InsertPermutes(s[0], Sort(s[1..], less), less);
    }
  }

  lemma {:induction false} SortSorts<T(!new)>(s: seq<T>, less: (T, T) -> bool)
    requires StrictOrder(less) && Comparable(s, less)
    ensures Sorted(Sort(s, less), less)
  {
    if s != [] {
      var t := Sort(s[1..], less);
      SortSorts(s[1..], less);
      SortPermutes(s[1..], less);
      forall i | 0 <= i < |t| ensures less(s[0], t[i]) || less(t[i], s[0]) {
        assert t[i] in multiset(t);
        assert t[i] in s[1..];
        var j :| 0 <= j < |s[1..]| && s[1..][j] == t[i];
        assert s[j + 1] == t[i];
      }
      InsertSorts(s[0], t, less);
    }
  }

  lemma SortedHead<T(!new)>(a: seq<T>, b: seq<T>, less: (T, T) -> bool)
    requires StrictOrder(less) && Sorted(a, less) && Sorted(b, less)
    requires multiset(a) == multiset(b) && a != []
    ensures b != [] && a[0] == b[0]
  {
    assert a[0] in multiset(b);
    assert b[0] in multiset(a);
    var i :| 0 <= i < |b| && b[i] == a[0];
    var j :| 0 <= j < |a| && a[j] == b[0];
    assert i == 0 || j == 0;
  }

  lemma TailMultiset<T>(a: seq<T>)
    requires a != []
    ensures a == [a[0]] + a[1..]
    ensures multiset(a[1..]) == multiset(a) - multiset{a[0]}
  {
    assert a == [a[0]] + a[1..];
  }

  /** A strictly sorted arrangement of a multiset is unique. */
  lemma {:induction false} SortedUnique<T(!new)>(a: seq<T>, b: seq<T>, less: (T, T) -> bool)
    requires StrictOrder(less) && Sorted(a, less) && Sorted(b, less)
    requires multiset(a) == multiset(b)
    ensures a == b
  {
    if a == [] {
      assert |multiset(b)| == 0;
    } else {
      SortedHead(a, b, less);
      TailMultiset(a);
      TailMultiset(b);
      assert Sorted(a[1..], less) && Sorted(b[1..], less);
      SortedUnique(a[1..], b[1..], less);
    }
  }

  /** The sorted list depends only on which elements there are, not on the order they were found in. */
  lemma SortOrderFree<T(!new)>(s: seq<T>, t: seq<T>, less: (T, T) -> bool)
    requires StrictOrder(less) && Comparable(s, less) && Comparable(t, less)
    requires multiset(s) == multiset(t)
    ensures Sort(s, less) == Sort(t, less)
  {
    SortPermutes(s, less);
    SortPermutes(t, less);
    SortSorts(s, less);
    SortSorts(t, less);
    SortedUnique(Sort(s, less), Sort(t, less), less);
  }
}
