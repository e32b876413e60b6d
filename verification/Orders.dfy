/** Three-way comparisons, Python's lexicographic order on tuples and strings, and a stable sort. */
module Orders {

  /** `cmp` is a three-way comparison of a total order. */
  ghost predicate IsComparison<T(!new)>(cmp: (T, T) -> int) {
    && (forall x, y :: cmp(x, y) == 0 <==> x == y)
    && (forall x, y :: cmp(x, y) < 0 <==> cmp(y, x) > 0)
    && (forall x, y, z :: cmp(x, y) <= 0 && cmp(y, z) <= 0 ==> cmp(x, z) <= 0)
  }

  /** `leq` is a total preorder: ties are allowed. */
  ghost predicate IsTotalPreorder<T(!new)>(leq: (T, T) -> bool) {
    && (forall x, y :: leq(x, y) || leq(y, x))
    && (forall x, y, z :: leq(x, y) && leq(y, z) ==> leq(x, z))
  }

  /** Python compares tuples and strings at their first difference; a proper prefix is smaller. */
  function CompareSeq<T>(cmp: (T, T) -> int, a: seq<T>, b: seq<T>): int {
    if a == [] then (if b == [] then 0 else -1)
    else if b == [] then 1
    else if cmp(a[0], b[0]) != 0 then cmp(a[0], b[0])
    else CompareSeq(cmp, a[1..], b[1..])
  }

  lemma {:induction false} CompareSeqEqual<T(!new)>(cmp: (T, T) -> int, a: seq<T>, b: seq<T>)
    requires IsComparison(cmp)
    ensures CompareSeq(cmp, a, b) == 0 <==> a == b
    ensures CompareSeq(cmp, a, b) < 0 <==> CompareSeq(cmp, b, a) > 0
  {
    if a != [] && b != [] {
      CompareSeqEqual(cmp, a[1..], b[1..]);
      assert a == [a[0]] + a[1..] && b == [b[0]] + b[1..];
    }
  }

  lemma {:induction false} CompareSeqTransitive<T(!new)>(cmp: (T, T) -> int, a: seq<T>, b: seq<T>, c: seq<T>)
    requires IsComparison(cmp)
    requires CompareSeq(cmp, a, b) <= 0 && CompareSeq(cmp, b, c) <= 0
    ensures CompareSeq(cmp, a, c) <= 0
  {
    if a != [] && b != [] && c != [] {
      if cmp(a[0], b[0]) == 0 && cmp(b[0], c[0]) == 0 {
        CompareSeqTransitive(cmp, a[1..], b[1..], c[1..]);
      } else {
        assert cmp(a[0], b[0]) <= 0 && cmp(b[0], c[0]) <= 0;
        assert cmp(a[0], c[0]) <= 0;
      }
    }
  }

  function CompareInt(a: int, b: int): int {
    if a < b then -1 else if a == b then 0 else 1
  }

  function CompareChar(a: char, b: char): int {
    CompareInt(a as int, b as int)
  }

  /** String comparison by code point. */
  function CompareString(a: string, b: string): int {
    CompareSeq(CompareChar, a, b)
  }

  lemma CompareStringIsComparison()
    ensures IsComparison(CompareString)
  {
    assert IsComparison(CompareChar);
    forall a: string, b: string {
      CompareSeqEqual(CompareChar, a, b);
    }
    forall a: string, b: string, c: string | CompareString(a, b) <= 0 && CompareString(b, c) <= 0 {
      CompareSeqTransitive(CompareChar, a, b, c);
    }
  }

  /** Strings are ranked by their first differing characters; a proper prefix comes first. */
  lemma {:induction false} CompareStringAtDifference(a: string, b: string, n: nat)
    requires n <= |a| && n <= |b| && a[..n] == b[..n]
    ensures n < |a| && n < |b| && a[n] < b[n] ==> CompareString(a, b) < 0
    ensures n == |a| < |b| ==> CompareString(a, b) < 0
    decreases n
  {
    if n > 0 {
      assert a[0] == a[..n][0] == b[..n][0] == b[0];
      assert a[1..][..n - 1] == a[..n][1..] == b[..n][1..] == b[1..][..n - 1];
      CompareStringAtDifference(a[1..], b[1..], n - 1);
      assert n < |a| ==> a[1..][n - 1] == a[n];
      assert n < |b| ==> b[1..][n - 1] == b[n];
    }
  }

  /** `a` and `b` agree up to position `n`, where `a` ends or has the smaller character. */
  predicate Differ(a: string, b: string, n: nat) {
    && n <= |a| && n < |b| && a[..n] == b[..n]
    && (n < |a| ==> a[n] < b[n])
  }

  /** The order of a dictionary by code points. */
  ghost predicate Before(a: string, b: string) {
    exists n :: Differ(a, b, n)
  }

  lemma DifferCons(a: string, b: string, n: nat)
    requires a != "" && b != "" && a[0] == b[0] && Differ(a[1..], b[1..], n)
    ensures Differ(a, b, n + 1)
  {
    assert a[..n + 1] == [a[0]] + a[1..][..n] && b[..n + 1] == [b[0]] + b[1..][..n];
  }

  lemma {:induction false} FirstDifference(a: string, b: string) returns (n: nat)
    requires CompareString(a, b) < 0
    ensures Differ(a, b, n)
    decreases |a|
  {
    n := 0;
    if a != "" && a[0] == b[0] {
      n := FirstDifference(a[1..], b[1..]);
      DifferCons(a, b, n);
      n := n + 1;
    }
  }

  lemma CompareStringIsDictionary(a: string, b: string)
    ensures CompareString(a, b) < 0 <==> Before(a, b)
  {
    hide CompareString;
    if CompareString(a, b) < 0 {
      var n := FirstDifference(a, b);
    }
    if n :| Differ(a, b, n) {
      CompareStringAtDifference(a, b, n);
    }
  }

  // ----- Sorting -----

  ghost predicate SortedBy<T>(leq: (T, T) -> bool, s: seq<T>) {
    forall i, j :: 0 <= i < j < |s| ==> leq(s[i], s[j])
  }

  /** Puts `x` in front of the first element that is not below it. */
  function Insert<T>(leq: (T, T) -> bool, x: T, s: seq<T>): (r: seq<T>)
    ensures |r| == |s| + 1
  {
    if s == [] || leq(x, s[0]) then [x] + s else [s[0]] + Insert(leq, x, s[1..])
  }

  /** Python's `sorted`: elements that tie keep their order. */
  function Sort<T>(leq: (T, T) -> bool, s: seq<T>): (r: seq<T>)
    ensures |r| == |s|
  {
    if s == [] then [] else Insert(leq, s[0], Sort(leq, s[1..]))
  }

  lemma TailElements<T>(s: seq<T>)
    requires s != []
    ensures multiset(s) == multiset{s[0]} + multiset(s[1..])
  {
    assert s == [s[0]] + s[1..];
  }

  lemma {:induction false} InsertKeepsElements<T>(leq: (T, T) -> bool, x: T, s: seq<T>)
    ensures multiset(Insert(leq, x, s)) == multiset(s) + multiset{x}
  {
    if s != [] && !leq(x, s[0]) {
      InsertKeepsElements(leq, x, s[1..]);
      TailElements(s);
    }
  }

  lemma {:induction false} SortPermutes<T>(leq: (T, T) -> bool, s: seq<T>)
    ensures multiset(Sort(leq, s)) == multiset(s)
  {
    if s != [] {
      SortPermutes(leq, s[1..]);
      InsertKeepsElements(leq, s[0], Sort(leq, s[1..]));
      TailElements(s);
    }
  }

  lemma SameElements<T>(s: seq<T>, t: seq<T>)
    requires multiset(s) == multiset(t)
    ensures |s| == |t|
    ensures forall x :: x in s <==> x in t
  {
    assert |multiset(s)| == |multiset(t)|;
    forall x
      ensures x in s <==> x in t
    {
      assert x in multiset(s) <==> x in multiset(t);
    }
  }

  lemma {:induction false} InsertSorts<T(!new)>(leq: (T, T) -> bool, x: T, s: seq<T>)
    requires IsTotalPreorder(leq)
    requires SortedBy(leq, s)
    ensures SortedBy(leq, Insert(leq, x, s))
  {
    if s == [] {
    } else if leq(x, s[0]) {
      assert forall i :: 0 < i < |s| ==> leq(s[0], s[i]);
    } else {
      InsertSorts(leq, x, s[1..]);
      InsertKeepsElements(leq, x, s[1..]);
      var r := Insert(leq, x, s[1..]);
      forall i | 0 <= i < |r|
        ensures leq(s[0], r[i])
      {
        assert r[i] in multiset(r);
        assert r[i] == x || r[i] in s[1..];
      }
    }
  }

  lemma {:induction false} SortSorts<T(!new)>(leq: (T, T) -> bool, s: seq<T>)
    requires IsTotalPreorder(leq)
    ensures SortedBy(leq, Sort(leq, s))
  {
    if s != [] {
      SortSorts(leq, s[1..]);
      InsertSorts(leq, s[0], Sort(leq, s[1..]));
    }
  }

  ghost predicate TiesAreEqual<T>(leq: (T, T) -> bool, s: seq<T>) {
    forall i, j :: 0 <= i < |s| && 0 <= j < |s| && leq(s[i], s[j]) && leq(s[j], s[i]) ==> s[i] == s[j]
  }

  lemma SameLeast<T>(leq: (T, T) -> bool, s: seq<T>, t: seq<T>)
    requires SortedBy(leq, s) && SortedBy(leq, t) && TiesAreEqual(leq, s)
    requires s != [] && t != [] && multiset(s) == multiset(t)
    ensures s[0] == t[0]
  {
    SameElements(s, t);
    assert s[0] in t && t[0] in s;
    var i :| 0 <= i < |t| && t[i] == s[0];
    var j :| 0 <= j < |s| && s[j] == t[0];
    if i > 0 && j > 0 {
      assert leq(t[0], t[i]) && leq(s[0], s[j]);
    }
  }

  lemma SameTails<T>(s: seq<T>, t: seq<T>)
    requires s != [] && t != [] && s[0] == t[0] && multiset(s) == multiset(t)
    ensures multiset(s[1..]) == multiset(t[1..])
  {
    TailElements(s);
    TailElements(t);
    assert multiset(s[1..]) == multiset(s) - multiset{s[0]};
    assert multiset(t[1..]) == multiset(t) - multiset{t[0]};
  }

  lemma SameHeadAndTail<T>(s: seq<T>, t: seq<T>)
    requires |s| > 0 && |t| > 0 && s[0] == t[0] && s[1..] == t[1..]
    ensures s == t
  {
    assert s == [s[0]] + s[1..] && t == [t[0]] + t[1..];
  }

  /** With ties only between equal elements, a multiset has one sorted listing. */
  lemma {:induction false} SortedUnique<T>(leq: (T, T) -> bool, s: seq<T>, t: seq<T>)
    requires SortedBy(leq, s) && SortedBy(leq, t) && TiesAreEqual(leq, s)
    requires multiset(s) == multiset(t)
    ensures s == t
    decreases |s|
  {
    assert |s| == |t| by {
      SameElements(s, t);
    }
    if s != [] {
      SameLeast(leq, s, t);
      SameTails(s, t);
      SortedUnique(leq, s[1..], t[1..]);
      hide *;
      SameHeadAndTail(s, t);
    }
  }

  lemma {:induction false} InsertLast<T(!new)>(leq: (T, T) -> bool, x: T, s: seq<T>)
    requires IsTotalPreorder(leq) && SortedBy(leq, s) && s != []
    ensures Insert(leq, x, s)[|s|] == if leq(x, s[|s| - 1]) then s[|s| - 1] else x
  {
    if leq(x, s[0]) {
      assert leq(s[0], s[|s| - 1]) || |s| == 1;
      assert leq(x, s[|s| - 1]);
    } else if |s| > 1 {
      InsertLast(leq, x, s[1..]);
    }
  }

  /** `s[i]` is above all of `s`, and strictly above all that follows it. */
  ghost predicate IsLastMaximum<T>(leq: (T, T) -> bool, s: seq<T>, i: nat) {
    && i < |s|
    && (forall j :: 0 <= j < |s| ==> leq(s[j], s[i]))
    && forall j :: i < j < |s| ==> !leq(s[i], s[j])
  }

  lemma LastMaximumStep<T(!new)>(leq: (T, T) -> bool, s: seq<T>, k: nat)
    requires IsTotalPreorder(leq) && |s| > 1 && IsLastMaximum(leq, s[1..], k)
    ensures IsLastMaximum(leq, s, if leq(s[0], s[1 + k]) then 1 + k else 0)
  {
    forall j | 0 < j < |s|
      ensures leq(s[j], s[1 + k]) && (j > 1 + k ==> !leq(s[1 + k], s[j]))
    {
      assert s[j] == s[1..][j - 1];
    }
  }

  /** `sorted(s)[-1]` is the last of the maximal elements. */
  lemma {:induction false} SortLast<T(!new)>(leq: (T, T) -> bool, s: seq<T>) returns (i: nat)
    requires IsTotalPreorder(leq) && s != []
    ensures IsLastMaximum(leq, s, i) && Sort(leq, s)[|s| - 1] == s[i]
  {
    if |s| == 1 {
      i := 0;
    } else {
      hide Insert;
      var k := SortLast(leq, s[1..]);
      LastMaximumStep(leq, s, k);
      SortSorts(leq, s[1..]);
      InsertLast(leq, s[0], Sort(leq, s[1..]));
      i := if leq(s[0], s[1 + k]) then 1 + k else 0;
    }
  }

  ghost predicate NoDuplicates<T>(s: seq<T>) {
    forall i, j :: 0 <= i < j < |s| ==> s[i] != s[j]
  }

  lemma {:induction false} NoDuplicatesCount<T>(s: seq<T>, x: T)
    requires NoDuplicates(s)
    ensures multiset(s)[x] == if x in s then 1 else 0
  {
    if s != [] {
      NoDuplicatesCount(s[1..], x);
      assert s == [s[0]] + s[1..];
    }
  }

  lemma DuplicateCount<T>(s: seq<T>, i: nat, j: nat)
    requires i < j < |s|
    ensures s[i] == s[j] ==> multiset(s)[s[i]] >= 2
  {
    assert s == s[..j] + [s[j]] + s[j + 1..];
    assert s[..j][i] == s[i];
    assert s[i] in multiset(s[..j]);
  }

  /** A reordering of a list without duplicates has none. */
  lemma NoDuplicatesPermutes<T>(s: seq<T>, t: seq<T>)
    requires NoDuplicates(s) && multiset(s) == multiset(t)
    ensures NoDuplicates(t)
  {
    forall i, j | 0 <= i < j < |t|
      ensures t[i] != t[j]
    {
      DuplicateCount(t, i, j);
      NoDuplicatesCount(s, t[i]);
    }
  }

  /** Lists of the same elements without duplicates are reorderings of each other. */
  lemma SameElementsPermute<T>(s: seq<T>, t: seq<T>)
    requires NoDuplicates(s) && NoDuplicates(t)
    requires (forall i :: 0 <= i < |s| ==> s[i] in t) && (forall i :: 0 <= i < |t| ==> t[i] in s)
    ensures multiset(s) == multiset(t)
  {
    forall x
      ensures multiset(s)[x] == multiset(t)[x]
    {
      NoDuplicatesCount(s, x);
      NoDuplicatesCount(t, x);
    }
  }

  ghost predicate Increasing(s: seq<int>) {
    forall i, j :: 0 <= i < j < |s| ==> s[i] < s[j]
  }

  predicate IntLeq(a: int, b: int) {
    a <= b
  }

  /** Sorting distinct integers lists them in strictly increasing order. */
  lemma SortIncreases(s: seq<int>)
    requires NoDuplicates(s)
    ensures Increasing(Sort(IntLeq, s)) && forall x :: x in Sort(IntLeq, s) <==> x in s
  {
    var r := Sort(IntLeq, s);
    SortSorts(IntLeq, s);
    SortPermutes(IntLeq, s);
    SameElements(r, s);
    NoDuplicatesPermutes(s, r);
    forall i, j | 0 <= i < j < |r|
      ensures r[i] < r[j]
    {
      assert IntLeq(r[i], r[j]);
    }
  }

  lemma IncreasingUnique(s: seq<int>, t: seq<int>)
    requires Increasing(s) && Increasing(t) && forall x :: x in s <==> x in t
    ensures s == t
  {
    forall i | 0 <= i < |s|
      ensures s[i] in t
    {
      assert s[i] in s;
    }
    forall i | 0 <= i < |t|
      ensures t[i] in s
    {
      assert t[i] in t;
    }
    SameElementsPermute(s, t);
    SortedUnique(IntLeq, s, t);
  }

  lemma Associative<T>(a: seq<T>, b: seq<T>, c: seq<T>)
    ensures a + (b + c) == (a + b) + c
  {
  }
}
