/**
  Stable sorting, and why it is a function: two stable sorts of one sequence are the
  same sequence, so Go's sort.SliceStable and JavaScript's Array.prototype.sort may
  both be modelled by the insertion sort below.
*/
module StableSort {

  ghost predicate TotalPreorder<T(!new)>(le: (T, T) -> bool) {
    && (forall x, y :: le(x, y) || le(y, x))
    && (forall x, y, z :: le(x, y) && le(y, z) ==> le(x, z))
  }

  ghost predicate Sorted<T>(le: (T, T) -> bool, s: seq<T>) {
    forall i, j :: 0 <= i < j < |s| ==> le(s[i], s[j])
  }

  /** Put x after every trailing element that does not exceed it. */
  function Insert<T>(le: (T, T) -> bool, s: seq<T>, x: T): seq<T> {
    if s == [] || le(s[|s| - 1], x) then s + [x]
    else Insert(le, s[..|s| - 1], x) + [s[|s| - 1]]
  }

  function Sort<T>(le: (T, T) -> bool, s: seq<T>): seq<T> {
    if s == [] then [] else Insert(le, Sort(le, s[..|s| - 1]), s[|s| - 1])
  }

  /** The elements of s that tie with x, in their order in s. */
  function Ties<T>(le: (T, T) -> bool, x: T, s: seq<T>): seq<T> {
    if s == [] then []
    else
      var y := s[|s| - 1];
      Ties(le, x, s[..|s| - 1]) + if le(x, y) && le(y, x) then [y] else []
  }

  lemma {:induction false} InsertPermutes<T>(le: (T, T) -> bool, s: seq<T>, x: T)
    ensures multiset(Insert(le, s, x)) == multiset(s) + multiset{x}
  {
    if s == [] || le(s[|s| - 1], x) {
    } else {
      InsertPermutes(le, s[..|s| - 1], x);
      assert s == s[..|s| - 1] + [s[|s| - 1]];
    }
  }

  lemma {:induction false} SortPermutes<T>(le: (T, T) -> bool, s: seq<T>)
    ensures multiset(Sort(le, s)) == multiset(s)
    ensures |Sort(le, s)| == |s|
    ensures forall x :: x in Sort(le, s) <==> x in s
  {
    if s != [] {
      SortPermutes(le, s[..|s| - 1]);
      InsertPermutes(le, Sort(le, s[..|s| - 1]), s[|s| - 1]);
      assert s == s[..|s| - 1] + [s[|s| - 1]];
    }
    assert |multiset(Sort(le, s))| == |multiset(s)|;
    forall x ensures x in Sort(le, s) <==> x in s {
      assert x in multiset(Sort(le, s)) <==> x in multiset(s);
    }
  }

  lemma {:induction false} InsertSorts<T(!new)>(le: (T, T) -> bool, s: seq<T>, x: T)
    requires TotalPreorder(le) && Sorted(le, s)
    ensures Sorted(le, Insert(le, s, x))
  {
    if s == [] {
    } else if le(s[|s| - 1], x) {
      forall i | 0 <= i < |s| ensures le(s[i], x) {
        assert i == |s| - 1 || le(s[i], s[|s| - 1]);
      }
    } else {
      var y := s[|s| - 1];
      var r := Insert(le, s[..|s| - 1], x);
      InsertSorts(le, s[..|s| - 1], x);
      InsertPermutes(le, s[..|s| - 1], x);
      forall i | 0 <= i < |r| ensures le(r[i], y) {
        assert r[i] in multiset(r);
        assert r[i] == x || r[i] in s[..|s| - 1];
      }
    }
  }

  lemma {:induction false} SortSorts<T(!new)>(le: (T, T) -> bool, s: seq<T>)
    requires TotalPreorder(le)
    ensures Sorted(le, Sort(le, s))
  {
    if s != [] {
      SortSorts(le, s[..|s| - 1]);
      InsertSorts(le, Sort(le, s[..|s| - 1]), s[|s| - 1]);
    }
  }

  lemma {:induction false} InsertKeepsTies<T(!new)>(le: (T, T) -> bool, s: seq<T>, x: T, k: T)
    requires TotalPreorder(le)
    ensures Ties(le, k, Insert(le, s, x)) == Ties(le, k, s) + if le(k, x) && le(x, k) then [x] else []
  {
    if s == [] || le(s[|s| - 1], x) {
      assert (s + [x])[..|s|] == s;
    } else {
      var y := s[|s| - 1];
      var r := Insert(le, s[..|s| - 1], x);
      InsertKeepsTies(le, s[..|s| - 1], x, k);
      assert (r + [y])[..|r|] == r;
      // y strictly exceeds x, so at most one of the two ties with k
      assert !(le(k, x) && le(x, k) && le(k, y) && le(y, k));
    }
  }

  /** Elements that compare equal keep their relative order. */
  lemma {:induction false} SortKeepsTies<T(!new)>(le: (T, T) -> bool, s: seq<T>, k: T)
    requires TotalPreorder(le)
    ensures Ties(le, k, Sort(le, s)) == Ties(le, k, s)
  {
    if s != [] {
      SortKeepsTies(le, s[..|s| - 1], k);
      InsertKeepsTies(le, Sort(le, s[..|s| - 1]), s[|s| - 1], k);
    }
  }

  lemma {:induction false} TiesSubset<T>(le: (T, T) -> bool, x: T, s: seq<T>)
    ensures forall y :: y in Ties(le, x, s) <==> y in s && le(x, y) && le(y, x)
  {
    if s != [] {
      TiesSubset(le, x, s[..|s| - 1]);
      assert s == s[..|s| - 1] + [s[|s| - 1]];
    }
  }

  /** Any stable sort is this one. */
  lemma {:induction false} StableSortUnique<T(!new)>(le: (T, T) -> bool, s: seq<T>, t: seq<T>)
    requires TotalPreorder(le)
    requires Sorted(le, t) && forall k :: Ties(le, k, t) == Ties(le, k, s)
    ensures t == Sort(le, s)
  {
    SortSorts(le, s);
    forall k ensures Ties(le, k, t) == Ties(le, k, Sort(le, s)) { SortKeepsTies(le, s, k); }
    SameTies(le, t, Sort(le, s));
  }

  /** The last elements of two sorted sequences with the same ties are the same. */
  lemma {:induction false} SameLast<T(!new)>(le: (T, T) -> bool, a: seq<T>, b: seq<T>)
    requires a != [] && b != [] && Sorted(le, a) && Sorted(le, b) && (forall x :: le(x, x))
    requires forall k :: Ties(le, k, a) == Ties(le, k, b)
    ensures a[|a| - 1] == b[|b| - 1]
  {
    var x, y := a[|a| - 1], b[|b| - 1];
    TiesSubset(le, x, a);
    TiesSubset(le, x, b);
    TiesSubset(le, y, a);
    TiesSubset(le, y, b);
    assert x in Ties(le, x, b) && y in Ties(le, y, a);
    assert le(x, y) && le(y, x);
    assert x == Ties(le, x, a)[|Ties(le, x, a)| - 1] && y == Ties(le, x, b)[|Ties(le, x, b)| - 1];
  }

  lemma {:induction false} SameTies<T(!new)>(le: (T, T) -> bool, a: seq<T>, b: seq<T>)
    requires Sorted(le, a) && Sorted(le, b) && (forall x :: le(x, x))
    requires forall k :: Ties(le, k, a) == Ties(le, k, b)
    ensures a == b
    decreases |a|
  {
    if a == [] || b == [] {
      if b != [] {
        assert b[0] in b && Ties(le, b[0], a) == Ties(le, b[0], b);
        TiesSubset(le, b[0], b);
      } else if a != [] {
        assert a[0] in a && Ties(le, a[0], a) == Ties(le, a[0], b);
        TiesSubset(le, a[0], a);
      }
    } else {
      SameLast(le, a, b);
      var x, a', b' := a[|a| - 1], a[..|a| - 1], b[..|b| - 1];
      forall k ensures Ties(le, k, a') == Ties(le, k, b') {
        var tail := if le(k, x) && le(x, k) then [x] else [];
        assert Ties(le, k, a) == Ties(le, k, a') + tail && Ties(le, k, b) == Ties(le, k, b') + tail;
        assert Ties(le, k, a) == Ties(le, k, b);
        assert Ties(le, k, a') == Ties(le, k, a)[..|Ties(le, k, a)| - |tail|];
      }
      SameTies(le, a', b');
      assert a == a' + [x] && b == b' + [x];
    }
  }

  ghost predicate TiesEqual<T>(le: (T, T) -> bool, s: seq<T>) {
    forall i, j :: 0 <= i < |s| && 0 <= j < |s| && le(s[i], s[j]) && le(s[j], s[i]) ==> s[i] == s[j]
  }

  lemma {:induction false} LastAgrees<T>(le: (T, T) -> bool, a: seq<T>, b: seq<T>)
    requires a != [] && b != [] && Sorted(le, a) && Sorted(le, b) && TiesEqual(le, a)
    requires multiset(a) == multiset(b)
    ensures a[|a| - 1] == b[|b| - 1]
  {
    assert a[|a| - 1] in multiset(b) && b[|b| - 1] in multiset(a);
    var i :| 0 <= i < |b| && b[i] == a[|a| - 1];
    var j :| 0 <= j < |a| && a[j] == b[|b| - 1];
    if j < |a| - 1 && i < |b| - 1 {
      assert le(a[j], a[|a| - 1]) && le(b[i], b[|b| - 1]);
    }
  }

  lemma {:induction false} DropLast<T>(a: seq<T>)
    requires a != []
    ensures multiset(a) == multiset(a[..|a| - 1]) + multiset{a[|a| - 1]}
  {
    assert a == a[..|a| - 1] + [a[|a| - 1]];
  }

  lemma PrefixesAgree<T>(a: seq<T>, b: seq<T>)
    requires a != [] && b != [] && a[|a| - 1] == b[|b| - 1] && multiset(a) == multiset(b)
    ensures multiset(a[..|a| - 1]) == multiset(b[..|b| - 1])
  {
    DropLast(a);
    DropLast(b);
    var x := a[|a| - 1];
    assert multiset(a[..|a| - 1]) == multiset(a) - multiset{x} && multiset(b[..|b| - 1]) == multiset(b) - multiset{x};
  }

  lemma PrefixSorted<T>(le: (T, T) -> bool, a: seq<T>)
    requires a != [] && Sorted(le, a)
    ensures Sorted(le, a[..|a| - 1])
    ensures TiesEqual(le, a) ==> TiesEqual(le, a[..|a| - 1])
  {
  }

  /** When ties are equalities, the sorted arrangement of a multiset is unique. */
  lemma {:induction false} SortedUnique<T>(le: (T, T) -> bool, a: seq<T>, b: seq<T>)
    requires Sorted(le, a) && Sorted(le, b) && TiesEqual(le, a) && multiset(a) == multiset(b)
    ensures a == b
    decreases |a|
  {
    assert |multiset(a)| == |multiset(b)|;
    if a != [] {
      LastAgrees(le, a, b);
      PrefixesAgree(a, b);
      PrefixSorted(le, a);
      PrefixSorted(le, b);
      SortedUnique(le, a[..|a| - 1], b[..|b| - 1]);
      assert a == a[..|a| - 1] + [a[|a| - 1]] && b == b[..|b| - 1] + [b[|b| - 1]];
    }
  }

  /** Strings in code-point order, which is also the byte order of their UTF-8 form. */
  predicate StringLe(a: string, b: string) {
    a == [] || (b != [] && (a[0] < b[0] || (a[0] == b[0] && StringLe(a[1..], b[1..]))))
  }

  lemma {:induction false} StringLeTotal(a: string, b: string)
    ensures StringLe(a, b) || StringLe(b, a)
    ensures StringLe(a, b) && StringLe(b, a) ==> a == b
  {
    if a != [] && b != [] {
      StringLeTotal(a[1..], b[1..]);
      assert a == [a[0]] + a[1..] && b == [b[0]] + b[1..];
    }
  }

  lemma {:induction false} StringLeTransitive(a: string, b: string, c: string)
    requires StringLe(a, b) && StringLe(b, c)
    ensures StringLe(a, c)
  {
    if a != [] && a[0] == b[0] == c[0] {
      StringLeTransitive(a[1..], b[1..], c[1..]);
    }
  }

  /** At the first place where they differ, a has ended or has the smaller character. */
  predicate TextBefore(a: string, b: string, k: nat) {
    k <= |a| && k < |b| && a[..k] == b[..k] && (k == |a| || a[k] < b[k])
  }

  lemma {:induction false} StringLeBefore(a: string, b: string, k: nat)
    requires TextBefore(a, b, k)
    ensures StringLe(a, b) && !StringLe(b, a)
  {
    if k > 0 {
      assert a[0] == a[..k][0] == b[..k][0] == b[0];
      assert a[1..][..k - 1] == a[..k][1..] && b[1..][..k - 1] == b[..k][1..];
      StringLeBefore(a[1..], b[1..], k - 1);
    }
  }

  lemma {:induction false} StringLeFinds(a: string, b: string) returns (k: nat)
    requires StringLe(a, b) && a != b
    ensures TextBefore(a, b, k)
  {
    k := 0;
    if a != [] && a[0] == b[0] {
      assert a == [a[0]] + a[1..] && b == [b[0]] + b[1..];
      var m := StringLeFinds(a[1..], b[1..]);
      k := m + 1;
      assert a[..k] == [a[0]] + a[1..][..m] && b[..k] == [b[0]] + b[1..][..m];
    }
  }

  /** What the text order is: equal, or before at the first difference. */
  lemma StringLeIs(a: string, b: string)
    ensures StringLe(a, b) <==> a == b || exists k: nat :: TextBefore(a, b, k)
  {
    StringLeTotal(a, b);
    if k: nat :| TextBefore(a, b, k) { StringLeBefore(a, b, k); }
    if StringLe(a, b) && a != b { var k := StringLeFinds(a, b); }
  }
}
