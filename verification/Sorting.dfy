/** Stable sorting by a total preorder, as Python's `sorted` and Rust's `sort_by` do it. */
module Sorting {

  ghost predicate TotalPreorder<T(!new)>(le: (T, T) -> bool) {
    && (forall a, b :: le(a, b) || le(b, a))
    && (forall a, b, c :: le(a, b) && le(b, c) ==> le(a, c))
  }

  ghost predicate Antisymmetric<T(!new)>(le: (T, T) -> bool) {
    forall a, b :: le(a, b) && le(b, a) ==> a == b
  }

  ghost predicate SortedBy<T>(s: seq<T>, le: (T, T) -> bool) {
    forall i, j :: 0 <= i < j < |s| ==> le(s[i], s[j])
  }

  function Insert<T>(x: T, s: seq<T>, le: (T, T) -> bool): (r: seq<T>)
    ensures multiset(r) == multiset(s) + multiset{x}
    ensures |r| == |s| + 1
  {
    if s == [] || le(x, s[0]) then [x] + s
    else
      assert s == [s[0]] + s[1..];
      [s[0]] + Insert(x, s[1..], le)
  }

  /** Insertion from the right keeps equal elements in their input order. */
  function Sort<T>(s: seq<T>, le: (T, T) -> bool): (r: seq<T>)
    ensures multiset(r) == multiset(s)
    ensures |r| == |s|
  {
    if s == [] then []
    else
      assert s == [s[0]] + s[1..];
      Insert(s[0], Sort(s[1..], le), le)
  }

  lemma {:induction false} InsertKeepsSorted<T(!new)>(x: T, s: seq<T>, le: (T, T) -> bool)
    requires TotalPreorder(le) && SortedBy(s, le)
    ensures SortedBy(Insert(x, s, le), le)
  {
    if s != [] && !le(x, s[0]) {
      InsertKeepsSorted(x, s[1..], le);
      var r := Insert(x, s[1..], le);
      forall j | 0 <= j < |r| ensures le(s[0], r[j]) {
        assert r[j] in multiset(r);
        assert r[j] == x || r[j] in s[1..];
      }
    }
  }

  lemma {:induction false} SortSorts<T(!new)>(s: seq<T>, le: (T, T) -> bool)
    requires TotalPreorder(le)
    ensures SortedBy(Sort(s, le), le)
  {
    if s != [] {
      SortSorts(s[1..], le);
      InsertKeepsSorted(s[0], Sort(s[1..], le), le);
    }
  }

  predicate Alike<T>(a: T, b: T, le: (T, T) -> bool) {
    le(a, b) && le(b, a)
  }

  /** The elements that compare equal to x, in order. */
  function AlikeTo<T>(s: seq<T>, x: T, le: (T, T) -> bool): seq<T> {
    if s == [] then [] else (if Alike(s[0], x, le) then [s[0]] else []) + AlikeTo(s[1..], x, le)
  }

  lemma AlikeCons<T>(y: T, s: seq<T>, x: T, le: (T, T) -> bool)
    ensures AlikeTo([y] + s, x, le) == (if Alike(y, x, le) then [y] else []) + AlikeTo(s, x, le)
  {
    assert ([y] + s)[1..] == s;
  }

  lemma {:induction false} InsertIsStable<T(!new)>(y: T, s: seq<T>, x: T, le: (T, T) -> bool)
    requires TotalPreorder(le)
    ensures AlikeTo(Insert(y, s, le), x, le) == (if Alike(y, x, le) then [y] else []) + AlikeTo(s, x, le)
  {
    hide AlikeTo;
    AlikeCons(y, s, x, le);
    if s != [] && !le(y, s[0]) {
      var rest := s[1..];
      assert s == [s[0]] + rest;
      InsertIsStable(y, rest, x, le);
      AlikeCons(s[0], Insert(y, rest, le), x, le);
      AlikeCons(s[0], rest, x, le);
      assert Alike(y, x, le) ==> !Alike(s[0], x, le);
    }
  }

  /** Elements that compare equal keep their input order. */
  lemma {:induction false} SortIsStable<T(!new)>(s: seq<T>, x: T, le: (T, T) -> bool)
    requires TotalPreorder(le)
    ensures AlikeTo(Sort(s, le), x, le) == AlikeTo(s, x, le)
  {
    if s != [] {
      SortIsStable(s[1..], x, le);
      InsertIsStable(s[0], Sort(s[1..], le), x, le);
    }
  }

  lemma {:induction false} SortOfSorted<T>(s: seq<T>, le: (T, T) -> bool)
    requires SortedBy(s, le)
    ensures Sort(s, le) == s
  {
    if s != [] {
      SortOfSorted(s[1..], le);
      assert |s| > 1 ==> le(s[0], s[1]);
    }
  }

  lemma HeadIsLeast<T(!new)>(s: seq<T>, x: T, le: (T, T) -> bool)
    requires TotalPreorder(le) && SortedBy(s, le) && x in multiset(s)
    ensures s != [] && le(s[0], x)
  {
    var i :| 0 <= i < |s| && s[i] == x;
    assert i == 0 ==> le(s[0], s[0]);
  }

  lemma DropHead<T>(s: seq<T>)
    requires s != []
    ensures multiset(s[1..]) == multiset(s) - multiset{s[0]}
  {
    assert s == [s[0]] + s[1..];
  }

  /** A sorted sequence is determined by its elements when the order is antisymmetric. */
  lemma {:induction false} SortedIsUnique<T(!new)>(s: seq<T>, t: seq<T>, le: (T, T) -> bool)
    requires TotalPreorder(le) && Antisymmetric(le)
    requires SortedBy(s, le) && SortedBy(t, le) && multiset(s) == multiset(t)
    ensures s == t
  {
    assert |s| == |multiset(s)| == |multiset(t)| == |t|;
    if s != [] {
      assert s[0] in multiset(s) && t[0] in multiset(t);
      HeadIsLeast(t, s[0], le);
      HeadIsLeast(s, t[0], le);
      DropHead(s);
      DropHead(t);
      SortedIsUnique(s[1..], t[1..], le);
      assert s == [s[0]] + s[1..] && t == [t[0]] + t[1..];
    }
  }

  /** Sorting forgets the input order. */
  lemma SortForgetsOrder<T(!new)>(s: seq<T>, t: seq<T>, le: (T, T) -> bool)
    requires TotalPreorder(le) && Antisymmetric(le) && multiset(s) == multiset(t)
    ensures Sort(s, le) == Sort(t, le)
  {
    SortSorts(s, le);
    SortSorts(t, le);
    SortedIsUnique(Sort(s, le), Sort(t, le), le);
  }
}

/** Lexicographic order of strings by code point: Python's `str` order, and Rust's, since UTF-8 preserves it. */
module StringOrder {
  import opened Sorting

  predicate Le(a: string, b: string) {
    if a == [] then true
    else if b == [] then false
    else if a[0] != b[0] then a[0] < b[0]
    else Le(a[1..], b[1..])
  }

  lemma {:induction false} Total(a: string, b: string)
    ensures Le(a, b) || Le(b, a)
  {
    if a != [] && b != [] && a[0] == b[0] {
      Total(a[1..], b[1..]);
    }
  }

  lemma {:induction false} Transitive(a: string, b: string, c: string)
    requires Le(a, b) && Le(b, c)
    ensures Le(a, c)
  {
    if a != [] && a[0] == b[0] == c[0] {
      Transitive(a[1..], b[1..], c[1..]);
    }
  }

  lemma {:induction false} Antisymmetry(a: string, b: string)
    requires Le(a, b) && Le(b, a)
    ensures a == b
  {
    if a != [] && b != [] {
      Antisymmetry(a[1..], b[1..]);
      assert a == [a[0]] + a[1..] && b == [b[0]] + b[1..];
    }
  }

  lemma IsTotalOrder()
    ensures TotalPreorder(Le) && Antisymmetric(Le)
  {
    forall a, b ensures Le(a, b) || Le(b, a) { Total(a, b); }
    forall a, b, c | Le(a, b) && Le(b, c) ensures Le(a, c) { Transitive(a, b, c); }
    forall a, b | Le(a, b) && Le(b, a) ensures a == b { Antisymmetry(a, b); }
  }

  /** At position k the shorter text ends, or the texts differ for the first time. */
  ghost predicate Decides(a: string, b: string, k: nat) {
    && k <= |a| && k <= |b| && a[..k] == b[..k]
    && (k == |a| || (k < |b| && a[k] as int < b[k] as int))
  }

  /** The order compares code points at the first difference; a prefix comes first. */
  lemma {:induction false} LeMeans(a: string, b: string)
    ensures Le(a, b) <==> exists k: nat :: Decides(a, b, k)
  {
    if a == [] {
      assert Decides(a, b, 0);
    } else if b != [] {
      if a[0] != b[0] {
        if a[0] < b[0] {
          assert Decides(a, b, 0);
        }
        forall k: nat | Decides(a, b, k) ensures k == 0 {
          HeadsAgree(a, b, k);
        }
      } else {
        LeMeans(a[1..], b[1..]);
        DecidesTail(a, b);
      }
    }
  }

  lemma HeadsAgree(a: string, b: string, k: nat)
    requires a != [] && b != []
    ensures Decides(a, b, k) && k > 0 ==> a[0] == b[0]
  {
    if k <= |a| && k <= |b| && k > 0 {
      assert a[..k][0] == a[0] && b[..k][0] == b[0];
    }
  }

  lemma DecidesTail(a: string, b: string)
    requires a != [] && b != [] && a[0] == b[0]
    ensures (exists k: nat :: Decides(a, b, k)) <==> exists k: nat :: Decides(a[1..], b[1..], k)
  {
    if k: nat :| Decides(a, b, k) {
      assert k > 0;
      assert a[..k][1..] == a[1..][..k - 1] && b[..k][1..] == b[1..][..k - 1];
      assert Decides(a[1..], b[1..], k - 1);
    }
    if k: nat :| Decides(a[1..], b[1..], k) {
      assert a[..k + 1] == [a[0]] + a[1..][..k] && b[..k + 1] == [b[0]] + b[1..][..k];
      assert Decides(a, b, k + 1);
    }
  }
}
