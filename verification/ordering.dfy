/**
 * The order of the bookmark list (src/components/BookmarkManager.tsx): newest
 * first by date, or by title or url. `localeCompare` is replaced by
 * lexicographic order on Unicode code points (a string here is a sequence of
 * code points), one total preorder among those a locale may define.
 */
module Ordering {
  import opened Model
  import opened Seqs

  /** Lexicographic order on code points: `a` is a prefix of `b`, or the first difference is smaller in `a`. */
  predicate StrLeq(a: string, b: string) {
    |a| == 0 || (|b| > 0 && (a[0] < b[0] || (a[0] == b[0] && StrLeq(a[1..], b[1..]))))
  }

  lemma {:induction false} StrLeqTotal(a: string, b: string)
    ensures StrLeq(a, b) || StrLeq(b, a)
  {
    if |a| > 0 && |b| > 0 && a[0] == b[0] {
      StrLeqTotal(a[1..], b[1..]);
    }
  }

  lemma {:induction false} StrLeqTransitive(a: string, b: string, c: string)
    requires StrLeq(a, b) && StrLeq(b, c)
    ensures StrLeq(a, c)
  {
    if |a| > 0 && a[0] == b[0] && b[0] == c[0] {
      StrLeqTransitive(a[1..], b[1..], c[1..]);
    }
  }

  lemma {:induction false} StrLeqAntisymmetric(a: string, b: string)
    requires StrLeq(a, b) && StrLeq(b, a)
    ensures a == b
  {
    if |a| > 0 {
      StrLeqAntisymmetric(a[1..], b[1..]);
      assert a == [a[0]] + a[1..];
      assert b == [b[0]] + b[1..];
    }
  }

  /** The three entries of the Sort menu. */
  datatype SortBy = Name | Date | Url

  /** The list opens sorted by date. */
  const DEFAULT_SORT: SortBy := Date

  /** The comparator returns at most zero for (a, b): `a` may stay in front of `b`. */
  predicate Before(mode: SortBy, a: Bookmark, b: Bookmark) {
    match mode
    case Name => StrLeq(a.title, b.title)
    case Url => StrLeq(a.url, b.url)
    case Date => a.createdAt >= b.createdAt
  }

  lemma BeforeTotal(mode: SortBy, a: Bookmark, b: Bookmark)
    ensures Before(mode, a, b) || Before(mode, b, a)
  {
    match mode
    case Name => StrLeqTotal(a.title, b.title);
    case Url => StrLeqTotal(a.url, b.url);
    case Date =>
  }

  lemma BeforeTransitive(mode: SortBy, a: Bookmark, b: Bookmark, c: Bookmark)
    requires Before(mode, a, b) && Before(mode, b, c)
    ensures Before(mode, a, c)
  {
    match mode
    case Name => StrLeqTransitive(a.title, b.title, c.title);
    case Url => StrLeqTransitive(a.url, b.url, c.url);
    case Date =>
  }

  predicate Sorted(mode: SortBy, s: seq<Bookmark>) {
    forall i, j | 0 <= i < j < |s| :: Before(mode, s[i], s[j])
  }

  /** Puts `x` in front of the first element it may precede. */
  function Insert(mode: SortBy, x: Bookmark, s: seq<Bookmark>): (r: seq<Bookmark>)
    ensures multiset(r) == multiset(s) + multiset{x}
    ensures |r| == |s| + 1
  {
    if |s| == 0 then [x]
    else if Before(mode, x, s[0]) then [x] + s
    else
      assert s == [s[0]] + s[1..];
      [s[0]] + Insert(mode, x, s[1..])
  }

  lemma FrontSorted(mode: SortBy, x: Bookmark, s: seq<Bookmark>)
    requires Sorted(mode, s) && |s| > 0 && Before(mode, x, s[0])
    ensures Sorted(mode, [x] + s)
  {
    var r := [x] + s;
    forall i, j | 0 <= i < j < |r|
      ensures Before(mode, r[i], r[j])
    {
      if i == 0 && j > 1 { BeforeTransitive(mode, x, s[0], s[j - 1]); }
    }
  }

  lemma ConsSorted(mode: SortBy, h: Bookmark, t: seq<Bookmark>)
    requires Sorted(mode, t) && forall k | 0 <= k < |t| :: Before(mode, h, t[k])
    ensures Sorted(mode, [h] + t)
  {
  }

  /** Inserting into an ordered list keeps it ordered. */
  lemma {:induction false} InsertSorted(mode: SortBy, x: Bookmark, s: seq<Bookmark>)
    requires Sorted(mode, s)
    ensures Sorted(mode, Insert(mode, x, s))
  {
    if |s| == 0 {
    } else if Before(mode, x, s[0]) {
      FrontSorted(mode, x, s);
    } else {
      var t := Insert(mode, x, s[1..]);
      assert s == [s[0]] + s[1..];
      assert Sorted(mode, s[1..]);
      InsertSorted(mode, x, s[1..]);
      BeforeTotal(mode, x, s[0]);
      forall k | 0 <= k < |t|
        ensures Before(mode, s[0], t[k])
      {
        assert t[k] in multiset(t);
        if t[k] != x {
          assert t[k] in multiset(s[1..]);
          var m :| 0 <= m < |s[1..]| && s[1..][m] == t[k];
          assert Before(mode, s[0], s[m + 1]);
        }
      }
      ConsSorted(mode, s[0], t);
    }
  }

  /** Insertion sort; equal keys keep their order (`SortStable`), as `Array.prototype.sort` promises. */
  function Sort(mode: SortBy, s: seq<Bookmark>): (r: seq<Bookmark>)
    ensures Sorted(mode, r)
    ensures multiset(r) == multiset(s)
    ensures |r| == |s|
  {
    if |s| == 0 then []
    else
      assert s == [s[0]] + s[1..];
      var t := Sort(mode, s[1..]);
      InsertSorted(mode, s[0], t);
      Insert(mode, s[0], t)
  }

  /** A list already in order comes back unchanged, so sorting twice is sorting once. */
  lemma {:induction false} SortSorted(mode: SortBy, s: seq<Bookmark>)
    requires Sorted(mode, s)
    ensures Sort(mode, s) == s
  {
    if |s| > 0 {
      assert Sorted(mode, s[1..]);
      SortSorted(mode, s[1..]);
      assert s == [s[0]] + s[1..];
    }
  }

  lemma SortIdempotent(mode: SortBy, s: seq<Bookmark>)
    ensures Sort(mode, Sort(mode, s)) == Sort(mode, s)
  {
    SortSorted(mode, Sort(mode, s));
  }

  /** `a` and `b` have the same key: each may come before the other. */
  predicate SameKey(mode: SortBy, a: Bookmark, b: Bookmark) {
    Before(mode, a, b) && Before(mode, b, a)
  }

  /**
   * Inserting never reorders records that all share one key: seen through a
   * filter that keeps only such records, it is putting `x` in front.
   */
  lemma {:induction false} InsertStable(mode: SortBy, x: Bookmark, t: seq<Bookmark>, p: Bookmark -> bool)
    requires forall a, b | p(a) && p(b) :: Before(mode, a, b)
    ensures Filter(Insert(mode, x, t), p) == Filter([x] + t, p)
  {
    if |t| > 0 && !Before(mode, x, t[0]) {
      var rest := t[1..];
      assert t == [t[0]] + rest;
      InsertStable(mode, x, rest, p);
      FilterCons(t[0], Insert(mode, x, rest), p);
      FilterCons(x, rest, p);
      FilterCons(x, t, p);
      FilterCons(t[0], rest, p);
      assert !(p(x) && p(t[0]));
    }
  }

  /** Sorting never reorders records that all share one key. */
  lemma {:induction false} SortStable(mode: SortBy, s: seq<Bookmark>, p: Bookmark -> bool)
    requires forall a, b | p(a) && p(b) :: Before(mode, a, b)
    ensures Filter(Sort(mode, s), p) == Filter(s, p)
  {
    if |s| > 0 {
      var rest := s[1..];
      assert s == [s[0]] + rest;
      SortStable(mode, rest, p);
      InsertStable(mode, s[0], Sort(mode, rest), p);
      FilterCons(s[0], Sort(mode, rest), p);
      FilterCons(s[0], rest, p);
    }
  }

  /** The records sharing `x`'s key come out of the sort in the order they went in. */
  lemma SortKeepsTies(mode: SortBy, s: seq<Bookmark>, x: Bookmark)
    ensures Filter(Sort(mode, s), (y: Bookmark) => SameKey(mode, x, y)) ==
            Filter(s, (y: Bookmark) => SameKey(mode, x, y))
  {
    var p := (y: Bookmark) => SameKey(mode, x, y);
    forall a, b | p(a) && p(b)
      ensures Before(mode, a, b)
    {
      BeforeTransitive(mode, a, x, b);
    }
    SortStable(mode, s, p);
  }
}
