/**
 * Generic relational helpers shared by the whole model: the Option and
 * Result wrappers, row filters, de-duplication (polars `unique` /
 * group keys), distinct counts (`n_unique`) and concatenation of table
 * fragments (`pl.concat`).
 */
module Tables {

  datatype Option<T> = None | Some(value: T)

  /** The failures the pipeline can raise (or, for the care-site level, return). */
  datatype Error =
    | ColumnNotFound        // polars / pandas: a named column is absent
    | EmptyThresholds       // `max(thresholds)` on an empty list
    | InvalidCareSiteLevel  // the ValueError object returned by the stabiliser
    | UnpackError           // unpacking that ValueError object into a pair
    | EmptyConcat           // `pl.concat([])`
    | MaskWithNull          // pandas boolean indexing with a NaN in the mask
    | TypeMismatch          // comparing, sorting or concatenating values of incompatible types

  datatype Result<T> = Ok(value: T) | Err(error: Error)

  /** Rows of `s` that satisfy `p`, in their original order (a `filter`). */
  function Filter<T(!new)>(s: seq<T>, p: T -> bool): (r: seq<T>)
    ensures |r| <= |s|
    ensures forall x :: x in r <==> x in s && p(x)
    decreases |s|
  {
    if s == [] then []
    else
      var rest := Filter(s[1..], p);
      assert s == [s[0]] + s[1..];
      if p(s[0]) then [s[0]] + rest else rest
  }

  lemma {:induction false} FilterAppend<T(!new)>(a: seq<T>, b: seq<T>, p: T -> bool)
    ensures Filter(a + b, p) == Filter(a, p) + Filter(b, p)
    decreases |a|
  {
    if a == [] {
      assert a + b == b;
    } else {
      assert (a + b)[0] == a[0];
      assert (a + b)[1..] == a[1..] + b;
      FilterAppend(a[1..], b, p);
      if p(a[0]) {
        assert Filter(a + b, p) == [a[0]] + Filter(a[1..] + b, p);
      } else {
        assert Filter(a + b, p) == Filter(a[1..] + b, p);
      }
    }
  }

  /** A filter keeps as many rows as satisfy the predicate. */
  lemma {:induction false} FilterCount<T(!new)>(s: seq<T>, p: T -> bool)
    ensures |Filter(s, p)| == Count(s, p)
    decreases |s|
  {
    if s != [] {
      FilterCount(s[1..], p);
    }
  }

  /** A filter never duplicates a row: each kept row occurs exactly as often as in the input. */
  lemma {:induction false} FilterMultiset<T(!new)>(s: seq<T>, p: T -> bool, x: T)
    ensures multiset(Filter(s, p))[x] == if p(x) then multiset(s)[x] else 0
    decreases |s|
  {
    if s != [] {
      FilterMultiset(s[1..], p, x);
      assert s == [s[0]] + s[1..];
      assert multiset(s) == multiset([s[0]]) + multiset(s[1..]);
      if p(s[0]) {
        assert multiset(Filter(s, p)) == multiset([s[0]]) + multiset(Filter(s[1..], p));
      }
    }
  }

  /** Number of rows of `s` satisfying `p` (a boolean `sum`). */
  function Count<T(!new)>(s: seq<T>, p: T -> bool): nat
  {
    |Filter(s, p)|
  }

  lemma CountAppend<T(!new)>(a: seq<T>, b: seq<T>, p: T -> bool)
    ensures Count(a + b, p) == Count(a, p) + Count(b, p)
  {
    FilterAppend(a, b, p);
  }

  /** `q` implies `p` row by row, so `q` never counts more rows than `p`. */
  lemma {:induction false} CountMono<T(!new)>(s: seq<T>, p: T -> bool, q: T -> bool)
    requires forall x :: x in s && q(x) ==> p(x)
    ensures Count(s, q) <= Count(s, p)
    decreases |s|
  {
    if s != [] {
      CountMono(s[1..], p, q);
    }
  }

  predicate NoDup<T(==)>(s: seq<T>)
  {
    forall i, j :: 0 <= i < j < |s| ==> s[i] != s[j]
  }

  /** The distinct values of `s` in order of first appearance. */
  function Dedup<T(==,!new)>(s: seq<T>): (r: seq<T>)
    ensures NoDup(r)
    ensures forall x :: x in r <==> x in s
    ensures |r| <= |s|
    decreases |s|
  {
    if s == [] then []
    else
      var front := Dedup(s[..|s| - 1]);
      assert s == s[..|s| - 1] + [s[|s| - 1]];
      if s[|s| - 1] in front then front else front + [s[|s| - 1]]
  }

  /** A filter keeps distinct elements distinct. */
  lemma {:induction false} FilterNoDup<T(!new)>(s: seq<T>, p: T -> bool)
    requires NoDup(s)
    ensures NoDup(Filter(s, p))
    decreases |s|
  {
    if s != [] {
      FilterNoDup(s[1..], p);
      assert forall x :: x in s[1..] ==> x != s[0];
    }
  }

  function ToSet<T(==)>(s: seq<T>): set<T>
  {
    set x | x in s
  }

  /** `n_unique`: the number of distinct values. */
  function NUnique<T(==)>(s: seq<T>): nat
  {
    |ToSet(s)|
  }

  lemma {:induction false} SubsetCard<T>(a: set<T>, b: set<T>)
    requires a <= b
    ensures |a| <= |b|
    decreases |a|
  {
    if a != {} {
      var x :| x in a;
      SubsetCard(a - {x}, b - {x});
    }
  }

  /** Fewer distinct values in `a` than in `b` when every value of `a` occurs in `b`. */
  lemma NUniqueMono<T>(a: seq<T>, b: seq<T>)
    requires forall x :: x in a ==> x in b
    ensures NUnique(a) <= NUnique(b)
  {
    SubsetCard(ToSet(a), ToSet(b));
  }

  /** Without repetitions the distinct count is the length. */
  lemma {:induction false} NUniqueNoDup<T>(s: seq<T>)
    requires NoDup(s)
    ensures NUnique(s) == |s|
    decreases |s|
  {
    if s != [] {
      var front := s[..|s| - 1];
      assert NoDup(front);
      NUniqueNoDup(front);
      assert ToSet(s) == ToSet(front) + {s[|s| - 1]};
      assert s[|s| - 1] !in ToSet(front);
    }
  }

  lemma NUniquePositive<T>(s: seq<T>)
    requires s != []
    ensures NUnique(s) >= 1
  {
    assert s[0] in ToSet(s);
  }

  /** `pl.concat` of the fragments `f(x)` built for each `x` in turn. */
  function FlatMap<T, U>(xs: seq<T>, f: T -> seq<U>): seq<U>
    decreases |xs|
  {
    if xs == [] then [] else FlatMap(xs[..|xs| - 1], f) + f(xs[|xs| - 1])
  }

  lemma FlatMapSnoc<T, U>(xs: seq<T>, x: T, f: T -> seq<U>)
    ensures FlatMap(xs + [x], f) == FlatMap(xs, f) + f(x)
  {
    assert (xs + [x])[..|xs|] == xs;
  }

  lemma {:induction false} FlatMapAppend<T, U>(a: seq<T>, b: seq<T>, f: T -> seq<U>)
    ensures FlatMap(a + b, f) == FlatMap(a, f) + FlatMap(b, f)
    decreases |b|
  {
    if b == [] {
      assert a + b == a;
    } else {
      var front := b[..|b| - 1];
      var last := b[|b| - 1];
      assert b == front + [last];
      assert a + b == (a + front) + [last];
      FlatMapAppend(a, front, f);
      FlatMapSnoc(a + front, last, f);
      FlatMapSnoc(front, last, f);
    }
  }

  /** An element of the concatenation comes from the fragment of some `x`, and conversely. */
  lemma {:induction false} FlatMapMember<T, U>(xs: seq<T>, f: T -> seq<U>, y: U)
    ensures y in FlatMap(xs, f) <==> exists x :: x in xs && y in f(x)
    decreases |xs|
  {
    if xs != [] {
      var front := xs[..|xs| - 1];
      var last := xs[|xs| - 1];
      assert xs == front + [last];
      FlatMapMember(front, f, y);
      if y in FlatMap(xs, f) && y !in FlatMap(front, f) {
        assert y in f(last);
      }
      if exists x :: x in xs && y in f(x) {
        var x :| x in xs && y in f(x);
        if x != last {
          assert x in front;
        }
      }
    }
  }
}
