/**
 * Sequence operations with the meaning of the JavaScript array methods the
 * components use: `filter`, `slice` (negative indices count from the end),
 * `reverse`, `reduce` with `+`, and removal by `filter((_, i) => i !== k)`.
 */
module Seqs {

  /** `s.filter(keep)`. */
  function Filter<T>(s: seq<T>, keep: T -> bool): (r: seq<T>)
    ensures |r| <= |s|
    ensures forall i | 0 <= i < |r| :: r[i] in s && keep(r[i])
    ensures forall i | 0 <= i < |s| && keep(s[i]) :: s[i] in r
  {
    if s == [] then []
    else if keep(s[0]) then [s[0]] + Filter(s[1..], keep)
    else Filter(s[1..], keep)
  }

  /** Filtering distributes over concatenation, so it keeps the input order. */
  lemma {:induction false} FilterAppend<T>(a: seq<T>, b: seq<T>, keep: T -> bool)
    ensures Filter(a + b, keep) == Filter(a, keep) + Filter(b, keep)
  {
    if a == [] {
      assert a + b == b;
    } else {
      assert (a + b)[1..] == a[1..] + b;
      FilterAppend(a[1..], b, keep);
    }
  }

  /** A test every element passes keeps the whole list; one none passes keeps nothing. */
  lemma {:induction false} FilterAllOrNone<T>(s: seq<T>, keep: T -> bool)
    ensures (forall i | 0 <= i < |s| :: keep(s[i])) ==> Filter(s, keep) == s
    ensures (forall i | 0 <= i < |s| :: !keep(s[i])) ==> Filter(s, keep) == []
  {
    if s != [] {
      FilterAllOrNone(s[1..], keep);
      if forall i | 0 <= i < |s| :: keep(s[i]) {
        assert forall i | 0 <= i < |s[1..]| :: keep(s[1..][i]) by {
          forall i | 0 <= i < |s[1..]| ensures keep(s[1..][i]) { assert s[1..][i] == s[i + 1]; }
        }
      }
      if forall i | 0 <= i < |s| :: !keep(s[i]) {
        assert forall i | 0 <= i < |s[1..]| :: !keep(s[1..][i]) by {
          forall i | 0 <= i < |s[1..]| ensures !keep(s[1..][i]) { assert s[1..][i] == s[i + 1]; }
        }
      }
    }
  }

  /**
   * A list that holds `f` of each kept element, position by position, holds
   * exactly the images of the kept elements.
   */
  lemma MappedFilterMembership<T, U>(s: seq<T>, keep: T -> bool, f: T -> U, r: seq<U>, y: U)
    requires |r| == |Filter(s, keep)|
    requires forall k | 0 <= k < |r| :: r[k] == f(Filter(s, keep)[k])
    ensures y in r <==> exists i | 0 <= i < |s| :: keep(s[i]) && y == f(s[i])
  {
    var kept := Filter(s, keep);
    if y in r {
      var k :| 0 <= k < |r| && r[k] == y;
      assert kept[k] in s;
      var i :| 0 <= i < |s| && s[i] == kept[k];
      assert keep(s[i]) && y == f(s[i]);
    }
    if exists i | 0 <= i < |s| :: keep(s[i]) && y == f(s[i]) {
      var i :| 0 <= i < |s| && keep(s[i]) && y == f(s[i]);
      assert s[i] in kept;
      var k :| 0 <= k < |kept| && kept[k] == s[i];
      assert r[k] == y;
    }
  }

  /** `s.filter(keep).length`. */
  function Count<T>(s: seq<T>, keep: T -> bool): (n: nat)
    ensures n <= |s|
  {
    |Filter(s, keep)|
  }

  /** Appending one element adds one to the count exactly when it is kept. */
  lemma CountAppend<T>(s: seq<T>, x: T, keep: T -> bool)
    ensures Count(s + [x], keep) == Count(s, keep) + (if keep(x) then 1 else 0)
  {
    FilterAppend(s, [x], keep);
    assert Filter([x], keep) == if keep(x) then [x] else [];
  }

  /**
   * Two tests that always disagree split a sequence in two: their filters
   * share no element and their lengths add up to the whole.
   */
  lemma {:induction false} FilterPartition<T>(s: seq<T>, k1: T -> bool, k2: T -> bool)
    requires forall i | 0 <= i < |s| :: k1(s[i]) != k2(s[i])
    ensures |Filter(s, k1)| + |Filter(s, k2)| == |s|
    ensures forall i | 0 <= i < |Filter(s, k1)| :: Filter(s, k1)[i] !in Filter(s, k2)
  {
    if s != [] {
      FilterPartition(s[1..], k1, k2);
    }
  }

  predicate Distinct<T(==)>(s: seq<T>) {
    forall i, j | 0 <= i < j < |s| :: s[i] != s[j]
  }

  /** Filtering a list without repeats gives a list without repeats. */
  lemma {:induction false} FilterDistinct<T>(s: seq<T>, keep: T -> bool)
    requires Distinct(s)
    ensures Distinct(Filter(s, keep))
  {
    if s != [] {
      assert Distinct(s[1..]);
      FilterDistinct(s[1..], keep);
      var rest := Filter(s[1..], keep);
      assert s[0] !in s[1..];
      assert forall i | 0 <= i < |rest| :: rest[i] != s[0];
    }
  }

  /** How `slice` turns one of its arguments into a position in `0..len`. */
  function JsIndex(len: nat, k: int): (p: nat)
    ensures p <= len
    ensures k >= 0 ==> p == if k < len then k else len
    ensures k < 0 ==> p == if len + k > 0 then len + k else 0
  {
    if k < 0 then (if len + k > 0 then len + k else 0)
    else if k < len then k else len
  }

  /** `s.slice(start)`. */
  function SliceFrom<T>(s: seq<T>, start: int): (r: seq<T>)
    ensures r == s[JsIndex(|s|, start)..]
  {
    s[JsIndex(|s|, start)..]
  }

  /** `s.slice(start, end)`. */
  function Slice<T>(s: seq<T>, start: int, end: int): (r: seq<T>)
    ensures |r| <= |s|
  {
    var a := JsIndex(|s|, start);
    var b := JsIndex(|s|, end);
    if a < b then s[a..b] else []
  }

  /** `s.slice(0, n)` for `n >= 0` keeps the first `min(n, |s|)` elements. */
  lemma SlicePrefix<T>(s: seq<T>, n: nat)
    ensures Slice(s, 0, n) == if n < |s| then s[..n] else s
  {
  }

  /** `s.slice(-n)` for `n > 0` keeps the last `min(n, |s|)` elements; `s.slice(-0)` is all of `s`. */
  lemma SliceLast<T>(s: seq<T>, n: nat)
    ensures SliceFrom(s, 0 - n as int) == if 0 < n < |s| then s[|s| - n..] else s
  {
  }

  /** `[...s].reverse()`. */
  function Reverse<T>(s: seq<T>): (r: seq<T>)
    ensures |r| == |s|
    ensures forall i | 0 <= i < |s| :: r[i] == s[|s| - 1 - i]
  {
    if s == [] then [] else Reverse(s[1..]) + [s[0]]
  }

  /** `s.filter((_, j) => j !== i)`: an index outside the sequence removes nothing. */
  function RemoveAt<T>(s: seq<T>, i: int): (r: seq<T>)
  {
    if s == [] then []
    else if i == 0 then s[1..]
    else [s[0]] + RemoveAt(s[1..], i - 1)
  }

  lemma {:induction false} RemoveAtSpec<T>(s: seq<T>, i: int)
    ensures 0 <= i < |s| ==> RemoveAt(s, i) == s[..i] + s[i + 1..]
    ensures !(0 <= i < |s|) ==> RemoveAt(s, i) == s
  {
    if s != [] && i != 0 {
      RemoveAtSpec(s[1..], i - 1);
      if 0 < i < |s| {
        assert s[..i] == [s[0]] + s[1..][..i - 1];
        assert s[i + 1..] == s[1..][i..];
      }
    }
  }

  /** `s.reduce((sum, x) => sum + f(x), 0)`. */
  function Sum<T>(s: seq<T>, f: T -> int): int
  {
    if s == [] then 0 else f(s[0]) + Sum(s[1..], f)
  }

  lemma {:induction false} SumAppend<T>(a: seq<T>, b: seq<T>, f: T -> int)
    ensures Sum(a + b, f) == Sum(a, f) + Sum(b, f)
  {
    if a == [] {
      assert a + b == b;
    } else {
      assert (a + b)[1..] == a[1..] + b;
      SumAppend(a[1..], b, f);
    }
  }

  /** Sums are monotone: pointwise `f <= g` gives `Sum(f) <= Sum(g)`. */
  lemma {:induction false} SumMonotone<T>(s: seq<T>, f: T -> int, g: T -> int)
    requires forall i | 0 <= i < |s| :: f(s[i]) <= g(s[i])
    ensures Sum(s, f) <= Sum(s, g)
  {
    if s != [] {
      SumMonotone(s[1..], f, g);
    }
  }
}
