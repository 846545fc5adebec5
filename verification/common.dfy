/** Optional values: JavaScript's `undefined` / `null` for a field or a lookup. */
module Options {

  datatype Option<+T> = None | Some(value: T) {

    /** The value, or `default` when absent: the `x || default` idiom for a
        field that is either missing or set. */
    function GetOr(default: T): T {
      match this
      case Some(v) => v
      case None => default
    }
  }
}

/** Sequence helpers shared by every list operation of the ledger: the
    store keeps each collection as an ordered list, and every query is a
    `filter`, `find`, `map` or `reduce` over it. */
module Seqs {
  import opened Options

  /** `a` occurs inside `b` in the same order, possibly with gaps. */
  predicate IsSublist<T(==)>(a: seq<T>, b: seq<T>)
    decreases |b|
  {
    |a| == 0 || (|b| > 0 && ((a[0] == b[0] && IsSublist(a[1..], b[1..])) || IsSublist(a, b[1..])))
  }

  lemma {:induction false} SublistRefl<T>(s: seq<T>)
    ensures IsSublist(s, s)
    decreases |s|
  {
    if |s| > 0 {
      SublistRefl(s[1..]);
    }
  }

  lemma {:induction false} SublistTrans<T>(a: seq<T>, b: seq<T>, c: seq<T>)
    requires IsSublist(a, b) && IsSublist(b, c)
    ensures IsSublist(a, c)
    decreases |c|
  {
    if |a| > 0 {
      if b[0] == c[0] && IsSublist(b[1..], c[1..]) {
        if a[0] == b[0] && IsSublist(a[1..], b[1..]) {
          SublistTrans(a[1..], b[1..], c[1..]);
        } else {
          SublistTrans(a, b[1..], c[1..]);
        }
      } else {
        SublistTrans(a, b, c[1..]);
      }
    }
  }

  lemma {:induction false} SublistMembers<T>(a: seq<T>, b: seq<T>)
    requires IsSublist(a, b)
    ensures forall x :: x in a ==> x in b
    decreases |b|
  {
    if |a| > 0 {
      if a[0] == b[0] && IsSublist(a[1..], b[1..]) {
        SublistMembers(a[1..], b[1..]);
        forall x | x in a ensures x in b {
          if x != a[0] {
            assert x in a[1..];
          }
        }
      } else {
        SublistMembers(a, b[1..]);
      }
    }
  }

  /** Every earlier element stands in relation `before` to every later one. */
  predicate Ordered<T>(s: seq<T>, before: (T, T) -> bool) {
    forall i, j :: 0 <= i < j < |s| ==> before(s[i], s[j])
  }

  /** Dropping elements keeps an ordered list ordered. */
  lemma {:induction false} SublistOrdered<T>(a: seq<T>, b: seq<T>, before: (T, T) -> bool)
    requires IsSublist(a, b) && Ordered(b, before)
    ensures Ordered(a, before)
    decreases |b|
  {
    if |a| > 0 {
      assert Ordered(b[1..], before) by {
        forall i, j | 0 <= i < j < |b| - 1 ensures before(b[1..][i], b[1..][j]) {
          assert b[1..][i] == b[i + 1] && b[1..][j] == b[j + 1];
        }
      }
      if a[0] == b[0] && IsSublist(a[1..], b[1..]) {
        SublistOrdered(a[1..], b[1..], before);
        SublistMembers(a[1..], b[1..]);
        forall i, j | 0 <= i < j < |a| ensures before(a[i], a[j]) {
          if i == 0 {
            assert a[j] == a[1..][j - 1];
            assert a[j] in a[1..];
            assert a[j] in b[1..];
            var k :| 0 <= k < |b[1..]| && b[1..][k] == a[j];
            assert b[k + 1] == a[j];
          } else {
            assert a[i] == a[1..][i - 1] && a[j] == a[1..][j - 1];
          }
        }
      } else {
        SublistOrdered(a, b[1..], before);
      }
    }
  }

  /** `Array.prototype.filter`: the elements that satisfy `keep`, in order. */
  function Filter<T(==,!new)>(s: seq<T>, keep: T -> bool): (r: seq<T>)
    ensures |r| <= |s|
    ensures forall x :: x in r <==> x in s && keep(x)
    ensures IsSublist(r, s)
  {
    if |s| == 0 then []
    else
      var rest := Filter(s[1..], keep);
      if keep(s[0]) then
        assert ([s[0]] + rest)[1..] == rest;
        [s[0]] + rest
      else rest
  }

  lemma {:induction false} FilterAppend<T(!new)>(a: seq<T>, b: seq<T>, keep: T -> bool)
    ensures Filter(a + b, keep) == Filter(a, keep) + Filter(b, keep)
    decreases |a|
  {
    if |a| == 0 {
      assert a + b == b;
    } else {
      assert (a + b)[1..] == a[1..] + b;
      FilterAppend(a[1..], b, keep);
    }
  }

  /** A filter keeps every copy of each element it keeps: each element
      occurs in the result as often as in the input, or not at all. */
  lemma {:induction false} FilterCount<T(!new)>(s: seq<T>, keep: T -> bool)
    ensures forall x :: multiset(Filter(s, keep))[x] == if keep(x) then multiset(s)[x] else 0
    decreases |s|
  {
    if |s| > 0 {
      FilterCount(s[1..], keep);
      assert s == [s[0]] + s[1..];
      if keep(s[0]) {
        assert Filter(s, keep) == [s[0]] + Filter(s[1..], keep);
      }
    }
  }

  /** A filter that keeps everything returns the list itself. */
  lemma {:induction false} FilterKeepsAll<T(!new)>(s: seq<T>, keep: T -> bool)
    requires forall i :: 0 <= i < |s| ==> keep(s[i])
    ensures Filter(s, keep) == s
    decreases |s|
  {
    if |s| > 0 {
      assert keep(s[0]);
      FilterKeepsAll(s[1..], keep);
    }
  }

  /** Filtering twice is filtering once by the conjunction. */
  lemma {:induction false} FilterFilter<T(!new)>(s: seq<T>, f: T -> bool, g: T -> bool)
    ensures Filter(Filter(s, f), g) == Filter(s, x => f(x) && g(x))
    decreases |s|
  {
    if |s| > 0 {
      FilterFilter(s[1..], f, g);
      if f(s[0]) {
        var rest := Filter(s[1..], f);
        assert ([s[0]] + rest)[1..] == rest;
      }
    }
  }

  /** Two predicates that agree on every element filter identically. */
  lemma {:induction false} FilterCongruent<T(!new)>(s: seq<T>, f: T -> bool, g: T -> bool)
    requires forall i :: 0 <= i < |s| ==> f(s[i]) == g(s[i])
    ensures Filter(s, f) == Filter(s, g)
    decreases |s|
  {
    if |s| > 0 {
      FilterCongruent(s[1..], f, g);
    }
  }

  /** `Array.prototype.map` with a per-element change applied only where
      `hit` holds: the shape of every merge-update of the ledger. */
  function UpdateWhere<T>(s: seq<T>, hit: T -> bool, change: T -> T): (r: seq<T>)
    ensures |r| == |s|
    ensures forall i :: 0 <= i < |s| ==> r[i] == (if hit(s[i]) then change(s[i]) else s[i])
  {
    if |s| == 0 then []
    else [if hit(s[0]) then change(s[0]) else s[0]] + UpdateWhere(s[1..], hit, change)
  }

  /** `Array.prototype.find`: the first element that satisfies `hit`. */
  function FindFirst<T(==)>(s: seq<T>, hit: T -> bool): (r: Option<T>)
    ensures r.Some? <==> exists i :: 0 <= i < |s| && hit(s[i])
    ensures r.Some? ==> exists i :: 0 <= i < |s| && s[i] == r.value && hit(s[i])
                                    && forall j :: 0 <= j < i ==> !hit(s[j])
  {
    if |s| == 0 then None
    else if hit(s[0]) then Some(s[0])
    else
      var r := FindFirst(s[1..], hit);
      assert forall i :: 1 <= i < |s| ==> s[i] == s[1..][i - 1];
      if r.Some? then
        var k :| 0 <= k < |s[1..]| && s[1..][k] == r.value && hit(s[1..][k])
                 && forall j :: 0 <= j < k ==> !hit(s[1..][j]);
        assert s[k + 1] == r.value;
        r
      else r
  }

  /** `reduce((sum, x) => sum + f(x), 0)` over exact amounts. */
  function SumOf<T>(s: seq<T>, f: T -> real): real {
    if |s| == 0 then 0.0 else f(s[0]) + SumOf(s[1..], f)
  }

  lemma {:induction false} SumOfAppend<T>(a: seq<T>, b: seq<T>, f: T -> real)
    ensures SumOf(a + b, f) == SumOf(a, f) + SumOf(b, f)
    decreases |a|
  {
    if |a| == 0 {
      assert a + b == b;
    } else {
      assert (a + b)[1..] == a[1..] + b;
      SumOfAppend(a[1..], b, f);
    }
  }

  /** A sum of non-negative terms is at least the sum over any filtered part. */
  lemma {:induction false} SumOfFilterAtMost<T(!new)>(s: seq<T>, keep: T -> bool, f: T -> real)
    requires forall i :: 0 <= i < |s| ==> f(s[i]) >= 0.0
    ensures 0.0 <= SumOf(Filter(s, keep), f) <= SumOf(s, f)
    decreases |s|
  {
    if |s| > 0 {
      SumOfFilterAtMost(s[1..], keep, f);
      if keep(s[0]) {
        var rest := Filter(s[1..], keep);
        assert ([s[0]] + rest)[1..] == rest;
      }
    }
  }

  /** `reduce((n, x) => n + f(x), 0)` over whole numbers. */
  function SumInt<T>(s: seq<T>, f: T -> int): int {
    if |s| == 0 then 0 else f(s[0]) + SumInt(s[1..], f)
  }

  lemma {:induction false} SumIntAppend<T>(a: seq<T>, b: seq<T>, f: T -> int)
    ensures SumInt(a + b, f) == SumInt(a, f) + SumInt(b, f)
    decreases |a|
  {
    if |a| == 0 {
      assert a + b == b;
    } else {
      assert (a + b)[1..] == a[1..] + b;
      SumIntAppend(a[1..], b, f);
    }
  }

  /** Sums of two equally long lists agree when their terms agree pointwise. */
  lemma {:induction false} SumIntPointwise<T, U>(a: seq<T>, f: T -> int, b: seq<U>, g: U -> int)
    requires |a| == |b|
    requires forall i :: 0 <= i < |a| ==> f(a[i]) == g(b[i])
    ensures SumInt(a, f) == SumInt(b, g)
    decreases |a|
  {
    if |a| > 0 {
      SumIntPointwise(a[1..], f, b[1..], g);
    }
  }

  /** `Array.prototype.reverse`. */
  function Reverse<T(==,!new)>(s: seq<T>): (r: seq<T>)
    ensures |r| == |s|
    ensures forall i :: 0 <= i < |s| ==> r[i] == s[|s| - 1 - i]
    ensures forall x :: x in r <==> x in s
  {
    if |s| == 0 then [] else Reverse(s[1..]) + [s[0]]
  }
}

/** The string operations the search filters use. Lower-casing covers the
    ASCII letters only. */
module Text {

  function LowerChar(c: char): char {
    if 'A' <= c <= 'Z' then (c as int + 32) as char else c
  }

  /** `String.prototype.toLowerCase`, on ASCII letters. */
  function Lower(s: string): (r: string)
    ensures |r| == |s|
    ensures forall i :: 0 <= i < |s| ==> r[i] == LowerChar(s[i])
  {
    if |s| == 0 then "" else [LowerChar(s[0])] + Lower(s[1..])
  }

  predicate StartsWith(s: string, t: string) {
    |t| <= |s| && s[..|t|] == t
  }

  /** `String.prototype.includes`: `t` occurs in `s` as a contiguous block. */
  predicate Contains(s: string, t: string)
    decreases |s|
  {
    StartsWith(s, t) || (|s| > 0 && Contains(s[1..], t))
  }

  /** A copy of `t` starts at offset `k` of `s`. */
  predicate OccursAt(s: string, t: string, k: int) {
    0 <= k <= |s| - |t| && s[k..k + |t|] == t
  }

  /** `Contains` means what it says: some offset of `s` starts a copy of `t`. */
  lemma {:induction false} ContainsAt(s: string, t: string)
    ensures Contains(s, t) <==> exists k :: OccursAt(s, t, k)
    decreases |s|
  {
    if |s| > 0 {
      ContainsAt(s[1..], t);
      if exists k :: OccursAt(s, t, k) {
        var k :| OccursAt(s, t, k);
        if k > 0 {
          assert s[1..][k - 1..k - 1 + |t|] == s[k..k + |t|];
          assert OccursAt(s[1..], t, k - 1);
        } else {
          assert s[..|t|] == s[0..|t|];
        }
      }
      if Contains(s, t) {
        if StartsWith(s, t) {
          assert s[0..|t|] == s[..|t|];
          assert OccursAt(s, t, 0);
        } else {
          var k :| OccursAt(s[1..], t, k);
          assert s[1..][k..k + |t|] == s[k + 1..k + 1 + |t|];
          assert OccursAt(s, t, k + 1);
        }
      }
    } else {
      if |t| == 0 {
        assert OccursAt(s, t, 0);
      }
    }
  }

  /** Every string contains the empty string. */
  lemma ContainsEmpty(s: string)
    ensures Contains(s, "")
  {
    assert s[..0] == "";
  }

  /** `String.prototype.slice(-n)`: the last `n` characters, or all of a
      shorter string. */
  function LastChars(s: string, n: nat): (r: string)
    ensures |r| == if |s| < n then |s| else n
    ensures r == s[|s| - |r|..]
  {
    if |s| <= n then s else s[|s| - n..]
  }
}

/** Exact money. The source works in binary floating point and rounds with
    `toFixed(2)`; here amounts are exact reals and the rounding is one
    function. */
module Money {

  /** `x` is a whole number of cents. */
  predicate IsCents(x: real) {
    (x * 100.0).Floor as real == x * 100.0
  }

  /** `parseFloat(x.toFixed(2))`: round to the nearest cent, ties away from
      zero (`toFixed` rounds the magnitude half up). */
  function Round2(x: real): (r: real)
    ensures IsCents(r)
    ensures x >= 0.0 ==> r >= 0.0 && x - 0.005 < r <= x + 0.005
    ensures x < 0.0 ==> r <= 0.0 && x - 0.005 <= r < x + 0.005
  {
    if x >= 0.0 then
      var n := (x * 100.0 + 0.5).Floor;
      assert (n as real / 100.0) * 100.0 == n as real;
      n as real / 100.0
    else
      var n := ((0.0 - x) * 100.0 + 0.5).Floor;
      assert (0.0 - n as real / 100.0) * 100.0 == 0.0 - n as real;
      assert ((0.0 - n as real) ).Floor == 0 - n;
      0.0 - n as real / 100.0
  }

  /** Rounding an amount that is already in cents changes nothing, so
      re-rounding a persisted total never drifts. */
  lemma Round2OfCents(x: real)
    requires IsCents(x)
    ensures Round2(x) == x
  {
    var k := (x * 100.0).Floor;
    if x >= 0.0 {
      assert (x * 100.0 + 0.5).Floor == k;
    } else {
      assert ((0.0 - x) * 100.0 + 0.5).Floor == 0 - k;
    }
  }

  lemma Round2Idempotent(x: real)
    ensures Round2(Round2(x)) == Round2(x)
  {
    Round2OfCents(Round2(x));
  }

  /** Whole cents add up to whole cents. */
  lemma CentsAdd(x: real, y: real)
    requires IsCents(x) && IsCents(y)
    ensures IsCents(x + y) && IsCents(x - y)
  {
    var a := (x * 100.0).Floor;
    var b := (y * 100.0).Floor;
    assert x * 100.0 == a as real && y * 100.0 == b as real;
    assert (x + y) * 100.0 == x * 100.0 + y * 100.0;
    assert (x - y) * 100.0 == x * 100.0 - y * 100.0;
    assert ((a + b) as real).Floor == a + b;
    assert ((a - b) as real).Floor == a - b;
  }

  /** An amount at most a whole-cent bound still is after rounding. */
  lemma Round2AtMostCents(x: real, bound: real)
    requires IsCents(bound) && x <= bound
    ensures Round2(x) <= bound
  {
    Round2Monotone(x, bound);
    Round2OfCents(bound);
  }

  /** Rounding never reverses the order of two amounts. */
  lemma Round2Monotone(x: real, y: real)
    requires x <= y
    ensures Round2(x) <= Round2(y)
  {
    if x >= 0.0 {
      assert (x * 100.0 + 0.5).Floor <= (y * 100.0 + 0.5).Floor;
    } else if y < 0.0 {
      assert ((0.0 - y) * 100.0 + 0.5).Floor <= ((0.0 - x) * 100.0 + 0.5).Floor;
    }
  }
}
