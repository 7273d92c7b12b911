/** Small generic building blocks shared by the server and client models:
    an Option type and the JavaScript array operations the source relies on
    (`findIndex`, `filter`, `includes`, `slice(0, n)`). */
module Prelude {

  datatype Option<T> = None | Some(value: T) {
    function GetOr(default: T): T {
      match this
      case Some(v) => v
      case None => default
    }
  }

  /** Number of occurrences of `x` in `s`. */
  function Count<T(==)>(s: seq<T>, x: T): nat
  {
    if s == [] then 0 else (if s[0] == x then 1 else 0) + Count(s[1..], x)
  }

  /** No element occurs twice. */
  predicate NoDuplicates<T(==)>(s: seq<T>)
  {
    forall i, j :: 0 <= i < j < |s| ==> s[i] != s[j]
  }

  /** `a` is an order-preserving sub-list of `b`. */
  predicate IsSubsequence<T(==)>(a: seq<T>, b: seq<T>)
    decreases |b|
  {
    if a == [] then true
    else if b == [] then false
    else if a[0] == b[0] then IsSubsequence(a[1..], b[1..])
    else IsSubsequence(a, b[1..])
  }

  /** `Array.prototype.findIndex`: the first index whose element satisfies `p`. */
  function FindFirst<T>(s: seq<T>, p: T -> bool): (r: Option<nat>)
    ensures r.Some? ==> r.value < |s| && p(s[r.value])
    ensures r.Some? ==> forall k :: 0 <= k < r.value ==> !p(s[k])
    ensures r.None? ==> forall k :: 0 <= k < |s| ==> !p(s[k])
  {
    if s == [] then None
    else if p(s[0]) then Some(0)
    else match FindFirst(s[1..], p)
      case None => None
      case Some(i) => Some(i + 1)
  }

  /** `Array.prototype.filter`: the elements satisfying `keep`, in their original order. */
  function Filter<T>(s: seq<T>, keep: T -> bool): (r: seq<T>)
    ensures |r| <= |s|
    ensures forall k :: 0 <= k < |r| ==> keep(r[k])
  {
    if s == [] then []
    else if keep(s[0]) then [s[0]] + Filter(s[1..], keep)
    else Filter(s[1..], keep)
  }

  /** Filtering with a predicate every element satisfies changes nothing. */
  lemma {:induction false} FilterKeepsAll<T>(s: seq<T>, keep: T -> bool)
    requires forall k :: 0 <= k < |s| ==> keep(s[k])
    ensures Filter(s, keep) == s
  {
    if s != [] {
      FilterKeepsAll(s[1..], keep);
      assert [s[0]] + s[1..] == s;
    }
  }

  /** The kept elements are exactly the elements of `s` that satisfy `keep`. */
  lemma {:induction false} FilterMembers<T>(s: seq<T>, keep: T -> bool)
    ensures forall x :: x in Filter(s, keep) <==> x in s && keep(x)
  {
    if s != [] {
      FilterMembers(s[1..], keep);
      assert s == [s[0]] + s[1..];
    }
  }

  /** `s.slice(0, n)`. */
  function Take<T>(s: seq<T>, n: nat): (r: seq<T>)
    ensures |r| <= n && |r| <= |s|
    ensures r <= s
    ensures |s| <= n ==> r == s
  {
    if |s| <= n then s else s[..n]
  }

  lemma {:induction false} FilterIsSubsequence<T>(s: seq<T>, keep: T -> bool)
    ensures IsSubsequence(Filter(s, keep), s)
  {
    if s != [] {
      FilterIsSubsequence(s[1..], keep);
      if !keep(s[0]) {
        SubsequenceOfTail(Filter(s[1..], keep), s);
      }
    }
  }

  /** A sub-list of the tail of `b` is a sub-list of `b`. */
  lemma {:induction false} SubsequenceOfTail<T>(a: seq<T>, b: seq<T>)
    requires b != []
    requires IsSubsequence(a, b[1..])
    ensures IsSubsequence(a, b)
    decreases |b|, 0
  {
    if a != [] && a[0] == b[0] {
      SubsequenceDropHead(a, b[1..]);
    }
  }

  /** Dropping the head of a sub-list keeps it a sub-list. */
  lemma {:induction false} SubsequenceDropHead<T>(a: seq<T>, b: seq<T>)
    requires a != []
    requires IsSubsequence(a, b)
    ensures IsSubsequence(a[1..], b)
    decreases |b|, 1
  {
    if a[1..] != [] {
      if a[0] == b[0] {
        SubsequenceOfTail(a[1..], b);
      } else {
        SubsequenceDropHead(a, b[1..]);
        SubsequenceOfTail(a[1..], b);
      }
    }
  }

  /** Filtering keeps every occurrence of a kept value and none of a dropped one. */
  lemma {:induction false} FilterCount<T>(s: seq<T>, keep: T -> bool, x: T)
    ensures Count(Filter(s, keep), x) == if keep(x) then Count(s, x) else 0
  {
    if s != [] {
      FilterCount(s[1..], keep, x);
      if keep(s[0]) {
        assert Filter(s, keep)[1..] == Filter(s[1..], keep);
      }
    }
  }

  lemma {:induction false} CountZeroIffAbsent<T>(s: seq<T>, x: T)
    ensures Count(s, x) == 0 <==> x !in s
  {
    if s != [] {
      CountZeroIffAbsent(s[1..], x);
      assert s == [s[0]] + s[1..];
    }
  }

  /** Occurrences in a concatenation add up. */
  lemma {:induction false} CountAppend<T>(a: seq<T>, b: seq<T>, x: T)
    ensures Count(a + b, x) == Count(a, x) + Count(b, x)
  {
    if a != [] {
      CountAppend(a[1..], b, x);
      assert (a + b)[0] == a[0];
      assert (a + b)[1..] == a[1..] + b;
    } else {
      assert a + b == b;
    }
  }

  /** Overwriting position `i` with `v` moves one occurrence from `s[i]` to `v`. */
  lemma {:induction false} CountUpdate<T>(s: seq<T>, i: nat, v: T, x: T)
    requires i < |s|
    ensures Count(s[i := v], x) == Count(s, x) - (if s[i] == x then 1 else 0) + (if v == x then 1 else 0)
  {
    if i == 0 {
      assert s[i := v][1..] == s[1..];
    } else {
      CountUpdate(s[1..], i - 1, v, x);
      assert s[i := v][1..] == s[1..][i - 1 := v];
    }
  }

  /** The first index satisfying `p` is what `FindFirst` returns. */
  lemma {:induction false} FindFirstIs<T>(s: seq<T>, p: T -> bool, i: nat)
    requires i < |s| && p(s[i])
    requires forall k :: 0 <= k < i ==> !p(s[k])
    ensures FindFirst(s, p) == Some(i)
  {
    if i > 0 {
      FindFirstIs(s[1..], p, i - 1);
    }
  }

  /** `Array.prototype.filter` with a callback that may throw: `test`
      answers `None` for an element it throws on, and then so does the
      whole filter. */
  function FilterOrThrow<T>(s: seq<T>, test: T -> Option<bool>): (r: Option<seq<T>>)
    ensures r.None? <==> exists k :: 0 <= k < |s| && test(s[k]).None?
    ensures r.Some? ==> forall k :: 0 <= k < |r.value| ==> test(r.value[k]) == Some(true)
  {
    if s == [] then Some([])
    else
      var head := test(s[0]);
      var rest := FilterOrThrow(s[1..], test);
      if head.None? then None
      else if rest.None? then
        assert exists k :: 1 <= k < |s| && test(s[k]).None? by {
          var k :| 0 <= k < |s[1..]| && test(s[1..][k]).None?;
          assert s[1..][k] == s[k + 1];
        }
        None
      else
        assert forall k :: 1 <= k < |s| ==> test(s[k]).Some? by {
          forall k | 1 <= k < |s|
            ensures test(s[k]).Some?
          {
            assert s[k] == s[1..][k - 1];
          }
        }
        Some(if head.value then [s[0]] + rest.value else rest.value)
  }

  /** What the filter keeps is an order-preserving sub-list. */
  lemma {:induction false} FilterOrThrowIsSubsequence<T>(s: seq<T>, test: T -> Option<bool>)
    requires FilterOrThrow(s, test).Some?
    ensures IsSubsequence(FilterOrThrow(s, test).value, s)
  {
    if s != [] {
      var rest := FilterOrThrow(s[1..], test);
      FilterOrThrowIsSubsequence(s[1..], test);
      if test(s[0]) != Some(true) {
        SubsequenceOfTail(rest.value, s);
      } else {
        assert ([s[0]] + rest.value)[1..] == rest.value;
      }
    }
  }

  /** The filter keeps every element the test accepts. */
  lemma {:induction false} FilterOrThrowKeeps<T>(s: seq<T>, test: T -> Option<bool>, k: nat)
    requires FilterOrThrow(s, test).Some?
    requires k < |s| && test(s[k]) == Some(true)
    ensures s[k] in FilterOrThrow(s, test).value
  {
    var rest := FilterOrThrow(s[1..], test);
    assert rest.Some?;
    if k > 0 {
      assert s[1..][k - 1] == s[k];
      FilterOrThrowKeeps(s[1..], test, k - 1);
    }
  }
}
