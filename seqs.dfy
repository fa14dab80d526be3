/** Small value wrappers and order-preserving sequence filtering shared by the
    views, the client event list and the search boxes. */
module Seqs {

  datatype Option<+T> = None | Some(value: T) {
    function GetOr(default: T): T {
      match this
      case Some(v) => v
      case None => default
    }
  }

  /** `Filter(p, s)`: the elements of `s` that satisfy `p`, in their original
      order (JavaScript's `Array.prototype.filter`). */
  function Filter<T>(p: T -> bool, s: seq<T>): (r: seq<T>)
    ensures |r| <= |s|
    ensures forall x :: x in r ==> x in s && p(x)
  {
    if s == [] then []
    else if p(s[0]) then [s[0]] + Filter(p, s[1..])
    else Filter(p, s[1..])
  }

  /** `sub` is obtained from `s` by deleting some elements (order kept). */
  predicate IsSubsequence<T(==)>(sub: seq<T>, s: seq<T>)
    decreases |s|
  {
    if sub == [] then true
    else if s == [] then false
    else if sub[0] == s[0] then IsSubsequence(sub[1..], s[1..])
    else IsSubsequence(sub, s[1..])
  }

  /** Number of elements of `s` satisfying `p`. */
  function Count<T>(p: T -> bool, s: seq<T>): nat {
    if s == [] then 0 else (if p(s[0]) then 1 else 0) + Count(p, s[1..])
  }

  lemma {:induction false} FilterMembership<T>(p: T -> bool, s: seq<T>, x: T)
    ensures x in Filter(p, s) <==> x in s && p(x)
  {
    if s != [] {
      FilterMembership(p, s[1..], x);
      assert s == [s[0]] + s[1..];
    }
  }

  lemma {:induction false} FilterIsSubsequence<T>(p: T -> bool, s: seq<T>)
    ensures IsSubsequence(Filter(p, s), s)
  {
    if s != [] {
      FilterIsSubsequence(p, s[1..]);
      var r := Filter(p, s[1..]);
      if p(s[0]) {
        assert Filter(p, s)[1..] == r;
      } else if Filter(p, s) != [] {
        SubsequenceSkip(r, s[0], s[1..]);
      }
    }
  }

  /** Skipping a leading element of the larger sequence keeps the relation. */
  lemma SubsequenceSkip<T>(sub: seq<T>, x: T, s: seq<T>)
    requires IsSubsequence(sub, s)
    ensures IsSubsequence(sub, [x] + s)
  {
    assert ([x] + s)[1..] == s;
    if sub != [] && sub[0] == x {
      SubsequenceDropHead(sub, s);
    }
  }

  /** Dropping the first element of a subsequence keeps it a subsequence. */
  lemma {:induction false} SubsequenceDropHead<T>(sub: seq<T>, s: seq<T>)
    requires sub != [] && IsSubsequence(sub, s)
    ensures IsSubsequence(sub[1..], s)
    decreases |s|
  {
    var u := sub[1..];
    if sub[0] == s[0] {
      assert IsSubsequence(u, s[1..]);
    } else {
      SubsequenceDropHead(sub, s[1..]);
    }
    if u != [] && u[0] == s[0] {
      SubsequenceDropHead(u, s[1..]);
    }
  }

  lemma {:induction false} FilterCount<T>(p: T -> bool, s: seq<T>)
    ensures |Filter(p, s)| == Count(p, s)
  {
    if s != [] {
      FilterCount(p, s[1..]);
    }
  }

  /** When every element passes, filtering returns the input unchanged. */
  lemma {:induction false} FilterAllPass<T>(p: T -> bool, s: seq<T>)
    requires forall i :: 0 <= i < |s| ==> p(s[i])
    ensures Filter(p, s) == s
  {
    if s != [] {
      FilterAllPass(p, s[1..]);
    }
  }

  /** When no element passes, filtering returns the empty sequence. */
  lemma {:induction false} FilterNonePass<T>(p: T -> bool, s: seq<T>)
    requires forall i :: 0 <= i < |s| ==> !p(s[i])
    ensures Filter(p, s) == []
  {
    if s != [] {
      FilterNonePass(p, s[1..]);
    }
  }

  /** Filtering distributes over concatenation. */
  lemma {:induction false} FilterAppend<T>(p: T -> bool, a: seq<T>, b: seq<T>)
    ensures Filter(p, a + b) == Filter(p, a) + Filter(p, b)
  {
    if a != [] {
      FilterAppend(p, a[1..], b);
      assert (a + b)[0] == a[0] && (a + b)[1..] == a[1..] + b;
      assert Filter(p, a + b) == (if p(a[0]) then [a[0]] else []) + Filter(p, a[1..] + b);
    } else {
      assert a + b == b;
    }
  }

  /** `Take(s, n)`: the first `min(n, |s|)` elements (`s.slice(0, n)`). */
  function Take<T>(s: seq<T>, n: nat): (r: seq<T>)
    ensures |r| == if |s| < n then |s| else n
    ensures forall i :: 0 <= i < |r| ==> r[i] == s[i]
  {
    if |s| <= n then s else s[..n]
  }

  /** Flattening a sequence of rows. */
  function Flatten<T>(rows: seq<seq<T>>): seq<T> {
    if rows == [] then [] else rows[0] + Flatten(rows[1..])
  }

  lemma {:induction false} FlattenAppend<T>(rows: seq<seq<T>>, row: seq<T>)
    ensures Flatten(rows + [row]) == Flatten(rows) + row
  {
    if rows != [] {
      assert (rows + [row])[1..] == rows[1..] + [row];
      FlattenAppend(rows[1..], row);
    } else {
      assert rows + [row] == [row];
    }
  }

  /** All rows have exactly `w` elements, so the flattened length is rows * w. */
  lemma {:induction false} FlattenUniformLength<T>(rows: seq<seq<T>>, w: nat)
    requires forall i :: 0 <= i < |rows| ==> |rows[i]| == w
    ensures |Flatten(rows)| == |rows| * w
  {
    if rows != [] {
      FlattenUniformLength(rows[1..], w);
    }
  }

  /** Rows that are all empty flatten to nothing. */
  lemma {:induction false} FlattenEmptyRows<T>(rows: seq<seq<T>>)
    requires forall i :: 0 <= i < |rows| ==> rows[i] == []
    ensures Flatten(rows) == []
  {
    if rows != [] {
      FlattenEmptyRows(rows[1..]);
    }
  }
}
