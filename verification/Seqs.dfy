/** Order-preserving selection over sequences (JavaScript `Array.prototype.filter`,
    Python `filter`), with the facts every filtering pipeline of the model relies on. */
module Seqs {

  /** The elements of `xs` that satisfy `p`, in their original order. */
  function Filter<T(==)>(xs: seq<T>, p: T -> bool): (r: seq<T>)
    ensures |r| <= |xs|
    ensures forall x :: x in r ==> x in xs && p(x)
    ensures forall x :: x in xs && p(x) ==> x in r
  {
    if xs == [] then []
    else (if p(xs[0]) then [xs[0]] else []) + Filter(xs[1..], p)
  }

  /** `a` can be obtained from `b` by deleting elements (order kept). */
  predicate IsSubsequence<T(==)>(a: seq<T>, b: seq<T>)
    decreases |b|
  {
    if a == [] then true
    else if b == [] then false
    else if a[0] == b[0] then IsSubsequence(a[1..], b[1..])
    else IsSubsequence(a, b[1..])
  }

  /** Regrouping a concatenation, for proofs that must match terms written
      the other way round. */
  lemma {:induction false} AppendAssoc<T>(a: seq<T>, b: seq<T>, c: seq<T>)
    ensures (a + b) + c == a + (b + c)
  {
  }

  /** The first `i + 1` elements are the first `i` and then the next one. */
  lemma {:induction false} MiddleIndex<T>(a: seq<T>, b: seq<T>, c: seq<T>, i: nat)
    requires i < |b|
    ensures (a + b + c)[|a| + i] == b[i]
  {
  }

  lemma {:induction false} TakeSnoc<T>(xs: seq<T>, i: nat)
    requires i < |xs|
    ensures xs[..i + 1] == xs[..i] + [xs[i]]
  {
  }

  /** Filtering one more element of a prefix. */
  lemma {:induction false} FilterStep<T>(xs: seq<T>, i: nat, p: T -> bool)
    requires i < |xs|
    ensures Filter(xs[..i + 1], p) == Filter(xs[..i], p) + (if p(xs[i]) then [xs[i]] else [])
  {
    TakeSnoc(xs, i);
    FilterAppend(xs[..i], [xs[i]], p);
    assert Filter([xs[i]], p) == (if p(xs[i]) then [xs[i]] else []) + Filter([], p);
  }

  /** Every element the filter keeps comes from its input and passes the test. */
  lemma {:induction false} FilterElements<T>(xs: seq<T>, p: T -> bool)
    ensures forall i :: 0 <= i < |Filter(xs, p)| ==> Filter(xs, p)[i] in xs && p(Filter(xs, p)[i])
  {
    var r := Filter(xs, p);
    assert forall i :: 0 <= i < |r| ==> r[i] in r;
  }

  /** Filtering never reorders: its result is a subsequence of its input. */
  lemma {:induction false} FilterIsSubsequence<T>(xs: seq<T>, p: T -> bool)
    ensures IsSubsequence(Filter(xs, p), xs)
  {
    if xs != [] {
      FilterIsSubsequence(xs[1..], p);
      var r := Filter(xs, p);
      if p(xs[0]) {
        assert r == [xs[0]] + Filter(xs[1..], p);
        assert r[1..] == Filter(xs[1..], p);
      } else {
        assert r == Filter(xs[1..], p);
        assert r != [] ==> r[0] != xs[0] by {
          if r != [] { assert r[0] in r; }
        }
      }
    }
  }

  /** Filtering with a predicate that holds on every element changes nothing. */
  lemma {:induction false} FilterKeepsAll<T>(xs: seq<T>, p: T -> bool)
    requires forall i :: 0 <= i < |xs| ==> p(xs[i])
    ensures Filter(xs, p) == xs
  {
    if xs != [] {
      assert forall i :: 0 <= i < |xs[1..]| ==> xs[1..][i] == xs[i + 1];
      FilterKeepsAll(xs[1..], p);
      assert Filter(xs, p) == [xs[0]] + xs[1..];
    }
  }

  /** A non-empty filter result has a witness in the input. */
  lemma {:induction false} FilterEmptyWitness<T>(xs: seq<T>, p: T -> bool)
    requires Filter(xs, p) != []
    ensures exists i :: 0 <= i < |xs| && p(xs[i])
  {
    var x := Filter(xs, p)[0];
    assert x in Filter(xs, p);
    var j :| 0 <= j < |xs| && xs[j] == x;
    assert p(xs[j]);
  }

  /** Filtering with a predicate that holds everywhere changes nothing,
      and with one that holds nowhere leaves nothing. */
  lemma {:induction false} FilterAllOrNothing<T>(xs: seq<T>, p: T -> bool)
    ensures (forall i :: 0 <= i < |xs| ==> p(xs[i])) ==> Filter(xs, p) == xs
    ensures (forall i :: 0 <= i < |xs| ==> !p(xs[i])) <==> Filter(xs, p) == []
  {
    if forall i :: 0 <= i < |xs| ==> p(xs[i]) {
      FilterKeepsAll(xs, p);
    }
    if Filter(xs, p) != [] {
      FilterEmptyWitness(xs, p);
    }
    if exists i :: 0 <= i < |xs| && p(xs[i]) {
      var i :| 0 <= i < |xs| && p(xs[i]);
      assert xs[i] in xs;
    }
  }

  /** Filtering distributes over concatenation. */
  lemma {:induction false} FilterAppend<T>(xs: seq<T>, ys: seq<T>, p: T -> bool)
    ensures Filter(xs + ys, p) == Filter(xs, p) + Filter(ys, p)
  {
    if xs != [] {
      var h := if p(xs[0]) then [xs[0]] else [];
      assert (xs + ys)[0] == xs[0] && (xs + ys)[1..] == xs[1..] + ys;
      FilterAppend(xs[1..], ys, p);
      assert Filter(xs + ys, p) == h + Filter(xs[1..] + ys, p);
      assert Filter(xs, p) == h + Filter(xs[1..], p);
      AppendAssoc(h, Filter(xs[1..], p), Filter(ys, p));
    } else {
      assert xs + ys == ys;
    }
  }

  /** If `a` is a subsequence of `t`, then `a` without its head (equal to `h`)
      is one of `[h] + t`'s tail: the subsequence relation tolerates matching
      the head earlier. */
  lemma {:induction false} SubsequenceDropHead<T>(a: seq<T>, t: seq<T>, h: T)
    requires a != [] && a[0] == h && IsSubsequence(a, t)
    ensures IsSubsequence(a[1..], t)
    decreases |t|
  {
    if t != [] {
      if a[0] == t[0] {
        SubsequenceWeaken(a[1..], t[1..], t[0]);
      } else {
        SubsequenceDropHead(a, t[1..], h);
        SubsequenceWeaken(a[1..], t[1..], t[0]);
      }
    }
  }

  /** A subsequence of `t` is one of `[x] + t`. */
  lemma {:induction false} SubsequenceWeaken<T>(a: seq<T>, t: seq<T>, x: T)
    requires IsSubsequence(a, t)
    ensures IsSubsequence(a, [x] + t)
    decreases |t|
  {
    if a != [] {
      assert ([x] + t)[1..] == t;
      if a[0] == x {
        if t != [] {
          if a[0] == t[0] {
            SubsequenceWeaken(a[1..], t[1..], t[0]);
            assert [t[0]] + t[1..] == t;
          } else {
            SubsequenceDropHead(a, t[1..], x);
            SubsequenceWeaken(a[1..], t[1..], t[0]);
            assert [t[0]] + t[1..] == t;
          }
        }
      }
    }
  }

  /** Being a subsequence is transitive. */
  lemma {:induction false} SubsequenceTrans<T>(a: seq<T>, b: seq<T>, c: seq<T>)
    requires IsSubsequence(a, b) && IsSubsequence(b, c)
    ensures IsSubsequence(a, c)
    decreases |c|
  {
    if a != [] && b != [] && c != [] {
      if b[0] == c[0] {
        if a[0] == b[0] {
          SubsequenceTrans(a[1..], b[1..], c[1..]);
        } else {
          SubsequenceTrans(a, b[1..], c[1..]);
        }
      } else {
        SubsequenceTrans(a, b, c[1..]);
        if a[0] == c[0] {
          SubsequenceDropHead(a, c[1..], c[0]);
        }
      }
    }
  }
}
