/**
 Generic facts about sequences: duplicate-free sequences, order-preserving
 subsequences, flattening, and the first-occurrence de-duplication that
 Python's `list(dict.fromkeys(xs))` performs.
 */
module Seqs {

  /** No value occurs twice. */
  ghost predicate NoDup<T>(xs: seq<T>) {
    forall i, j :: 0 <= i < j < |xs| ==> xs[i] != xs[j]
  }

  /** `a` is `b` with some elements left out and the rest kept in order. */
  ghost predicate IsSubseq<T>(a: seq<T>, b: seq<T>)
    decreases |b|
  {
    || |a| == 0
    || (&& |b| > 0
        && (|| (a[|a| - 1] == b[|b| - 1] && IsSubseq(a[..|a| - 1], b[..|b| - 1]))
            || IsSubseq(a, b[..|b| - 1])))
  }

  lemma SubseqExtend<T>(a: seq<T>, b: seq<T>, x: T)
    requires IsSubseq(a, b)
    ensures IsSubseq(a, b + [x])
    ensures IsSubseq(a + [x], b + [x])
  {
    assert (b + [x])[..|b|] == b;
    assert (a + [x])[..|a|] == a;
  }

  /** Every element of a subsequence occurs in the sequence. */
  lemma {:induction false} SubseqMembers<T>(a: seq<T>, b: seq<T>)
    requires IsSubseq(a, b)
    ensures forall i :: 0 <= i < |a| ==> a[i] in b
    decreases |b|
  {
    if |a| > 0 {
      var a' := a[..|a| - 1];
      var b' := b[..|b| - 1];
      assert b == b' + [b[|b| - 1]];
      if a[|a| - 1] == b[|b| - 1] && IsSubseq(a', b') {
        SubseqMembers(a', b');
        forall i | 0 <= i < |a|
          ensures a[i] in b
        {
          if i < |a| - 1 {
            assert a[i] == a'[i];
          }
        }
      } else {
        SubseqMembers(a, b');
      }
    }
  }

  /** Index of the first occurrence of `x` in `xs`. */
  function FirstIndex<T(==)>(xs: seq<T>, x: T): (i: nat)
    requires x in xs
    ensures i < |xs| && xs[i] == x
    ensures forall k :: 0 <= k < i ==> xs[k] != x
  {
    if xs[0] == x then 0 else 1 + FirstIndex(xs[1..], x)
  }

  lemma FirstIndexAppend<T>(xs: seq<T>, y: T, x: T)
    requires x in xs
    ensures x in xs + [y] && FirstIndex(xs + [y], x) == FirstIndex(xs, x)
  {
    var i := FirstIndex(xs, x);
    var j := FirstIndex(xs + [y], x);
    assert (xs + [y])[i] == x;
    assert xs[j] == x by {
      if j >= i { } else { assert j < |xs|; }
    }
  }

  /**
   The elements of `xs` in order of first occurrence, each once: Python's
   `list(dict.fromkeys(xs))`. Defined from the right: the last element is
   kept only if it did not occur before.
   */
  function Unique<T(==)>(xs: seq<T>): (r: seq<T>)
    ensures NoDup(r)
    ensures forall i :: 0 <= i < |r| ==> r[i] in xs
    ensures forall i :: 0 <= i < |xs| ==> xs[i] in r
    ensures |r| <= |xs|
    ensures |xs| > 0 ==> |r| > 0 && r[0] == xs[0]
    decreases |xs|
  {
    if |xs| == 0 then []
    else
      var p := Unique(xs[..|xs| - 1]);
      var x := xs[|xs| - 1];
      assert xs == xs[..|xs| - 1] + [x];
      if x in p then p else p + [x]
  }

  /** The kept elements appear in the order of their first occurrences. */
  lemma {:induction false} UniqueKeepsFirstOccurrenceOrder<T>(xs: seq<T>)
    ensures forall i, j :: 0 <= i < j < |Unique(xs)| ==>
      FirstIndex(xs, Unique(xs)[i]) < FirstIndex(xs, Unique(xs)[j])
    decreases |xs|
  {
    if |xs| > 0 {
      var front := xs[..|xs| - 1];
      var x := xs[|xs| - 1];
      assert xs == front + [x];
      UniqueKeepsFirstOccurrenceOrder(front);
      var p := Unique(front);
      var u := Unique(xs);
      assert u == p || (x !in p && u == p + [x]);
      forall i, j | 0 <= i < j < |u|
        ensures FirstIndex(xs, u[i]) < FirstIndex(xs, u[j])
      {
        assert u[i] == p[i];
        FirstIndexAppend(front, x, p[i]);
        if j < |p| {
          assert u[j] == p[j];
          FirstIndexAppend(front, x, p[j]);
        } else {
          assert u[j] == x && x !in front;
          assert FirstIndex(xs, x) == |front|;
        }
      }
    }
  }

  /** A sequence without duplicates is its own de-duplication. */
  lemma {:induction false} UniqueOfNoDup<T>(xs: seq<T>)
    requires NoDup(xs)
    ensures Unique(xs) == xs
    decreases |xs|
  {
    if |xs| > 0 {
      var front := xs[..|xs| - 1];
      UniqueOfNoDup(front);
      assert xs[|xs| - 1] !in front;
    }
  }

  /** De-duplicating `a + b` starts with the de-duplication of `a`. */
  lemma {:induction false} UniquePrefix<T>(a: seq<T>, b: seq<T>)
    ensures |Unique(a)| <= |Unique(a + b)|
    ensures Unique(a + b)[..|Unique(a)|] == Unique(a)
    decreases |b|
  {
    if |b| == 0 {
      assert a + b == a;
    } else {
      var b' := b[..|b| - 1];
      UniquePrefix(a, b');
      assert (a + b)[..|a + b| - 1] == a + b';
    }
  }

  /** De-duplicating a duplicate-free `a` followed by two values appends each value not seen before, in order. */
  lemma {:induction false} UniqueAfterTwo<T>(a: seq<T>, x: T, y: T)
    requires NoDup(a) && x != y
    ensures Unique(a + [x] + [y]) == a + (if x in a then [] else [x]) + (if y in a then [] else [y])
  {
    var u := a + (if x in a then [] else [x]);
    assert Unique(a + [x]) == u by {
      UniqueOfNoDup(a);
      UniqueSnoc(a, x);
    }
    assert (y in u) == (y in a);
    UniqueSnoc(a + [x], y);
  }

  lemma {:induction false} UniqueSnoc<T>(xs: seq<T>, x: T)
    ensures Unique(xs + [x]) == if x in Unique(xs) then Unique(xs) else Unique(xs) + [x]
  {
    assert (xs + [x])[..|xs|] == xs;
  }

  /** Concatenation of a sequence of sequences. */
  function Flatten<T>(xss: seq<seq<T>>): (r: seq<T>)
    decreases |xss|
  {
    if |xss| == 0 then [] else xss[0] + Flatten(xss[1..])
  }

  lemma {:induction false} FlattenAppend<T>(a: seq<seq<T>>, b: seq<seq<T>>)
    ensures Flatten(a + b) == Flatten(a) + Flatten(b)
    decreases |a|
  {
    if |a| == 0 {
      assert a + b == b;
    } else {
      assert (a + b)[1..] == a[1..] + b;
      FlattenAppend(a[1..], b);
    }
  }

  /** An empty part contributes nothing. */
  lemma {:induction false} FlattenSkipEmpty<T>(a: seq<seq<T>>, b: seq<seq<T>>)
    ensures Flatten(a + [[]] + b) == Flatten(a) + Flatten(b)
  {
    var none: seq<seq<T>> := [[]];
    assert Flatten(none) == [] by {
      assert none[1..] == [];
    }
    FlattenAppend(a, none);
    assert Flatten(a + none) == Flatten(a);
    FlattenAppend(a + none, b);
  }

  /** A one-part sequence flattens to that part. */
  lemma FlattenSingle<T>(xs: seq<T>)
    ensures Flatten([xs]) == xs
  {
    assert [xs][1..] == [];
  }

  /** `f` applied to each element of `xs`, in order. */
  function Map<A, B>(f: A -> B, xs: seq<A>): (ys: seq<B>)
    ensures |ys| == |xs|
    ensures forall k :: 0 <= k < |xs| ==> ys[k] == f(xs[k])
  {
    seq(|xs|, k requires 0 <= k < |xs| => f(xs[k]))
  }

  lemma {:induction false} MapAppend<A, B>(f: A -> B, a: seq<A>, b: seq<A>)
    ensures Map(f, a + b) == Map(f, a) + Map(f, b)
  {
    var lhs, rhs := Map(f, a + b), Map(f, a) + Map(f, b);
    forall k | 0 <= k < |a + b|
      ensures lhs[k] == rhs[k]
    {
      if k < |a| {
        assert (a + b)[k] == a[k];
      } else {
        assert (a + b)[k] == b[k - |a|];
      }
    }
  }

  /** The parts of `f` over `xs`, joined: the first element's part in front of the rest. */
  lemma {:induction false} FlattenMapCons<A, B>(f: A -> seq<B>, xs: seq<A>)
    requires |xs| > 0
    ensures Flatten(Map(f, xs)) == f(xs[0]) + Flatten(Map(f, xs[1..]))
  {
    assert Map(f, xs)[1..] == Map(f, xs[1..]);
  }

  /** One more element appends its own part. */
  lemma {:induction false} FlattenMapSnoc<A, B>(f: A -> seq<B>, xs: seq<A>, x: A)
    ensures Flatten(Map(f, xs + [x])) == Flatten(Map(f, xs)) + f(x)
  {
    MapAppend(f, xs, [x]);
    assert Map(f, [x]) == [f(x)];
    FlattenAppend(Map(f, xs), [f(x)]);
    FlattenSingle(f(x));
  }

  /** An element whose part is empty contributes nothing. */
  lemma {:induction false} FlattenMapSkip<A, B>(f: A -> seq<B>, a: seq<A>, x: A, b: seq<A>)
    requires f(x) == []
    ensures Flatten(Map(f, a + [x] + b)) == Flatten(Map(f, a)) + Flatten(Map(f, b))
  {
    MapAppend(f, a, [x]);
    MapAppend(f, a + [x], b);
    assert Map(f, [x]) == [[]];
    FlattenSkipEmpty(Map(f, a), Map(f, b));
  }
}
