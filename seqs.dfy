/** Order-preserving filtering, the shape of every "skip this one and go on" loop in the finders. */
module Seqs {

  /** The elements of `s` that satisfy `p`, in their order in `s`. */
  function Filter<T(!new)>(s: seq<T>, p: T -> bool): (r: seq<T>)
    ensures |r| <= |s|
    ensures forall x :: x in r <==> x in s && p(x)
    decreases |s|
  {
    if s == [] then []
    else Filter(s[..|s| - 1], p) + (if p(s[|s| - 1]) then [s[|s| - 1]] else [])
  }

  /** Filtering distributes over concatenation, so the kept elements keep their relative order. */
  lemma {:induction false} FilterAppend<T(!new)>(a: seq<T>, b: seq<T>, p: T -> bool)
    ensures Filter(a + b, p) == Filter(a, p) + Filter(b, p)
    decreases |b|
  {
    if b == [] {
      assert a + b == a;
    } else {
      var b' := b[..|b| - 1];
      assert (a + b)[..|a + b| - 1] == a + b';
      FilterAppend(a, b', p);
    }
  }

  /** Everything of `s` is kept exactly when every element satisfies `p`. */
  lemma {:induction false} FilterAll<T(!new)>(s: seq<T>, p: T -> bool)
    ensures Filter(s, p) == s <==> forall x :: x in s ==> p(x)
    decreases |s|
  {
    if s != [] {
      FilterAll(s[..|s| - 1], p);
      if !p(s[|s| - 1]) {
        assert |Filter(s, p)| < |s| by {
          assert |Filter(s[..|s| - 1], p)| <= |s| - 1;
        }
      }
      assert s == s[..|s| - 1] + [s[|s| - 1]];
    }
  }

  /** Extending a prefix by one element extends its filtering by that element when it is kept. */
  lemma FilterPrefixStep<T(!new)>(s: seq<T>, i: nat, p: T -> bool)
    requires i < |s|
    ensures Filter(s[..i + 1], p) == Filter(s[..i], p) + (if p(s[i]) then [s[i]] else [])
  {
    assert s[..i + 1][..i] == s[..i];
  }

  /** Some element of `s` satisfies `p`; written as a recursion so loops can carry it on a prefix. */
  predicate AnyOf<T>(s: seq<T>, p: T -> bool)
    decreases |s|
  {
    s != [] && (AnyOf(s[..|s| - 1], p) || p(s[|s| - 1]))
  }

  /** `AnyOf` is the existential it names. */
  lemma {:induction false} AnyOfIff<T>(s: seq<T>, p: T -> bool)
    ensures AnyOf(s, p) <==> exists k :: 0 <= k < |s| && p(s[k])
    decreases |s|
  {
    if s != [] {
      var init := s[..|s| - 1];
      AnyOfIff(init, p);
      if exists k :: 0 <= k < |init| && p(init[k]) {
        var k :| 0 <= k < |init| && p(init[k]);
        assert s[k] == init[k];
      }
      if exists k :: 0 <= k < |s| && p(s[k]) {
        var k :| 0 <= k < |s| && p(s[k]);
        if k < |init| {
          assert init[k] == s[k];
        }
      }
    }
  }

  /** A prefix extended by one element has a witness exactly when the prefix or the new element does. */
  lemma AnyOfPrefixStep<T>(s: seq<T>, i: nat, p: T -> bool)
    requires i < |s|
    ensures AnyOf(s[..i + 1], p) <==> AnyOf(s[..i], p) || p(s[i])
  {
    assert s[..i + 1][..i] == s[..i];
  }

  /** A witness in a concatenation is a witness in one of its parts. */
  lemma {:induction false} AnyOfAppend<T>(a: seq<T>, b: seq<T>, p: T -> bool)
    ensures AnyOf(a + b, p) <==> AnyOf(a, p) || AnyOf(b, p)
    decreases |b|
  {
    if b == [] {
      assert a + b == a;
    } else {
      var b' := b[..|b| - 1];
      assert (a + b)[..|a + b| - 1] == a + b';
      assert (a + b)[|a + b| - 1] == b[|b| - 1];
      AnyOfAppend(a, b', p);
    }
  }

  /** An element that fails `p` can be dropped from anywhere without changing the filtering or the witnesses. */
  lemma DropRejected<T(!new)>(a: seq<T>, x: T, b: seq<T>, p: T -> bool, q: T -> bool)
    requires !p(x) && !q(x)
    ensures Filter(a + [x] + b, p) == Filter(a + b, p)
    ensures AnyOf(a + [x] + b, q) <==> AnyOf(a + b, q)
  {
    FilterDrop(a, x, b, p);
    AnyOfDrop(a, x, b, q);
  }

  lemma FilterDrop<T(!new)>(a: seq<T>, x: T, b: seq<T>, p: T -> bool)
    requires !p(x)
    ensures Filter(a + [x] + b, p) == Filter(a + b, p)
  {
    assert [x][..0] == [];
    var fa := Filter(a, p);
    assert Filter(a + [x], p) == fa by {
      assert (a + [x])[..|a|] == a;
    }
    FilterAppend(a + [x], b, p);
    FilterAppend(a, b, p);
  }

  lemma AnyOfDrop<T>(a: seq<T>, x: T, b: seq<T>, q: T -> bool)
    requires !q(x)
    ensures AnyOf(a + [x] + b, q) <==> AnyOf(a + b, q)
  {
    assert AnyOf(a + [x], q) == AnyOf(a, q) by {
      assert (a + [x])[..|a|] == a;
    }
    AnyOfAppend(a + [x], b, q);
    AnyOfAppend(a, b, q);
  }
}
