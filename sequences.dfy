/**
 * The shape shared by both caption passes: walk a sequence in order and keep
 * what a per-item rule yields, dropping the items it rejects.
 */
module Sequences {
  import opened Wrappers

  /** The values `f` yields for the items of `xs`, in order, skipping the items it rejects. */
  function FilterMap<A, B>(xs: seq<A>, f: A -> Option<B>): (r: seq<B>)
    ensures |r| <= |xs|
  {
    if xs == [] then []
    else
      var last := xs[|xs| - 1];
      FilterMap(xs[..|xs| - 1], f) + (if f(last).Some? then [f(last).value] else [])
  }

  /** Items are handled one after the other: the result for `a + b` is the result for `a`, then for `b`. */
  lemma {:induction false} FilterMapConcat<A, B>(a: seq<A>, b: seq<A>, f: A -> Option<B>)
    ensures FilterMap(a + b, f) == FilterMap(a, f) + FilterMap(b, f)
    decreases |b|
  {
    if b == [] {
      assert a + b == a;
    } else {
      var init := b[..|b| - 1];
      assert (a + b)[..|a + b| - 1] == a + init;
      assert (a + b)[|a + b| - 1] == b[|b| - 1];
      FilterMapConcat(a, init, f);
    }
  }

  /** One item contributes its own value, or nothing. */
  lemma FilterMapSingle<A, B>(x: A, f: A -> Option<B>)
    ensures FilterMap([x], f) == if f(x).Some? then [f(x).value] else []
  {
    assert [x][..0] == [];
  }

  /** Two items that both yield a value contribute those two values, in order. */
  lemma FilterMapPair<A, B>(x: A, y: A, f: A -> Option<B>)
    requires f(x).Some? && f(y).Some?
    ensures FilterMap([x, y], f) == [f(x).value, f(y).value]
  {
    FilterMapSingle(x, f);
    FilterMapSingle(y, f);
    FilterMapConcat([x], [y], f);
    assert [x] + [y] == [x, y];
  }

  /** A value is in the result iff some item yields it. */
  lemma {:induction false} FilterMapMembership<A, B>(xs: seq<A>, f: A -> Option<B>, y: B)
    ensures y in FilterMap(xs, f) <==> exists i :: 0 <= i < |xs| && f(xs[i]) == Some(y)
    decreases |xs|
  {
    if xs != [] {
      var n := |xs| - 1;
      var init := xs[..n];
      FilterMapMembership(init, f, y);
      assert forall i :: 0 <= i < n ==> init[i] == xs[i];
    }
  }
}
