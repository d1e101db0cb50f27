/** Generic facts about the two loop shapes the source uses to build lists: pushing an item for
  * some elements, and pushing four lines per element. */
module Seqs {
  import opened Wrappers

  /** The values `f` yields on `xs`, in order. */
  function FilterMap<A, B>(xs: seq<A>, f: A -> Option<B>): seq<B> {
    if xs == [] then []
    else
      var last := f(xs[|xs| - 1]);
      FilterMap(xs[..|xs| - 1], f) + (if last.Some? then [last.value] else [])
  }

  /** One more element pushes its value, if it has one. */
  lemma FilterMapStep<A, B>(xs: seq<A>, k: int, f: A -> Option<B>)
    requires 0 <= k < |xs|
    ensures FilterMap(xs[..k + 1], f)
         == FilterMap(xs[..k], f) + (if f(xs[k]).Some? then [f(xs[k]).value] else [])
  {
    assert xs[..k + 1][..k] == xs[..k];
  }

  /** Every pushed value comes from an element, and every element's value is pushed. */
  lemma {:induction false} FilterMapMembership<A, B>(xs: seq<A>, f: A -> Option<B>, y: B)
    ensures y in FilterMap(xs, f) <==> exists i :: 0 <= i < |xs| && f(xs[i]) == Some(y)
  {
    if xs != [] {
      var init := xs[..|xs| - 1];
      FilterMapMembership(init, f, y);
      if exists i :: 0 <= i < |xs| && f(xs[i]) == Some(y) {
        var i :| 0 <= i < |xs| && f(xs[i]) == Some(y);
        if i < |init| {
          assert init[i] == xs[i];
        }
      }
      if y in FilterMap(init, f) {
        var i :| 0 <= i < |init| && f(init[i]) == Some(y);
        assert xs[i] == init[i];
      }
    }
  }

  /** When every element yields a value, the values are kept one for one. */
  lemma {:induction false} FilterMapTotal<A, B>(xs: seq<A>, f: A -> Option<B>)
    requires forall i :: 0 <= i < |xs| ==> f(xs[i]).Some?
    ensures |FilterMap(xs, f)| == |xs|
    ensures forall i :: 0 <= i < |xs| ==> FilterMap(xs, f)[i] == f(xs[i]).value
  {
    if xs != [] {
      FilterMapTotal(xs[..|xs| - 1], f);
    }
  }

  /** The concatenation of the lists `f` yields on `xs`, in order. */
  function ConcatMap<A, B>(xs: seq<A>, f: A -> seq<B>): seq<B> {
    if xs == [] then [] else ConcatMap(xs[..|xs| - 1], f) + f(xs[|xs| - 1])
  }

  lemma ConcatMapStep<A, B>(xs: seq<A>, k: int, f: A -> seq<B>)
    requires 0 <= k < |xs|
    ensures ConcatMap(xs[..k + 1], f) == ConcatMap(xs[..k], f) + f(xs[k])
  {
    assert xs[..k + 1][..k] == xs[..k];
  }

  /** When every element yields four items, element `k` owns positions `4 * k` to `4 * k + 3`. */
  lemma {:induction false} ConcatMapFour<A, B>(xs: seq<A>, f: A -> seq<B>)
    requires forall i :: 0 <= i < |xs| ==> |f(xs[i])| == 4
    ensures |ConcatMap(xs, f)| == 4 * |xs|
    ensures forall k, j :: 0 <= k < |xs| && 0 <= j < 4 ==> ConcatMap(xs, f)[4 * k + j] == f(xs[k])[j]
  {
    if xs != [] {
      var init := xs[..|xs| - 1];
      ConcatMapFour(init, f);
      var r := ConcatMap(xs, f);
      assert r == ConcatMap(init, f) + f(xs[|init|]);
      forall k, j | 0 <= k < |xs| && 0 <= j < 4 ensures r[4 * k + j] == f(xs[k])[j] {
        if k < |init| {
          assert xs[k] == init[k];
        }
      }
    }
  }

  /** Four pushes append a four-element list. */
  lemma PushFour<T>(a: seq<T>, w: T, x: T, y: T, z: T)
    ensures a + [w] + [x] + [y] + [z] == a + [w, x, y, z]
  {
  }

  lemma AppendAssoc<T>(a: seq<T>, b: seq<T>, c: seq<T>)
    ensures a + b + c == a + (b + c)
  {
  }

  /** After a prefix `p`, element `k` fills the four positions from `|p| + 4 * k`. */
  lemma ConcatMapSlice<A, B>(p: seq<B>, xs: seq<A>, f: A -> seq<B>, k: int)
    requires forall i :: 0 <= i < |xs| ==> |f(xs[i])| == 4
    requires 0 <= k < |xs|
    ensures |p + ConcatMap(xs, f)| == |p| + 4 * |xs|
    ensures (p + ConcatMap(xs, f))[|p| + 4 * k .. |p| + 4 * k + 4] == f(xs[k])
  {
    ConcatMapFour(xs, f);
    var s := (p + ConcatMap(xs, f))[|p| + 4 * k .. |p| + 4 * k + 4];
    forall j | 0 <= j < 4 ensures s[j] == f(xs[k])[j] {
      assert s[j] == ConcatMap(xs, f)[4 * k + j];
    }
  }

  /** `f` applied to every element, in order. */
  function Map<A, B>(xs: seq<A>, f: A -> B): seq<B> {
    if xs == [] then [] else Map(xs[..|xs| - 1], f) + [f(xs[|xs| - 1])]
  }

  lemma MapStep<A, B>(xs: seq<A>, k: int, f: A -> B)
    requires 0 <= k < |xs|
    ensures Map(xs[..k + 1], f) == Map(xs[..k], f) + [f(xs[k])]
  {
    assert xs[..k + 1][..k] == xs[..k];
  }

  lemma {:induction false} MapIndex<A, B>(xs: seq<A>, f: A -> B)
    ensures |Map(xs, f)| == |xs|
    ensures forall i :: 0 <= i < |xs| ==> Map(xs, f)[i] == f(xs[i])
  {
    if xs != [] {
      MapIndex(xs[..|xs| - 1], f);
    }
  }
}
