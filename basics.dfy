/** Values and sequence facts shared by every stage of the upload handler. */
module Basics {

  /** One octet of a request or response body. */
  newtype byte = b: int | 0 <= b < 256

  datatype Option<T> = None | Some(value: T)

  function Min(a: int, b: int): int { if a <= b then a else b }

  function Max(a: int, b: int): int { if a <= b then b else a }

  /** The bytes of a text whose characters are all below 256 (Latin-1). */
  function Latin1(s: string): (bs: seq<byte>)
    ensures |bs| == |s|
  {
    seq(|s|, i requires 0 <= i < |s| => (s[i] as int % 256) as byte)
  }

  /** The pieces of `xss` joined end to end, in order: the result of a nested
      list comprehension `[x for xs in xss for x in xs]`. */
  function Concat<T>(xss: seq<seq<T>>): seq<T>
  {
    if xss == [] then [] else Concat(xss[..|xss| - 1]) + xss[|xss| - 1]
  }

  /** The sum of the lengths of the pieces. */
  function TotalLength<T>(xss: seq<seq<T>>): nat
  {
    if xss == [] then 0 else TotalLength(xss[..|xss| - 1]) + |xss[|xss| - 1]|
  }

  lemma {:induction false} ConcatAppend<T>(a: seq<seq<T>>, b: seq<seq<T>>)
    ensures Concat(a + b) == Concat(a) + Concat(b)
    decreases |b|
  {
    if b == [] {
      assert a + b == a;
    } else {
      var b', last := b[..|b| - 1], b[|b| - 1];
      assert (a + b)[..|a + b| - 1] == a + b' && (a + b)[|a + b| - 1] == last;
      assert Concat(a + b) == Concat(a + b') + last;
      ConcatAppend(a, b');
      assert Concat(b) == Concat(b') + last;
    }
  }

  lemma {:induction false} ConcatLength<T>(xss: seq<seq<T>>)
    ensures |Concat(xss)| == TotalLength(xss)
  {
    if xss != [] {
      ConcatLength(xss[..|xss| - 1]);
    }
  }

  /** An element occurs in the concatenation exactly when it occurs in one of the pieces. */
  lemma {:induction false} InConcat<T>(xss: seq<seq<T>>, x: T)
    ensures x in Concat(xss) <==> exists i :: 0 <= i < |xss| && x in xss[i]
  {
    if xss != [] {
      var init := xss[..|xss| - 1];
      InConcat(init, x);
      if x in Concat(xss) && x !in xss[|xss| - 1] {
        var i :| 0 <= i < |init| && x in init[i];
        assert xss[i] == init[i];
      }
      if exists i :: 0 <= i < |xss| && x in xss[i] {
        var i :| 0 <= i < |xss| && x in xss[i];
        if i < |init| {
          assert init[i] == xss[i];
        }
      }
    }
  }

  /** If every piece has between lo and hi elements, so the whole has between
      lo and hi elements per piece. */
  lemma {:induction false} ConcatLengthBounds<T>(xss: seq<seq<T>>, lo: nat, hi: nat)
    requires forall i :: 0 <= i < |xss| ==> lo <= |xss[i]| <= hi
    ensures lo * |xss| <= |Concat(xss)| <= hi * |xss|
  {
    if xss != [] {
      var init := xss[..|xss| - 1];
      assert forall i :: 0 <= i < |init| ==> init[i] == xss[i];
      ConcatLengthBounds(init, lo, hi);
      assert lo * |xss| == lo * |init| + lo;
      assert hi * |xss| == hi * |init| + hi;
    }
  }

  /** `f` applied to each element, in order. */
  function MapSeq<A, B>(xs: seq<A>, f: A -> B): (ys: seq<B>)
    ensures |ys| == |xs|
  {
    seq(|xs|, i requires 0 <= i < |xs| => f(xs[i]))
  }

  /** `[y for x in xs for y in f(x)]`. */
  function FlatMap<A, B>(xs: seq<A>, f: A -> seq<B>): seq<B>
  {
    Concat(MapSeq(xs, f))
  }

  lemma FlatMapAppend<A, B>(a: seq<A>, b: seq<A>, f: A -> seq<B>)
    ensures FlatMap(a + b, f) == FlatMap(a, f) + FlatMap(b, f)
  {
    assert MapSeq(a + b, f) == MapSeq(a, f) + MapSeq(b, f);
    ConcatAppend(MapSeq(a, f), MapSeq(b, f));
  }

  lemma FlatMapSingleton<A, B>(x: A, f: A -> seq<B>)
    ensures FlatMap([x], f) == f(x)
  {
    var m := MapSeq([x], f);
    assert m == [f(x)];
    assert m[..|m| - 1] == [];
    assert Concat(m) == Concat([]) + f(x);
  }

  lemma InFlatMap<A, B>(xs: seq<A>, f: A -> seq<B>, y: B)
    ensures y in FlatMap(xs, f) <==> exists i :: 0 <= i < |xs| && y in f(xs[i])
  {
    InConcat(MapSeq(xs, f), y);
    if exists i :: 0 <= i < |xs| && y in f(xs[i]) {
      var i :| 0 <= i < |xs| && y in f(xs[i]);
      assert y in MapSeq(xs, f)[i];
    }
  }
}
