/** Sequence helpers shared by the listener fan-out and the RPC broadcast. */
module Sequences {

  /** Each element of `xs`, in order, paired with the same `b`: one call per receiver. */
  function PairEach<A, B>(xs: seq<A>, b: B): (r: seq<(A, B)>)
    ensures |r| == |xs|
    ensures forall i :: 0 <= i < |xs| ==> r[i] == (xs[i], b)
  {
    if xs == [] then [] else PairEach(xs[..|xs| - 1], b) + [(xs[|xs| - 1], b)]
  }

  /** Pairing one more element appends one more pair. */
  lemma PairEachSnoc<A, B>(xs: seq<A>, x: A, b: B)
    ensures PairEach(xs + [x], b) == PairEach(xs, b) + [(x, b)]
  {
    assert (xs + [x])[..|xs|] == xs;
  }

  /** The inner sequences one after the other. */
  function Flatten<A>(ss: seq<seq<A>>): seq<A> {
    if ss == [] then [] else Flatten(ss[..|ss| - 1]) + ss[|ss| - 1]
  }

  /** Something is in the flattening exactly when it is in one of the inner sequences. */
  lemma {:induction false} FlattenMembers<A>(ss: seq<seq<A>>)
    ensures forall x :: x in Flatten(ss) <==> exists i :: 0 <= i < |ss| && x in ss[i]
  {
    if ss != [] {
      var init := ss[..|ss| - 1];
      FlattenMembers(init);
      forall x ensures x in Flatten(ss) <==> exists i :: 0 <= i < |ss| && x in ss[i] {
        if x in Flatten(init) {
          var i :| 0 <= i < |init| && x in init[i];
          assert ss[i] == init[i];
        }
        if exists i :: 0 <= i < |ss| && x in ss[i] {
          var i :| 0 <= i < |ss| && x in ss[i];
          if i < |init| { assert init[i] == ss[i]; }
        }
      }
    }
  }

  /** The flattening of one more inner sequence. */
  lemma FlattenSnoc<A>(ss: seq<seq<A>>, s: seq<A>)
    ensures Flatten(ss + [s]) == Flatten(ss) + s
  {
    assert (ss + [s])[..|ss|] == ss;
  }

  /** Every element of every inner sequence is paired with `b` somewhere. */
  lemma PairEachReachesAll<A, B>(ss: seq<seq<A>>, b: B)
    ensures forall i, j :: 0 <= i < |ss| && 0 <= j < |ss[i]| ==> (ss[i][j], b) in PairEach(Flatten(ss), b)
  {
    FlattenMembers(ss);
    var r := PairEach(Flatten(ss), b);
    forall i, j | 0 <= i < |ss| && 0 <= j < |ss[i]|
      ensures (ss[i][j], b) in r
    {
      var x := ss[i][j];
      assert x in Flatten(ss);
      var k :| 0 <= k < |Flatten(ss)| && Flatten(ss)[k] == x;
      assert r[k] == (x, b);
    }
  }

  /** `removeIf { x == it }`: every occurrence of `x` dropped, the rest in order. */
  function RemoveAll<A(==)>(s: seq<A>, x: A): seq<A> {
    if s == [] then []
    else if s[0] == x then RemoveAll(s[1..], x)
    else [s[0]] + RemoveAll(s[1..], x)
  }

  /** Removal drops all copies of `x` and keeps every other element as often as before. */
  lemma {:induction false} RemoveAllCounts<A>(s: seq<A>, x: A)
    ensures multiset(RemoveAll(s, x)) == multiset(s)[x := 0]
    ensures x !in RemoveAll(s, x)
    ensures x !in s ==> RemoveAll(s, x) == s
  {
    if s != [] {
      RemoveAllCounts(s[1..], x);
      assert s == [s[0]] + s[1..];
      assert multiset(s) == multiset{s[0]} + multiset(s[1..]);
      if s[0] != x {
        assert multiset([s[0]] + RemoveAll(s[1..], x)) == multiset{s[0]} + multiset(RemoveAll(s[1..], x));
      }
    }
  }

  /**
   * Removal works piece by piece: removing from a concatenation concatenates
   * the removals, so the elements kept stay in their original order.
   */
  lemma {:induction false} RemoveAllConcat<A>(a: seq<A>, b: seq<A>, x: A)
    ensures RemoveAll(a + b, x) == RemoveAll(a, x) + RemoveAll(b, x)
  {
    if a != [] {
      assert (a + b)[0] == a[0];
      assert (a + b)[1..] == a[1..] + b;
      RemoveAllConcat(a[1..], b, x);
    } else {
      assert a + b == b;
    }
  }
}
