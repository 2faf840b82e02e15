/** Sequence helpers shared by the models: reversal and sums over a sequence. */
module Seqs {

  /** The sequence read from its last element to its first. */
  function Reverse<T>(s: seq<T>): (r: seq<T>)
    ensures |r| == |s|
    ensures forall i :: 0 <= i < |s| ==> r[i] == s[|s| - 1 - i]
    decreases |s|
  {
    if s == [] then [] else [s[|s| - 1]] + Reverse(s[..|s| - 1])
  }

  lemma ReverseAppend<T>(a: seq<T>, b: seq<T>)
    ensures Reverse(a + b) == Reverse(b) + Reverse(a)
  {
    assert forall i :: 0 <= i < |a + b| ==> Reverse(a + b)[i] == (Reverse(b) + Reverse(a))[i];
  }

  lemma ReverseInvolutive<T>(s: seq<T>)
    ensures Reverse(Reverse(s)) == s
  {
    var r := Reverse(Reverse(s));
    forall i | 0 <= i < |s| ensures r[i] == s[i] {
      assert r[i] == Reverse(s)[|s| - 1 - i];
    }
  }

  /** Reversing puts the first element last. */
  lemma {:induction false} ReverseCons<T>(x: T, s: seq<T>)
    ensures Reverse([x] + s) == Reverse(s) + [x]
    decreases |s|
  {
    if s != [] {
      var init, last := s[..|s| - 1], s[|s| - 1];
      assert ([x] + s)[..|s|] == [x] + init;
      ReverseCons(x, init);
      assert Reverse(s) == [last] + Reverse(init);
    }
  }

  /** Reversing a suffix one element longer puts that element last. */
  lemma ReverseSuffix<T>(s: seq<T>, n: int)
    requires 0 <= n < |s|
    ensures Reverse(s[n..]) == Reverse(s[n + 1..]) + [s[n]]
  {
    assert s[n..] == [s[n]] + s[n + 1..];
    ReverseCons(s[n], s[n + 1..]);
  }

  lemma ReverseInjective<T>(a: seq<T>, b: seq<T>)
    requires Reverse(a) == Reverse(b)
    ensures a == b
  {
    assert |a| == |b|;
    forall i | 0 <= i < |a| ensures a[i] == b[i] {
      assert Reverse(a)[|a| - 1 - i] == Reverse(b)[|a| - 1 - i];
    }
  }

  /** Sum of f over the elements of s. */
  function SumOf<T>(s: seq<T>, f: T -> nat): nat
    decreases |s|
  {
    if s == [] then 0 else f(s[0]) + SumOf(s[1..], f)
  }

  /** Multiset union of f over the elements of s. */
  function BagOf<T, U>(s: seq<T>, f: T -> multiset<U>): multiset<U>
    decreases |s|
  {
    if s == [] then multiset{} else f(s[0]) + BagOf(s[1..], f)
  }

  lemma {:induction false} SumOfAppend<T>(a: seq<T>, b: seq<T>, f: T -> nat)
    ensures SumOf(a + b, f) == SumOf(a, f) + SumOf(b, f)
    decreases |a|
  {
    if a == [] {
      assert a + b == b;
    } else {
      assert (a + b)[1..] == a[1..] + b;
      SumOfAppend(a[1..], b, f);
    }
  }

  lemma {:induction false} BagOfAppend<T, U>(a: seq<T>, b: seq<T>, f: T -> multiset<U>)
    ensures BagOf(a + b, f) == BagOf(a, f) + BagOf(b, f)
    decreases |a|
  {
    if a == [] {
      assert a + b == b;
    } else {
      assert (a + b)[1..] == a[1..] + b;
      BagOfAppend(a[1..], b, f);
    }
  }

  lemma {:induction false} SumOfReverse<T>(s: seq<T>, f: T -> nat)
    ensures SumOf(Reverse(s), f) == SumOf(s, f)
    decreases |s|
  {
    if s != [] {
      var init, last := s[..|s| - 1], s[|s| - 1];
      assert Reverse(s) == [last] + Reverse(init);
      assert ([last] + Reverse(init))[1..] == Reverse(init);
      SumOfReverse(init, f);
      assert s == init + [last];
      SumOfAppend(init, [last], f);
    }
  }

  lemma {:induction false} BagOfReverse<T, U>(s: seq<T>, f: T -> multiset<U>)
    ensures BagOf(Reverse(s), f) == BagOf(s, f)
    decreases |s|
  {
    if s != [] {
      var init, last := s[..|s| - 1], s[|s| - 1];
      assert Reverse(s) == [last] + Reverse(init);
      assert ([last] + Reverse(init))[1..] == Reverse(init);
      BagOfReverse(init, f);
      assert s == init + [last];
      BagOfAppend(init, [last], f);
    }
  }
}
