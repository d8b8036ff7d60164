/** Flattening a list of lists, the shape every nested `for ... append` loop of
    the scripts produces, with the index law for blocks of equal length. */
module Seqs {

  /** The blocks one after another: what appending block by block yields. */
  function Flatten<T>(xss: seq<seq<T>>): seq<T> {
    if xss == [] then [] else Flatten(xss[..|xss| - 1]) + xss[|xss| - 1]
  }

  /** Appending one more block appends its elements. */
  lemma FlattenSnoc<T>(xss: seq<seq<T>>, xs: seq<T>)
    ensures Flatten(xss + [xs]) == Flatten(xss) + xs
  {
    assert (xss + [xs])[..|xss|] == xss;
  }

  /** When every block has `k` elements, element `j` of block `i` sits at
      index `i * k + j` of the flattened list, and nothing else is there. */
  lemma {:induction false} FlattenUniform<T>(xss: seq<seq<T>>, k: nat)
    requires forall i :: 0 <= i < |xss| ==> |xss[i]| == k
    ensures |Flatten(xss)| == |xss| * k
    ensures forall i, j {:trigger xss[i][j]} :: 0 <= i < |xss| && 0 <= j < k ==> i * k + j < |Flatten(xss)| && Flatten(xss)[i * k + j] == xss[i][j]
  {
    if xss != [] {
      var n := |xss| - 1;
      var init := xss[..n];
      FlattenUniform(init, k);
      var f := Flatten(xss);
      assert f == Flatten(init) + xss[n];
      assert |xss| * k == n * k + k;
      forall i, j | 0 <= i < |xss| && 0 <= j < k
        ensures i * k + j < |f| && f[i * k + j] == xss[i][j]
      {
        BlockIndex(i, j, n, k);
        if i < n {
          assert init[i] == xss[i];
        }
      }
    }
  }

  /** Where block `i` of blocks of `k` elements lies among `n + 1` blocks. */
  lemma BlockIndex(i: nat, j: nat, n: nat, k: nat)
    requires i <= n && j < k
    ensures i < n ==> i * k + j < n * k
    ensures i == n ==> i * k + j == n * k + j
  {
    if i < n {
      assert n * k == (i + 1) * k + (n - i - 1) * k;
      assert (n - i - 1) * k >= 0;
    }
  }

  /** A sequence is its front followed by a suffix. */
  lemma SuffixSplit<T>(s: seq<T>, suffix: seq<T>)
    requires |suffix| <= |s| && suffix == s[|s| - |suffix|..]
    ensures s == s[..|s| - |suffix|] + suffix
  {
  }

  /** A sequence is a prefix followed by the rest. */
  lemma PrefixSplit<T>(s: seq<T>, prefix: seq<T>)
    requires |prefix| <= |s| && prefix == s[..|prefix|]
    ensures s == prefix + s[|prefix|..]
  {
  }

  /** Concatenation is associative. */
  lemma ConcatAssoc<T>(x: seq<T>, y: seq<T>, z: seq<T>)
    ensures x + (y + z) == x + y + z
  {
  }

  /** Removing the parentheses around the right operand of a chain of
      concatenations, for chains of three to twelve parts. */
  lemma Regroup3<T>(x: seq<T>, a1: seq<T>, a2: seq<T>, a3: seq<T>)
    ensures x + (a1 + a2 + a3) == x + a1 + a2 + a3
  {
    ConcatAssoc(x, a1 + a2, a3);
    ConcatAssoc(x, a1, a2);
  }

  lemma Regroup4<T>(x: seq<T>, a1: seq<T>, a2: seq<T>, a3: seq<T>, a4: seq<T>)
    ensures x + (a1 + a2 + a3 + a4) == x + a1 + a2 + a3 + a4
  {
    ConcatAssoc(x, a1 + a2 + a3, a4);
    Regroup3(x, a1, a2, a3);
  }

  lemma Regroup5<T>(x: seq<T>, a1: seq<T>, a2: seq<T>, a3: seq<T>, a4: seq<T>, a5: seq<T>)
    ensures x + (a1 + a2 + a3 + a4 + a5) == x + a1 + a2 + a3 + a4 + a5
  {
    ConcatAssoc(x, a1 + a2 + a3 + a4, a5);
    Regroup4(x, a1, a2, a3, a4);
  }

  lemma Regroup6<T>(x: seq<T>, a1: seq<T>, a2: seq<T>, a3: seq<T>, a4: seq<T>, a5: seq<T>, a6: seq<T>)
    ensures x + (a1 + a2 + a3 + a4 + a5 + a6) == x + a1 + a2 + a3 + a4 + a5 + a6
  {
    ConcatAssoc(x, a1 + a2 + a3 + a4 + a5, a6);
    Regroup5(x, a1, a2, a3, a4, a5);
  }

  lemma Regroup7<T>(x: seq<T>, a1: seq<T>, a2: seq<T>, a3: seq<T>, a4: seq<T>, a5: seq<T>, a6: seq<T>, a7: seq<T>)
    ensures x + (a1 + a2 + a3 + a4 + a5 + a6 + a7) == x + a1 + a2 + a3 + a4 + a5 + a6 + a7
  {
    ConcatAssoc(x, a1 + a2 + a3 + a4 + a5 + a6, a7);
    Regroup6(x, a1, a2, a3, a4, a5, a6);
  }

  lemma Regroup8<T>(x: seq<T>, a1: seq<T>, a2: seq<T>, a3: seq<T>, a4: seq<T>, a5: seq<T>, a6: seq<T>, a7: seq<T>, a8: seq<T>)
    ensures x + (a1 + a2 + a3 + a4 + a5 + a6 + a7 + a8) == x + a1 + a2 + a3 + a4 + a5 + a6 + a7 + a8
  {
    ConcatAssoc(x, a1 + a2 + a3 + a4 + a5 + a6 + a7, a8);
    Regroup7(x, a1, a2, a3, a4, a5, a6, a7);
  }

  lemma Regroup9<T>(x: seq<T>, a1: seq<T>, a2: seq<T>, a3: seq<T>, a4: seq<T>, a5: seq<T>, a6: seq<T>, a7: seq<T>, a8: seq<T>, a9: seq<T>)
    ensures x + (a1 + a2 + a3 + a4 + a5 + a6 + a7 + a8 + a9) == x + a1 + a2 + a3 + a4 + a5 + a6 + a7 + a8 + a9
  {
    ConcatAssoc(x, a1 + a2 + a3 + a4 + a5 + a6 + a7 + a8, a9);
    Regroup8(x, a1, a2, a3, a4, a5, a6, a7, a8);
  }

  lemma Regroup10<T>(x: seq<T>, a1: seq<T>, a2: seq<T>, a3: seq<T>, a4: seq<T>, a5: seq<T>, a6: seq<T>, a7: seq<T>, a8: seq<T>, a9: seq<T>, a10: seq<T>)
    ensures x + (a1 + a2 + a3 + a4 + a5 + a6 + a7 + a8 + a9 + a10) == x + a1 + a2 + a3 + a4 + a5 + a6 + a7 + a8 + a9 + a10
  {
    ConcatAssoc(x, a1 + a2 + a3 + a4 + a5 + a6 + a7 + a8 + a9, a10);
    Regroup9(x, a1, a2, a3, a4, a5, a6, a7, a8, a9);
  }

  lemma Regroup11<T>(x: seq<T>, a1: seq<T>, a2: seq<T>, a3: seq<T>, a4: seq<T>, a5: seq<T>, a6: seq<T>, a7: seq<T>, a8: seq<T>, a9: seq<T>, a10: seq<T>, a11: seq<T>)
    ensures x + (a1 + a2 + a3 + a4 + a5 + a6 + a7 + a8 + a9 + a10 + a11) == x + a1 + a2 + a3 + a4 + a5 + a6 + a7 + a8 + a9 + a10 + a11
  {
    ConcatAssoc(x, a1 + a2 + a3 + a4 + a5 + a6 + a7 + a8 + a9 + a10, a11);
    Regroup10(x, a1, a2, a3, a4, a5, a6, a7, a8, a9, a10);
  }

  lemma Regroup12<T>(x: seq<T>, a1: seq<T>, a2: seq<T>, a3: seq<T>, a4: seq<T>, a5: seq<T>, a6: seq<T>, a7: seq<T>, a8: seq<T>, a9: seq<T>, a10: seq<T>, a11: seq<T>, a12: seq<T>)
    ensures x + (a1 + a2 + a3 + a4 + a5 + a6 + a7 + a8 + a9 + a10 + a11 + a12) == x + a1 + a2 + a3 + a4 + a5 + a6 + a7 + a8 + a9 + a10 + a11 + a12
  {
    ConcatAssoc(x, a1 + a2 + a3 + a4 + a5 + a6 + a7 + a8 + a9 + a10 + a11, a12);
    Regroup11(x, a1, a2, a3, a4, a5, a6, a7, a8, a9, a10, a11);
  }

  /** `t` is a suffix of `s`. */
  predicate IsSuffix<T(==)>(t: seq<T>, s: seq<T>) {
    |t| <= |s| && s[|s| - |t|..] == t
  }

  /** `t` is a prefix of `s`. */
  predicate IsPrefix<T(==)>(t: seq<T>, s: seq<T>) {
    |t| <= |s| && s[..|t|] == t
  }

  /** A suffix of a suffix is a suffix. */
  lemma SuffixTrans<T>(a: seq<T>, b: seq<T>, c: seq<T>)
    requires IsSuffix(a, b) && IsSuffix(b, c)
    ensures IsSuffix(a, c)
  {
    assert c[|c| - |a|..] == c[|c| - |b|..][|b| - |a|..];
  }

  /** Dropping a prefix leaves a suffix. */
  lemma DropIsSuffix<T>(s: seq<T>, k: nat)
    requires k <= |s|
    ensures IsSuffix(s[k..], s)
  {
  }

  lemma PrefixTrans<T>(a: seq<T>, b: seq<T>, c: seq<T>)
    requires IsPrefix(a, b) && IsPrefix(b, c)
    ensures IsPrefix(a, c)
  {
    assert c[..|a|] == c[..|b|][..|a|];
  }

  /** Taking a prefix leaves a prefix. */
  lemma TakeIsPrefix<T>(s: seq<T>, k: nat)
    requires k <= |s|
    ensures IsPrefix(s[..k], s)
  {
  }

  /** The last element of a sequence extended at the front. */
  lemma LastCons<T>(x: T, xs: seq<T>)
    requires xs != []
    ensures ([x] + xs)[|xs|] == xs[|xs| - 1]
  {
  }

  /** `f` applied to each element of `xs`, built up from the front. */
  function MapSeq<A, B>(f: A -> B, xs: seq<A>): seq<B> {
    if xs == [] then [] else MapSeq(f, xs[..|xs| - 1]) + [f(xs[|xs| - 1])]
  }

  lemma {:induction false} MapSeqAt<A, B>(f: A -> B, xs: seq<A>)
    ensures |MapSeq(f, xs)| == |xs|
    ensures forall k :: 0 <= k < |xs| ==> MapSeq(f, xs)[k] == f(xs[k])
  {
    if xs != [] {
      MapSeqAt(f, xs[..|xs| - 1]);
    }
  }
}
