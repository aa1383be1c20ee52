/** Sequences as enumerations of sets. Go leaves the iteration order of a map
    unspecified; the model represents one iteration as an enumeration of the
    map's keys and builds one from an arbitrary order hint. */
module Collections {

  /** The set of elements of a sequence. */
  function Elements<T>(xs: seq<T>): (r: set<T>)
    ensures |xs| > 0 ==> xs[0] in r
  {
    set x | x in xs
  }

  /** `Elements` distributes over concatenation. */
  lemma ElementsConcat<T>(a: seq<T>, b: seq<T>)
    ensures Elements(a + b) == Elements(a) + Elements(b)
  {
    assert forall x :: x in a + b <==> x in a || x in b;
  }

  /** No element occurs twice. */
  predicate NoDuplicates<T(==)>(xs: seq<T>) {
    forall i, j :: 0 <= i < j < |xs| ==> xs[i] != xs[j]
  }

  /** Prepending keeps a sequence duplicate-free exactly when the new element
      is not already there. */
  lemma NoDuplicatesCons<T>(x: T, xs: seq<T>)
    ensures NoDuplicates([x] + xs) <==> x !in xs && NoDuplicates(xs)
  {
    var ys := [x] + xs;
    assert forall i :: 0 <= i < |xs| ==> ys[i + 1] == xs[i];
    if NoDuplicates(ys) {
      forall k | 0 <= k < |xs| ensures xs[k] != x {
        assert ys[0] != ys[k + 1];
      }
    }
  }

  /** `xs` lists every element of `s` exactly once: one possible iteration
      order of `s`. */
  predicate IsEnumeration<T(==)>(xs: seq<T>, s: set<T>) {
    NoDuplicates(xs) && Elements(xs) == s
  }

  /** Every entry of an enumeration belongs to the set. */
  lemma EnumerationMembers<T>(xs: seq<T>, s: set<T>)
    requires IsEnumeration(xs, s)
    ensures forall i :: 0 <= i < |xs| ==> xs[i] in s
  {
  }

  /** An enumeration is as long as the set it enumerates. */
  lemma {:induction false} EnumerationSize<T>(xs: seq<T>, s: set<T>)
    requires IsEnumeration(xs, s)
    ensures |xs| == |s|
    decreases |xs|
  {
    if xs != [] {
      var last := xs[|xs| - 1];
      var init := xs[..|xs| - 1];
      assert xs == init + [last];
      assert last !in init by {
        forall i | 0 <= i < |init| ensures init[i] != last { assert init[i] == xs[i]; }
      }
      assert Elements(init) == s - {last} by {
        assert forall x :: x in xs <==> x in init || x == last;
      }
      EnumerationSize(init, s - {last});
    }
  }

  /** The elements of `xs` that belong to `s`, in their original order. */
  function Keep<T>(xs: seq<T>, s: set<T>): (r: seq<T>)
    ensures Elements(r) == Elements(xs) * s
    ensures NoDuplicates(xs) ==> NoDuplicates(r)
    ensures Elements(xs) <= s ==> r == xs
    decreases |xs|
  {
    if xs == [] then []
    else
      var rest := Keep(xs[1..], s);
      ElementsConcat([xs[0]], xs[1..]);
      ElementsConcat([xs[0]], rest);
      assert [xs[0]] + xs[1..] == xs;
      NoDuplicatesCons(xs[0], xs[1..]);
      NoDuplicatesCons(xs[0], rest);
      if xs[0] in s then [xs[0]] + rest else rest
  }

  /** The first occurrence of every element of `xs`, in order. */
  function Dedup<T(==)>(xs: seq<T>): (r: seq<T>)
    ensures IsEnumeration(r, Elements(xs))
    ensures NoDuplicates(xs) ==> r == xs
    decreases |xs|
  {
    if xs == [] then []
    else
      var init := xs[..|xs| - 1];
      var last := xs[|xs| - 1];
      var d := Dedup(init);
      assert xs == init + [last];
      ElementsConcat(init, [last]);
      if last in d then d else d + [last]
  }

  /** One iteration order of the elements of `xs`: those listed in `hint`
      first, in the hint's order, then the rest in the order of `xs`. Every
      enumeration is reachable by passing it as the hint. */
  function Arrange<T(==)>(hint: seq<T>, xs: seq<T>): (r: seq<T>)
    ensures IsEnumeration(r, Elements(xs))
    ensures IsEnumeration(hint, Elements(xs)) ==> r == hint
  {
    var e := Elements(xs);
    var first := Keep(hint, e);
    var second := Keep(xs, e - Elements(hint));
    ElementsConcat(first, second);
    assert IsEnumeration(hint, e) ==> first + second == hint by {
      if IsEnumeration(hint, e) {
        assert second == [];
      }
    }
    Dedup(first + second)
  }

  /** A duplicate-free sequence holds each of its elements exactly once. */
  lemma {:induction false} NoDuplicatesMultiset<T>(xs: seq<T>)
    requires NoDuplicates(xs)
    ensures multiset(xs) == multiset(Elements(xs))
    decreases |xs|
  {
    if xs != [] {
      var x := xs[0];
      var rest := xs[1..];
      assert xs == [x] + rest;
      NoDuplicatesCons(x, rest);
      NoDuplicatesMultiset(rest);
      ElementsConcat([x], rest);
      assert Elements([x]) == {x};
      assert x !in Elements(rest);
      assert multiset(Elements(xs)) == multiset{x} + multiset(Elements(rest)) by {
        forall y ensures multiset(Elements(xs))[y] == (multiset{x} + multiset(Elements(rest)))[y] {
          if y == x {
          } else {
            assert y in Elements(xs) <==> y in Elements(rest);
          }
        }
      }
    }
  }

  /** Two enumerations of the same set are permutations of each other. */
  lemma EnumerationsPermute<T>(xs: seq<T>, ys: seq<T>, s: set<T>)
    requires IsEnumeration(xs, s) && IsEnumeration(ys, s)
    ensures multiset(xs) == multiset(ys)
  {
    NoDuplicatesMultiset(xs);
    NoDuplicatesMultiset(ys);
  }

  /** `f` applied to every element, in order. */
  function MapSeq<A, B>(f: A -> B, xs: seq<A>): (r: seq<B>)
    ensures |r| == |xs|
    ensures forall i :: 0 <= i < |xs| ==> r[i] == f(xs[i])
    decreases |xs|
  {
    if xs == [] then [] else [f(xs[0])] + MapSeq(f, xs[1..])
  }

  /** `MapSeq` distributes over concatenation. */
  lemma MapSeqConcat<A, B>(f: A -> B, a: seq<A>, b: seq<A>)
    ensures MapSeq(f, a + b) == MapSeq(f, a) + MapSeq(f, b)
  {
  }

  /** Taking the same element out of two permutations leaves permutations. */
  lemma RemoveFromPermutation<T>(x: T, xs: seq<T>, ys: seq<T>, k: nat)
    requires multiset([x] + xs) == multiset(ys)
    requires k < |ys| && ys[k] == x
    ensures multiset(xs) == multiset(ys[..k] + ys[k + 1..])
  {
    assert ys == ys[..k] + [x] + ys[k + 1..];
    var rest := ys[..k] + ys[k + 1..];
    assert multiset(ys) == multiset(rest) + multiset{x};
    assert multiset([x] + xs) == multiset(xs) + multiset{x};
    forall y ensures multiset(xs)[y] == multiset(rest)[y] {
      assert multiset(ys)[y] == multiset(rest)[y] + multiset{x}[y];
      assert multiset([x] + xs)[y] == multiset(xs)[y] + multiset{x}[y];
    }
  }

  /** Indexing into the middle part of `a + b + c`. */
  lemma IndexMiddle<T>(a: seq<T>, b: seq<T>, c: seq<T>)
    ensures forall j :: 0 <= j < |b| ==> (a + b + c)[|a| + j] == b[j]
  {
  }

  /** A sequence is its prefix, the element at `k`, and its suffix. */
  lemma SplitAround<T>(ys: seq<T>, k: nat)
    requires k < |ys|
    ensures ys == ys[..k] + [ys[k]] + ys[k + 1..]
  {
  }

  /** Concatenation is associative. */
  lemma ConcatAssoc<T>(p: seq<T>, q: seq<T>, r: seq<T>)
    ensures p + (q + r) == (p + q) + r
  {
  }

  /** Regrouping a five-part concatenation around its fourth element. */
  lemma Regroup<T>(sp: seq<T>, w: seq<T>, rest: seq<T>, c: T, b: seq<T>)
    ensures sp + w + rest + [c] + b == sp + w + (rest + [c] + b)
  {
  }

  /** Peeling the first element off a concatenation. */
  lemma HeadTail<T>(p: seq<T>, q: seq<T>)
    requires p != []
    ensures p + q == [p[0]] + (p[1..] + q)
    ensures (p + q)[0] == p[0] && (p + q)[1..] == p[1..] + q
  {
  }

  /** A sequence is its prefix of length `k` and the rest; the prefix
      extended by the next element is the prefix of length `k + 1`. */
  lemma PrefixSuffix<T>(xs: seq<T>, k: nat)
    requires k < |xs|
    ensures xs[..k] + xs[k..] == xs
    ensures xs[..k] + [xs[k]] == xs[..k + 1]
    ensures xs[k..][0] == xs[k]
  {
  }

  /** Putting one element back into two mapped sequences that are
      permutations of each other keeps them permutations. */
  lemma MapSeqInsert<A, B>(f: A -> B, x: A, rest: seq<A>, a: seq<A>, b: seq<A>)
    requires multiset(MapSeq(f, rest)) == multiset(MapSeq(f, a + b))
    ensures multiset(MapSeq(f, [x] + rest)) == multiset(MapSeq(f, a + [x] + b))
  {
    MapSeqConcat(f, a + [x], b);
    MapSeqConcat(f, a, [x]);
    MapSeqConcat(f, a, b);
    MapSeqConcat(f, [x], rest);
  }

  /** Mapping permuted inputs gives permuted outputs. */
  lemma {:induction false} MapSeqPermute<A, B>(f: A -> B, xs: seq<A>, ys: seq<A>)
    requires multiset(xs) == multiset(ys)
    ensures multiset(MapSeq(f, xs)) == multiset(MapSeq(f, ys))
    decreases |xs|
  {
    if xs == [] {
      assert |ys| == |multiset(ys)| == 0;
    } else {
      var x := xs[0];
      assert x in multiset(ys);
      var k :| 0 <= k < |ys| && ys[k] == x;
      assert xs == [x] + xs[1..];
      RemoveFromPermutation(x, xs[1..], ys, k);
      MapSeqPermute(f, xs[1..], ys[..k] + ys[k + 1..]);
      MapSeqInsert(f, x, xs[1..], ys[..k], ys[k + 1..]);
      SplitAround(ys, k);
    }
  }
}
