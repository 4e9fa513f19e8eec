/** Generic sequence helpers: order-preserving dedupe, subsequences and Python slicing. */
module Seqs {

  /** Keeps the first occurrence of every element, in order. */
  function Dedupe<T(==)>(xs: seq<T>): (r: seq<T>)
    ensures forall i | 0 <= i < |r| :: r[i] in xs
    ensures forall i | 0 <= i < |xs| :: xs[i] in r
    decreases |xs|
  {
    if xs == [] then []
    else
      var d := Dedupe(xs[..|xs| - 1]);
      assert forall i | 0 <= i < |xs| - 1 :: xs[i] == xs[..|xs| - 1][i];
      if xs[|xs| - 1] in d then d else d + [xs[|xs| - 1]]
  }

  predicate NoDuplicates<T(==)>(xs: seq<T>) {
    forall i, j | 0 <= i < j < |xs| :: xs[i] != xs[j]
  }

  lemma {:induction false} DedupeNoDuplicates<T>(xs: seq<T>)
    ensures NoDuplicates(Dedupe(xs))
    decreases |xs|
  {
    if xs != [] {
      DedupeNoDuplicates(xs[..|xs| - 1]);
    }
  }

  /** `xs` can be obtained from `ys` by deleting elements. */
  predicate IsSubsequence<T(==)>(xs: seq<T>, ys: seq<T>)
    decreases |ys|
  {
    if xs == [] then true
    else if ys == [] then false
    else if xs[|xs| - 1] == ys[|ys| - 1] then IsSubsequence(xs[..|xs| - 1], ys[..|ys| - 1])
    else IsSubsequence(xs, ys[..|ys| - 1])
  }

  lemma {:induction false} SubsequenceReflexive<T>(xs: seq<T>)
    ensures IsSubsequence(xs, xs)
    decreases |xs|
  {
    if xs != [] {
      SubsequenceReflexive(xs[..|xs| - 1]);
    }
  }

  lemma {:induction false} SubsequenceSnoc<T>(xs: seq<T>, ys: seq<T>, y: T)
    requires IsSubsequence(xs, ys)
    ensures IsSubsequence(xs, ys + [y])
    ensures IsSubsequence(xs + [y], ys + [y])
    decreases |ys|, 1
  {
    assert (ys + [y])[..|ys|] == ys;
    assert (xs + [y])[..|xs|] == xs;
    if xs != [] && xs[|xs| - 1] == y {
      SubsequenceDropLast(xs, ys);
    }
  }

  lemma {:induction false} SubsequenceDropLast<T>(xs: seq<T>, ys: seq<T>)
    requires xs != [] && IsSubsequence(xs, ys)
    ensures IsSubsequence(xs[..|xs| - 1], ys)
    decreases |ys|, 0
  {
    var ys' := ys[..|ys| - 1];
    assert ys == ys' + [ys[|ys| - 1]];
    if xs[|xs| - 1] == ys[|ys| - 1] {
      SubsequenceSnoc(xs[..|xs| - 1], ys', ys[|ys| - 1]);
    } else {
      SubsequenceDropLast(xs, ys');
      SubsequenceSnoc(xs[..|xs| - 1], ys', ys[|ys| - 1]);
    }
  }

  lemma {:induction false} SubsequenceLength<T>(xs: seq<T>, ys: seq<T>)
    requires IsSubsequence(xs, ys)
    ensures |xs| <= |ys|
    ensures forall x | x in xs :: x in ys
    decreases |ys|
  {
    if xs != [] {
      if xs[|xs| - 1] == ys[|ys| - 1] {
        SubsequenceLength(xs[..|xs| - 1], ys[..|ys| - 1]);
        assert xs == xs[..|xs| - 1] + [xs[|xs| - 1]];
        assert ys == ys[..|ys| - 1] + [ys[|ys| - 1]];
      } else {
        SubsequenceLength(xs, ys[..|ys| - 1]);
        assert ys == ys[..|ys| - 1] + [ys[|ys| - 1]];
      }
    }
  }

  lemma {:induction false} DedupeSubsequence<T>(xs: seq<T>)
    ensures IsSubsequence(Dedupe(xs), xs)
    decreases |xs|
  {
    if xs != [] {
      var init := xs[..|xs| - 1];
      DedupeSubsequence(init);
      assert xs == init + [xs[|xs| - 1]];
      SubsequenceSnoc(Dedupe(init), init, xs[|xs| - 1]);
    }
  }

  /** A sequence without duplicates is its own dedupe. */
  lemma {:induction false} DedupeOfDistinct<T>(xs: seq<T>)
    requires NoDuplicates(xs)
    ensures Dedupe(xs) == xs
    decreases |xs|
  {
    if xs != [] {
      var init := xs[..|xs| - 1];
      DedupeOfDistinct(init);
      assert xs[|xs| - 1] !in init;
      assert xs == init + [xs[|xs| - 1]];
    }
  }

  lemma DedupeIdempotent<T>(xs: seq<T>)
    ensures Dedupe(Dedupe(xs)) == Dedupe(xs)
  {
    DedupeNoDuplicates(xs);
    DedupeOfDistinct(Dedupe(xs));
  }

  /** Python's treatment of one slice bound against a sequence of length `n`. */
  function SliceBound(i: int, n: nat): (r: nat)
    ensures r <= n
    ensures 0 <= i <= n ==> r == i
  {
    if i < 0 then (if i + n < 0 then 0 else i + n) else if i > n then n else i
  }

  /** Python's `xs[a:b]`: negative bounds count from the end, out-of-range bounds are clamped. */
  function PySlice<T>(xs: seq<T>, a: int, b: int): (r: seq<T>)
    ensures 0 <= a <= b <= |xs| ==> r == xs[a..b]
    ensures |r| <= |xs|
  {
    var lo := SliceBound(a, |xs|);
    var hi := SliceBound(b, |xs|);
    if lo < hi then xs[lo..hi] else []
  }

  /** All elements of a sequence of sequences, in order. */
  function Flatten<T>(xss: seq<seq<T>>): (r: seq<T>)
    decreases |xss|
  {
    if xss == [] then [] else Flatten(xss[..|xss| - 1]) + xss[|xss| - 1]
  }

  /** The elements of `xs` that satisfy `p`, in order (a filtering loop or comprehension). */
  function Filter<T>(xs: seq<T>, p: T -> bool): (r: seq<T>)
    ensures |r| <= |xs|
    decreases |xs|
  {
    if xs == [] then [] else
      var init := Filter(xs[..|xs| - 1], p);
      if p(xs[|xs| - 1]) then init + [xs[|xs| - 1]] else init
  }

  /** One more element of the input extends the filter by that element, if it passes. */
  lemma FilterSnoc<T>(xs: seq<T>, i: nat, p: T -> bool)
    requires i < |xs|
    ensures Filter(xs[..i + 1], p) == Filter(xs[..i], p) + if p(xs[i]) then [xs[i]] else []
  {
    assert xs[..i + 1][..i] == xs[..i];
  }

  /** The filter keeps exactly the passing elements, in their order. */
  lemma {:induction false} FilterSpec<T>(xs: seq<T>, p: T -> bool)
    ensures IsSubsequence(Filter(xs, p), xs)
    ensures forall x :: x in Filter(xs, p) <==> x in xs && p(x)
    decreases |xs|
  {
    if xs != [] {
      var init, last := xs[..|xs| - 1], xs[|xs| - 1];
      FilterSpec(init, p);
      assert xs == init + [last];
      if p(last) {
        SubsequenceSnoc(Filter(init, p), init, last);
      } else {
        SubsequenceSnoc(Filter(init, p), init, last);
      }
    }
  }

  lemma {:induction false} SubsequenceTransitive<T>(xs: seq<T>, ys: seq<T>, zs: seq<T>)
    requires IsSubsequence(xs, ys) && IsSubsequence(ys, zs)
    ensures IsSubsequence(xs, zs)
    decreases |zs|
  {
    if xs != [] {
      var xs', ys', zs' := xs[..|xs| - 1], ys[..|ys| - 1], zs[..|zs| - 1];
      if ys[|ys| - 1] == zs[|zs| - 1] {
        if xs[|xs| - 1] == ys[|ys| - 1] {
          SubsequenceTransitive(xs', ys', zs');
        } else {
          SubsequenceTransitive(xs, ys', zs');
        }
      } else {
        SubsequenceTransitive(xs, ys, zs');
        if xs[|xs| - 1] == zs[|zs| - 1] {
          SubsequenceDropLast(xs, zs');
        }
      }
    }
  }

  /** `f` applied to every element, in order. */
  function Map<T, U>(xs: seq<T>, f: T -> U): (r: seq<U>)
    ensures |r| == |xs|
    decreases |xs|
  {
    if xs == [] then [] else Map(xs[..|xs| - 1], f) + [f(xs[|xs| - 1])]
  }

  /** One more element maps to one more image. */
  lemma MapAppendOne<T, U>(xs: seq<T>, x: T, f: T -> U)
    ensures Map(xs + [x], f) == Map(xs, f) + [f(x)]
  {
    assert (xs + [x])[..|xs|] == xs;
  }

  lemma {:induction false} MapIndex<T, U>(xs: seq<T>, f: T -> U, i: nat)
    requires i < |xs|
    ensures Map(xs, f)[i] == f(xs[i])
    decreases |xs|
  {
    var init := xs[..|xs| - 1];
    if i < |init| {
      MapIndex(init, f, i);
      assert init[i] == xs[i];
    }
  }

  function FlatMap<T, U>(xs: seq<T>, f: T -> seq<U>): seq<U>
    decreases |xs|
  {
    if xs == [] then [] else f(xs[0]) + FlatMap(xs[1..], f)
  }

  lemma {:induction false} FlatMapAppend<T, U>(xs: seq<T>, ys: seq<T>, f: T -> seq<U>)
    ensures FlatMap(xs + ys, f) == FlatMap(xs, f) + FlatMap(ys, f)
    decreases |xs|
  {
    if xs == [] {
      assert xs + ys == ys;
    } else {
      assert (xs + ys)[1..] == xs[1..] + ys;
      FlatMapAppend(xs[1..], ys, f);
    }
  }

  // ---------------------------------------------------------------------
  // Dedupe by key (a `seen` set of keys filled while appending)
  // ---------------------------------------------------------------------

  /** The keys of the elements of `xs`. */
  function KeysBy<T, K>(xs: seq<T>, key: T -> K): set<K>
    decreases |xs|
  {
    if xs == [] then {} else KeysBy(xs[..|xs| - 1], key) + {key(xs[|xs| - 1])}
  }

  /** The keys are exactly the keys of the elements. */
  lemma {:induction false} KeysByIff<T, K>(xs: seq<T>, key: T -> K)
    ensures forall x :: x in KeysBy(xs, key) <==> exists i | 0 <= i < |xs| :: key(xs[i]) == x
    decreases |xs|
  {
    if xs != [] {
      var init := xs[..|xs| - 1];
      KeysByIff(init, key);
      assert forall i | 0 <= i < |init| :: init[i] == xs[i];
    }
  }

  /** Keeps every element whose key was not seen before, in order. */
  function DedupeBy<T, K(==)>(xs: seq<T>, key: T -> K): (r: seq<T>)
    ensures |r| <= |xs|
    decreases |xs|
  {
    if xs == [] then []
    else
      var kept := DedupeBy(xs[..|xs| - 1], key);
      if key(xs[|xs| - 1]) in KeysBy(kept, key) then kept else kept + [xs[|xs| - 1]]
  }

  lemma DedupeBySnoc<T, K>(xs: seq<T>, x: T, key: T -> K)
    ensures DedupeBy(xs + [x], key)
         == if key(x) in KeysBy(DedupeBy(xs, key), key) then DedupeBy(xs, key)
            else DedupeBy(xs, key) + [x]
  {
    assert (xs + [x])[..|xs|] == xs;
  }

  lemma {:induction false} KeysByHas<T, K>(xs: seq<T>, i: nat, key: T -> K)
    requires i < |xs|
    ensures key(xs[i]) in KeysBy(xs, key)
    decreases |xs|
  {
    var init := xs[..|xs| - 1];
    if i < |init| {
      KeysByHas(init, i, key);
    }
  }

  lemma KeysBySnoc<T, K>(xs: seq<T>, x: T, key: T -> K)
    ensures KeysBy(xs + [x], key) == KeysBy(xs, key) + {key(x)}
  {
    assert (xs + [x])[..|xs|] == xs;
  }

  /**
   * The kept elements are a subsequence of the input, have pairwise
   * distinct keys, and cover every key of the input.
   */
  lemma {:induction false} DedupeBySpec<T, K>(xs: seq<T>, key: T -> K)
    ensures IsSubsequence(DedupeBy(xs, key), xs)
    ensures KeysBy(DedupeBy(xs, key), key) == KeysBy(xs, key)
    ensures forall i, j | 0 <= i < j < |DedupeBy(xs, key)| ::
              key(DedupeBy(xs, key)[i]) != key(DedupeBy(xs, key)[j])
    decreases |xs|
  {
    if xs != [] {
      var init, last := xs[..|xs| - 1], xs[|xs| - 1];
      DedupeBySpec(init, key);
      assert xs == init + [last];
      var d := DedupeBy(init, key);
      SubsequenceSnoc(d, init, last);
      KeysBySnoc(init, last, key);
      if key(last) !in KeysBy(d, key) {
        KeysBySnoc(d, last, key);
        var r := d + [last];
        forall i, j | 0 <= i < j < |r| ensures key(r[i]) != key(r[j]) {
          if j == |d| {
            KeysByHas(d, i, key);
            assert r[i] == d[i];
          }
        }
      }
    }
  }

  /** Every kept element is the first element of the input with its key. */
  lemma {:induction false} DedupeByFirstSeen<T, K>(xs: seq<T>, key: T -> K)
    ensures forall i | 0 <= i < |DedupeBy(xs, key)| ::
              exists k | 0 <= k < |xs| :: xs[k] == DedupeBy(xs, key)[i]
                && forall j | 0 <= j < k :: key(xs[j]) != key(xs[k])
    decreases |xs|
  {
    if xs != [] {
      var init, last := xs[..|xs| - 1], xs[|xs| - 1];
      DedupeByFirstSeen(init, key);
      var d, r := DedupeBy(init, key), DedupeBy(xs, key);
      assert xs == init + [last];
      DedupeBySnoc(init, last, key);
      forall i | 0 <= i < |r|
        ensures exists k | 0 <= k < |xs| :: xs[k] == r[i]
                  && forall j | 0 <= j < k :: key(xs[j]) != key(xs[k])
      {
        if i < |d| {
          assert r[i] == d[i];
          var k :| 0 <= k < |init| && init[k] == d[i]
                   && forall j | 0 <= j < k :: key(init[j]) != key(init[k]);
          assert xs[k] == r[i];
          assert forall j | 0 <= j < k :: xs[j] == init[j];
        } else {
          assert r == d + [last] && r[i] == last;
          assert key(last) !in KeysBy(init, key) by {
            DedupeBySpec(init, key);
          }
          forall j | 0 <= j < |init| ensures key(xs[j]) != key(last) {
            KeysByHas(init, j, key);
            assert xs[j] == init[j];
          }
          assert xs[|init|] == r[i];
        }
      }
      assert r == DedupeBy(xs, key);
    } else {
      assert DedupeBy(xs, key) == [];
    }
  }

  /** The index of the first element of `xs` whose key is `k`, or `|xs|` when there is none. */
  function FirstKeyIndex<T, K(==)>(xs: seq<T>, k: K, key: T -> K): (r: nat)
    ensures r <= |xs|
    ensures r < |xs| ==> key(xs[r]) == k
    ensures forall j | 0 <= j < r :: key(xs[j]) != k
    decreases |xs|
  {
    if xs == [] then 0
    else if key(xs[0]) == k then 0
    else
      var r' := FirstKeyIndex(xs[1..], k, key);
      assert forall j | 1 <= j < 1 + r' :: xs[j] == xs[1..][j - 1];
      1 + r'
  }

  /** An occurrence with no earlier element of the same key is the first one. */
  lemma FirstKeyIndexAt<T, K>(xs: seq<T>, k: K, key: T -> K, p: nat)
    requires p < |xs| && key(xs[p]) == k
    requires forall j | 0 <= j < p :: key(xs[j]) != k
    ensures FirstKeyIndex(xs, k, key) == p
  {
  }

  /** Appending an element does not move the first occurrence of a key already present. */
  lemma FirstKeyIndexSnoc<T, K>(xs: seq<T>, x: T, k: K, key: T -> K)
    requires FirstKeyIndex(xs, k, key) < |xs|
    ensures FirstKeyIndex(xs + [x], k, key) == FirstKeyIndex(xs, k, key)
  {
    var p := FirstKeyIndex(xs, k, key);
    assert forall j | 0 <= j <= p :: (xs + [x])[j] == xs[j];
    FirstKeyIndexAt(xs + [x], k, key, p);
  }

  /** Each element of `r` is the first element of `xs` with its key. */
  predicate KeptFirst<T(==), K(==)>(xs: seq<T>, r: seq<T>, key: T -> K) {
    forall i | 0 <= i < |r| ::
      FirstKeyIndex(xs, key(r[i]), key) < |xs| && xs[FirstKeyIndex(xs, key(r[i]), key)] == r[i]
  }

  /** The elements of `r` come in the order in which their keys first occur in `xs`. */
  predicate KeptInOrder<T, K(==)>(xs: seq<T>, r: seq<T>, key: T -> K) {
    forall i, j | 0 <= i < j < |r| :: FirstKeyIndex(xs, key(r[i]), key) < FirstKeyIndex(xs, key(r[j]), key)
  }

  /**
   * The kept elements are the first element of each key, in the order in
   * which the keys first occur: a later occurrence is never kept in place
   * of an earlier one.
   */
  lemma {:induction false} DedupeByFirstOrder<T, K>(xs: seq<T>, key: T -> K)
    ensures KeptFirst(xs, DedupeBy(xs, key), key)
    ensures KeptInOrder(xs, DedupeBy(xs, key), key)
    decreases |xs|
  {
    if xs != [] {
      var init, last := xs[..|xs| - 1], xs[|xs| - 1];
      DedupeByFirstOrder(init, key);
      assert xs == init + [last];
      DedupeBySnoc(init, last, key);
      var d := DedupeBy(init, key);
      KeptSnoc(init, d, last, key);
      if key(last) !in KeysBy(d, key) {
        DedupeBySpec(init, key);
        forall j | 0 <= j < |init| ensures key(init[j]) != key(last) {
          KeysByHas(init, j, key);
        }
        KeptSnocNew(init, d, last, key);
      }
    }
  }

  /** Appending to the input keeps both properties of an unchanged result. */
  lemma KeptSnoc<T, K>(xs: seq<T>, r: seq<T>, x: T, key: T -> K)
    requires KeptFirst(xs, r, key) && KeptInOrder(xs, r, key)
    ensures KeptFirst(xs + [x], r, key) && KeptInOrder(xs + [x], r, key)
    ensures forall i | 0 <= i < |r| :: FirstKeyIndex(xs + [x], key(r[i]), key) < |xs|
  {
    forall i | 0 <= i < |r|
      ensures FirstKeyIndex(xs + [x], key(r[i]), key) == FirstKeyIndex(xs, key(r[i]), key)
    {
      FirstKeyIndexSnoc(xs, x, key(r[i]), key);
    }
  }

  /** An element whose key is new to the input is kept last, after every earlier key. */
  lemma KeptSnocNew<T, K>(xs: seq<T>, r: seq<T>, x: T, key: T -> K)
    requires KeptFirst(xs, r, key) && KeptInOrder(xs, r, key)
    requires forall j | 0 <= j < |xs| :: key(xs[j]) != key(x)
    ensures KeptFirst(xs + [x], r + [x], key) && KeptInOrder(xs + [x], r + [x], key)
  {
    KeptSnoc(xs, r, x, key);
    FirstKeyIndexAt(xs + [x], key(x), key, |xs|);
    var r' := r + [x];
    assert forall i | 0 <= i < |r| :: r'[i] == r[i];
  }

  /** The identity, as a key function. */
  function Id<T>(x: T): T { x }

  /** `Dedupe` is `DedupeBy` with the elements as their own keys. */
  lemma {:induction false} DedupeIsDedupeBy<T>(xs: seq<T>)
    ensures Dedupe(xs) == DedupeBy(xs, Id)
    decreases |xs|
  {
    if xs != [] {
      var init, last := xs[..|xs| - 1], xs[|xs| - 1];
      DedupeIsDedupeBy(init);
      var d := Dedupe(init);
      KeysByIff(d, Id);
      assert last in d <==> Id(last) in KeysBy(d, Id) by {
        if last in d {
          var i :| 0 <= i < |d| && d[i] == last;
          assert Id(d[i]) == Id(last);
        }
      }
    }
  }

  /** `Dedupe` keeps first occurrences, in the order in which the values first occur. */
  lemma DedupeFirstOrder<T>(xs: seq<T>)
    ensures KeptFirst(xs, Dedupe(xs), Id)
    ensures KeptInOrder(xs, Dedupe(xs), Id)
  {
    DedupeIsDedupeBy(xs);
    DedupeByFirstOrder(xs, Id);
  }

  /** The first element of the input is always kept, in front. */
  lemma {:induction false} DedupeByHead<T, K>(xs: seq<T>, key: T -> K)
    requires xs != []
    ensures DedupeBy(xs, key) != [] && DedupeBy(xs, key)[0] == xs[0]
    decreases |xs|
  {
    var init := xs[..|xs| - 1];
    if |xs| > 1 {
      DedupeByHead(init, key);
      assert init[0] == xs[0];
      assert DedupeBy(xs, key)[0] == DedupeBy(init, key)[0];
    } else {
      assert init == [];
      assert DedupeBy(xs, key) == [xs[0]];
    }
  }

  /** Without repeated keys nothing is dropped. */
  lemma {:induction false} DedupeByDistinct<T, K>(xs: seq<T>, key: T -> K)
    requires forall i, j | 0 <= i < j < |xs| :: key(xs[i]) != key(xs[j])
    ensures DedupeBy(xs, key) == xs
    decreases |xs|
  {
    if xs != [] {
      var init, last := xs[..|xs| - 1], xs[|xs| - 1];
      DedupeByDistinct(init, key);
      KeysByExcludes(init, key(last), key);
      assert xs == init + [last];
    }
  }

  lemma {:induction false} KeysByExcludes<T, K>(xs: seq<T>, x: K, key: T -> K)
    requires forall i | 0 <= i < |xs| :: key(xs[i]) != x
    ensures x !in KeysBy(xs, key)
    decreases |xs|
  {
    if xs != [] {
      KeysByExcludes(xs[..|xs| - 1], x, key);
    }
  }

  /** The first element of a filtered sequence is the first passing element. */
  lemma {:induction false} FilterHead<T>(xs: seq<T>, p: T -> bool)
    requires xs != [] && p(xs[0])
    ensures Filter(xs, p) != [] && Filter(xs, p)[0] == xs[0]
    decreases |xs|
  {
    if |xs| > 1 {
      var init := xs[..|xs| - 1];
      FilterHead(init, p);
    }
  }

  lemma FilterAppendOne<T>(xs: seq<T>, x: T, p: T -> bool)
    ensures Filter(xs + [x], p) == Filter(xs, p) + if p(x) then [x] else []
  {
    assert (xs + [x])[..|xs|] == xs;
  }

  /** One more element of `ys` taken after `xs`. */
  lemma AppendPrefixSnoc<T>(xs: seq<T>, ys: seq<T>, k: nat)
    requires k < |ys|
    ensures xs + ys[..k + 1] == (xs + ys[..k]) + [ys[k]]
  {
  }

  lemma AppendEmptyPrefix<T>(xs: seq<T>, ys: seq<T>)
    ensures xs + ys[..0] == xs
  {
    assert ys[..0] == [];
  }

  lemma AppendWholePrefix<T>(xs: seq<T>, ys: seq<T>)
    ensures xs + ys[..|ys|] == xs + ys
  {
    assert ys[..|ys|] == ys;
  }
}
