/** The two scans every component is built from: the first element that passes a test, and the
    order-preserving keep-and-transform filter. */
module Sequences {
  import opened Wrappers

  /** The first index at or after `from` whose element satisfies `p`. */
  function FindIndex<T>(xs: seq<T>, p: T -> bool, from: nat): (r: Option<nat>)
    requires from <= |xs|
    ensures r.Some? ==> from <= r.value < |xs| && p(xs[r.value])
    ensures r.Some? ==> forall k :: from <= k < r.value ==> !p(xs[k])
    ensures r.None? <==> forall k :: from <= k < |xs| ==> !p(xs[k])
    decreases |xs| - from
  {
    if from == |xs| then None
    else if p(xs[from]) then Some(from)
    else FindIndex(xs, p, from + 1)
  }

  /** An element that passes, with none before it passing, is the one found. */
  lemma FindIndexFirst<T>(xs: seq<T>, p: T -> bool)
    ensures forall i :: 0 <= i < |xs| && p(xs[i]) && (forall j :: 0 <= j < i ==> !p(xs[j])) ==> FindIndex(xs, p, 0) == Some(i)
  {
    var r := FindIndex(xs, p, 0);
    forall i | 0 <= i < |xs| && p(xs[i]) && (forall j :: 0 <= j < i ==> !p(xs[j])) ensures r == Some(i) {
      assert r.Some?;
      assert !(r.value < i) && !(r.value > i);
    }
  }

  /** The first `Some` that `f` gives along `xs`. */
  function FirstSome<A, B>(xs: seq<A>, f: A -> Option<B>): (r: Option<B>)
    ensures r.Some? ==> exists i :: 0 <= i < |xs| && f(xs[i]) == r && forall j :: 0 <= j < i ==> f(xs[j]).None?
    ensures r.None? <==> forall i :: 0 <= i < |xs| ==> f(xs[i]).None?
  {
    if |xs| == 0 then None
    else if f(xs[0]).Some? then f(xs[0])
    else
      var r := FirstSome(xs[1..], f);
      assert forall i :: 1 <= i < |xs| ==> xs[1..][i - 1] == xs[i];
      r
  }

  /** When `f` rejects everything before position `k` and accepts `xs[k]`, the first value is `f(xs[k])`. */
  lemma FirstSomeAt<A, B>(xs: seq<A>, f: A -> Option<B>, k: nat)
    requires k < |xs| && f(xs[k]).Some? && forall j :: 0 <= j < k ==> f(xs[j]).None?
    ensures FirstSome(xs, f) == f(xs[k])
  {
    var r := FirstSome(xs, f);
    assert r.Some?;
    var i :| 0 <= i < |xs| && f(xs[i]) == r && forall j :: 0 <= j < i ==> f(xs[j]).None?;
    assert i == k;
  }

  /** The values `f` gives for the elements it accepts, in the order of `xs`. */
  function FilterMap<A, B>(xs: seq<A>, f: A -> Option<B>): seq<B> {
    if |xs| == 0 then []
    else FilterMap(xs[..|xs| - 1], f) + (if f(xs[|xs| - 1]).Some? then [f(xs[|xs| - 1]).value] else [])
  }

  /** The indices of the elements `FilterMap` keeps. */
  function Kept<A, B>(xs: seq<A>, f: A -> Option<B>): seq<nat> {
    if |xs| == 0 then []
    else Kept(xs[..|xs| - 1], f) + (if f(xs[|xs| - 1]).Some? then [|xs| - 1] else [])
  }

  predicate StrictlyIncreasing(idx: seq<nat>) {
    forall a, b :: 0 <= a < b < |idx| ==> idx[a] < idx[b]
  }

  lemma KeptSnoc<A, B>(xs: seq<A>, f: A -> Option<B>)
    requires |xs| > 0
    ensures Kept(xs, f) == Kept(xs[..|xs| - 1], f) + (if f(xs[|xs| - 1]).Some? then [|xs| - 1] else [])
    ensures FilterMap(xs, f) == FilterMap(xs[..|xs| - 1], f) + (if f(xs[|xs| - 1]).Some? then [f(xs[|xs| - 1]).value] else [])
  {
  }

  /** Every kept index is an index of `xs`, so the output is no longer than the input. */
  lemma {:induction false} KeptInRange<A, B>(xs: seq<A>, f: A -> Option<B>)
    ensures |FilterMap(xs, f)| == |Kept(xs, f)| <= |xs|
    ensures forall k :: 0 <= k < |Kept(xs, f)| ==> Kept(xs, f)[k] < |xs|
  {
    if |xs| > 0 {
      KeptInRange(xs[..|xs| - 1], f);
      KeptSnoc(xs, f);
    }
  }

  lemma {:induction false} KeptIncreasing<A, B>(xs: seq<A>, f: A -> Option<B>)
    ensures StrictlyIncreasing(Kept(xs, f))
  {
    if |xs| > 0 {
      var n := |xs| - 1;
      KeptIncreasing(xs[..n], f);
      KeptInRange(xs[..n], f);
      KeptSnoc(xs, f);
      var K := Kept(xs[..n], f);
      if f(xs[n]).Some? {
        forall a, b | 0 <= a < b < |K| + 1 ensures (K + [n])[a] < (K + [n])[b] {
          if b == |K| {
            assert K[a] < n;
          }
        }
      }
    }
  }

  lemma {:induction false} KeptValues<A, B>(xs: seq<A>, f: A -> Option<B>)
    ensures |FilterMap(xs, f)| == |Kept(xs, f)|
    ensures forall k :: 0 <= k < |Kept(xs, f)| ==> Kept(xs, f)[k] < |xs| && f(xs[Kept(xs, f)[k]]) == Some(FilterMap(xs, f)[k])
  {
    if |xs| > 0 {
      var n := |xs| - 1;
      KeptValues(xs[..n], f);
      KeptInRange(xs[..n], f);
      KeptSnoc(xs, f);
      var K, F := Kept(xs[..n], f), FilterMap(xs[..n], f);
      forall k | 0 <= k < |K| ensures xs[..n][K[k]] == xs[K[k]] {}
    }
  }

  lemma {:induction false} KeptMembership<A, B>(xs: seq<A>, f: A -> Option<B>)
    ensures forall i :: 0 <= i < |xs| ==> (f(xs[i]).Some? <==> i in Kept(xs, f))
  {
    if |xs| > 0 {
      var n := |xs| - 1;
      KeptMembership(xs[..n], f);
      KeptInRange(xs[..n], f);
      KeptSnoc(xs, f);
      var K := Kept(xs[..n], f);
      forall i | 0 <= i < n ensures xs[..n][i] == xs[i] {}
      assert n !in K by {
        forall k | 0 <= k < |K| ensures K[k] != n {
          assert K[k] < n;
        }
      }
    }
  }

  /** `FilterMap` keeps exactly the accepted elements, each once, in their original order. */
  lemma FilterMapKeeps<A, B>(xs: seq<A>, f: A -> Option<B>)
    ensures |FilterMap(xs, f)| == |Kept(xs, f)| <= |xs|
    ensures StrictlyIncreasing(Kept(xs, f))
    ensures forall k :: 0 <= k < |Kept(xs, f)| ==>
              Kept(xs, f)[k] < |xs| && f(xs[Kept(xs, f)[k]]) == Some(FilterMap(xs, f)[k])
    ensures forall i :: 0 <= i < |xs| ==> (f(xs[i]).Some? <==> i in Kept(xs, f))
  {
    KeptInRange(xs, f);
    KeptIncreasing(xs, f);
    KeptValues(xs, f);
    KeptMembership(xs, f);
  }

  lemma FilterMapLength<A, B>(xs: seq<A>, f: A -> Option<B>)
    ensures |FilterMap(xs, f)| <= |xs|
  {
    FilterMapKeeps(xs, f);
  }

  /** Extending the input by one element extends the output by at most that element's value. */
  lemma FilterMapSnoc<A, B>(xs: seq<A>, x: A, f: A -> Option<B>)
    ensures FilterMap(xs + [x], f) == FilterMap(xs, f) + (if f(x).Some? then [f(x).value] else [])
  {
    assert (xs + [x])[..|xs|] == xs;
  }

  /** The number of elements satisfying `p`. */
  function CountWhere<T>(xs: seq<T>, p: T -> bool): nat {
    if |xs| == 0 then 0 else CountWhere(xs[..|xs| - 1], p) + (if p(xs[|xs| - 1]) then 1 else 0)
  }

  lemma {:induction false} CountWhereBounds<T>(xs: seq<T>, p: T -> bool)
    ensures CountWhere(xs, p) <= |xs|
    ensures CountWhere(xs, p) == 0 <==> forall i :: 0 <= i < |xs| ==> !p(xs[i])
  {
    if |xs| > 0 {
      var init := xs[..|xs| - 1];
      CountWhereBounds(init, p);
      assert forall i :: 0 <= i < |init| ==> init[i] == xs[i];
    }
  }

  /** A weaker test counts at least as many elements. */
  lemma {:induction false} CountWhereMonotone<T>(xs: seq<T>, p: T -> bool, q: T -> bool)
    requires forall i :: 0 <= i < |xs| && p(xs[i]) ==> q(xs[i])
    ensures CountWhere(xs, p) <= CountWhere(xs, q)
  {
    if |xs| > 0 {
      var init := xs[..|xs| - 1];
      assert forall i :: 0 <= i < |init| ==> init[i] == xs[i];
      CountWhereMonotone(init, p, q);
    }
  }

  /** Exactly one element passing gives a count of one. */
  lemma {:induction false} CountWhereOnly<T>(xs: seq<T>, p: T -> bool, k: nat)
    requires k < |xs| && p(xs[k])
    requires forall j :: 0 <= j < |xs| && j != k ==> !p(xs[j])
    ensures CountWhere(xs, p) == 1
  {
    var init := xs[..|xs| - 1];
    assert forall i :: 0 <= i < |init| ==> init[i] == xs[i];
    if k == |xs| - 1 {
      CountWhereBounds(init, p);
    } else {
      CountWhereOnly(init, p, k);
    }
  }

  lemma CountWhereStep<T>(xs: seq<T>, p: T -> bool, i: nat)
    requires i < |xs|
    ensures CountWhere(xs[..i + 1], p) == CountWhere(xs[..i], p) + (if p(xs[i]) then 1 else 0)
  {
    assert xs[..i + 1][..i] == xs[..i];
  }

  /**
    The index of the element with the least key, the first one among equals; elements without a
    key take no part.
  */
  function FirstMinIndex<T>(xs: seq<T>, key: T -> Option<int>): (r: Option<nat>)
    ensures r.Some? ==> r.value < |xs| && key(xs[r.value]).Some?
  {
    if |xs| == 0 then None
    else
      var init := xs[..|xs| - 1];
      assert forall i :: 0 <= i < |init| ==> init[i] == xs[i];
      var m := FirstMinIndex(init, key);
      var last := key(xs[|xs| - 1]);
      if last.Some? && (m.None? || last.value < key(xs[m.value]).value) then Some(|xs| - 1) else m
  }

  /**
    The index found has a key, the least one, and no earlier index has that key; there is none
    exactly when no element has a key.
  */
  lemma {:induction false} FirstMinIndexIsFirstMinimal<T>(xs: seq<T>, key: T -> Option<int>)
    ensures var r := FirstMinIndex(xs, key);
      && (r.None? <==> forall i :: 0 <= i < |xs| ==> key(xs[i]).None?)
      && (r.Some? ==> forall j :: 0 <= j < |xs| && key(xs[j]).Some? ==> key(xs[r.value]).value <= key(xs[j]).value)
      && (r.Some? ==> forall j :: 0 <= j < r.value && key(xs[j]).Some? ==> key(xs[r.value]).value < key(xs[j]).value)
  {
    if |xs| > 0 {
      var init := xs[..|xs| - 1];
      assert forall i :: 0 <= i < |init| ==> init[i] == xs[i];
      FirstMinIndexIsFirstMinimal(init, key);
    }
  }

  lemma FirstMinIndexStep<T>(xs: seq<T>, key: T -> Option<int>, i: nat)
    requires i < |xs|
    ensures var m := FirstMinIndex(xs[..i], key);
      FirstMinIndex(xs[..i + 1], key) ==
        if key(xs[i]).Some? && (m.None? || key(xs[i]).value < key(xs[m.value]).value) then Some(i) else m
  {
    assert xs[..i + 1][..i] == xs[..i];
  }
}
