/** Small shared vocabulary: optional values, distinct sequences, counting,
    and a total encoding of "some permutation" used wherever the system
    shuffles a list at random. */
module Util {

  datatype Option<+T> = None | Some(value: T)

  datatype Result<+R, +E> = Success(value: R) | Failure(error: E)

  function Min(a: int, b: int): int { if a <= b then a else b }

  /** No element occurs twice. */
  predicate Distinct<T(==)>(s: seq<T>) {
    forall i, j :: 0 <= i < j < |s| ==> s[i] != s[j]
  }

  /** The first `n` elements, or all of them when there are fewer
      (JavaScript `slice(0, n)`, Python `xs[:n]`). */
  function Take<T>(s: seq<T>, n: nat): (r: seq<T>)
    ensures |r| == Min(n, |s|)
    ensures r == s[..|r|]
  {
    if n <= |s| then s[..n] else s
  }

  /** Number of elements that satisfy `p`. */
  function CountIf<T>(s: seq<T>, p: T -> bool): (n: nat)
    ensures n <= |s|
  {
    if |s| == 0 then 0 else CountIf(s[..|s| - 1], p) + (if p(s[|s| - 1]) then 1 else 0)
  }

  lemma {:induction false} CountIfConcat<T>(a: seq<T>, b: seq<T>, p: T -> bool)
    ensures CountIf(a + b, p) == CountIf(a, p) + CountIf(b, p)
    decreases |b|
  {
    if |b| == 0 {
      assert a + b == a;
    } else {
      assert (a + b)[..|a + b| - 1] == a + b[..|b| - 1];
      CountIfConcat(a, b[..|b| - 1], p);
    }
  }

  /** Decodes an arbitrary list of picks into a rearrangement of `xs`: the
      next element is the one at position `pick mod (number left)`, as a
      Fisher-Yates shuffle draws it. Every sequence of picks yields a
      permutation and every permutation is reachable, so a shuffle driven
      by a random source is modelled by leaving `picks` unconstrained. */
  function Shuffle<T>(xs: seq<T>, picks: seq<nat>): (r: seq<T>)
    ensures |r| == |xs|
    ensures multiset(r) == multiset(xs)
    decreases |xs|
  {
    if |xs| == 0 then []
    else
      var j := (if |picks| > 0 then picks[0] else 0) % |xs|;
      var rest := xs[..j] + xs[j + 1..];
      assert xs == xs[..j] + [xs[j]] + xs[j + 1..];
      [xs[j]] + Shuffle(rest, if |picks| > 0 then picks[1..] else [])
  }

  /** Removing one element of a duplicate-free sequence leaves a
      duplicate-free sequence without it. */
  lemma RemoveAtDistinct<T>(xs: seq<T>, j: nat)
    requires Distinct(xs) && j < |xs|
    ensures Distinct(xs[..j] + xs[j + 1..]) && xs[j] !in xs[..j] + xs[j + 1..]
  {
    var rest := xs[..j] + xs[j + 1..];
    forall a, b | 0 <= a < b < |rest|
      ensures rest[a] != rest[b]
    {
      var a' := if a < j then a else a + 1;
      var b' := if b < j then b else b + 1;
      assert rest[a] == xs[a'] && rest[b] == xs[b'];
    }
    forall a | 0 <= a < |rest|
      ensures rest[a] != xs[j]
    {
      var a' := if a < j then a else a + 1;
      assert rest[a] == xs[a'];
    }
  }

  lemma DistinctCons<T>(x: T, s: seq<T>)
    requires Distinct(s) && x !in s
    ensures Distinct([x] + s)
  {
    assert forall k :: 0 < k < |[x] + s| ==> ([x] + s)[k] == s[k - 1];
  }

  /** A new head on a duplicate-free rearrangement of a sequence that
      lacks it stays duplicate-free. */
  lemma DistinctStep<T>(x: T, rest: seq<T>, tail: seq<T>)
    requires Distinct(tail) && multiset(tail) == multiset(rest) && x !in rest
    ensures Distinct([x] + tail)
  {
    assert x !in multiset(tail) by {
      assert x !in multiset(rest);
    }
    DistinctCons(x, tail);
  }

  lemma {:induction false} ShuffleKeepsDistinct<T>(xs: seq<T>, picks: seq<nat>)
    ensures Distinct(xs) ==> Distinct(Shuffle(xs, picks))
    decreases |xs|
  {
    if |xs| > 0 && Distinct(xs) {
      var j := (if |picks| > 0 then picks[0] else 0) % |xs|;
      var rest := xs[..j] + xs[j + 1..];
      var picks' := if |picks| > 0 then picks[1..] else [];
      assert Distinct(rest) && xs[j] !in rest by {
        RemoveAtDistinct(xs, j);
      }
      assert Distinct(Shuffle(rest, picks')) by {
        ShuffleKeepsDistinct(rest, picks');
      }
      assert Distinct([xs[j]] + Shuffle(rest, picks')) by {
        DistinctStep(xs[j], rest, Shuffle(rest, picks'));
      }
    }
  }

  /** A prefix of a shuffle draws its elements from the input, and draws
      none twice when the input has no duplicates. */
  lemma ShufflePrefix<T>(xs: seq<T>, picks: seq<nat>, n: nat)
    ensures forall k :: 0 <= k < |Take(Shuffle(xs, picks), n)| ==> Take(Shuffle(xs, picks), n)[k] in xs
    ensures Distinct(xs) ==> Distinct(Take(Shuffle(xs, picks), n))
  {
    var s := Shuffle(xs, picks);
    var r := Take(s, n);
    forall k | 0 <= k < |r|
      ensures r[k] in xs
    {
      assert r[k] == s[k];
      assert s[k] in multiset(s);
    }
    ShuffleKeepsDistinct(xs, picks);
  }

  lemma SplitAt<T>(xs: seq<T>, j: nat)
    requires j < |xs|
    ensures xs == xs[..j] + [xs[j]] + xs[j + 1..]
  {
  }

  /** Removing one element takes away exactly its own count. */
  lemma CountIfRemove<T>(a: seq<T>, x: T, b: seq<T>, p: T -> bool)
    ensures CountIf(a + [x] + b, p) == CountIf(a + b, p) + (if p(x) then 1 else 0)
  {
    CountIfConcat(a + [x], b, p);
    CountIfConcat(a, b, p);
    assert CountIf(a + [x], p) == CountIf(a, p) + (if p(x) then 1 else 0) by {
      assert (a + [x])[..|a|] == a;
    }
  }

  lemma CountIfCons<T>(x: T, tail: seq<T>, p: T -> bool)
    ensures CountIf([x] + tail, p) == (if p(x) then 1 else 0) + CountIf(tail, p)
  {
    assert [x][..0] == [];
    CountIfConcat([x], tail, p);
  }

  lemma {:induction false} ShuffleKeepsCount<T>(xs: seq<T>, picks: seq<nat>, p: T -> bool)
    ensures CountIf(Shuffle(xs, picks), p) == CountIf(xs, p)
    decreases |xs|
  {
    if |xs| > 0 {
      var j := (if |picks| > 0 then picks[0] else 0) % |xs|;
      var rest := xs[..j] + xs[j + 1..];
      var picks' := if |picks| > 0 then picks[1..] else [];
      var tail := Shuffle(rest, picks');
      var n := if p(xs[j]) then 1 else 0;
      assert CountIf(xs, p) == CountIf(rest, p) + n by {
        SplitAt(xs, j);
        CountIfRemove(xs[..j], xs[j], xs[j + 1..], p);
      }
      assert CountIf(tail, p) == CountIf(rest, p) by {
        ShuffleKeepsCount(rest, picks', p);
      }
      assert CountIf(Shuffle(xs, picks), p) == n + CountIf(tail, p) by {
        assert Shuffle(xs, picks) == [xs[j]] + tail;
        CountIfCons(xs[j], tail, p);
      }
    }
  }

  /** Element-wise image of a sequence. */
  function MapSeq<T, U>(s: seq<T>, f: T -> U): (r: seq<U>)
    ensures |r| == |s|
    ensures forall k :: 0 <= k < |s| ==> r[k] == f(s[k])
  {
    seq(|s|, k requires 0 <= k < |s| => f(s[k]))
  }

  lemma MapRemoveAt<T, U>(xs: seq<T>, j: nat, f: T -> U)
    requires j < |xs|
    ensures MapSeq(xs, f)[..j] + MapSeq(xs, f)[j + 1..] == MapSeq(xs[..j] + xs[j + 1..], f)
  {
    var ys := MapSeq(xs, f);
    var rest := xs[..j] + xs[j + 1..];
    forall k | 0 <= k < |rest|
      ensures (ys[..j] + ys[j + 1..])[k] == f(rest[k])
    {
      var k' := if k < j then k else k + 1;
      assert rest[k] == xs[k'];
    }
  }

  lemma MapPrepend<T, U>(x: T, s: seq<T>, f: T -> U)
    ensures MapSeq([x] + s, f) == [f(x)] + MapSeq(s, f)
  {
  }

  /** Shuffling commutes with an element-wise image, so the image of a
      shuffled list is a permutation of the image of the original. */
  lemma {:induction false} ShuffleCommutesWithMap<T, U>(xs: seq<T>, picks: seq<nat>, f: T -> U)
    ensures MapSeq(Shuffle(xs, picks), f) == Shuffle(MapSeq(xs, f), picks)
    ensures multiset(MapSeq(Shuffle(xs, picks), f)) == multiset(MapSeq(xs, f))
    decreases |xs|
  {
    if |xs| > 0 {
      var j := (if |picks| > 0 then picks[0] else 0) % |xs|;
      var rest := xs[..j] + xs[j + 1..];
      var picks' := if |picks| > 0 then picks[1..] else [];
      var ys := MapSeq(xs, f);
      var tail := Shuffle(rest, picks');
      assert MapSeq(Shuffle(xs, picks), f) == [f(xs[j])] + MapSeq(tail, f) by {
        assert Shuffle(xs, picks) == [xs[j]] + tail;
        MapPrepend(xs[j], tail, f);
      }
      assert MapSeq(tail, f) == Shuffle(MapSeq(rest, f), picks') by {
        ShuffleCommutesWithMap(rest, picks', f);
      }
      assert Shuffle(ys, picks) == [f(xs[j])] + Shuffle(MapSeq(rest, f), picks') by {
        assert Shuffle(ys, picks) == [ys[j]] + Shuffle(ys[..j] + ys[j + 1..], picks');
        MapRemoveAt(xs, j, f);
      }
    }
  }

  /** Every element satisfies `p`, or none does. */
  lemma {:induction false} CountIfUniform<T>(s: seq<T>, p: T -> bool)
    ensures (forall k :: 0 <= k < |s| ==> p(s[k])) ==> CountIf(s, p) == |s|
    ensures (forall k :: 0 <= k < |s| ==> !p(s[k])) ==> CountIf(s, p) == 0
    decreases |s|
  {
    if |s| > 0 {
      CountIfUniform(s[..|s| - 1], p);
    }
  }

  /** The elements `x` with `p(x) == keep`, in their original order (a
      Python list comprehension with an `if`). */
  function Filter<T>(s: seq<T>, p: T -> bool, keep: bool): (r: seq<T>)
    ensures forall k :: 0 <= k < |r| ==> p(r[k]) == keep
    decreases |s|
  {
    if |s| == 0 then []
    else
      var n := |s| - 1;
      Filter(s[..n], p, keep) + (if p(s[n]) == keep then [s[n]] else [])
  }

  /** The two filters split `s`: together they are a rearrangement of it. */
  lemma {:induction false} FilterPartition<T>(s: seq<T>, p: T -> bool)
    ensures multiset(Filter(s, p, true)) + multiset(Filter(s, p, false)) == multiset(s)
    decreases |s|
  {
    if |s| > 0 {
      var n := |s| - 1;
      var x := s[n];
      var t := Filter(s[..n], p, true);
      var f := Filter(s[..n], p, false);
      var ms := multiset(s[..n]) + multiset{x};
      assert multiset(s) == ms by {
        assert s == s[..n] + [x];
      }
      assert multiset(t) + multiset(f) + multiset{x} == ms by {
        FilterPartition(s[..n], p);
      }
      if p(x) {
        assert Filter(s, p, true) == t + [x] && Filter(s, p, false) == f;
        assert multiset(t + [x]) == multiset(t) + multiset{x};
      } else {
        assert Filter(s, p, true) == t && Filter(s, p, false) == f + [x];
        assert multiset(f + [x]) == multiset(f) + multiset{x};
      }
    }
  }

  /** The kept part has as many elements as satisfy `p`, the rest the others. */
  lemma {:induction false} FilterCount<T>(s: seq<T>, p: T -> bool)
    ensures |Filter(s, p, true)| == CountIf(s, p)
    ensures |Filter(s, p, true)| + |Filter(s, p, false)| == |s|
    decreases |s|
  {
    if |s| > 0 {
      FilterCount(s[..|s| - 1], p);
    }
  }

  /** `idx` lists strictly increasing positions of `s` holding the elements
      of `t` in turn: `t` is `s` with some elements left out, order kept. */
  predicate Embeds<T(==)>(idx: seq<nat>, t: seq<T>, s: seq<T>) {
    && |idx| == |t|
    && (forall i :: 0 <= i < |idx| ==> idx[i] < |s| && s[idx[i]] == t[i])
    && (forall i, j :: 0 <= i < j < |idx| ==> idx[i] < idx[j])
  }

  /** An embedding into a prefix of `s` is one into `s`, below the cut. */
  lemma EmbedsWiden<T>(idx: seq<nat>, t: seq<T>, s: seq<T>, n: nat)
    requires n <= |s| && Embeds(idx, t, s[..n])
    ensures Embeds(idx, t, s) && forall i :: 0 <= i < |idx| ==> idx[i] < n
  {
    assert forall i :: 0 <= i < |idx| ==> s[..n][idx[i]] == s[idx[i]];
  }

  /** A position past every used one extends an embedding by its element. */
  lemma EmbedsSnoc<T>(idx: seq<nat>, t: seq<T>, s: seq<T>, n: nat)
    requires n < |s| && Embeds(idx, t, s) && forall i :: 0 <= i < |idx| ==> idx[i] < n
    ensures Embeds(idx + [n], t + [s[n]], s)
  {
    assert forall i :: 0 <= i < |idx| ==> (idx + [n])[i] == idx[i] && (t + [s[n]])[i] == t[i];
  }

  /** The positions `Filter` keeps, in order. */
  function FilterIndices<T(==)>(s: seq<T>, p: T -> bool, keep: bool): (idx: seq<nat>)
    ensures Embeds(idx, Filter(s, p, keep), s)
    decreases |s|
  {
    if |s| == 0 then []
    else
      var n := |s| - 1;
      var prev := FilterIndices(s[..n], p, keep);
      var kept := Filter(s[..n], p, keep);
      EmbedsWiden(prev, kept, s, n);
      if p(s[n]) == keep then
        EmbedsSnoc(prev, kept, s, n);
        prev + [n]
      else
        prev
  }

  /** Position of the first element satisfying `p`, `|s|` if none. */
  function FirstWhere<T>(s: seq<T>, p: T -> bool): (i: nat)
    ensures i <= |s|
    ensures forall k :: 0 <= k < i ==> !p(s[k])
    ensures i < |s| ==> p(s[i])
    decreases |s|
  {
    if |s| == 0 then 0 else if p(s[0]) then 0 else 1 + FirstWhere(s[1..], p)
  }

  /** Without picks the shuffle keeps the order. */
  lemma {:induction false} ShuffleNoPicks<T>(xs: seq<T>)
    ensures Shuffle(xs, []) == xs
    decreases |xs|
  {
    if |xs| > 0 {
      assert Shuffle(xs, []) == [xs[0]] + Shuffle(xs[1..], []) by {
        assert xs[..0] + xs[1..] == xs[1..];
      }
      assert Shuffle(xs[1..], []) == xs[1..] by {
        ShuffleNoPicks(xs[1..]);
      }
      assert xs == [xs[0]] + xs[1..];
    }
  }

  lemma MultisetRemoveAt<T>(b: seq<T>, j: nat)
    requires j < |b|
    ensures multiset(b[..j] + b[j + 1..]) + multiset{b[j]} == multiset(b)
  {
    assert b == b[..j] + [b[j]] + b[j + 1..];
  }

  lemma MapSeqAppend<T, U>(a: seq<T>, x: T, f: T -> U)
    ensures MapSeq(a + [x], f) == MapSeq(a, f) + [f(x)]
  {
  }

  /** Images of two rearrangements of each other are rearrangements of each other. */
  lemma {:induction false} MapMultiset<T, U>(a: seq<T>, b: seq<T>, f: T -> U)
    requires multiset(a) == multiset(b)
    ensures multiset(MapSeq(a, f)) == multiset(MapSeq(b, f))
    decreases |a|
  {
    if |a| > 0 {
      var n := |a| - 1;
      var x := a[n];
      assert a == a[..n] + [x];
      assert x in multiset(b);
      var j :| 0 <= j < |b| && b[j] == x;
      var b' := b[..j] + b[j + 1..];
      MultisetRemoveAt(b, j);
      assert multiset(a[..n]) + multiset{x} == multiset(b') + multiset{x};
      assert multiset(a[..n]) == (multiset(a[..n]) + multiset{x}) - multiset{x};
      assert multiset(b') == (multiset(b') + multiset{x}) - multiset{x};
      MapMultiset(a[..n], b', f);
      var mb := MapSeq(b, f);
      MapRemoveAt(b, j, f);
      MultisetRemoveAt(mb, j);
      MapSeqAppend(a[..n], x, f);
    }
  }

  lemma SliceShift<T>(s: seq<T>, d: nat, lo: nat, hi: nat)
    requires d <= lo <= hi <= |s|
    ensures s[d..][lo - d..hi - d] == s[lo..hi]
  {
  }

  /** Dropping `k` from `s` is dropping `k - d` from `s[d..]`. */
  lemma DropShift<T>(s: seq<T>, t: seq<T>, d: nat, k: nat)
    requires d <= k <= |s| && s[d..] == t
    ensures s[k..] == t[k - d..]
  {
  }
}
