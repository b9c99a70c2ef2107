/** The removal pass that opens every step (src/lib.rs:175-190). */
module Pruning {
  import opened Vectors
  import opened Params
  import opened Bodies
  import opened Systems

  /** A particle past its maximum age is removed. */
  predicate Expired(b: Body) {
    b.kind == Particle && b.lifetime > MaxParticleLifetime
  }

  /** A body of any kind whose position norm exceeds the escape radius is removed. */
  predicate Escaped(b: Body) {
    NormSq(b.q) > EscapeRadius * EscapeRadius
  }

  predicate Keep(b: Body) {
    !Expired(b) && !Escaped(b)
  }

  /** Every body up to and including index `k` is kept, so the pass never moves any of them. */
  predicate KeptThrough(s: seq<Body>, k: nat)
    requires k < |s|
  {
    forall p :: 0 <= p <= k ==> Keep(s[p])
  }

  /** Reference definition of the pass: the kept bodies in input order. */
  function Survivors(s: seq<Body>): (r: seq<Body>)
    ensures |r| <= |s|
    ensures forall b :: b in r <==> b in s && Keep(b)
    decreases |s|
  {
    if |s| == 0 then []
    else if Keep(s[0]) then [s[0]] + Survivors(s[1..])
    else Survivors(s[1..])
  }

  lemma {:induction false} SurvivorsAppend(s: seq<Body>, t: seq<Body>)
    ensures Survivors(s + t) == Survivors(s) + Survivors(t)
    decreases |s|
  {
    if |s| == 0 {
      assert s + t == t;
    } else {
      assert (s + t)[0] == s[0];
      assert (s + t)[1..] == s[1..] + t;
      SurvivorsAppend(s[1..], t);
    }
  }

  /** A collection in which every body is kept passes through the filter unchanged. */
  lemma {:induction false} AllKeptSurvive(s: seq<Body>)
    requires forall k :: 0 <= k < |s| ==> Keep(s[k])
    ensures Survivors(s) == s
    decreases |s|
  {
    if |s| > 0 {
      AllKeptSurvive(s[1..]);
      assert [s[0]] + s[1..] == s;
    }
  }

  /**
   * `Vec::swap_remove`: the last element takes the place of the removed one and the
   * vector shrinks by one; every other position is untouched.
   */
  function SwapRemove<T>(s: seq<T>, i: nat): (r: seq<T>)
    requires i < |s|
    ensures |r| == |s| - 1
    ensures multiset(r) == multiset(s) - multiset{s[i]}
    ensures forall k :: 0 <= k < |r| && k != i ==> r[k] == s[k]
    ensures i < |r| ==> r[i] == s[|s| - 1]
  {
    if i == |s| - 1 then
      assert s == s[..i] + [s[i]];
      s[..i]
    else
      SwapInteriorMultiset(s, i);
      SwapInteriorPositions(s, i);
      s[..i] + [s[|s| - 1]] + s[i + 1..|s| - 1]
  }

  lemma SwapInteriorMultiset<T>(s: seq<T>, i: nat)
    requires i < |s| - 1
    ensures multiset(s[..i] + [s[|s| - 1]] + s[i + 1..|s| - 1]) == multiset(s) - multiset{s[i]}
  {
    var front, mid, last := s[..i], s[i + 1..|s| - 1], s[|s| - 1];
    assert s == front + [s[i]] + mid + [last];
    calc {
      multiset(s) - multiset{s[i]};
      multiset(front) + multiset{s[i]} + multiset(mid) + multiset{last} - multiset{s[i]};
      multiset(front) + multiset{last} + multiset(mid);
      multiset(front + [last] + mid);
    }
  }

  lemma SwapInteriorPositions<T>(s: seq<T>, i: nat)
    requires i < |s| - 1
    ensures var r := s[..i] + [s[|s| - 1]] + s[i + 1..|s| - 1];
      |r| == |s| - 1 && r[i] == s[|s| - 1] && forall k :: 0 <= k < |r| && k != i ==> r[k] == s[k]
  {
  }

  /** Removing a body the pass evicts leaves the multiset of bodies still to be kept unchanged. */
  lemma SwapRemoveKeepsSurvivors(s: seq<Body>, i: nat)
    requires i < |s| && !Keep(s[i])
    ensures SwapRemove(s, i)[..i] == s[..i]
    ensures multiset(Survivors(SwapRemove(s, i)[i..])) == multiset(Survivors(s[i..]))
  {
    var r := SwapRemove(s, i);
    if i == |s| - 1 {
      assert s[i..] == [s[i]];
      assert r[i..] == [];
    } else {
      var mid := s[i + 1..|s| - 1];
      var last := s[|s| - 1];
      assert s[i..] == [s[i]] + (mid + [last]);
      assert r[i..] == [last] + mid;
      SurvivorsAppend([s[i]], mid + [last]);
      SurvivorsAppend(mid, [last]);
      SurvivorsAppend([last], mid);
    }
  }

  /**
   * The loop state of the pass: `r[..i]` is settled and kept, `r[i..]` still holds
   * the rest of the survivors, and every body left came from the input with its id.
   */
  predicate Settled(s: seq<Body>, r: seq<Body>, i: nat) {
    && i <= |r|
    && (forall k :: 0 <= k < i ==> Keep(r[k]))
    && multiset(r[..i]) + multiset(Survivors(r[i..])) == multiset(Survivors(s))
    && (forall k :: 0 <= k < |r| ==> r[k] in s)
    && (IdsDistinct(s) ==> IdsDistinct(r))
  }

  /** Every input body with no evicted body at or before it is still at its own index. */
  predicate KeptInPlace(s: seq<Body>, r: seq<Body>) {
    forall k :: 0 <= k < |s| && KeptThrough(s, k) ==> k < |r| && r[k] == s[k]
  }

  /** A kept body at `i` joins the settled prefix. */
  lemma SettleKept(s: seq<Body>, r: seq<Body>, i: nat)
    requires Settled(s, r, i) && i < |r| && Keep(r[i])
    ensures Settled(s, r, i + 1)
  {
    assert r[i..] == [r[i]] + r[i + 1..];
    assert r[..i + 1] == r[..i] + [r[i]];
  }

  /** Swap-removing an evicted body at `i` keeps the settled prefix and the pending survivors. */
  lemma SettleEvicted(s: seq<Body>, r: seq<Body>, i: nat)
    requires Settled(s, r, i) && i < |r| && !Keep(r[i])
    ensures Settled(s, SwapRemove(r, i), i)
  {
    SwapRemoveKeepsSurvivors(r, i);
    SwapRemoveKeepsIds(r, i);
  }

  /**
   * An eviction at `i` only rewrites index `i` and the last one, and neither holds a
   * body of the all-kept prefix: `r[i]` is evicted, so no input body at or after `i`
   * has an all-kept prefix, and every such body below `i` stays put.
   */
  lemma EvictionKeepsPlaces(s: seq<Body>, r: seq<Body>, i: nat)
    requires KeptInPlace(s, r) && i < |r| && !Keep(r[i])
    ensures KeptInPlace(s, SwapRemove(r, i))
  {
    var r' := SwapRemove(r, i);
    forall k | 0 <= k < |s| && KeptThrough(s, k)
      ensures k < |r'| && r'[k] == s[k]
    {
      if k >= i {
        assert false;
      }
    }
  }

  /** Swap-removal only drops a body: what remains came from the input, and distinct ids stay distinct. */
  lemma SwapRemoveKeepsIds(s: seq<Body>, i: nat)
    requires i < |s|
    ensures forall k :: 0 <= k < |SwapRemove(s, i)| ==> SwapRemove(s, i)[k] in s
    ensures IdsDistinct(s) ==> IdsDistinct(SwapRemove(s, i))
  {
    var r := SwapRemove(s, i);
    forall k | 0 <= k < |r|
      ensures r[k] in s
    {
      if k == i {
        assert r[k] == s[|s| - 1];
      } else {
        assert r[k] == s[k];
      }
    }
  }

  /**
   * Once every index is settled the loop's result is the kept multiset, its length
   * is that of the reference filter, and a collection with nothing to evict is
   * returned as it came in.
   */
  lemma SettledAll(s: seq<Body>, r: seq<Body>)
    requires Settled(s, r, |r|) && KeptInPlace(s, r)
    ensures |r| <= |s|
    ensures (forall k :: 0 <= k < |s| ==> Keep(s[k])) ==> r == s
    ensures multiset(r) == multiset(Survivors(s))
  {
    assert r[..|r|] == r && r[|r|..] == [];
    assert |r| == |multiset(r)| == |multiset(Survivors(s))| == |Survivors(s)|;
    if forall k :: 0 <= k < |s| ==> Keep(s[k]) {
      AllKeptSurvive(s);
      forall k | 0 <= k < |s|
        ensures r[k] == s[k]
      {
        assert KeptThrough(s, k);
      }
    }
  }

  /**
   * The pass as the source runs it: test index `i`; on eviction swap-remove and test
   * the same index again, so the element swapped in is never skipped. The survivors
   * are exactly the kept input bodies, counted with multiplicity, in some order;
   * an index is only ever written after an eviction there, so a body with no
   * evicted body at or before it keeps its place, and a collection in which every
   * body is kept comes out unchanged.
   */
  method Prune(s: seq<Body>) returns (r: seq<Body>)
    ensures |r| <= |s|
    ensures (forall k :: 0 <= k < |s| ==> Keep(s[k])) ==> r == s
    ensures forall k :: 0 <= k < |s| && KeptThrough(s, k) ==> k < |r| && r[k] == s[k]
    ensures multiset(r) == multiset(Survivors(s))
    ensures forall k :: 0 <= k < |r| ==> Keep(r[k])
    ensures forall k :: 0 <= k < |r| ==> r[k] in s
    ensures IdsDistinct(s) ==> IdsDistinct(r)
  {
    r := s;
    var i := 0;
    assert r[..0] == [] && r[0..] == s;
    while i < |r|
      invariant Settled(s, r, i)
      invariant KeptInPlace(s, r)
      decreases |r| - i
    {
      if r[i].kind == Particle && r[i].lifetime > MaxParticleLifetime {
        SettleEvicted(s, r, i);
        EvictionKeepsPlaces(s, r, i);
        r := SwapRemove(r, i);
        continue;
      }
      if NormSq(r[i].q) > EscapeRadius * EscapeRadius {
        SettleEvicted(s, r, i);
        EvictionKeepsPlaces(s, r, i);
        r := SwapRemove(r, i);
        continue;
      }
      SettleKept(s, r, i);
      i := i + 1;
    }
    SettledAll(s, r);
  }
}
