/**
 * Building a dictionary by assigning key/value pairs in order, as every
 * key=value parser of the system does: a later pair overwrites an earlier
 * pair with the same key.
 */
module KvMaps {
  import opened Wrappers

  /** The map after assigning the pairs of `ps` from first to last. */
  function BuildMap<K(==), V>(ps: seq<(K, V)>): map<K, V>
    decreases |ps|
  {
    if |ps| == 0 then map[]
    else BuildMap(ps[..|ps| - 1])[ps[|ps| - 1].0 := ps[|ps| - 1].1]
  }

  /** Position `i` holds the last pair of `ps` whose key is `k`. */
  predicate IsLastWith<K(==), V>(ps: seq<(K, V)>, k: K, i: int)
  {
    && 0 <= i < |ps| && ps[i].0 == k
    && forall j :: i < j < |ps| ==> ps[j].0 != k
  }

  /** A key is bound iff some pair carries it, and then to the value of the last such pair. */
  lemma LastWins<K, V>(ps: seq<(K, V)>, k: K)
    ensures k in BuildMap(ps) <==> exists i :: 0 <= i < |ps| && ps[i].0 == k
    ensures forall i :: IsLastWith(ps, k, i) ==> k in BuildMap(ps) && BuildMap(ps)[k] == ps[i].1
  {
    BoundIffCarried(ps, k);
    LastPairBinds(ps, k);
  }

  lemma {:induction false} BoundIffCarried<K, V>(ps: seq<(K, V)>, k: K)
    ensures k in BuildMap(ps) <==> exists i :: 0 <= i < |ps| && ps[i].0 == k
    decreases |ps|
  {
    if |ps| > 0 {
      var init := ps[..|ps| - 1];
      BoundIffCarried(init, k);
      if exists i :: 0 <= i < |ps| && ps[i].0 == k {
        var i :| 0 <= i < |ps| && ps[i].0 == k;
        if i < |init| {
          assert init[i] == ps[i];
        }
      }
      if k in BuildMap(init) {
        var i :| 0 <= i < |init| && init[i].0 == k;
        assert ps[i] == init[i];
      }
    }
  }

  lemma {:induction false} LastPairBinds<K, V>(ps: seq<(K, V)>, k: K)
    ensures forall i :: IsLastWith(ps, k, i) ==> k in BuildMap(ps) && BuildMap(ps)[k] == ps[i].1
    decreases |ps|
  {
    if |ps| > 0 {
      var init := ps[..|ps| - 1];
      LastPairBinds(init, k);
      if ps[|ps| - 1].0 != k {
        forall i | IsLastWith(ps, k, i) ensures IsLastWith(init, k, i) {
        }
      }
    }
  }

  /** The pairs that `f` extracts from the elements of `xs` it accepts, in order. */
  function Pairs<T, K, V>(xs: seq<T>, f: T -> Option<(K, V)>): seq<(K, V)>
    decreases |xs|
  {
    if |xs| == 0 then []
    else
      var init := Pairs(xs[..|xs| - 1], f);
      match f(xs[|xs| - 1])
      case Some(p) => init + [p]
      case None => init
  }

  /** Extending the prefix by one element adds that element's pair, if it has one. */
  lemma PairsPrefixStep<T, K, V>(xs: seq<T>, i: nat, f: T -> Option<(K, V)>)
    requires i < |xs|
    ensures Pairs(xs[..i + 1], f) == Pairs(xs[..i], f) + (if f(xs[i]).Some? then [f(xs[i]).value] else [])
  {
    assert xs[..i + 1][..i] == xs[..i];
  }

  /** A later pair overrides the binding of its key. */
  lemma BuildMapSnoc<K, V>(ps: seq<(K, V)>, p: (K, V))
    ensures BuildMap(ps + [p]) == BuildMap(ps)[p.0 := p.1]
  {
    assert (ps + [p])[..|ps|] == ps;
  }

  /** Position `i` holds the last element of `xs` that `f` accepts with key `k`. */
  predicate IsLastAccepted<T, K(==), V>(xs: seq<T>, f: T -> Option<(K, V)>, k: K, i: int)
  {
    && 0 <= i < |xs| && f(xs[i]).Some? && f(xs[i]).value.0 == k
    && forall j :: i < j < |xs| ==> !(f(xs[j]).Some? && f(xs[j]).value.0 == k)
  }

  /** The map of the accepted pairs grows by the last element's pair, if it has one. */
  lemma PairsMapSnoc<T, K, V>(xs: seq<T>, f: T -> Option<(K, V)>)
    requires |xs| > 0
    ensures var last := f(xs[|xs| - 1]);
      BuildMap(Pairs(xs, f)) == if last.Some? then BuildMap(Pairs(xs[..|xs| - 1], f))[last.value.0 := last.value.1]
        else BuildMap(Pairs(xs[..|xs| - 1], f))
  {
    var pi := Pairs(xs[..|xs| - 1], f);
    if f(xs[|xs| - 1]).Some? {
      BuildMapSnoc(pi, f(xs[|xs| - 1]).value);
    }
  }

  /**
   * Folding the accepted pairs into a map: a key is bound iff some accepted
   * element carries it, and then to the value of the last such element.
   */
  lemma PairsLastWins<T, K, V>(xs: seq<T>, f: T -> Option<(K, V)>, k: K)
    ensures k in BuildMap(Pairs(xs, f)) <==> exists i :: 0 <= i < |xs| && f(xs[i]).Some? && f(xs[i]).value.0 == k
    ensures forall i :: IsLastAccepted(xs, f, k, i) ==> k in BuildMap(Pairs(xs, f)) && BuildMap(Pairs(xs, f))[k] == f(xs[i]).value.1
  {
    PairsBound(xs, f, k);
    PairsLast(xs, f, k);
  }

  lemma {:induction false} PairsBound<T, K, V>(xs: seq<T>, f: T -> Option<(K, V)>, k: K)
    ensures k in BuildMap(Pairs(xs, f)) <==> exists i :: 0 <= i < |xs| && f(xs[i]).Some? && f(xs[i]).value.0 == k
    decreases |xs|
  {
    if |xs| > 0 {
      var init := xs[..|xs| - 1];
      PairsBound(init, f, k);
      PairsMapSnoc(xs, f);
      if exists i :: 0 <= i < |xs| && f(xs[i]).Some? && f(xs[i]).value.0 == k {
        var i :| 0 <= i < |xs| && f(xs[i]).Some? && f(xs[i]).value.0 == k;
        if i < |xs| - 1 {
          assert init[i] == xs[i];
        }
      }
      if k in BuildMap(Pairs(init, f)) {
        var i :| 0 <= i < |init| && f(init[i]).Some? && f(init[i]).value.0 == k;
        assert init[i] == xs[i];
      }
    }
  }

  lemma {:induction false} PairsLast<T, K, V>(xs: seq<T>, f: T -> Option<(K, V)>, k: K)
    ensures forall i :: IsLastAccepted(xs, f, k, i) ==> k in BuildMap(Pairs(xs, f)) && BuildMap(Pairs(xs, f))[k] == f(xs[i]).value.1
    decreases |xs|
  {
    if |xs| > 0 {
      var init := xs[..|xs| - 1];
      var last := f(xs[|xs| - 1]);
      PairsLast(init, f, k);
      PairsMapSnoc(xs, f);
      if !(last.Some? && last.value.0 == k) {
        forall i | IsLastAccepted(xs, f, k, i) ensures IsLastAccepted(init, f, k, i) {
          assert i < |xs| - 1;
        }
      }
    }
  }

  /** Every element through `f`, in order, or None as soon as one of them gives None. */
  function Collect<T, U>(xs: seq<T>, f: T -> Option<U>): (r: Option<seq<U>>)
    ensures r.Some? ==> |r.value| == |xs|
    decreases |xs|
  {
    if |xs| == 0 then Some([])
    else
      match (Collect(xs[..|xs| - 1], f), f(xs[|xs| - 1]))
      case (Some(ys), Some(y)) => Some(ys + [y])
      case _ => None
  }

  /** Extending the prefix by one element appends its value, or fails when it gives None. */
  lemma CollectPrefixStep<T, U>(xs: seq<T>, i: nat, f: T -> Option<U>)
    requires i < |xs|
    ensures Collect(xs[..i + 1], f) ==
      if Collect(xs[..i], f).Some? && f(xs[i]).Some? then Some(Collect(xs[..i], f).value + [f(xs[i]).value]) else None
  {
    assert xs[..i + 1][..i] == xs[..i];
  }

  /** Collecting fails exactly when some element gives None. */
  lemma {:induction false} CollectFail<T, U>(xs: seq<T>, f: T -> Option<U>)
    ensures Collect(xs, f).None? <==> exists k :: 0 <= k < |xs| && f(xs[k]).None?
    decreases |xs|
  {
    if |xs| > 0 {
      var init := xs[..|xs| - 1];
      CollectFail(init, f);
      if exists k :: 0 <= k < |init| && f(init[k]).None? {
        var k :| 0 <= k < |init| && f(init[k]).None?;
        assert xs[k] == init[k];
      }
      if exists k :: 0 <= k < |xs| && f(xs[k]).None? {
        var k :| 0 <= k < |xs| && f(xs[k]).None?;
        if k < |init| {
          assert init[k] == xs[k];
        }
      }
    }
  }

  /** A successful collection holds each element's value at its position. */
  lemma {:induction false} CollectItems<T, U>(xs: seq<T>, f: T -> Option<U>)
    requires Collect(xs, f).Some?
    ensures forall k :: 0 <= k < |xs| ==> f(xs[k]) == Some(Collect(xs, f).value[k])
    decreases |xs|
  {
    if |xs| > 0 {
      var init := xs[..|xs| - 1];
      CollectItems(init, f);
      forall k | 0 <= k < |xs|
        ensures f(xs[k]) == Some(Collect(xs, f).value[k])
      {
        if k < |init| {
          assert init[k] == xs[k];
        }
      }
    }
  }
}
