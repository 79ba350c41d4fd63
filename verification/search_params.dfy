/** Ordered lists of (name, value) parameters without repeated names: the
    entries of a JavaScript object literal, in insertion order, and the query
    of a `URL` as `URLSearchParams` keeps it. */
module SearchParams {
  import opened Wrappers

  type Param = (string, string)

  function Keys(ps: seq<Param>): set<string> {
    if ps == [] then {} else {ps[0].0} + Keys(ps[1..])
  }

  /** No name occurs twice. */
  predicate UniqueKeys(ps: seq<Param>) {
    ps == [] || (ps[0].0 !in Keys(ps[1..]) && UniqueKeys(ps[1..]))
  }

  /** The value stored under `k`: the first entry with that name. */
  function Lookup(ps: seq<Param>, k: string): (r: Option<string>)
    ensures r.Some? <==> k in Keys(ps)
  {
    if ps == [] then None
    else if ps[0].0 == k then Some(ps[0].1)
    else Lookup(ps[1..], k)
  }

  /** Storing `v` under `k`, as `obj[k] = v` does on an object and
      `URLSearchParams.set(k, v)` does on a query without repeated names: an
      existing entry keeps its place and takes the new value, a new name is
      appended at the end. */
  function Put(ps: seq<Param>, k: string, v: string): (r: seq<Param>)
    ensures Keys(r) == Keys(ps) + {k}
    ensures Lookup(r, k) == Some(v)
    ensures forall k' :: k' != k ==> Lookup(r, k') == Lookup(ps, k')
    ensures UniqueKeys(ps) ==> UniqueKeys(r)
    ensures k !in Keys(ps) ==> r == ps + [(k, v)]
    ensures k in Keys(ps) ==> |r| == |ps| && forall i :: 0 <= i < |ps| ==> r[i].0 == ps[i].0
  {
    if ps == [] then [(k, v)]
    else if ps[0].0 == k then [(k, v)] + ps[1..]
    else
      var r := [ps[0]] + Put(ps[1..], k, v);
      assert r[1..] == Put(ps[1..], k, v);
      r
  }

  /** The value the last entry named `k` carries. */
  function LastValue(es: seq<Param>, k: string): string
    requires k in Keys(es)
  {
    if k in Keys(es[1..]) then LastValue(es[1..], k) else es[0].1
  }

  /** Storing every entry of `es` in turn, as an object literal with spreads
      does: each name keeps the place it first took, and the last value given
      for it wins. */
  function PutAll(ps: seq<Param>, es: seq<Param>): (r: seq<Param>)
    ensures Keys(r) == Keys(ps) + Keys(es)
    ensures UniqueKeys(ps) ==> UniqueKeys(r)
    decreases es
  {
    if es == [] then ps else PutAll(Put(ps, es[0].0, es[0].1), es[1..])
  }

  /** After PutAll, a name carries the last value `es` gives it, or keeps its
      old value when `es` does not mention it. */
  lemma {:induction false} PutAllLookup(ps: seq<Param>, es: seq<Param>, k: string)
    ensures Lookup(PutAll(ps, es), k) == if k in Keys(es) then Some(LastValue(es, k)) else Lookup(ps, k)
    decreases es
  {
    if es != [] {
      PutAllLookup(Put(ps, es[0].0, es[0].1), es[1..], k);
    }
  }

  /** The entries whose names are not in `drop`, in their order. */
  function Without(ps: seq<Param>, drop: set<string>): (r: seq<Param>)
    ensures Keys(r) == Keys(ps) - drop
    ensures UniqueKeys(ps) ==> UniqueKeys(r)
  {
    if ps == [] then []
    else if ps[0].0 in drop then Without(ps[1..], drop)
    else
      var r := [ps[0]] + Without(ps[1..], drop);
      assert r[1..] == Without(ps[1..], drop);
      r
  }

  /** Dropped names are absent; every other name keeps its value. */
  lemma {:induction false} WithoutLookup(ps: seq<Param>, drop: set<string>, k: string)
    ensures Lookup(Without(ps, drop), k) == if k in drop then None else Lookup(ps, k)
  {
    if ps != [] {
      WithoutLookup(ps[1..], drop, k);
    }
  }

  lemma {:induction false} WithoutSnoc(ps: seq<Param>, e: Param, drop: set<string>)
    ensures Without(ps + [e], drop) == Without(ps, drop) + (if e.0 in drop then [] else [e])
  {
    if ps == [] {
      assert ps + [e] == [e];
    } else {
      assert (ps + [e])[1..] == ps[1..] + [e];
      WithoutSnoc(ps[1..], e, drop);
    }
  }

  lemma {:induction false} KeysOfPrefix(ps: seq<Param>, i: nat)
    requires i <= |ps|
    ensures Keys(ps[..i]) <= Keys(ps)
    ensures i < |ps| ==> Keys(ps[..i + 1]) == Keys(ps[..i]) + {ps[i].0}
  {
    if i > 0 {
      assert ps[..i][1..] == ps[1..][..i - 1];
      if i < |ps| { assert ps[..i + 1][1..] == ps[1..][..i]; }
      KeysOfPrefix(ps[1..], i - 1);
    }
  }

  /** In a list without repeated names, the name at position i does not occur
      before it. */
  lemma {:induction false} UniqueKeysPrefix(ps: seq<Param>, i: nat)
    requires UniqueKeys(ps) && i < |ps|
    ensures ps[i].0 !in Keys(ps[..i])
  {
    if i > 0 {
      assert ps[..i][1..] == ps[1..][..i - 1];
      UniqueKeysPrefix(ps[1..], i - 1);
      KeysOfPrefix(ps[1..], i - 1);
      KeysOfPrefix(ps[1..], i);
    }
  }

  lemma {:induction false} KeysAppend(a: seq<Param>, b: seq<Param>)
    ensures Keys(a + b) == Keys(a) + Keys(b)
  {
    if a == [] {
      assert a + b == b;
    } else {
      assert (a + b)[1..] == a[1..] + b;
      KeysAppend(a[1..], b);
    }
  }

  /** In `a + b` the last value of a name comes from `b` when `b` has the name. */
  lemma {:induction false} LastValueAppend(a: seq<Param>, b: seq<Param>, k: string)
    requires k in Keys(a) + Keys(b)
    ensures Keys(a + b) == Keys(a) + Keys(b)
    ensures LastValue(a + b, k) == if k in Keys(b) then LastValue(b, k) else LastValue(a, k)
  {
    KeysAppend(a, b);
    if a == [] {
      assert a + b == b;
    } else {
      assert (a + b)[1..] == a[1..] + b;
      KeysAppend(a[1..], b);
      if k in Keys(a[1..]) + Keys(b) {
        LastValueAppend(a[1..], b, k);
      }
    }
  }

  /** Without repeated names the last value of a name is its only value. */
  lemma {:induction false} LastValueUnique(ps: seq<Param>, k: string)
    requires UniqueKeys(ps) && k in Keys(ps)
    ensures Lookup(ps, k) == Some(LastValue(ps, k))
  {
    if k in Keys(ps[1..]) {
      LastValueUnique(ps[1..], k);
    }
  }
}
