/** Types and sequence helpers the other modules share. */
module Prelude {

  type byte = b: int | 0 <= b < 256

  datatype Option<+T> = None | Some(value: T)

  datatype Result<+T, +E> = Ok(value: T) | Err(error: E)

  function Init<T>(s: seq<T>): seq<T>
    requires s != []
  {
    s[..|s| - 1]
  }

  function Last<T>(s: seq<T>): T
    requires s != []
  {
    s[|s| - 1]
  }

  lemma InitTakes<T>(s: seq<T>, n: nat)
    requires n < |s|
    ensures Init(s)[..n] == s[..n]
  {
  }

  /** The elements satisfying `keep`, in order. */
  function Filter<T(!new)>(s: seq<T>, keep: T -> bool): (r: seq<T>)
    ensures |r| <= |s|
    ensures forall x :: x in r <==> x in s && keep(x)
  {
    if s == [] then []
    else if keep(Last(s)) then Filter(Init(s), keep) + [Last(s)]
    else Filter(Init(s), keep)
  }

  /** The first element satisfying `p`. */
  function First<T(!new)>(s: seq<T>, p: T -> bool): (r: Option<T>)
    ensures r.Some? ==> r.value in s && p(r.value)
    ensures r.None? ==> forall x :: x in s ==> !p(x)
  {
    if s == [] then None
    else if p(s[0]) then Some(s[0])
    else First(s[1..], p)
  }

  lemma {:induction false} FilterConcat<T(!new)>(a: seq<T>, b: seq<T>, keep: T -> bool)
    ensures Filter(a + b, keep) == Filter(a, keep) + Filter(b, keep)
    decreases |b|
  {
    if b == [] {
      assert a + b == a;
    } else {
      FilterConcat(a, Init(b), keep);
      assert Init(a + b) == a + Init(b) && Last(a + b) == Last(b);
    }
  }

  lemma {:induction false} FilterNone<T(!new)>(s: seq<T>, keep: T -> bool)
    requires forall x :: x in s ==> !keep(x)
    ensures Filter(s, keep) == []
    decreases |s|
  {
    if s != [] {
      FilterNone(Init(s), keep);
    }
  }

  lemma FilterFirst<T(!new)>(s: seq<T>, keep: T -> bool)
    requires s != []
    ensures Filter(s, keep) == (if keep(s[0]) then [s[0]] else []) + Filter(s[1..], keep)
  {
    assert s == [s[0]] + s[1..] && Init([s[0]]) == [];
    FilterConcat([s[0]], s[1..], keep);
  }

  lemma {:induction false} SameFilter<T(!new)>(s: seq<T>, p: T -> bool, q: T -> bool)
    requires forall x :: p(x) == q(x)
    ensures Filter(s, p) == Filter(s, q)
  {
    if s != [] {
      SameFilter(Init(s), p, q);
    }
  }

  /** Places in a list, in order. */
  predicate InOrder(places: seq<nat>, n: nat) {
    && (forall k :: 0 <= k < |places| ==> places[k] < n)
    && forall j, k :: 0 <= j < k < |places| ==> places[j] < places[k]
  }

  /** How many elements satisfy `p`. */
  function Tally<T>(s: seq<T>, p: T -> bool): nat {
    if s == [] then 0 else Tally(Init(s), p) + if p(Last(s)) then 1 else 0
  }

  lemma TallyOne<T>(x: T, p: T -> bool)
    ensures Tally([x], p) == if p(x) then 1 else 0
  {
    assert Init([x]) == [];
  }

  lemma {:induction false} TallyConcat<T>(a: seq<T>, b: seq<T>, p: T -> bool)
    ensures Tally(a + b, p) == Tally(a, p) + Tally(b, p)
    decreases |b|
  {
    if b == [] {
      assert a + b == a;
    } else {
      TallyConcat(a, Init(b), p);
      assert Init(a + b) == a + Init(b) && Last(a + b) == Last(b);
    }
  }

  lemma {:induction false} TallyNone<T>(s: seq<T>, p: T -> bool)
    requires forall x :: x in s ==> !p(x)
    ensures Tally(s, p) == 0
    decreases |s|
  {
    if s != [] {
      assert forall x :: x in Init(s) ==> x in s;
      TallyNone(Init(s), p);
    }
  }

  function FlatMap<S, T>(s: seq<S>, f: S -> seq<T>): seq<T> {
    if s == [] then [] else f(s[0]) + FlatMap(s[1..], f)
  }

  lemma {:induction false} FlatMapConcat<S, T>(a: seq<S>, b: seq<S>, f: S -> seq<T>)
    ensures FlatMap(a + b, f) == FlatMap(a, f) + FlatMap(b, f)
    decreases |a|
  {
    if a == [] {
      assert a + b == b;
    } else {
      FlatMapConcat(a[1..], b, f);
      assert (a + b)[1..] == a[1..] + b;
    }
  }
}
