/** Lists decoded element by element: which elements the result comes from, and which were left out. */
module Subsequences {
  import opened Types

  /** The list of an optional element. */
  function Listed<T>(first: Option<T>): seq<T> {
    if first.Some? then [first.value] else []
  }

  /** Decodes every element in turn and appends what it yields to `done`; the first refusal ends it. */
  function Collect<S, T>(items: seq<S>, decode: S -> Result<Option<T>>, done: seq<T>): Result<seq<T>>
    decreases |items|
  {
    if items == [] then Ok(done)
    else
      var one :- decode(items[0]);
      Collect(items[1..], decode, done + Listed(one))
  }

  /**
   `picked` comes from the elements at the increasing positions `at`, each become what `becomes`
   allows; every other element is one that may be skipped.
   */
  ghost predicate PickedInOrder<S, T>(
      items: seq<S>, picked: seq<T>, at: seq<nat>, becomes: (S, T) -> bool, skipped: S -> bool)
  {
    && |at| == |picked|
    && (forall k | 0 <= k < |at| :: at[k] < |items| && becomes(items[at[k]], picked[k]))
    && (forall j, k | 0 <= j < k < |at| :: at[j] < at[k])
    && (forall j: nat | j < |items| :: j in at || skipped(items[j]))
  }

  function Shifted(at: seq<nat>): (r: seq<nat>)
    ensures |r| == |at| && forall k | 0 <= k < |at| :: r[k] == at[k] + 1
  {
    seq(|at|, k requires 0 <= k < |at| => at[k] + 1)
  }

  /** Where the positions after the first element lie in the whole list. */
  lemma LaterPositions<S, T>(
      items: seq<S>, rest: seq<T>, at: seq<nat>, becomes: (S, T) -> bool, skipped: S -> bool)
    requires items != [] && PickedInOrder(items[1..], rest, at, becomes, skipped)
    ensures forall k | 0 <= k < |at| :: Shifted(at)[k] < |items| && becomes(items[Shifted(at)[k]], rest[k])
    ensures forall j, k | 0 <= j < k < |at| :: Shifted(at)[j] < Shifted(at)[k]
    ensures forall j: nat | 0 < j < |items| :: j in Shifted(at) || skipped(items[j])
  {
    forall j: nat | 0 < j < |items|
      ensures j in Shifted(at) || skipped(items[j])
    {
      assert items[j] == items[1..][j - 1];
      if j - 1 in at {
        var k :| 0 <= k < |at| && at[k] == j - 1;
        assert Shifted(at)[k] == j;
      }
    }
  }

  lemma PickFirst<S, T>(
      items: seq<S>, first: T, rest: seq<T>, at: seq<nat>, becomes: (S, T) -> bool, skipped: S -> bool)
    requires items != [] && PickedInOrder(items[1..], rest, at, becomes, skipped) && becomes(items[0], first)
    ensures PickedInOrder(items, [first] + rest, [0] + Shifted(at), becomes, skipped)
  {
    LaterPositions(items, rest, at, becomes, skipped);
    var all := [0] + Shifted(at);
    assert all[0] == 0;
    forall j: nat | j < |items|
      ensures j in all || skipped(items[j])
    {
      assert j in Shifted(at) ==> j in all;
    }
  }

  lemma PickSkip<S, T>(
      items: seq<S>, rest: seq<T>, at: seq<nat>, becomes: (S, T) -> bool, skipped: S -> bool)
    requires items != [] && PickedInOrder(items[1..], rest, at, becomes, skipped) && skipped(items[0])
    ensures PickedInOrder(items, rest, Shifted(at), becomes, skipped)
  {
    LaterPositions(items, rest, at, becomes, skipped);
  }

  /** The positions once one element, picked or skipped, stands in front. */
  function Positions<T>(first: Option<T>, at: seq<nat>): seq<nat> {
    if first.Some? then [0] + Shifted(at) else Shifted(at)
  }

  /** One element in front: picked as `first`, or skipped. */
  lemma PickCons<S, T>(
      items: seq<S>, first: Option<T>, rest: seq<T>, at: seq<nat>, becomes: (S, T) -> bool, skipped: S -> bool)
    requires items != [] && PickedInOrder(items[1..], rest, at, becomes, skipped)
    requires if first.Some? then becomes(items[0], first.value) else skipped(items[0])
    ensures PickedInOrder(items, Listed(first) + rest, Positions(first, at), becomes, skipped)
  {
    match first
    case Some(t) => PickFirst(items, t, rest, at, becomes, skipped);
    case None =>
      PickSkip(items, rest, at, becomes, skipped);
      assert Listed(first) + rest == rest;
  }

  /** The elements collected from `items` alone. */
  function Picked<S, T>(items: seq<S>, decode: S -> Result<Option<T>>): seq<T> {
    if items == [] || decode(items[0]).Err? then []
    else Listed(decode(items[0]).value) + Picked(items[1..], decode)
  }

  lemma {:induction false} CollectAppends<S, T>(items: seq<S>, decode: S -> Result<Option<T>>, done: seq<T>)
    requires Collect(items, decode, done).Ok?
    ensures Collect(items, decode, done).value == done + Picked(items, decode)
    ensures forall s | s in items :: decode(s).Ok?
    decreases |items|
  {
    if items != [] {
      CollectAppends(items[1..], decode, done + Listed(decode(items[0]).value));
      assert items == [items[0]] + items[1..];
    }
  }

  lemma {:induction false} PickedAre<S, T>(
      items: seq<S>, decode: S -> Result<Option<T>>, becomes: (S, T) -> bool, skipped: S -> bool)
    returns (at: seq<nat>)
    requires forall s | s in items :: decode(s).Ok?
    requires forall s | s in items ::
               if decode(s).value.Some? then becomes(s, decode(s).value.value) else skipped(s)
    ensures PickedInOrder(items, Picked(items, decode), at, becomes, skipped)
    decreases |items|
  {
    if items == [] {
      at := [];
    } else {
      var rest := items[1..];
      assert forall s | s in rest :: s in items;
      var positions := PickedAre(rest, decode, becomes, skipped);
      at := Positions(decode(items[0]).value, positions);
      PickCons(items, decode(items[0]).value, Picked(rest, decode), positions, becomes, skipped);
    }
  }

  /** What is collected keeps the order of the elements that yielded something. */
  lemma CollectInOrder<S, T>(
      items: seq<S>, decode: S -> Result<Option<T>>, done: seq<T>, becomes: (S, T) -> bool, skipped: S -> bool)
    returns (picked: seq<T>, at: seq<nat>)
    requires Collect(items, decode, done).Ok?
    requires forall s | s in items && decode(s).Ok? ::
               if decode(s).value.Some? then becomes(s, decode(s).value.value) else skipped(s)
    ensures Collect(items, decode, done).value == done + picked
    ensures PickedInOrder(items, picked, at, becomes, skipped)
  {
    CollectAppends(items, decode, done);
    picked := Picked(items, decode);
    at := PickedAre(items, decode, becomes, skipped);
  }

  /** A list is refused exactly when one of its elements is. */
  lemma {:induction false} CollectsExactly<S, T>(items: seq<S>, decode: S -> Result<Option<T>>, done: seq<T>)
    ensures Collect(items, decode, done).Ok? <==> forall s | s in items :: decode(s).Ok?
    decreases |items|
  {
    if items != [] {
      assert items == [items[0]] + items[1..];
      if decode(items[0]).Ok? {
        CollectsExactly(items[1..], decode, done + Listed(decode(items[0]).value));
      }
    }
  }

  /** The result holds exactly what is in `done` and what some element yields. */
  lemma {:induction false} CollectedMembers<S, T>(items: seq<S>, decode: S -> Result<Option<T>>, done: seq<T>, t: T)
    requires Collect(items, decode, done).Ok?
    ensures t in Collect(items, decode, done).value
       <==> t in done || exists s :: s in items && decode(s) == Ok(Some(t))
    decreases |items|
  {
    if items != [] {
      var first, rest := items[0], items[1..];
      assert items == [first] + rest;
      CollectedMembers(rest, decode, done + Listed(decode(first).value), t);
    }
  }

  /** Something good is collected exactly when some element becomes it. */
  lemma CollectsGood<S(!new), T(!new)>(
      items: seq<S>, decode: S -> Result<Option<T>>, becomes: (S, T) -> bool, good: T -> bool)
    requires Collect(items, decode, []).Ok?
    requires forall s, t :: becomes(s, t) <==> decode(s) == Ok(Some(t))
    ensures (exists t :: t in Collect(items, decode, []).value && good(t))
       <==> exists s, t :: s in items && becomes(s, t) && good(t)
  {
    forall t
      ensures t in Collect(items, decode, []).value <==> exists s :: s in items && becomes(s, t)
    {
      CollectedMembers(items, decode, [], t);
    }
  }

  /** Where nothing is skipped, every element has its place in the result. */
  lemma {:induction false} CollectAll<S, T>(items: seq<S>, decode: S -> Result<Option<T>>, done: seq<T>)
    returns (all: seq<T>)
    requires Collect(items, decode, done).Ok?
    requires forall s | s in items && decode(s).Ok? :: decode(s).value.Some?
    ensures |all| == |items| && Collect(items, decode, done).value == done + all
    ensures forall k | 0 <= k < |items| :: decode(items[k]) == Ok(Some(all[k]))
    decreases |items|
  {
    all := [];
    if items != [] {
      var first, rest := items[0], items[1..];
      assert forall s | s in rest :: s in items;
      var later := CollectAll(rest, decode, done + Listed(decode(first).value));
      all := [decode(first).value.value] + later;
      forall k | 0 <= k < |items|
        ensures decode(items[k]) == Ok(Some(all[k]))
      {
        assert k > 0 ==> items[k] == rest[k - 1];
      }
    }
  }

  /** A property of everything an element can yield, and of `done`, holds of the whole result. */
  lemma {:induction false} CollectKeeps<S, T>(
      items: seq<S>, decode: S -> Result<Option<T>>, done: seq<T>, good: T -> bool)
    requires Collect(items, decode, done).Ok?
    requires forall t | t in done :: good(t)
    requires forall s | s in items && decode(s).Ok? && decode(s).value.Some? :: good(decode(s).value.value)
    ensures forall t | t in Collect(items, decode, done).value :: good(t)
    ensures |done| <= |Collect(items, decode, done).value| <= |done| + |items|
    decreases |items|
  {
    if items != [] {
      assert forall s | s in items[1..] :: s in items;
      CollectKeeps(items[1..], decode, done + Listed(decode(items[0]).value), good);
    }
  }
}
