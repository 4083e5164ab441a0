/**
 Populating a shared address lookup table, examples/create_shared_alt.rs: one run extends the table
 chunk by chunk, may be cut short by any send, and is resumed by running it again.
 */
module LookupTable {
  import opened Types
  import opened SolanaTypes
  import opened Subsequences

  const MAX_ADDRESSES: nat := 256
  const CHUNK: nat := 20

  /** What becomes of one transaction; an error may hide that it landed. */
  datatype SendOutcome = Confirmed | FailedUnsent | FailedButLanded {
    predicate Landed() { !FailedUnsent? }
  }

  /** Answers one run gets: reading the table, funding, each send in order, and activation at the end. */
  datatype World = World(owned: bool, funded: bool, send: nat -> SendOutcome, active: bool)

  // ---- the addresses

  /** `retain` with a set of seen keys: the first occurrence of each address stays. */
  function Deduplicated(addresses: seq<Pubkey>, seen: set<Pubkey>): seq<Pubkey> {
    if addresses == [] then []
    else if addresses[0] in seen then Deduplicated(addresses[1..], seen)
    else [addresses[0]] + Deduplicated(addresses[1..], seen + {addresses[0]})
  }

  predicate NoDuplicates(s: seq<Pubkey>) {
    forall i, j | 0 <= i < j < |s| :: s[i] != s[j]
  }

  lemma {:induction false} DeduplicatedIsDistinct(addresses: seq<Pubkey>, seen: set<Pubkey>)
    ensures NoDuplicates(Deduplicated(addresses, seen))
    ensures forall a :: a in Deduplicated(addresses, seen) <==> a in addresses && a !in seen
  {
    if addresses != [] {
      var first := addresses[0];
      DeduplicatedIsDistinct(addresses[1..], seen);
      DeduplicatedIsDistinct(addresses[1..], seen + {first});
      assert addresses == [first] + addresses[1..];
    }
  }

  /** The positions are first occurrences of addresses not seen before the list. */
  ghost predicate FirstOccurrences(addresses: seq<Pubkey>, seen: set<Pubkey>, at: seq<nat>) {
    forall k | 0 <= k < |at| ::
      && at[k] < |addresses| && addresses[at[k]] !in seen
      && forall j | 0 <= j < at[k] :: addresses[j] != addresses[at[k]]
  }

  lemma DeduplicatedFirst(addresses: seq<Pubkey>, seen: set<Pubkey>) returns (kept: Option<Pubkey>)
    requires addresses != []
    ensures kept == if addresses[0] in seen then None else Some(addresses[0])
    ensures Deduplicated(addresses, seen) == Listed(kept) + Deduplicated(addresses[1..], seen + {addresses[0]})
  {
    kept := if addresses[0] in seen then None else Some(addresses[0]);
    assert addresses[0] in seen ==> seen + {addresses[0]} == seen;
  }

  /** What stays is each address at its first occurrence, in the order of the list. */
  lemma {:induction false} DeduplicatedInOrder(addresses: seq<Pubkey>, seen: set<Pubkey>) returns (at: seq<nat>)
    ensures PickedInOrder(addresses, Deduplicated(addresses, seen), at, (a: Pubkey, b: Pubkey) => a == b, a => true)
    ensures FirstOccurrences(addresses, seen, at)
    decreases |addresses|
  {
    if addresses == [] {
      at := [];
    } else {
      var kept := DeduplicatedFirst(addresses, seen);
      var rest := Deduplicated(addresses[1..], seen + {addresses[0]});
      var later := DeduplicatedInOrder(addresses[1..], seen + {addresses[0]});
      at := Positions(kept, later);
      PickCons(addresses, kept, rest, later, (a: Pubkey, b: Pubkey) => a == b, a => true);
      OccurrencesCons(addresses, seen, later, kept);
    }
  }

  lemma OccurrencesCons(addresses: seq<Pubkey>, seen: set<Pubkey>, later: seq<nat>, kept: Option<Pubkey>)
    requires addresses != [] && (kept.Some? <==> addresses[0] !in seen)
    requires FirstOccurrences(addresses[1..], seen + {addresses[0]}, later)
    ensures FirstOccurrences(addresses, seen, Positions(kept, later))
  {
    var at := Positions(kept, later);
    forall k | 0 <= k < |at|
      ensures && at[k] < |addresses| && addresses[at[k]] !in seen
              && forall j | 0 <= j < at[k] :: addresses[j] != addresses[at[k]]
    {
      var q := if kept.Some? then k - 1 else k;
      if q >= 0 {
        assert at[k] == later[q] + 1;
        forall j | 0 <= j < at[k]
          ensures addresses[j] != addresses[at[k]]
        {
          assert j > 0 ==> addresses[j] == addresses[1..][j - 1];
        }
      }
    }
  }

  /** The desired addresses not stored yet, in desired order. */
  function Missing(desired: seq<Pubkey>, stored: seq<Pubkey>): seq<Pubkey> {
    if desired == [] then []
    else if desired[0] in stored then Missing(desired[1..], stored)
    else [desired[0]] + Missing(desired[1..], stored)
  }

  lemma {:induction false} MissingMembers(desired: seq<Pubkey>, stored: seq<Pubkey>)
    ensures forall a :: a in Missing(desired, stored) <==> a in desired && a !in stored
    ensures NoDuplicates(desired) ==> NoDuplicates(Missing(desired, stored))
  {
    if desired != [] {
      MissingMembers(desired[1..], stored);
      assert desired == [desired[0]] + desired[1..];
      var rest := Missing(desired[1..], stored);
      if NoDuplicates(desired) && desired[0] !in stored {
        assert forall j | 0 <= j < |rest| :: rest[j] in desired[1..];
      }
    }
  }

  /** The missing addresses are a subsequence of the desired ones; those left out are stored. */
  lemma {:induction false} MissingInOrder(desired: seq<Pubkey>, stored: seq<Pubkey>) returns (at: seq<nat>)
    ensures PickedInOrder(desired, Missing(desired, stored), at, (a: Pubkey, b: Pubkey) => a == b && a !in stored,
                          a => a in stored)
    decreases |desired|
  {
    if desired == [] {
      at := [];
    } else {
      var first := if desired[0] in stored then None else Some(desired[0]);
      var later := MissingInOrder(desired[1..], stored);
      at := Positions(first, later);
      PickCons(desired, first, Missing(desired[1..], stored), later,
               (a: Pubkey, b: Pubkey) => a == b && a !in stored, a => a in stored);
    }
  }

  /** Once a leading part of the missing addresses is stored, the rest of them is missing. */
  lemma {:induction false} MissingAfterPrefix(desired: seq<Pubkey>, stored: seq<Pubkey>, k: nat)
    requires NoDuplicates(desired) && k <= |Missing(desired, stored)|
    ensures Missing(desired, stored + Missing(desired, stored)[..k]) == Missing(desired, stored)[k..]
  {
    var all := Missing(desired, stored);
    if desired != [] {
      var first, rest := desired[0], desired[1..];
      if first in stored {
        MissingAfterPrefix(rest, stored, k);
      } else {
        var tail := Missing(rest, stored);
        MissingMembers(rest, stored);
        assert all == [first] + tail;
        assert first !in rest;
        if k == 0 {
          assert stored + all[..0] == stored;
        } else {
          MissingAfterPrefix(rest, stored, k - 1);
          assert all[..k] == [first] + tail[..k - 1];
          StoredElsewhere(rest, stored + tail[..k - 1], stored + all[..k]);
        }
      }
    }
  }

  /** What is missing depends only on which of the desired addresses are stored. */
  lemma {:induction false} StoredElsewhere(desired: seq<Pubkey>, a: seq<Pubkey>, b: seq<Pubkey>)
    requires forall key | key in desired :: key in a <==> key in b
    ensures Missing(desired, a) == Missing(desired, b)
  {
    if desired != [] {
      StoredElsewhere(desired[1..], a, b);
    }
  }

  // ---- one run

  function ChunkCount(count: nat): nat { (count + CHUNK - 1) / CHUNK }

  /** The transactions a run pays for: one per chunk, and one to create a new table. */
  function TransactionCount(table: Option<seq<Pubkey>>, desired: seq<Pubkey>): nat {
    ChunkCount(|Missing(desired, table.GetOr([]))|) + (if table.None? then 1 else 0)
  }

  /** The table after a run, how many transactions were sent, and whether the run succeeded. */
  datatype Run = Run(table: Option<seq<Pubkey>>, sent: nat, complete: bool)

  /** Sends the missing addresses chunk by chunk, `sent` transactions into the run. */
  function ExtendAll(world: World, addresses: seq<Pubkey>, missing: seq<Pubkey>, sent: nat): Run
    decreases |missing|
  {
    if missing == [] then Run(Some(addresses), sent, true)
    else
      var size := Min(CHUNK, |missing|);
      var outcome := world.send(sent);
      var extended := if outcome.Landed() then addresses + missing[..size] else addresses;
      if outcome.Confirmed? then ExtendAll(world, extended, missing[size..], sent + 1)
      else Run(Some(extended), sent + 1, false)
  }

  /** One run against the on-chain table, if there is one. */
  function Populate(world: World, table: Option<seq<Pubkey>>, desired: seq<Pubkey>): Run {
    if table.Some? && !world.owned then Run(table, 0, false)
    else
      var stored := table.GetOr([]);
      var missing := Missing(desired, stored);
      if |stored| + |missing| > MAX_ADDRESSES || !world.funded then Run(table, 0, false)
      else if table.Some? then Activated(world, ExtendAll(world, stored, missing, 0))
      else
        match world.send(0)
        case Confirmed => Activated(world, ExtendAll(world, [], missing, 1))
        case FailedUnsent => Run(None, 1, false)
        case FailedButLanded => Run(Some([]), 1, false)
  }

  /** Activation is only waited for after every chunk was confirmed. */
  function Activated(world: World, run: Run): Run {
    run.(complete := run.complete && world.active)
  }

  lemma ChunkAt<T>(missing: seq<T>, next: nat, size: nat)
    requires next + size <= |missing|
    ensures missing[next..][..size] == missing[next..next + size]
    ensures missing[next..][size..] == missing[next + size..]
  {
  }

  /** The on-chain account a run works on. */
  class Table {
    var addresses: Option<seq<Pubkey>>

    constructor (addresses: Option<seq<Pubkey>>)
      ensures this.addresses == addresses
    {
      this.addresses := addresses;
    }

    /** Sends one chunk; an error may hide that it landed. */
    method SendExtend(world: World, sent: nat, chunk: seq<Pubkey>) returns (confirmed: bool)
      requires addresses.Some?
      modifies this
      ensures confirmed <==> world.send(sent).Confirmed?
      ensures addresses
           == if world.send(sent).Landed() then Some(old(addresses.value) + chunk) else old(addresses)
    {
      var outcome := world.send(sent);
      if outcome.Landed() {
        addresses := Some(addresses.value + chunk);
      }
      confirmed := outcome.Confirmed?;
    }

    method PopulateTable(world: World, desired: seq<Pubkey>) returns (complete: bool, sent: nat)
      modifies this
      ensures Run(addresses, sent, complete) == Populate(world, old(addresses), desired)
    {
      sent := 0;
      if addresses.Some? && !world.owned {
        return false, sent;
      }
      var stored := addresses.GetOr([]);
      var missing := Missing(desired, stored);
      if |stored| + |missing| > MAX_ADDRESSES {
        return false, sent;
      }
      if !world.funded {
        return false, sent;
      }
      if addresses.None? {
        var outcome := world.send(sent);
        sent := sent + 1;
        if outcome.Landed() {
          addresses := Some([]);
        }
        if !outcome.Confirmed? {
          return false, sent;
        }
      }
      var next := 0;
      ghost var whole := ExtendAll(world, stored, missing, sent);
      while next < |missing|
        invariant 0 <= next <= |missing|
        invariant addresses.Some?
        invariant whole == ExtendAll(world, addresses.value, missing[next..], sent)
        decreases |missing| - next
      {
        var chunk := missing[next..next + Min(CHUNK, |missing| - next)];
        ChunkAt(missing, next, |chunk|);
        var confirmed := SendExtend(world, sent, chunk);
        sent := sent + 1;
        if !confirmed {
          return false, sent;
        }
        next := next + |chunk|;
      }
      complete := world.active;
    }
  }

  // ---- any number of interrupted runs

  /** A run appends a leading part of what is missing, and all of it when every send is confirmed. */
  lemma {:induction false} ExtendAppendsPrefix(world: World, addresses: seq<Pubkey>, missing: seq<Pubkey>, sent: nat)
    ensures var run := ExtendAll(world, addresses, missing, sent);
            && run.table.Some?
            && addresses <= run.table.value <= addresses + missing
            && sent <= run.sent <= sent + ChunkCount(|missing|)
            && (run.complete ==> run.table.value == addresses + missing && run.sent == sent + ChunkCount(|missing|))
    decreases |missing|
  {
    if missing != [] {
      var size := Min(CHUNK, |missing|);
      var chunk, rest := missing[..size], missing[size..];
      assert missing == chunk + rest;
      assert ChunkCount(|missing|) == 1 + ChunkCount(|rest|);
      if world.send(sent).Confirmed? {
        ExtendAppendsPrefix(world, addresses + chunk, rest, sent + 1);
        assert addresses + chunk + rest == addresses + missing;
      }
    }
  }

  /** Any number of runs, one after another, each resuming what the ones before it left. */
  function PopulateAgain(worlds: seq<World>, table: Option<seq<Pubkey>>, desired: seq<Pubkey>): Option<seq<Pubkey>>
    decreases |worlds|
  {
    if worlds == [] then table
    else PopulateAgain(worlds[1..], Populate(worlds[0], table, desired).table, desired)
  }

  /** Where every uninterrupted run from `stored` ends. */
  function Target(stored: seq<Pubkey>, desired: seq<Pubkey>): seq<Pubkey> {
    stored + Missing(desired, stored)
  }

  lemma PrefixOf(stored: seq<Pubkey>, now: seq<Pubkey>, all: seq<Pubkey>)
    requires stored <= now <= stored + all
    ensures now == stored + all[..|now| - |stored|]
  {
    assert now == (stored + all)[..|now|];
  }

  lemma Rejoined(stored: seq<Pubkey>, all: seq<Pubkey>, k: nat)
    requires k <= |all|
    ensures stored + all[..k] + all[k..] == stored + all
  {
    assert all[..k] + all[k..] == all;
  }

  /** A leading part of the target aims at the same target. */
  lemma SameTarget(stored: seq<Pubkey>, now: seq<Pubkey>, desired: seq<Pubkey>)
    requires NoDuplicates(desired) && stored <= now <= Target(stored, desired)
    ensures Target(now, desired) == Target(stored, desired)
  {
    var all, k := Missing(desired, stored), |now| - |stored|;
    PrefixOf(stored, now, all);
    MissingAfterPrefix(desired, stored, k);
    Rejoined(stored, all, k);
  }

  /** One run stays on the way to the target; a complete one reaches it with the funded number of sends. */
  lemma OneRun(world: World, table: Option<seq<Pubkey>>, desired: seq<Pubkey>)
    ensures var run := Populate(world, table, desired);
            && (table.Some? ==> run.table.Some?)
            && (run.table.Some? ==>
                  table.GetOr([]) <= run.table.value <= Target(table.GetOr([]), desired))
            && run.sent <= TransactionCount(table, desired)
            && (run.complete ==>
                  && run.table == Some(Target(table.GetOr([]), desired))
                  && run.sent == TransactionCount(table, desired)
                  && |Target(table.GetOr([]), desired)| <= MAX_ADDRESSES)
            && (run.table != table ==> |Target(table.GetOr([]), desired)| <= MAX_ADDRESSES)
  {
    var stored := table.GetOr([]);
    ExtendAppendsPrefix(world, stored, Missing(desired, stored), 0);
    ExtendAppendsPrefix(world, stored, Missing(desired, stored), 1);
  }

  /** The invariant over any sequence of runs. */
  lemma {:induction false} RunsStayOnTarget(
    worlds: seq<World>, stored: seq<Pubkey>, table: Option<seq<Pubkey>>, desired: seq<Pubkey>)
    requires NoDuplicates(desired)
    requires stored <= table.GetOr([]) <= Target(stored, desired)
    ensures var now := PopulateAgain(worlds, table, desired).GetOr([]);
            stored <= now <= Target(stored, desired)
    decreases |worlds|
  {
    if worlds != [] {
      var next := Populate(worlds[0], table, desired).table;
      OneRun(worlds[0], table, desired);
      SameTarget(stored, table.GetOr([]), desired);
      RunsStayOnTarget(worlds[1..], stored, next, desired);
    }
  }

  /** What a leading part of the target has appended is missing before, and nothing twice. */
  lemma AppendedAreMissing(desired: seq<Pubkey>, stored: seq<Pubkey>, now: seq<Pubkey>)
    requires NoDuplicates(desired) && stored <= now <= Target(stored, desired)
    ensures NoDuplicates(now[|stored|..])
    ensures forall a | a in now[|stored|..] :: a in desired && a !in stored
    ensures forall a | a in desired :: a in Target(stored, desired)
  {
    MissingMembers(desired, stored);
    var missing := Missing(desired, stored);
    assert now[|stored|..] == missing[..|now| - |stored|];
    assert forall a | a in now[|stored|..] :: a in missing;
  }

  /**
   However often and wherever runs are cut short, the next complete run ends with the table an
   uninterrupted first run would have built, having sent exactly what it paid for. No address is
   appended twice or a second time, and the table stays within its capacity.
   */
  lemma ResumptionReachesTarget(worlds: seq<World>, last: World, table: Option<seq<Pubkey>>, desired: seq<Pubkey>)
    requires NoDuplicates(desired)
    ensures var stored := table.GetOr([]);
            var before := PopulateAgain(worlds, table, desired);
            var run := Populate(last, before, desired);
            && stored <= before.GetOr([]) <= Target(stored, desired)
            && NoDuplicates(before.GetOr([])[|stored|..])
            && (forall a | a in before.GetOr([])[|stored|..] :: a in desired && a !in stored)
            && (run.complete ==>
                  && run.table == Some(Target(stored, desired))
                  && run.sent == TransactionCount(before, desired)
                  && |Target(stored, desired)| <= MAX_ADDRESSES
                  && forall a | a in desired :: a in run.table.value)
  {
    var stored := table.GetOr([]);
    RunsStayOnTarget(worlds, stored, table, desired);
    var before := PopulateAgain(worlds, table, desired);
    var now := before.GetOr([]);
    OneRun(last, before, desired);
    SameTarget(stored, now, desired);
    AppendedAreMissing(desired, stored, now);
  }

  /** Sends carry twenty addresses each, all but the last of them full. */
  lemma SendsAreFewest(count: nat)
    ensures count <= 20 * ChunkCount(count) < count + 20
  {
  }

  lemma {:induction false} ExtendCompletesExactly(
      world: World, addresses: seq<Pubkey>, missing: seq<Pubkey>, sent: nat)
    ensures ExtendAll(world, addresses, missing, sent).complete
       <==> forall n: nat | sent <= n < sent + ChunkCount(|missing|) :: world.send(n).Confirmed?
    decreases |missing|
  {
    if missing != [] {
      var size := Min(CHUNK, |missing|);
      assert ChunkCount(|missing|) == 1 + ChunkCount(|missing[size..]|);
      if world.send(sent).Confirmed? {
        ExtendCompletesExactly(world, addresses + missing[..size], missing[size..], sent + 1);
      }
    }
  }

  /** A run is admitted when the table is its own, the target fits the capacity and the wallet can pay. */
  predicate Admitted(world: World, table: Option<seq<Pubkey>>, desired: seq<Pubkey>) {
    && (table.Some? ==> world.owned)
    && |Target(table.GetOr([]), desired)| <= 256
    && world.funded
  }

  /**
   A run completes exactly when it is admitted, each of the transactions it paid for is confirmed and
   the table becomes active; a run that is not admitted sends nothing and leaves the table alone.
   */
  lemma RunCompletesExactly(world: World, table: Option<seq<Pubkey>>, desired: seq<Pubkey>)
    ensures var run := Populate(world, table, desired);
            && (run.complete <==>
                  && Admitted(world, table, desired) && world.active
                  && forall n: nat | n < TransactionCount(table, desired) :: world.send(n).Confirmed?)
            && (!Admitted(world, table, desired) ==> run.sent == 0 && run.table == table)
  {
    var stored := table.GetOr([]);
    ExtendCompletesExactly(world, stored, Missing(desired, stored), if table.Some? then 0 else 1);
  }

  /** The chunk sends that landed among the last `count` of `sent`, all but the very last of them confirmed. */
  function LandedSends(world: World, count: nat, sent: nat): nat
    requires count <= sent
  {
    if count > 0 && world.send(sent - 1).FailedUnsent? then count - 1 else count
  }

  lemma ChunkThenRest(addresses: seq<Pubkey>, missing: seq<Pubkey>, size: nat, k: nat)
    requires size + k <= |missing|
    ensures addresses + missing[..size] + missing[size..][..k] == addresses + missing[..size + k]
  {
    assert missing[..size] + missing[size..][..k] == missing[..size + k];
  }

  /** An extension stops at its first send that is not confirmed, and leaves exactly the chunks that landed. */
  lemma {:induction false} ExtendLeavesLanded(world: World, addresses: seq<Pubkey>, missing: seq<Pubkey>, sent: nat)
    ensures var run := ExtendAll(world, addresses, missing, sent);
            && run.sent >= sent
            && (forall n: nat | sent <= n < run.sent - 1 :: world.send(n).Confirmed?)
            && (!run.complete ==> run.sent > sent && !world.send(run.sent - 1).Confirmed?)
            && var chunks := LandedSends(world, run.sent - sent, run.sent);
               run.table == Some(addresses + missing[..Min(20 * chunks, |missing|)])
    decreases |missing|
  {
    if missing == [] {
      assert addresses + missing[..0] == addresses;
    } else {
      var size := Min(CHUNK, |missing|);
      if world.send(sent).Confirmed? {
        var chunk, rest := missing[..size], missing[size..];
        ExtendLeavesLanded(world, addresses + chunk, rest, sent + 1);
        var run := ExtendAll(world, addresses + chunk, rest, sent + 1);
        var chunks := LandedSends(world, run.sent - (sent + 1), run.sent);
        var k := Min(20 * chunks, |rest|);
        ChunkThenRest(addresses, missing, size, k);
        assert LandedSends(world, run.sent - sent, run.sent) == chunks + 1;
        assert Min(20 * (chunks + 1), |missing|) == size + k;
      } else {
        assert addresses + missing[..0] == addresses;
      }
    }
  }

  /**
   An admitted run leaves exactly what landed: of a new table nothing, or the empty account, unless
   its creation is confirmed; then the stored addresses and as many twenties of missing ones as
   chunk sends landed. It stops at the first send that is not confirmed.
   */
  lemma RunLeavesLanded(world: World, table: Option<seq<Pubkey>>, desired: seq<Pubkey>)
    requires Admitted(world, table, desired)
    ensures var run := Populate(world, table, desired);
            var creating := if table.None? then 1 else 0;
            && (forall n: nat | n < run.sent - 1 :: world.send(n).Confirmed?)
            && (table.None? && !world.send(0).Confirmed? ==>
                  run.sent == 1 && run.table == if world.send(0).FailedUnsent? then None else Some([]))
            && (table.Some? || world.send(0).Confirmed? ==>
                  && run.sent >= creating
                  && var stored, chunks := table.GetOr([]), LandedSends(world, run.sent - creating, run.sent);
                     var missing := Missing(desired, stored);
                     run.table == Some(stored + missing[..Min(20 * chunks, |missing|)]))
  {
    ExtendLeavesLanded(world, table.GetOr([]), Missing(desired, table.GetOr([])), if table.None? then 1 else 0);
  }
}
