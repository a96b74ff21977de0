/** Static channels whose ports the store holds for each other never get them: over whole
    runs, through every pass that reads the store. */
module Deadlock {
  import opened Model
  import opened ChannelOrder
  import opened Claims
  import opened Reconcile
  import opened Endpoints
  import opened Pass
  import opened PassInvariant
  import opened PassClaims
  import opened Stability
  import opened Recovery
  import opened Runs
  import opened Blocking

  /** The store holds port `x` of `a` for port `y` of `b`. */
  ghost predicate BlockedAt(claims: map<Ref, Claim>, a: Channel, x: nat, b: Channel, y: nat) {
    && AllStatic(a) && Named(b) && x < |a.ports| && y < |b.ports| && a.RefOf(x) != b.RefOf(y)
    && Holds(claims, b.RefOf(y), StaticKey(a, x))
  }

  ghost predicate BlockedBy(claims: map<Ref, Claim>, a: Channel, b: Channel) {
    exists x: nat, y: nat :: BlockedAt(claims, a, x, b, y)
  }

  /** Every channel of the gang is blocked by one of the gang: a swap, or a longer ring,
      or anything that leads into one. */
  ghost predicate Deadlocked(claims: map<Ref, Claim>, gang: seq<Channel>) {
    forall i | 0 <= i < |gang| :: BlockedInside(claims, gang, gang[i])
  }

  ghost predicate BlockedInside(claims: map<Ref, Claim>, gang: seq<Channel>, a: Channel) {
    exists k :: 0 <= k < |gang| && BlockedBy(claims, a, gang[k])
  }

  ghost predicate AllPresent(channels: seq<Channel>, gang: seq<Channel>) {
    forall i | 0 <= i < |gang| :: Present(channels, gang[i])
  }

  /** The pass accepts no channel of the gang. */
  ghost predicate NoneAccepted(input: Input, gang: seq<Channel>) {
    forall k: nat, i | k < |input.channels| && 0 <= i < |gang| && input.channels[k].SameSpec(gang[i]) ::
      !OutcomeOf(input, k).Accepted?
  }

  lemma SpecPort(a: Channel, b: Channel, x: nat)
    requires a.SameSpec(b) && x < |a.ports|
    ensures a.RefOf(x) == b.RefOf(x) && Named(a) == Named(b)
    ensures AllStatic(b) ==> AllStatic(a) && StaticKey(a, x) == StaticKey(b, x)
  {
    hide Requests;
    SameRequests(a, b);
  }

  /** A blocked channel is not accepted by a pass that reads the claim. */
  lemma BlockedRejected(hash: Hash, c: Cluster, listing: seq<MuxPort>, cache: Cache, a: Channel, x: nat, b: Channel,
      y: nat, k: nat)
    requires Good(hash, c) && BlockedAt(StoreClaims(c), a, x, b, y) && Present(c.channels, b)
    requires var input := InputOf(hash, c, listing, cache, true); k < |input.channels| && input.channels[k].SameSpec(a)
    ensures !OutcomeOf(InputOf(hash, c, listing, cache, true), k).Accepted?
  {
    hide RunUpTo, OutcomeOf, Fair, FirstBook, StoreClaims, ChannelLe, ActiveRefs, AllStatic, StaticNumbers, Good, Named;
    var input := InputOf(hash, c, listing, cache, true);
    FirstClaims(hash, c, listing, cache, true);
    var l := SortedPresent(c.channels, b);
    SpecPort(input.channels[l], b, y);
    SpecPort(input.channels[k], a, x);
    OwnRef(input.channels, l, y);
    assert Holds(FirstBook(input).claims, b.RefOf(y), StaticKey(a, x));
    ForeignClaimBlocks(input, k, x, b.RefOf(y));
  }

  /** A claim of a channel that is not accepted outlives the pass. */
  lemma BlockerKeeps(hash: Hash, c: Cluster, listing: seq<MuxPort>, cache: Cache, b: Channel, y: nat, pk: PortKey,
      l: nat)
    requires Good(hash, c) && AllStatic(b) && y < |b.ports| && Holds(StoreClaims(c), b.RefOf(y), pk)
    requires var input := InputOf(hash, c, listing, cache, true);
      l < |input.channels| && input.channels[l].SameSpec(b) && !OutcomeOf(input, l).Accepted?
    ensures Holds(Final(InputOf(hash, c, listing, cache, true)).book.claims, b.RefOf(y), pk)
  {
    hide RunUpTo, OutcomeOf, Fair, FirstBook, StoreClaims, ChannelLe, ActiveRefs, AllStatic, StaticNumbers, Good, Named;
    var input := InputOf(hash, c, listing, cache, true);
    FirstClaims(hash, c, listing, cache, true);
    SpecPort(input.channels[l], b, y);
    StaticNamed(b);
    OwnRef(input.channels, l, y);
    assert Holds(FirstBook(input).claims, b.RefOf(y), pk);
    RejectedKeeps(input, l, y, pk);
  }

  lemma Blocker(claims: map<Ref, Claim>, gang: seq<Channel>, i: nat) returns (x: nat, j: nat, y: nat)
    requires Deadlocked(claims, gang) && i < |gang|
    ensures j < |gang| && BlockedAt(claims, gang[i], x, gang[j], y)
  {
    hide BlockedAt;
    assert BlockedInside(claims, gang, gang[i]);
    j :| j < |gang| && BlockedBy(claims, gang[i], gang[j]);
    x, y :| BlockedAt(claims, gang[i], x, gang[j], y);
  }

  lemma GangStatic(claims: map<Ref, Claim>, gang: seq<Channel>, i: nat)
    requires Deadlocked(claims, gang) && i < |gang|
    ensures AllStatic(gang[i])
  {
    hide AllStatic, StaticNumbers, Deadlocked;
    var x, j, y := Blocker(claims, gang, i);
  }

  lemma GangRejected(hash: Hash, c: Cluster, listing: seq<MuxPort>, cache: Cache, gang: seq<Channel>, i: nat, k: nat)
    requires Good(hash, c) && AllPresent(c.channels, gang) && Deadlocked(StoreClaims(c), gang) && i < |gang|
    requires var input := InputOf(hash, c, listing, cache, true);
      k < |input.channels| && input.channels[k].SameSpec(gang[i])
    ensures !OutcomeOf(InputOf(hash, c, listing, cache, true), k).Accepted?
  {
    hide Good, StoreClaims, ChannelLe, BlockedAt, Present, OutcomeOf, Deadlocked;
    var x, j, y := Blocker(StoreClaims(c), gang, i);
    BlockedRejected(hash, c, listing, cache, gang[i], x, gang[j], y, k);
  }

  lemma GangStays(hash: Hash, c: Cluster, listing: seq<MuxPort>, cache: Cache, gang: seq<Channel>, i: nat)
    requires Good(hash, c) && AllPresent(c.channels, gang) && Deadlocked(StoreClaims(c), gang) && i < |gang|
    ensures BlockedInside(Final(InputOf(hash, c, listing, cache, true)).book.claims, gang, gang[i])
  {
    hide Good, StoreClaims, ChannelLe, BlockedAt, Present, OutcomeOf, RunUpTo, Deadlocked;
    var x, j, y := Blocker(StoreClaims(c), gang, i);
    GangStatic(StoreClaims(c), gang, j);
    assert Present(c.channels, gang[j]);
    var l := SortedPresent(c.channels, gang[j]);
    GangRejected(hash, c, listing, cache, gang, j, l);
    BlockedStays(hash, c, listing, cache, gang[i], x, gang[j], y, l);
    assert BlockedBy(Final(InputOf(hash, c, listing, cache, true)).book.claims, gang[i], gang[j]);
  }

  /** A pass that reads a deadlocked store accepts none of the gang and leaves the store
      deadlocked. */
  lemma DeadlockInPass(hash: Hash, c: Cluster, listing: seq<MuxPort>, cache: Cache, gang: seq<Channel>)
    requires Good(hash, c) && AllPresent(c.channels, gang) && Deadlocked(StoreClaims(c), gang)
    ensures NoneAccepted(InputOf(hash, c, listing, cache, true), gang)
    ensures Deadlocked(Final(InputOf(hash, c, listing, cache, true)).book.claims, gang)
  {
    hide Good, StoreClaims, ChannelLe, BlockedInside, AllPresent, OutcomeOf, RunUpTo;
    var input := InputOf(hash, c, listing, cache, true);
    forall k: nat, i | k < |input.channels| && 0 <= i < |gang| && input.channels[k].SameSpec(gang[i])
      ensures !OutcomeOf(input, k).Accepted?
    {
      GangRejected(hash, c, listing, cache, gang, i, k);
    }
    forall i | 0 <= i < |gang| ensures BlockedInside(Final(input).book.claims, gang, gang[i]) {
      GangStays(hash, c, listing, cache, gang, i);
    }
  }

  lemma BlockedStays(hash: Hash, c: Cluster, listing: seq<MuxPort>, cache: Cache, a: Channel, x: nat, b: Channel,
      y: nat, l: nat)
    requires Good(hash, c) && BlockedAt(StoreClaims(c), a, x, b, y) && AllStatic(b)
    requires var input := InputOf(hash, c, listing, cache, true);
      l < |input.channels| && input.channels[l].SameSpec(b) && !OutcomeOf(input, l).Accepted?
    ensures BlockedAt(Final(InputOf(hash, c, listing, cache, true)).book.claims, a, x, b, y)
  {
    hide Good, StoreClaims, ChannelLe, OutcomeOf, RunUpTo, AllStatic, StaticNumbers, Named;
    BlockerKeeps(hash, c, listing, cache, b, y, StaticKey(a, x), l);
  }

  // ---- runs ----

  /** The event is a pass that reads the store, completed or not. */
  predicate ReadsStore(e: Event) {
    e.FullPass? || (e.Interrupted? && e.readable)
  }

  lemma DeadlockThroughEvent(hash: Hash, c: Cluster, e: Event, gang: seq<Channel>)
    requires Good(hash, c) && Enabled(hash, c, e) && AllPresent(c.channels, gang) && Deadlocked(StoreClaims(c), gang)
    ensures Deadlocked(StoreClaims(Apply(hash, c, e)), gang)
  {
    hide RunUpTo, Deadlocked, Good, ChannelLe, StoreClaims, AfterSave, Readable, BuildMuxPorts, AllPresent, Lists;
    var after := Apply(hash, c, e);
    SameStore(c, after);
    if after.store != c.store {
      var input := InputOf(hash, c, e.listing, e.cache, true);
      if e.BlindPass? {
        BlindKeepsStore(c, InputOf(hash, c, e.listing, e.cache, false));
      }
      assert after.store == AfterSave(c, input);
      SavedClaims(hash, c, e.listing, e.cache);
      DeadlockInPass(hash, c, e.listing, e.cache, gang);
      SameStore(c.(store := AfterSave(c, input)), after);
    }
  }

  /** THEOREM (deadlocks last). While its channels stay declared with the same specs, a
      deadlocked gang stays deadlocked: through edits of other channels, port-list resets,
      interrupted passes and passes without a readable store. No pass that reads the store
      accepts any of them. A pass that cannot read it is no exception to the first half,
      only to the second: `Blocking.StaticAcceptedIff` and `Blocking.BlindOwners` say what
      it accepts. */
  lemma {:induction false} DeadlockOverRuns(hash: Hash, trace: seq<Cluster>, events: seq<Event>, gang: seq<Channel>,
      t: nat)
    requires IsRun(hash, trace, events) && Good(hash, trace[0]) && t < |trace|
    requires Deadlocked(StoreClaims(trace[0]), gang)
    requires forall u | 0 <= u < |trace| :: AllPresent(trace[u].channels, gang)
    ensures Deadlocked(StoreClaims(trace[t]), gang)
    ensures t < |events| && ReadsStore(events[t]) ==>
      NoneAccepted(InputOf(hash, trace[t], events[t].listing, events[t].cache, true), gang)
  {
    hide Good, Enabled, Apply, AllPresent, Deadlocked, StoreClaims, NoneAccepted, InputOf;
    ClaimsExclusiveOverRuns(hash, trace, events, t);
    if t > 0 {
      DeadlockOverRuns(hash, trace, events, gang, t - 1);
      ClaimsExclusiveOverRuns(hash, trace, events, t - 1);
      DeadlockThroughEvent(hash, trace[t - 1], events[t - 1], gang);
    }
    if t < |events| && ReadsStore(events[t]) {
      DeadlockInPass(hash, trace[t], events[t].listing, events[t].cache, gang);
    }
  }

  /** Two channels that swapped numbers are the smallest such gang. */
  lemma CrossedIsDeadlock(claims: map<Ref, Claim>, a: Channel, x: nat, b: Channel, y: nat)
    requires Crossed(claims, a, x, b, y)
    ensures Deadlocked(claims, [a, b])
  {
    hide AllStatic, StaticNumbers, Holds;
    var gang := [a, b];
    StaticNamed(a);
    StaticNamed(b);
    assert BlockedAt(claims, a, x, b, y) && BlockedAt(claims, b, y, a, x);
    assert gang[0] == a && gang[1] == b;
    assert BlockedBy(claims, gang[0], gang[1]) && BlockedBy(claims, gang[1], gang[0]);
  }
}
