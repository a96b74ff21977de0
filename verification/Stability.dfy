/** From one pass to the next: who keeps a port, and when. */
module Stability {
  import opened Wrappers
  import opened Annotations
  import opened Model
  import opened Claims
  import opened Reconcile
  import opened Pass
  import opened PassFacts
  import opened PassInvariant
  import opened StateRoundTrip
  import opened PassClaims

  // ---- persisted claims protect their holder ----

  /** The owner map gives a port claimed in the store to the claim's key, at every
      point of the pass. */
  lemma HeldOwned(input: Input, r: Ref, pk: PortKey, k: nat)
    requires Fair(input) && Holds(FirstBook(input).claims, r, pk) && k <= |input.channels|
    ensures pk in FirstOwners(input) && FirstOwners(input)[pk] == OwnerOf(input.hash, r)
    ensures pk in RunUpTo(input, k).owners && RunUpTo(input, k).owners[pk] == OwnerOf(input.hash, r)
  {
    hide RunUpTo, Load, PortOwners, Recovered, CollisionFree, WellFormedAll, Holds, Injective;
    LoadValid(LoadedState(input), ActiveRefs(input.channels));
    PortOwnersExact(input.hash, FirstBook(input), pk);
    RunStart(input);
    OwnersPersist(input, 0, k);
  }

  lemma OwnedCompatible(hash: Hash, owners: map<PortKey, Owner>, ch: Channel, numbers: seq<int>)
    requires |numbers| == |ch.ports|
    requires forall j | 0 <= j < |numbers| ::
      NumberKey(ch, numbers, j) in owners && owners[NumberKey(ch, numbers, j)] == OwnerOf(hash, ch.RefOf(j))
    requires forall i, j | 0 <= i < |numbers| && 0 <= j < |numbers| ::
      NumberKey(ch, numbers, i) == NumberKey(ch, numbers, j) ==> i == j
    ensures Compatible(owners, ch, MuxPortsOf(hash, ch, numbers))
  {
    forall p | p in MuxPortsOf(hash, ch, numbers) ensures FreeFor(owners, ch, p) {
      var j :| 0 <= j < |numbers| && p == MuxPortOf(hash, ch, j, numbers[j]);
      assert p.Key() == NumberKey(ch, numbers, j);
    }
    forall p, q | p in MuxPortsOf(hash, ch, numbers) && q in MuxPortsOf(hash, ch, numbers) && p.Key() == q.Key()
      ensures p == q
    {
      var i :| 0 <= i < |numbers| && p == MuxPortOf(hash, ch, i, numbers[i]);
      var j :| 0 <= j < |numbers| && q == MuxPortOf(hash, ch, j, numbers[j]);
      assert NumberKey(ch, numbers, i) == NumberKey(ch, numbers, j);
    }
  }

  /** The store holds exactly `numbers` for the ports of the channel. */
  ghost predicate Claimed(claims: map<Ref, Claim>, ch: Channel, numbers: seq<int>) {
    |numbers| == |ch.ports| && forall j | 0 <= j < |numbers| :: Holds(claims, ch.RefOf(j), NumberKey(ch, numbers, j))
  }

  /** A channel that resolves to the numbers the store holds for it is accepted with
      them, unless the limit leaves no room. */
  lemma Retained(input: Input, i: nat, numbers: seq<int>)
    requires i < |input.channels| && Fair(input)
    requires Claimed(FirstBook(input).claims, input.channels[i], numbers)
    requires ResolutionOf(input, i).error.None? && ResolutionOf(input, i).numbers == numbers
    ensures OutcomeOf(input, i) == if OutcomeOf(input, i).LimitExceeded? then LimitExceeded else Accepted(numbers)
  {
    hide RunUpTo, OutcomeOf, ResolutionOf, FirstBook, CollisionFree, Holds, Compatible, MuxPortsOf;
    var ch, s := input.channels[i], RunUpTo(input, i);
    forall j | 0 <= j < |numbers|
      ensures NumberKey(ch, numbers, j) in s.owners
      ensures s.owners[NumberKey(ch, numbers, j)] == OwnerOf(input.hash, ch.RefOf(j))
    {
      HeldOwned(input, ch.RefOf(j), NumberKey(ch, numbers, j), i);
    }
    forall x, y | 0 <= x < |numbers| && 0 <= y < |numbers| && NumberKey(ch, numbers, x) == NumberKey(ch, numbers, y)
      ensures x == y
    {
      assert Holds(FirstBook(input).claims, ch.RefOf(x), NumberKey(ch, numbers, x));
      assert Holds(FirstBook(input).claims, ch.RefOf(y), NumberKey(ch, numbers, x));
      DistinctRefs(ch, x, y);
    }
    OwnedCompatible(input.hash, s.owners, ch, numbers);
    AcceptedIff(input, i);
  }

  // ---- static channels ----

  /** A valid channel that asks for no automatic port. */
  predicate AllStatic(ch: Channel) {
    Requests(ch).Ok? && forall j | 0 <= j < |ch.ports| :: !WantsAuto(Requests(ch).value, ch.ports[j])
  }

  function StaticNumbers(ch: Channel): seq<int>
    requires AllStatic(ch)
  {
    seq(|ch.ports|, j requires 0 <= j < |ch.ports| => StaticNumber(Requests(ch).value, ch.ports[j]))
  }

  lemma {:induction false} ResolveStatic(c: Config, b: Book, ch: Channel, k: nat)
    requires AllStatic(ch) && k <= |ch.ports|
    ensures ResolveUpTo(c, b, ch, Requests(ch).value, k) == Resolution(b, StaticNumbers(ch)[..k], None)
  {
    hide Requests;
    if k > 0 {
      ResolveStatic(c, b, ch, k - 1);
      assert StaticNumbers(ch)[..k] == StaticNumbers(ch)[..k - 1] + [StaticNumbers(ch)[k - 1]];
    }
  }

  lemma StaticResolution(input: Input, i: nat)
    requires i < |input.channels| && AllStatic(input.channels[i])
    ensures ResolutionOf(input, i) == Resolution(RunUpTo(input, i).book, StaticNumbers(input.channels[i]), None)
  {
    hide Requests, RunUpTo, ResolveUpTo;
    var ch := input.channels[i];
    ResolveStatic(Cfg(input), RunUpTo(input, i).book, ch, |ch.ports|);
    assert StaticNumbers(ch)[..|ch.ports|] == StaticNumbers(ch);
  }

  /** THEOREM (static tenure). An all-static channel whose ports the store holds for it
      is accepted with exactly those ports unless the limit leaves no room, whatever
      other channels are declared, whatever they ask for, and whatever the live port
      list and the annotations say. */
  lemma StaticStays(input: Input, i: nat)
    requires i < |input.channels| && Fair(input) && AllStatic(input.channels[i])
    requires Claimed(FirstBook(input).claims, input.channels[i], StaticNumbers(input.channels[i]))
    ensures OutcomeOf(input, i) ==
      if OutcomeOf(input, i).LimitExceeded? then LimitExceeded else Accepted(StaticNumbers(input.channels[i]))
  {
    hide RunUpTo, OutcomeOf, ResolutionOf, FirstBook, Fair, Claimed, AllStatic, StaticNumbers;
    StaticResolution(input, i);
    Retained(input, i, StaticNumbers(input.channels[i]));
  }

  lemma AcceptedStatic(input: Input, i: nat)
    requires i < |input.channels| && AllStatic(input.channels[i]) && OutcomeOf(input, i).Accepted?
    ensures OutcomeOf(input, i) == Accepted(StaticNumbers(input.channels[i]))
  {
    hide RunUpTo, OutcomeOf, ResolutionOf, AllStatic, StaticNumbers;
    StaticResolution(input, i);
    AcceptedIff(input, i);
  }

  // ---- from one pass to the next ----

  /** `second` reads the store as `first` left it. */
  ghost predicate StoreKept(first: Input, second: Input) {
    first.stored.Stored? && second.stored == Stored(true, StoredAfter(first)) && second.hash == first.hash
  }

  lemma ClaimsCarriedOver(first: Input, second: Input)
    requires Fair(first) && StoreKept(first, second)
    ensures FirstBook(second).claims == Restricted(Final(first).book.claims, ActiveRefs(second.channels))
    ensures Injective(FirstBook(second).claims)
  {
    hide RunUpTo, Fair, ReadAll, StoredAfter, Load, Holds, ActiveRefs, Cfg;
    StoreFollows(first);
    LoadIs(StoredAfter(first), ActiveRefs(second.channels));
    ClaimsSane(first, |first.channels|);
    RestrictedInjective(Final(first).book.claims, ActiveRefs(second.channels));
  }

  lemma RestrictedInjective(claims: map<Ref, Claim>, active: set<Ref>)
    requires Injective(claims)
    ensures Injective(Restricted(claims, active))
  {
    forall r, s, pk | Holds(Restricted(claims, active), r, pk) && Holds(Restricted(claims, active), s, pk)
      ensures r == s
    {
      assert Holds(claims, r, pk) && Holds(claims, s, pk);
    }
  }

  /** The channel port `r` was accepted with mux port `pk`. */
  ghost predicate Holder(input: Input, r: Ref, pk: PortKey) {
    exists i: nat, j: nat :: HolderAt(input, i, j, r, pk)
  }

  ghost predicate HolderAt(input: Input, i: nat, j: nat, r: Ref, pk: PortKey) {
    && i < |input.channels| && j < |input.channels[i].ports| && OutcomeOf(input, i).Accepted?
    && input.channels[i].RefOf(j) == r
    && j < |OutcomeOf(input, i).numbers| <= |input.channels[i].ports|
    && NumberKey(input.channels[i], OutcomeOf(input, i).numbers, j) == pk
  }

  /** An accepted port is held in the final claims. */
  lemma AcceptedClaimed(input: Input, i: nat)
    requires i < |input.channels| && Fair(input) && OutcomeOf(input, i).Accepted?
    ensures Claimed(Final(input).book.claims, input.channels[i], OutcomeOf(input, i).numbers)
  {
    hide RunUpTo, OutcomeOf, Fair, AutoNames, NamesOnce, MuxPortOf;
    var ch := input.channels[i];
    AcceptedStep(input, i);
    forall j | 0 <= j < |ch.ports|
      ensures Holds(Final(input).book.claims, ch.RefOf(j), NumberKey(ch, OutcomeOf(input, i).numbers, j))
    {
      RecordedEqualsAccepted(input, i, j);
    }
  }

  /** An accepted channel finds its claims again in the next pass, if it is still there. */
  lemma ClaimedNext(first: Input, second: Input, i: nat, k: nat)
    requires Fair(first) && StoreKept(first, second) && OutcomeOfAccepted(first, i)
    requires k < |second.channels| && second.channels[k].SameSpec(first.channels[i])
    ensures Claimed(FirstBook(second).claims, second.channels[k], OutcomeOf(first, i).numbers)
  {
    hide RunUpTo, OutcomeOf, Fair, StoreKept, FirstBook;
    AcceptedClaimed(first, i);
    ClaimsCarriedOver(first, second);
    var ch, numbers := second.channels[k], OutcomeOf(first, i).numbers;
    assert Named(ch) by { AcceptedNamed(first, i); }
    RefsActive(second.channels, k);
    forall j | 0 <= j < |numbers| ensures Holds(FirstBook(second).claims, ch.RefOf(j), NumberKey(ch, numbers, j)) {
      assert ch.RefOf(j) == first.channels[i].RefOf(j) && ch.RefOf(j) in RefsOf(ch);
      assert Holds(Final(first).book.claims, ch.RefOf(j), NumberKey(first.channels[i], numbers, j));
    }
  }

  ghost predicate OutcomeOfAccepted(input: Input, i: nat) {
    i < |input.channels| && OutcomeOf(input, i).Accepted?
  }

  lemma AcceptedNamed(input: Input, i: nat)
    requires OutcomeOfAccepted(input, i)
    ensures Requests(input.channels[i]).Ok? && Named(input.channels[i])
  {
    hide RunUpTo, OutcomeOf, ResolveUpTo, ExternalPorts, Declares;
    AcceptedIff(input, i);
  }

  /** THEOREM (static stability). An accepted all-static channel with unchanged spec is
      accepted again in the next pass with the same ports, or else skipped for the limit:
      whatever channels were added, edited or removed, and even if the live port list
      and the annotations were overwritten in between. */
  lemma StaticStability(first: Input, second: Input, i: nat, k: nat)
    requires Fair(first) && StoreKept(first, second) && OutcomeOfAccepted(first, i) && AllStatic(first.channels[i])
    requires WellFormedAll(second.channels) && CollisionFree(second.hash, second.channels)
    requires k < |second.channels| && second.channels[k].SameSpec(first.channels[i])
    ensures OutcomeOf(second, k) == if OutcomeOf(second, k).LimitExceeded? then LimitExceeded else OutcomeOf(first, i)
  {
    hide RunUpTo, OutcomeOf, FirstBook, StoreKept, CollisionFree, WellFormedAll, Claimed, Requests, Injective;
    ClaimsCarriedOver(first, second);
    AcceptedStatic(first, i);
    ClaimedNext(first, second, i, k);
    assert Requests(second.channels[k]) == Requests(first.channels[i]) by {
      SameRequests(second.channels[k], first.channels[i]);
    }
    assert StaticNumbers(second.channels[k]) == StaticNumbers(first.channels[i]);
    StaticStays(second, k);
  }

  lemma SameRequests(a: Channel, b: Channel)
    requires a.SameSpec(b)
    ensures Requests(a) == Requests(b)
  {
    hide ExternalPorts;
  }

  function StaticKey(ch: Channel, j: nat): PortKey
    requires AllStatic(ch) && j < |ch.ports|
  {
    NumberKey(ch, StaticNumbers(ch), j)
  }

  // ---- what blocks a static channel ----

  /** Whoever holds an accepted port in the store is the accepted port itself. */
  lemma AcceptedOwnClaim(input: Input, i: nat, x: nat, s: Ref)
    requires i < |input.channels| && Fair(input) && OutcomeOf(input, i).Accepted? && x < |input.channels[i].ports|
    requires |OutcomeOf(input, i).numbers| == |input.channels[i].ports|
    requires Holds(FirstBook(input).claims, s, NumberKey(input.channels[i], OutcomeOf(input, i).numbers, x))
    ensures s == input.channels[i].RefOf(x)
  {
    hide RunUpTo, OutcomeOf, FirstBook, Injective, WellFormedAll;
    var ch, pk := input.channels[i], NumberKey(input.channels[i], OutcomeOf(input, i).numbers, x);
    AcceptedOwners(input, i, x);
    HeldOwned(input, s, pk, |input.channels|);
    AcceptedNamed(input, i);
    RefsActive(input.channels, i);
    assert ch.RefOf(x) in RefsOf(ch);
    FirstBookKeys(input, s, pk);
    SameOwner(input.hash, input.channels, s, ch.RefOf(x));
  }

  /** A port that the store holds for another declared channel port cannot be had: the
      channel that asks for it is not accepted. */
  lemma ForeignClaimBlocks(input: Input, i: nat, x: nat, s: Ref)
    requires i < |input.channels| && Fair(input) && AllStatic(input.channels[i]) && x < |input.channels[i].ports|
    requires Holds(FirstBook(input).claims, s, StaticKey(input.channels[i], x))
    requires s != input.channels[i].RefOf(x)
    ensures !OutcomeOf(input, i).Accepted?
  {
    hide RunUpTo, OutcomeOf, FirstBook, Fair, AllStatic, WantsAuto, Requests;
    if OutcomeOf(input, i).Accepted? {
      AcceptedStatic(input, i);
      AcceptedOwnClaim(input, i, x, s);
    }
  }

  lemma FirstBookKeys(input: Input, s: Ref, pk: PortKey)
    requires Holds(FirstBook(input).claims, s, pk)
    ensures s in ActiveRefs(input.channels) && s.proto == pk.proto
  {
    hide Load;
    LoadValid(LoadedState(input), ActiveRefs(input.channels));
    assert FirstBook(input).claims[s].Key() == s;
  }

  /** Each of two static channels asks for a port that the store holds for the other. */
  ghost predicate Crossed(claims: map<Ref, Claim>, a: Channel, x: nat, b: Channel, y: nat) {
    && AllStatic(a) && AllStatic(b) && x < |a.ports| && y < |b.ports| && a.RefOf(x) != b.RefOf(y)
    && Holds(claims, b.RefOf(y), StaticKey(a, x))
    && Holds(claims, a.RefOf(x), StaticKey(b, y))
  }

  /** A static channel that is not accepted keeps its claims. */
  lemma RejectedKeeps(input: Input, i: nat, x: nat, pk: PortKey)
    requires i < |input.channels| && Fair(input) && AllStatic(input.channels[i]) && x < |input.channels[i].ports|
    requires !OutcomeOf(input, i).Accepted? && Holds(FirstBook(input).claims, input.channels[i].RefOf(x), pk)
    ensures Holds(Final(input).book.claims, input.channels[i].RefOf(x), pk)
  {
    hide RunUpTo, OutcomeOf, ResolutionOf, FirstBook, Fair, AllStatic, StaticNumbers;
    RejectedStep(input, i);
    StaticResolution(input, i);
    BeforeTurn(input, i, x);
    AfterTurn(input, i, x, |input.channels|);
  }

  /** THEOREM (swaps block). Two static channels that swapped numbers block each other:
      a pass that reads the store accepts neither, and leaves the store as crossed as it
      found it. Deadlock.dfy lifts this to runs, and to rings of any length. */
  lemma CrossedChannelsStayBlocked(input: Input, i: nat, x: nat, k: nat, y: nat)
    requires i < |input.channels| && k < |input.channels| && Fair(input)
    requires Crossed(FirstBook(input).claims, input.channels[i], x, input.channels[k], y)
    ensures !OutcomeOf(input, i).Accepted? && !OutcomeOf(input, k).Accepted?
    ensures Crossed(Final(input).book.claims, input.channels[i], x, input.channels[k], y)
  {
    hide RunUpTo, OutcomeOf, FirstBook, Fair, AllStatic, StaticNumbers;
    ForeignClaimBlocks(input, i, x, input.channels[k].RefOf(y));
    ForeignClaimBlocks(input, k, y, input.channels[i].RefOf(x));
    RejectedKeeps(input, i, x, StaticKey(input.channels[k], y));
    RejectedKeeps(input, k, y, StaticKey(input.channels[i], x));
  }
}
