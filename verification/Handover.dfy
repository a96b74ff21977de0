/** Automatic ports across passes, and the rule that a mux port never passes directly
    from one declared channel port to another. */
module Handover {
  import opened Wrappers
  import opened Annotations
  import opened Model
  import opened PortRanges
  import opened Claims
  import opened Reconcile
  import opened PortLimit
  import opened Pass
  import opened PassFacts
  import opened PassInvariant
  import opened PassClaims
  import opened Stability
  import opened Recovery

  lemma HolderPublished(input: Input, i: nat, j: nat, r: Ref, pk: PortKey)
    requires HolderAt(input, i, j, r, pk) && ShortHash(input.hash)
    ensures MuxPort(PortHash(input.hash, r.ns, r.service, r.portName), pk.port, pk.proto)
         in BuildMuxPorts(Final(input).ports)
  {
    hide RunUpTo, OutcomeOf, ResolutionOf, BuildMuxPorts;
    AcceptedStep(input, i);
    var p := MuxPortOf(input.hash, input.channels[i], j, OutcomeOf(input, i).numbers[j]);
    assert p in NewPorts(input, i);
    assert PortOfAccepted(input, i, p);
    PortsExact(input, |input.channels|, p);
    PublishedPorts(input);
  }

  /** The live port list is the one `first` published. */
  ghost predicate PortsKept(first: Input, second: Input) {
    Lists(second.livePorts, BuildMuxPorts(Final(first).ports)) && second.hash == first.hash
  }

  /** What protects `r` on `pk` in the second pass: the store as the first pass left it,
      or the port list it published, provided the store gives the port to nobody else
      (as when there is none, or it cannot be read). */
  ghost predicate Survives(first: Input, second: Input, r: Ref, pk: PortKey) {
    || StoreKept(first, second)
    || (PortsKept(first, second) && forall q :: Holds(FirstBook(second).claims, q, pk) ==> q == r)
  }

  lemma FirstOwnerIs(second: Input, r: Ref, pk: PortKey)
    requires pk in Recovered(second.hash, second.channels, second.livePorts)
    requires Recovered(second.hash, second.channels, second.livePorts)[pk] == OwnerOf(second.hash, r)
    requires forall q :: Holds(FirstBook(second).claims, q, pk) ==> q == r
    ensures pk in FirstOwners(second) && FirstOwners(second)[pk] == OwnerOf(second.hash, r)
  {
    hide Recovered, Load;
    LoadValid(LoadedState(second), ActiveRefs(second.channels));
    var b := FirstBook(second);
    OwnersFrom(second.hash, b.claims, b.order, |b.order|, pk);
  }

  lemma HolderOwns(first: Input, second: Input, r: Ref, pk: PortKey)
    requires Fair(first) && Holder(first, r, pk) && r in ActiveRefs(second.channels) && ShortHash(first.hash)
    requires WellFormedAll(second.channels) && CollisionFree(second.hash, second.channels)
    requires Survives(first, second, r, pk)
    ensures pk in FirstOwners(second) && FirstOwners(second)[pk] == OwnerOf(second.hash, r)
  {
    hide RunUpTo, OutcomeOf, Fair, FirstBook, FirstOwners, ActiveRefs, CollisionFree, WellFormedAll, Recovered,
      StoreKept, BuildMuxPorts, ShortHash, Injective, Claimed;
    var i: nat, j: nat :| HolderAt(first, i, j, r, pk);
    if StoreKept(first, second) {
      ClaimsCarriedOver(first, second);
      AcceptedClaimed(first, i);
      assert Holds(Final(first).book.claims, r, pk) by {
        ClaimedAt(Final(first).book.claims, first.channels[i], OutcomeOf(first, i).numbers, j);
      }
      assert Holds(FirstBook(second).claims, r, pk);
      assert Fair(second) by { FairParts(second); }
      HeldOwned(second, r, pk, 0);
    } else {
      HolderPublished(first, i, j, r, pk);
      PublishedPorts(first);
      RecoveredFromPorts(second.hash, second.channels, second.livePorts, BuildMuxPorts(Final(first).ports), r, pk);
      FirstOwnerIs(second, r, pk);
    }
  }

  lemma ClaimedAt(claims: map<Ref, Claim>, ch: Channel, numbers: seq<int>, j: nat)
    requires Claimed(claims, ch, numbers) && j < |numbers|
    ensures Holds(claims, ch.RefOf(j), NumberKey(ch, numbers, j))
  {}

  lemma FairParts(input: Input)
    requires WellFormedAll(input.channels) && CollisionFree(input.hash, input.channels)
    requires Injective(FirstBook(input).claims)
    ensures Fair(input)
  {}

  /** THEOREM (no direct handover). If a channel port held a mux port after one pass and
      is still declared in the next, then no other channel port holds that mux port
      after the next pass, whatever specs changed and whether or not the limit binds,
      as long as the saved state or the published port list survived. */
  lemma NoDirectHandover(first: Input, second: Input, r: Ref, s: Ref, pk: PortKey)
    requires Fair(first) && Holder(first, r, pk) && r in ActiveRefs(second.channels) && ShortHash(first.hash)
    requires WellFormedAll(second.channels) && CollisionFree(second.hash, second.channels)
    requires Survives(first, second, r, pk)
    requires Holder(second, s, pk)
    ensures s == r
  {
    hide RunUpTo, OutcomeOf, Fair, FirstBook, FirstOwners, ActiveRefs, CollisionFree, WellFormedAll, Recovered,
      StoreKept, BuildMuxPorts, ShortHash;
    HolderOwns(first, second, r, pk);
    assert r.proto == pk.proto by { HolderProto(first, r, pk); }
    OwnerKeeps(second, r, s, pk);
  }

  /** Whoever holds a port after a pass is the owner it had when the pass started. */
  lemma OwnerKeeps(input: Input, r: Ref, s: Ref, pk: PortKey)
    requires CollisionFree(input.hash, input.channels)
    requires r in ActiveRefs(input.channels) && r.proto == pk.proto && Holder(input, s, pk)
    requires pk in FirstOwners(input) && FirstOwners(input)[pk] == OwnerOf(input.hash, r)
    ensures s == r
  {
    hide RunUpTo, OutcomeOf, FirstOwners, ActiveRefs, CollisionFree, Recovered;
    var i: nat, j: nat :| HolderAt(input, i, j, s, pk);
    AcceptedOwners(input, i, j);
    RunStart(input);
    OwnersPersist(input, 0, |input.channels|);
    AcceptedNamed(input, i);
    RefsActive(input.channels, i);
    assert s in RefsOf(input.channels[i]);
    SameOwner(input.hash, input.channels, r, s);
  }

  /** THEOREM (annotations as a fallback). With the live ports reset to the placeholder and
      no claim that says otherwise, a port that exactly one channel port's annotation
      states goes to nobody else. */
  lemma AnnotationProtects(input: Input, i: nat, j: nat, s: Ref, pk: PortKey)
    requires WellFormedAll(input.channels) && CollisionFree(input.hash, input.channels) && ShortHash(input.hash)
    requires OnlyAnnotated(input.channels, i, j, pk) && forall p | p in input.livePorts :: p.name == "placeholder"
    requires forall q :: Holds(FirstBook(input).claims, q, pk) ==> q == input.channels[i].RefOf(j)
    requires Holder(input, s, pk)
    ensures s == input.channels[i].RefOf(j)
  {
    hide RunUpTo, OutcomeOf, FirstOwners, FirstBook, CollisionFree, Recovered, AnnotatedPort, ShortHash, Candidates,
      WellFormed, Holds;
    NoPlaceholderOwner(input.hash, input.channels);
    assert forall e: nat | e < |input.livePorts| :: input.livePorts[e] in input.livePorts;
    assert forall e: nat :: !Leads(input.hash, input.channels, input.livePorts, e, pk);
    AnnotationRecovers(input.hash, input.channels, input.livePorts, i, j, pk);
    var r := input.channels[i].RefOf(j);
    FirstOwnerIs(input, r, pk);
    AnnotatedNamed(input.channels[i], j, pk);
    ActiveRefsIff(input.channels, r);
    OwnerKeeps(input, r, s, pk);
  }

  lemma AnnotatedNamed(ch: Channel, j: nat, pk: PortKey)
    requires j < |ch.ports| && AnnotatedPort(ch, j) == Some(pk)
    ensures ch.ports[j].name != "" && ch.ports[j].proto == pk.proto
  {}

  /** THEOREM (the exact condition when only the port list survived). Suppose the store is
      not the one the first pass left, for example because that pass could not read it.
      Then whoever holds the port after the next pass is the old holder if and only if
      the store gives the port to nobody else. */
  lemma HandoverIff(first: Input, second: Input, r: Ref, s: Ref, pk: PortKey)
    requires Fair(first) && Holder(first, r, pk) && r in ActiveRefs(second.channels) && ShortHash(first.hash)
    requires Fair(second) && PortsKept(first, second) && Holder(second, s, pk)
    ensures s == r <==> forall q :: Holds(FirstBook(second).claims, q, pk) ==> q == r
  {
    hide RunUpTo, OutcomeOf, FirstBook, ActiveRefs, CollisionFree, WellFormedAll, BuildMuxPorts, ShortHash, Holds,
      Injective, StoreKept, Lists;
    if forall q :: Holds(FirstBook(second).claims, q, pk) ==> q == r {
      NoDirectHandover(first, second, r, s, pk);
    }
    var i: nat, j: nat :| HolderAt(second, i, j, s, pk);
    AcceptedStep(second, i);
    forall q | Holds(FirstBook(second).claims, q, pk) ensures q == s {
      AcceptedOwnClaim(second, i, j, q);
    }
  }

  lemma HolderProto(input: Input, r: Ref, pk: PortKey)
    requires Holder(input, r, pk)
    ensures r.proto == pk.proto
  {
    hide OutcomeOf;
  }

  // ---- automatic ports ----

  /** Nothing but the channel itself can have been recovered for its port. */
  ghost predicate Friendly(input: Input, r: Ref, pk: PortKey) {
    pk in Recovered(input.hash, input.channels, input.livePorts) ==>
      Recovered(input.hash, input.channels, input.livePorts)[pk] == OwnerOf(input.hash, r)
  }

  /** The claim that `ref` brings into a pass, and the conditions for keeping it. */
  ghost predicate Keepable(c: Config, claims: map<Ref, Claim>, ref: Ref, pk: PortKey) {
    && Holds(claims, ref, pk) && pk.proto == ref.proto && Contains(c.ranges, pk.port) && pk !in c.reserved
    && (pk in c.recovered ==> c.recovered[pk] == OwnerOf(c.hash, ref))
  }

  lemma KeepableIsReused(c: Config, b: Book, ref: Ref, pk: PortKey, channelPort: int)
    requires Injective(b.claims) && Keepable(c, b.claims, ref, pk)
    ensures Allocate(c, b, ref, channelPort) == Allocation(b, Ok(pk.port))
  {
    assert c.ranges != [];
    assert forall q :: Holds(b.claims, q, pk) ==> q == ref;
  }

  /** Port `j` of the channel brings `numbers[j]` with it: as a claim it may keep if it
      is automatic, as its request otherwise. */
  ghost predicate Brings(c: Config, claims: map<Ref, Claim>, ch: Channel, m: map<string, Request>, numbers: seq<int>,
      j: nat) {
    j < |numbers| == |ch.ports|
    && if WantsAuto(m, ch.ports[j]) then Keepable(c, claims, ch.RefOf(j), NumberKey(ch, numbers, j))
       else numbers[j] == StaticNumber(m, ch.ports[j])
  }

  /** A channel all of whose ports bring their numbers resolves to those numbers. */
  lemma {:induction false} ResolveSame(c: Config, b: Book, ch: Channel, m: map<string, Request>, numbers: seq<int>,
      k: nat)
    requires Injective(b.claims) && k <= |numbers| == |ch.ports|
    requires forall j | 0 <= j < k :: Brings(c, b.claims, ch, m, numbers, j)
    ensures ResolveUpTo(c, b, ch, m, k) == Resolution(b, numbers[..k], None)
  {
    hide Allocate, Injective, Keepable, WantsAuto;
    if k > 0 {
      ResolveSame(c, b, ch, m, numbers, k - 1);
      assert Brings(c, b.claims, ch, m, numbers, k - 1);
      assert numbers[..k] == numbers[..k - 1] + [numbers[k - 1]];
      if WantsAuto(m, ch.ports[k - 1]) {
        KeepableIsReused(c, b, ch.RefOf(k - 1), NumberKey(ch, numbers, k - 1), ch.ports[k - 1].port);
      }
    }
  }

  /** Earlier ports of the same channel do not move a later one's claim. */
  lemma {:induction false} LaterUnmoved(c: Config, b: Book, ch: Channel, m: map<string, Request>, k: nat, j: nat)
    requires WellFormed(ch) && b.Valid() && k <= j < |ch.ports|
    ensures Unmoved(b.claims, ResolveUpTo(c, b, ch, m, k).book.claims, ch.RefOf(j))
    ensures ResolveUpTo(c, b, ch, m, k).book.Valid()
  {
    hide Allocate, WantsAuto, IsClaimed, Contains, Holds, StaticNumber;
    if k > 0 {
      LaterUnmoved(c, b, ch, m, k - 1, j);
      var r := ResolveUpTo(c, b, ch, m, k - 1);
      AllocateExact(c, r.book, ch.RefOf(k - 1), ch.ports[k - 1].port);
      assert ch.RefOf(k - 1) != ch.RefOf(j);
      UnmovedTwice(b.claims, r.book.claims, ResolveUpTo(c, b, ch, m, k).book.claims);
    }
  }

  /** A keepable port keeps its number whatever the earlier ports of its channel do. */
  lemma ResolveKeepsOne(c: Config, b: Book, ch: Channel, m: map<string, Request>, j: nat, pk: PortKey)
    requires WellFormed(ch) && b.Valid() && Injective(b.claims) && j < |ch.ports| && WantsAuto(m, ch.ports[j])
    requires Keepable(c, b.claims, ch.RefOf(j), pk) && ResolveUpTo(c, b, ch, m, j).error.None?
    ensures ResolveUpTo(c, b, ch, m, j + 1).error.None? && ResolveUpTo(c, b, ch, m, j + 1).numbers[j] == pk.port
  {
    hide Allocate, Injective, WantsAuto, Contains;
    LaterUnmoved(c, b, ch, m, j, j);
    ResolveKeeps(c, b, ch, m, j);
    var r := ResolveUpTo(c, b, ch, m, j);
    assert Injective(r.book.claims);
    assert Keepable(c, r.book.claims, ch.RefOf(j), pk);
    KeepableIsReused(c, r.book, ch.RefOf(j), pk, ch.ports[j].port);
  }

  lemma {:induction false} NumbersPersist(c: Config, b: Book, ch: Channel, m: map<string, Request>, j: nat, k: nat)
    requires j < k <= |ch.ports| && ResolveUpTo(c, b, ch, m, k).error.None?
    ensures ResolveUpTo(c, b, ch, m, j).error.None? && ResolveUpTo(c, b, ch, m, j + 1).error.None?
    ensures ResolveUpTo(c, b, ch, m, k).numbers[j] == ResolveUpTo(c, b, ch, m, j + 1).numbers[j]
  {
    hide ResolveOne;
    if j < k - 1 {
      NumbersPersist(c, b, ch, m, j, k - 1);
    }
  }

  /** The channel's own port list entry or annotation, as the first pass left it, is
      what the second pass recovers owners from. */
  ghost predicate TracesKept(first: Input, second: Input, i: nat, k: nat) {
    && i < |first.channels| && k < |second.channels| && |Final(first).channels| == |first.channels|
    && second.channels[k].SameSpec(first.channels[i])
    && (PortsKept(first, second)
        || ((forall p | p in second.livePorts :: p.name == "placeholder")
            && second.channels[k].portsText == Final(first).channels[i].portsText))
  }

  lemma PortsFriendly(first: Input, second: Input, i: nat, j: nat)
    requires OutcomeOfAccepted(first, i) && PortsKept(first, second)
    requires CollisionFree(second.hash, second.channels) && ShortHash(first.hash)
    requires j < |first.channels[i].ports| && first.channels[i].RefOf(j) in ActiveRefs(second.channels)
    ensures |OutcomeOf(first, i).numbers| == |first.channels[i].ports|
    ensures Friendly(second, first.channels[i].RefOf(j), NumberKey(first.channels[i], OutcomeOf(first, i).numbers, j))
  {
    hide RunUpTo, OutcomeOf, ResolutionOf, CollisionFree, Recovered, BuildMuxPorts, ActiveRefs, DistinctKeys, ShortHash;
    AcceptedStep(first, i);
    var ch, numbers := first.channels[i], OutcomeOf(first, i).numbers;
    var r, pk := ch.RefOf(j), NumberKey(ch, numbers, j);
    assert HolderAt(first, i, j, r, pk);
    HolderPublished(first, i, j, r, pk);
    PublishedPorts(first);
    RecoveredFromPorts(second.hash, second.channels, second.livePorts, BuildMuxPorts(Final(first).ports), r, pk);
  }

  lemma AnnotationFriendly(first: Input, second: Input, i: nat, k: nat, j: nat)
    requires Fair(first) && OutcomeOfAccepted(first, i) && k < |second.channels|
    requires |Final(first).channels| == |first.channels|
    requires second.channels[k].SameSpec(first.channels[i])
    requires second.channels[k].portsText == Final(first).channels[i].portsText
    requires (forall p | p in second.livePorts :: p.name == "placeholder") && ShortHash(first.hash)
    requires second.hash == first.hash
    requires j < |first.channels[i].ports|
    ensures |OutcomeOf(first, i).numbers| == |first.channels[i].ports|
    ensures Friendly(second, first.channels[i].RefOf(j), NumberKey(first.channels[i], OutcomeOf(first, i).numbers, j))
  {
    hide RunUpTo, OutcomeOf, ResolutionOf, CollisionFree, Recovered, FormatPorts, AnnotatedPort, Requests, ShortHash,
      Injective, LinesOf;
    AcceptedStep(first, i);
    AcceptedNamed(first, i);
    WrittenText(first, i);
    var ch, numbers := first.channels[i], OutcomeOf(first, i).numbers;
    AnnotationReadsBack(ch, numbers, j);
    SameAnnotation(ch.(portsText := FormatPorts(LinesOf(ch, numbers))), second.channels[k], j);
    RecoveredFromAnnotation(second.hash, second.channels, second.livePorts, k, j, NumberKey(ch, numbers, j));
  }

  lemma SameAnnotation(a: Channel, b: Channel, j: nat)
    requires b.SameSpec(a) && b.portsText == a.portsText && j < |a.ports|
    ensures AnnotatedPort(a, j) == AnnotatedPort(b, j) && a.RefOf(j) == b.RefOf(j)
  {
    hide PortMappings;
  }

  lemma WrittenText(input: Input, i: nat)
    requires OutcomeOfAccepted(input, i) && |Final(input).channels| == |input.channels|
    ensures |OutcomeOf(input, i).numbers| == |input.channels[i].ports|
    ensures Final(input).channels[i].portsText == FormatPorts(LinesOf(input.channels[i], OutcomeOf(input, i).numbers))
  {
    hide RunUpTo, OutcomeOf, ResolutionOf, FormatPorts, LinesOf;
    AcceptedStep(input, i);
    OutcomesPersist(input, i, |input.channels|);
    Shape(input, i);
  }

  lemma TracesFriendly(first: Input, second: Input, i: nat, k: nat, j: nat)
    requires Fair(first) && OutcomeOfAccepted(first, i) && TracesKept(first, second, i, k)
    requires CollisionFree(second.hash, second.channels) && ShortHash(first.hash) && second.hash == first.hash
    requires j < |first.channels[i].ports|
    ensures |OutcomeOf(first, i).numbers| == |first.channels[i].ports|
    ensures Friendly(second, first.channels[i].RefOf(j), NumberKey(first.channels[i], OutcomeOf(first, i).numbers, j))
  {
    hide RunUpTo, OutcomeOf, CollisionFree, Friendly, PortsKept, ActiveRefs, Requests, Fair, ShortHash;
    if PortsKept(first, second) {
      AcceptedNamed(first, i);
      RefsActive(second.channels, k);
      assert second.channels[k].RefOf(j) == first.channels[i].RefOf(j)
        && second.channels[k].RefOf(j) in RefsOf(second.channels[k]);
      PortsFriendly(first, second, i, j);
    } else {
      AnnotationFriendly(first, second, i, k, j);
    }
  }

  lemma TurnClaims(second: Input, k: nat, j: nat, pk: PortKey)
    requires Fair(second) && k < |second.channels| && j < |second.channels[k].ports|
    requires Holds(FirstBook(second).claims, second.channels[k].RefOf(j), pk)
    ensures Holds(RunUpTo(second, k).book.claims, second.channels[k].RefOf(j), pk)
  {
    hide RunUpTo, FirstBook, Fair;
    BeforeTurn(second, k, j);
  }

  /** The condition for keeping an automatic number: it is still in the ranges, and no
      valid channel now declares it statically. */
  ghost predicate StillAllowed(second: Input, pk: PortKey) {
    Contains(Cfg(second).ranges, pk.port) && pk !in StaticClaims(second.channels)
  }

  lemma PortKeepable(first: Input, second: Input, i: nat, k: nat, j: nat)
    requires Fair(first) && Fair(second) && StoreKept(first, second) && OutcomeOfAccepted(first, i)
    requires TracesKept(first, second, i, k) && ShortHash(first.hash) && j < |first.channels[i].ports|
    ensures |OutcomeOf(first, i).numbers| == |first.channels[i].ports|
    ensures var pk := NumberKey(first.channels[i], OutcomeOf(first, i).numbers, j);
      StillAllowed(second, pk) ==>
        Keepable(Cfg(second), RunUpTo(second, k).book.claims, second.channels[k].RefOf(j), pk)
  {
    hide RunUpTo, OutcomeOf, FirstBook, CollisionFree, Recovered, StaticClaims, AutoRanges, Contains, ShortHash,
      Injective, WellFormedAll, PortsKept;
    TracesFriendly(first, second, i, k, j);
    ClaimedNext(first, second, i, k);
    ClaimedAt(FirstBook(second).claims, second.channels[k], OutcomeOf(first, i).numbers, j);
    TurnClaims(second, k, j, NumberKey(first.channels[i], OutcomeOf(first, i).numbers, j));
  }

  /** THEOREM (automatic stability, port by port). Across two passes, with the store kept
      and either the published ports or the channel's annotation in place, an automatic
      port of a channel accepted both times keeps its number if and only if the number
      is still in the ranges and no valid channel now declares it statically. */
  lemma AutoKeptIff(first: Input, second: Input, i: nat, k: nat, j: nat)
    requires Fair(first) && Fair(second) && StoreKept(first, second) && TracesKept(first, second, i, k)
    requires ShortHash(first.hash)
    requires OutcomeOfAccepted(first, i) && OutcomeOfAccepted(second, k)
    requires j < |first.channels[i].ports| && Requests(first.channels[i]).Ok?
    requires WantsAuto(Requests(first.channels[i]).value, first.channels[i].ports[j])
    ensures |OutcomeOf(first, i).numbers| == |OutcomeOf(second, k).numbers| == |first.channels[i].ports|
    ensures OutcomeOf(second, k).numbers[j] == OutcomeOf(first, i).numbers[j] <==>
      StillAllowed(second, NumberKey(first.channels[i], OutcomeOf(first, i).numbers, j))
  {
    hide RunUpTo, OutcomeOf, FirstBook, CollisionFree, Recovered, StaticClaims, AutoRanges, Contains, ShortHash,
      Injective,
      WellFormed, PortsKept, StoreKept, WantsAuto, Keepable, ExternalPorts, Declares, Named, ResolveUpTo, ActiveRefs,
      Holds;
    PortKeepable(first, second, i, k, j);
    AcceptedStep(second, k);
    ClaimsSane(second, k);
    ResolutionSane(second, k);
    var ch, c, b := second.channels[k], Cfg(second), RunUpTo(second, k).book;
    SameRequests(ch, first.channels[i]);
    var m, n := Requests(ch).value, |ch.ports|;
    var r := ResolveUpTo(c, b, ch, m, n);
    assert ResolutionOf(second, k) == r;
    NumbersPersist(c, b, ch, m, j, n);
    var pk := NumberKey(first.channels[i], OutcomeOf(first, i).numbers, j);
    if StillAllowed(second, pk) {
      ResolveKeepsOne(c, b, ch, m, j, pk);
    }
    assert AutoPort(c, r.book.claims, ch.RefOf(j), NumberKey(ch, r.numbers, j));
  }

  /** All automatic ports of channel `i` may be kept. */
  ghost predicate AllStillAllowed(first: Input, second: Input, i: nat) {
    OutcomeOfAccepted(first, i) && Requests(first.channels[i]).Ok?
      && |OutcomeOf(first, i).numbers| == |first.channels[i].ports|
    && forall j | 0 <= j < |first.channels[i].ports|
    && WantsAuto(Requests(first.channels[i]).value, first.channels[i].ports[j]) ::
      StillAllowed(second, NumberKey(first.channels[i], OutcomeOf(first, i).numbers, j))
  }

  /** Then the channel resolves to its numbers, and nothing is allocated for it. */
  lemma ResolvedAgain(first: Input, second: Input, i: nat, k: nat)
    requires Fair(first) && Fair(second) && StoreKept(first, second) && TracesKept(first, second, i, k)
    requires ShortHash(first.hash)
    requires AllStillAllowed(first, second, i)
    ensures ResolutionOf(second, k) == Resolution(RunUpTo(second, k).book, OutcomeOf(first, i).numbers, None)
  {
    hide RunUpTo, OutcomeOf, FirstBook, CollisionFree, Recovered, StaticClaims, AutoRanges, Contains, ShortHash,
      Injective,
      WellFormed, PortsKept, StoreKept, WantsAuto, Keepable, ExternalPorts, Declares, Named, ResolveUpTo, ActiveRefs,
      Holds, Claimed;
    var ch, c, b := second.channels[k], Cfg(second), RunUpTo(second, k).book;
    var numbers := OutcomeOf(first, i).numbers;
    SameRequests(ch, first.channels[i]);
    ClaimsSane(second, k);
    AcceptedNumbers(first, i);
    var m := Requests(ch).value;
    forall j | 0 <= j < |numbers| ensures Brings(c, b.claims, ch, m, numbers, j) {
      if WantsAuto(m, ch.ports[j]) {
        PortKeepable(first, second, i, k, j);
        assert NumberKey(ch, numbers, j) == NumberKey(first.channels[i], numbers, j);
      }
    }
    ResolveSame(c, b, ch, m, numbers, |numbers|);
    assert numbers[..|numbers|] == numbers;
  }

  /** THEOREM (automatic stability, whole channel). If that condition holds of all its
      automatic ports, an accepted channel is accepted again with all its ports, or else
      skipped for the limit. */
  lemma AutoChannelStays(first: Input, second: Input, i: nat, k: nat)
    requires Fair(first) && Fair(second) && StoreKept(first, second) && TracesKept(first, second, i, k)
    requires ShortHash(first.hash)
    requires AllStillAllowed(first, second, i)
    ensures OutcomeOf(second, k) == if OutcomeOf(second, k).LimitExceeded? then LimitExceeded else OutcomeOf(first, i)
  {
    hide RunUpTo, OutcomeOf, ResolutionOf, FirstBook, Fair, ShortHash, PortsKept, StoreKept, Requests, WantsAuto,
      StillAllowed, Claimed;
    ResolvedAgain(first, second, i, k);
    ClaimedNext(first, second, i, k);
    Retained(second, k, OutcomeOf(first, i).numbers);
  }

  /** The static ports of an accepted channel got the numbers they asked for. */
  lemma AcceptedNumbers(input: Input, i: nat)
    requires Fair(input) && OutcomeOfAccepted(input, i)
    ensures Requests(input.channels[i]).Ok? && |OutcomeOf(input, i).numbers| == |input.channels[i].ports|
    ensures forall j | 0 <= j < |input.channels[i].ports|
      && !WantsAuto(Requests(input.channels[i]).value, input.channels[i].ports[j]) ::
      OutcomeOf(input, i).numbers[j] == StaticNumber(Requests(input.channels[i]).value, input.channels[i].ports[j])
  {
    hide RunUpTo, OutcomeOf, ResolutionOf, CollisionFree, Injective, Holds, AutoPort, Requests;
    AcceptedStep(input, i);
    ClaimsSane(input, i);
    ResolutionSane(input, i);
  }
}
