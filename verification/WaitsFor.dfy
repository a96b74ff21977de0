/** Who waits for whom in a cluster of static channels that no pass changes any more. */
module WaitsFor {
  import opened Annotations
  import opened Model
  import opened ChannelOrder
  import opened Claims
  import opened Reconcile
  import opened PortLimit
  import opened Endpoints
  import opened Pass
  import opened PassFacts
  import opened PassInvariant
  import opened StateRoundTrip
  import opened PassClaims
  import opened Stability
  import opened Recovery
  import opened Runs
  import opened Convergence
  import opened Blocking
  import opened Graphs

  /** The pass leaves its own input behind: claims, annotations and published ports. */
  ghost predicate Still(input: Input) {
    && FirstBook(input).claims == Final(input).book.claims
    && Final(input).channels == input.channels
    && Lists(input.livePorts, BuildMuxPorts(Final(input).ports))
  }

  /** A pass that does not change the cluster is one. */
  lemma UnchangedIsStill(hash: Hash, c: Cluster, listing: seq<MuxPort>, cache: Cache)
    requires Good(hash, c) && Lists(listing, c.muxPorts)
    requires var input := InputOf(hash, c, listing, cache, true);
      Readable(input.channels) && AfterPass(c, input) == c
    ensures Still(InputOf(hash, c, listing, cache, true))
  {
    hide RunUpTo, CollisionFree, WellFormedAll, Injective, ReadAll, ChannelLe, DistinctKeys, StoredAfter, BuildMuxPorts,
      Readable, SameSpecs, Load, Lists, Cfg, ActiveRefs, Backed;
    var input := InputOf(hash, c, listing, cache, true);
    FirstClaims(hash, c, listing, cache, true);
    SavedClaims(hash, c, listing, cache);
    WrittenSpecs(input, 0);
    SortIdle(Final(input).channels, c.channels);
    ClaimsSane(input, |input.channels|);
    SameStore(c, c.(store := AfterSave(c, input)));
  }

  lemma HoldsOne(claims: map<Ref, Claim>, r: Ref, a: PortKey, b: PortKey)
    requires Holds(claims, r, a) && Holds(claims, r, b)
    ensures a == b
  {}

  lemma RefIndex(channels: seq<Channel>, r: Ref) returns (k: nat, y: nat)
    requires r in ActiveRefs(channels)
    ensures k < |channels| && y < |channels[k].ports| && channels[k].ports[y].name != "" && channels[k].RefOf(y) == r
  {
    ActiveRefsIff(channels, r);
    k, y :| k < |channels| && y < |channels[k].ports| && channels[k].ports[y].name != "" && channels[k].RefOf(y) == r;
  }

  /** The owner map gives `pk` to port `y` of channel `k`. */
  ghost predicate OwnedBy(input: Input, pk: PortKey, k: nat, y: nat) {
    && pk in FirstOwners(input) && k < |input.channels| && y < |input.channels[k].ports|
    && input.channels[k].ports[y].name != ""
    && FirstOwners(input)[pk] == OwnerOf(input.hash, input.channels[k].RefOf(y))
  }

  lemma AcceptedHolds(input: Input, k: nat, y: nat)
    requires Fair(input) && k < |input.channels| && y < |input.channels[k].ports| && OutcomeOf(input, k).Accepted?
    ensures |OutcomeOf(input, k).numbers| == |input.channels[k].ports|
    ensures Holds(Final(input).book.claims, input.channels[k].RefOf(y),
                  NumberKey(input.channels[k], OutcomeOf(input, k).numbers, y))
  {
    hide RunUpTo, OutcomeOf, Fair, Holds, ResolutionOf;
    AcceptedStep(input, k);
    AcceptedClaimed(input, k);
  }

  /** An owner known from a claim. */
  lemma OwnerByClaim(input: Input, r: Ref, pk: PortKey) returns (k: nat, y: nat)
    requires Fair(input) && Still(input) && Holds(FirstBook(input).claims, r, pk)
    ensures OwnedBy(input, pk, k, y)
    ensures OutcomeOf(input, k).Accepted? ==> HolderAt(input, k, y, input.channels[k].RefOf(y), pk)
  {
    hide RunUpTo, OutcomeOf, FirstBook, FirstOwners, CollisionFree, WellFormedAll, Injective, Holds, ActiveRefs,
      BuildMuxPorts, Lists;
    HeldOwned(input, r, pk, 0);
    FirstBookKeys(input, r, pk);
    k, y := RefIndex(input.channels, r);
    if OutcomeOf(input, k).Accepted? {
      AcceptedHolds(input, k, y);
      HoldsOne(Final(input).book.claims, r, pk, NumberKey(input.channels[k], OutcomeOf(input, k).numbers, y));
    }
  }

  /** A live port is claimed by its owner, so it is no further source of owners. */
  lemma LiveIsClaimed(input: Input, e: nat, pk: PortKey) returns (r: Ref)
    requires Fair(input) && Still(input) && ShortHash(input.hash)
    requires Leads(input.hash, input.channels, input.livePorts, e, pk)
    ensures Holds(FirstBook(input).claims, r, pk)
  {
    hide RunUpTo, OutcomeOf, FirstBook, CollisionFree, WellFormedAll, Injective, Holds, Candidates, ShortHash,
      ResolutionOf;
    NoPlaceholderOwner(input.hash, input.channels);
    var p := input.livePorts[e];
    assert p in input.livePorts && p in BuildMuxPorts(Final(input).ports);
    assert p in Final(input).ports;
    PortsExact(input, |input.channels|, p);
    var i: nat :| i < |input.channels| && PortOfAccepted(input, i, p);
    AcceptedStep(input, i);
    var y: nat :| y < |input.channels[i].ports|
      && p == MuxPortOf(input.hash, input.channels[i], y, OutcomeOf(input, i).numbers[y]);
    AcceptedHolds(input, i, y);
    r := input.channels[i].RefOf(y);
  }

  /** An owner known from an annotation only. */
  lemma OwnerByAnnotation(input: Input, pk: PortKey, o: Owner) returns (k: nat, y: nat)
    requires Fair(input) && Still(input) && o in Annotated(input.hash, input.channels, pk)
    requires pk in FirstOwners(input) && FirstOwners(input)[pk] == o
    ensures OwnedBy(input, pk, k, y)
    ensures OutcomeOf(input, k).Accepted? ==> HolderAt(input, k, y, input.channels[k].RefOf(y), pk)
  {
    hide RunUpTo, OutcomeOf, FirstBook, FirstOwners, CollisionFree, WellFormedAll, Injective, BuildMuxPorts, Lists,
      AnnotatedPort,
      Annotated, ResolutionOf, FormatPorts, LinesOf;
    k, y := AnnotatedFrom(input.hash, input.channels, pk, o);
    AnnotatedName(input.channels[k], y);
    if OutcomeOf(input, k).Accepted? {
      AcceptedStep(input, k);
      AcceptedNamed(input, k);
      ChannelAfter(input, k);
      assert WellFormed(input.channels[k]) by { WellFormedIn(input.channels, k); }
      AnnotationReadsBack(input.channels[k], OutcomeOf(input, k).numbers, y);
    }
  }

  lemma AnnotatedName(ch: Channel, j: nat)
    requires j < |ch.ports| && AnnotatedPort(ch, j).Some?
    ensures ch.ports[j].name != ""
  {}

  lemma WellFormedIn(channels: seq<Channel>, i: nat)
    requires WellFormedAll(channels) && i < |channels|
    ensures WellFormed(channels[i])
  {}

  /** When a pass changes nothing, every owned port belongs to a declared channel port; if
      that channel is accepted, it has the port. */
  lemma StillOwner(input: Input, pk: PortKey) returns (k: nat, y: nat)
    requires Fair(input) && Still(input) && ShortHash(input.hash) && pk in FirstOwners(input)
    ensures OwnedBy(input, pk, k, y)
    ensures OutcomeOf(input, k).Accepted? ==> HolderAt(input, k, y, input.channels[k].RefOf(y), pk)
  {
    hide RunUpTo, OutcomeOf, FirstBook, Fair, ShortHash, Holds, Still, OwnedBy, Recovered, Leads, Annotated, HolderAt;
    if r :| Holds(FirstBook(input).claims, r, pk) {
      k, y := OwnerByClaim(input, r, pk);
    } else {
      OnlyRecovered(input, pk);
      RecoveredFrom(input.hash, input.channels, input.livePorts, pk);
      if e: nat :| Leads(input.hash, input.channels, input.livePorts, e, pk) {
        var r := LiveIsClaimed(input, e, pk);
        assert false;
      } else {
        k, y := OwnerByAnnotation(input, pk, FirstOwners(input)[pk]);
      }
    }
  }

  lemma OnlyRecovered(input: Input, pk: PortKey)
    requires Fair(input) && pk in FirstOwners(input) && forall r :: !Holds(FirstBook(input).claims, r, pk)
    ensures pk in Recovered(input.hash, input.channels, input.livePorts)
    ensures FirstOwners(input)[pk] == Recovered(input.hash, input.channels, input.livePorts)[pk]
  {
    hide Recovered, Load, Holds, CollisionFree, WellFormedAll, Injective;
    LoadValid(LoadedState(input), ActiveRefs(input.channels));
    PortOwnersExact(input.hash, FirstBook(input), pk);
  }

  // ---- who waits for whom ----

  /** Port `x` of the static channel `i` is owned by another port, `y` of channel `k`. */
  ghost predicate WaitsOn(input: Input, i: nat, x: nat, k: nat, y: nat) {
    && i < |input.channels| && AllStatic(input.channels[i]) && x < |input.channels[i].ports|
    && (i != k || x != y) && OwnedBy(input, StaticKey(input.channels[i], x), k, y)
  }

  ghost predicate Waits(input: Input, i: nat, k: nat) {
    exists x: nat, y: nat :: WaitsOn(input, i, x, k, y)
  }

  ghost function WaitsFor(input: Input): Edge {
    (i: nat, k: nat) => Waits(input, i, k)
  }

  ghost function ValidChannels(input: Input): set<nat> {
    set i: nat | i < |input.channels| && AllStatic(input.channels[i])
  }

  /** No number is asked for twice, in one channel or in two. */
  ghost predicate DistinctRequests(channels: seq<Channel>) {
    forall i: nat, x: nat, k: nat, y: nat | AsksFor(channels, i, x) && AsksFor(channels, k, y) && (i != k || x != y) ::
      StaticKey(channels[i], x) != StaticKey(channels[k], y)
  }

  predicate AsksFor(channels: seq<Channel>, i: nat, x: nat) {
    i < |channels| && AllStatic(channels[i]) && x < |channels[i].ports|
  }

  lemma AcceptedValid(input: Input, k: nat)
    requires OutcomeOfAccepted(input, k) && StaticOnly(input.channels)
    ensures AllStatic(input.channels[k]) && OutcomeOf(input, k).numbers == StaticNumbers(input.channels[k])
  {
    hide RunUpTo, OutcomeOf, Requests;
    AcceptedNamed(input, k);
    assert NoAuto(input.channels[k]);
    AcceptedStatic(input, k);
  }

  /** With distinct requests, nobody accepted holds what `i` asks for but `i`. */
  lemma NobodyElse(input: Input, i: nat, x: nat, k: nat, y: nat, r: Ref)
    requires StaticOnly(input.channels) && DistinctRequests(input.channels) && AsksFor(input.channels, i, x)
    requires HolderAt(input, k, y, r, StaticKey(input.channels[i], x))
    ensures i == k && x == y
  {
    hide OutcomeOf, AllStatic, StaticNumbers, NoAuto;
    AcceptedValid(input, k);
    assert AsksFor(input.channels, k, y);
  }

  /** What a settled cluster of static channels satisfies. */
  ghost predicate StillStatic(input: Input) {
    && Fair(input) && ShortHash(input.hash) && Still(input)
    && StaticOnly(input.channels) && DistinctRequests(input.channels) && Roomy(MaxPorts(input.mux), input.channels)
  }

  lemma DifferentOwners(hash: Hash, channels: seq<Channel>, i: nat, x: nat, k: nat, y: nat)
    requires WellFormedAll(channels) && CollisionFree(hash, channels) && i < |channels| && k < |channels|
    requires x < |channels[i].ports| && channels[i].ports[x].name != ""
    requires y < |channels[k].ports| && channels[k].ports[y].name != ""
    requires OwnerOf(hash, channels[i].RefOf(x)) == OwnerOf(hash, channels[k].RefOf(y))
    ensures i == k && x == y
  {
    hide ActiveRefs;
    ActiveRefsIff(channels, channels[i].RefOf(x));
    ActiveRefsIff(channels, channels[k].RefOf(y));
    assert WellFormed(channels[i]);
  }

  /** A valid channel that is not accepted waits for a channel that is not accepted. */
  lemma RejectedWaits(input: Input, i: nat) returns (k: nat)
    requires StillStatic(input) && i in ValidChannels(input) && !OutcomeOf(input, i).Accepted?
    ensures k < |input.channels| && Waits(input, i, k) && !OutcomeOf(input, k).Accepted?
  {
    hide RunUpTo, OutcomeOf, FirstBook, FirstOwners, CollisionFree, WellFormedAll, Injective, Still, ShortHash,
      DistinctRequests,
      AllStatic, StaticNumbers, Roomy, StaticOnly, OwnedBy, HolderAt;
    var ch := input.channels[i];
    StaticAcceptedIff(input, i);
    NeverOverLimit(input, i);
    AcceptedIff(input, i);
    assert OwnPortsDiffer(ch) by {
      DistinctInOne(input.channels, i);
    }
    assert Untaken(input, i) by {
      NothingTaken(input, i);
    }
    var x: nat :| x < |ch.ports| && StaticKey(ch, x) in FirstOwners(input)
      && FirstOwners(input)[StaticKey(ch, x)] != OwnerOf(input.hash, ch.RefOf(x));
    var y;
    k, y := StillOwner(input, StaticKey(ch, x));
    Disowned(input, i, x, k, y);
    assert WaitsOn(input, i, x, k, y);
    if OutcomeOf(input, k).Accepted? {
      NobodyElse(input, i, x, k, y, input.channels[k].RefOf(y));
    }
  }

  lemma Disowned(input: Input, i: nat, x: nat, k: nat, y: nat)
    requires AsksFor(input.channels, i, x) && OwnedBy(input, StaticKey(input.channels[i], x), k, y)
    requires FirstOwners(input)[StaticKey(input.channels[i], x)] != OwnerOf(input.hash, input.channels[i].RefOf(x))
    ensures k < |input.channels| && y < |input.channels[k].ports| && (i != k || x != y)
  {
    hide AllStatic, StaticNumbers, FirstOwners;
  }

  lemma DistinctInOne(channels: seq<Channel>, i: nat)
    requires DistinctRequests(channels) && i < |channels| && AllStatic(channels[i])
    ensures OwnPortsDiffer(channels[i])
  {
    hide AllStatic, StaticNumbers;
    forall x: nat, y: nat | x < y < |channels[i].ports| ensures StaticKey(channels[i], x) != StaticKey(channels[i], y) {
      assert AsksFor(channels, i, x) && AsksFor(channels, i, y);
    }
  }

  lemma NothingTaken(input: Input, i: nat)
    requires StaticOnly(input.channels) && DistinctRequests(input.channels)
    requires i < |input.channels| && AllStatic(input.channels[i])
    ensures Untaken(input, i)
  {
    hide AllStatic, StaticNumbers, OutcomeOf, StaticOnly, DistinctRequests;
    forall x: nat | x < |input.channels[i].ports| ensures NotTaken(input, i, StaticKey(input.channels[i], x)) {
      assert AsksFor(input.channels, i, x);
      forall k: nat, j: nat, r | k < i ensures !HolderAt(input, k, j, r, StaticKey(input.channels[i], x)) {
        if HolderAt(input, k, j, r, StaticKey(input.channels[i], x)) {
          NobodyElse(input, i, x, k, j, r);
        }
      }
    }
  }

  /** A valid channel that is accepted waits for nobody. */
  lemma AcceptedWaitsNot(input: Input, i: nat, k: nat)
    requires WellFormedAll(input.channels) && CollisionFree(input.hash, input.channels)
    requires i < |input.channels| && AllStatic(input.channels[i]) && OutcomeOf(input, i).Accepted?
    ensures !Waits(input, i, k)
  {
    hide RunUpTo, OutcomeOf, FirstOwners, CollisionFree, WellFormedAll, AllStatic, StaticNumbers, Untaken, HasRoom;
    StaticAcceptedIff(input, i);
    if x: nat, y: nat :| WaitsOn(input, i, x, k, y) {
      assert Named(input.channels[i]) by { StaticNamed(input.channels[i]); }
      DifferentOwners(input.hash, input.channels, i, x, k, y);
    }
  }

  /** Some valid channels wait for each other in a circle. */
  ghost predicate Circular(input: Input) {
    exists path :: IsCycle(ValidChannels(input), WaitsFor(input), path)
  }

  /** A valid channel waits for one whose request is invalid, which never moves. */
  ghost predicate Stranded(input: Input) {
    exists i: nat, k: nat :: i in ValidChannels(input) && k !in ValidChannels(input) && Waits(input, i, k)
  }

  ghost function RejectedChannels(input: Input): set<nat> {
    ValidChannels(input) - Acc(input)
  }

  lemma RejectedSerial(input: Input)
    requires StillStatic(input) && !Stranded(input)
    ensures Serial(RejectedChannels(input), WaitsFor(input))
  {
    hide OutcomeOf, StillStatic, Waits, AllStatic;
    forall j | j in RejectedChannels(input) ensures HasSuccessor(RejectedChannels(input), WaitsFor(input), j) {
      var k := RejectedWaits(input, j);
      assert k in ValidChannels(input);
      assert WaitsFor(input)(j, k);
    }
  }

  lemma RejectedImpliesWaiting(input: Input, i: nat)
    requires StillStatic(input) && i in RejectedChannels(input)
    ensures Circular(input) || Stranded(input)
  {
    hide ValidChannels, Acc, StillStatic, WaitsFor, Stranded, Serial;
    if !Stranded(input) {
      RejectedSerial(input);
      var path := CycleExists(RejectedChannels(input), WaitsFor(input));
      assert IsCycle(ValidChannels(input), WaitsFor(input), path);
    }
  }

  lemma WaitingImpliesRejected(input: Input)
    requires WellFormedAll(input.channels) && CollisionFree(input.hash, input.channels)
    requires Circular(input) || Stranded(input)
    ensures RejectedChannels(input) != {}
  {
    hide OutcomeOf, Waits, AllStatic, CollisionFree, WellFormedAll;
    if Stranded(input) {
      var i: nat, k: nat :| i in ValidChannels(input) && k !in ValidChannels(input) && Waits(input, i, k);
      if OutcomeOf(input, i).Accepted? { AcceptedWaitsNot(input, i, k); }
      assert i in RejectedChannels(input);
    } else {
      var path :| IsCycle(ValidChannels(input), WaitsFor(input), path);
      var i := path[|path| - 1];
      assert i in ValidChannels(input) && Waits(input, i, path[0]);
      if OutcomeOf(input, i).Accepted? { AcceptedWaitsNot(input, i, path[0]); }
      assert i in RejectedChannels(input);
    }
  }

  lemma SubsetIff<T>(a: set<T>, b: set<T>)
    ensures a <= b <==> a - b == {}
  {
    if a - b == {} {
      forall x | x in a ensures x in b {
        assert x !in a - b;
      }
    }
  }

  /** THEOREM (what is left when nothing changes any more). Over static channels with
      distinct requests and room for all, once passes change nothing every valid channel
      is accepted if and only if no valid channels wait for each other in a circle, of
      whatever length, and none waits for an invalid one. */
  lemma AllAcceptedIff(input: Input)
    requires StillStatic(input)
    ensures ValidChannels(input) <= Acc(input) <==> !Circular(input) && !Stranded(input)
  {
    hide ValidChannels, Acc, Circular, Stranded, CollisionFree, WellFormedAll, Still, ShortHash;
    SubsetIff(ValidChannels(input), Acc(input));
    if RejectedChannels(input) != {} {
      var i: nat :| i in RejectedChannels(input);
      RejectedImpliesWaiting(input, i);
    }
    if Circular(input) || Stranded(input) {
      WaitingImpliesRejected(input);
    }
  }

  /** THEOREM (the outcome of a run). With unchanging specs as above, every pass after the
      first n + 1 accepts all valid channels if and only if, in that pass, none of them
      waits in a circle or for an invalid one. */
  lemma RunAcceptsAllIff(hash: Hash, trace: seq<Cluster>, events: seq<Event>, t: nat)
    requires Passes(hash, trace, events) && Steady(hash, trace[0]) && AllStaticIn(trace[0])
    requires |trace[0].channels| + 1 <= t < |events| && events[t].FullPass?
    requires t < |trace| && Readable(PassInput(hash, trace[t], events[t]).channels)
    requires DistinctRequests(PassInput(hash, trace[t], events[t]).channels)
    ensures var input := PassInput(hash, trace[t], events[t]);
      ValidChannels(input) <= Acc(input) <==> !Circular(input) && !Stranded(input)
  {
    hide Acc, ValidChannels, Circular, Stranded, Readable, DistinctRequests, AfterPass, ChannelLe, Lists, Passes,
      Good, Still, NoAuto, Roomy, ShortHash, Fair;
    assert |trace| == |events| + 1 by { PassesLength(hash, trace, events); }
    var input := PassInput(hash, trace[t], events[t]);
    PassAt(hash, trace, events, t);
    SteadyThroughout(hash, trace, events, t);
    ConvergesWithinNPlusOnePasses(hash, trace, events, t);
    ConvergesWithinNPlusOnePasses(hash, trace, events, t + 1);
    UnchangedIsStill(hash, trace[t], events[t].listing, events[t].cache);
    FirstClaims(hash, trace[t], events[t].listing, events[t].cache, true);
    AllAcceptedIff(input);
  }
}
