/** What keeps a static channel from its ports: exactly when a pass accepts it, and who
    waits for whom once nothing changes any more. */
module Blocking {
  import opened Model
  import opened Claims
  import opened Reconcile
  import opened PortLimit
  import opened Pass
  import opened PassFacts
  import opened PassInvariant
  import opened PassClaims
  import opened Stability
  import opened Runs

  // ---- where the owners come from ----

  /** The owner map during the loop: what it was at the start, and the ports of the
      channels accepted so far. */
  lemma {:induction false} OwnersExact(input: Input, k: nat, pk: PortKey) returns (i: nat, j: nat)
    requires k <= |input.channels| && pk in RunUpTo(input, k).owners && pk !in FirstOwners(input)
    ensures i < k && j < |input.channels[i].ports| && HolderAt(input, i, j, input.channels[i].RefOf(j), pk)
    ensures RunUpTo(input, k).owners[pk] == OwnerOf(input.hash, input.channels[i].RefOf(j))
  {
    hide RunUpTo, OutcomeOf, FirstOwners, ResolutionOf, Compatible;
    RunStart(input);
    assert k > 0;
    if pk in RunUpTo(input, k - 1).owners {
      i, j := OwnersExact(input, k - 1, pk);
      OwnersStep(input, k - 1);
    } else {
      i := k - 1;
      if OutcomeOf(input, i).Accepted? {
        AcceptedStep(input, i);
        j := Assigned(input, i, pk);
      } else {
        RejectedStep(input, i);
        assert false;
      }
    }
  }

  lemma Assigned(input: Input, i: nat, pk: PortKey) returns (j: nat)
    requires i < |input.channels| && OutcomeOf(input, i).Accepted?
    requires Compatible(RunUpTo(input, i).owners, input.channels[i], NewPorts(input, i))
    requires OutcomeOf(input, i).numbers == ResolutionOf(input, i).numbers
    requires |OutcomeOf(input, i).numbers| == |input.channels[i].ports|
    requires pk in Assignments(input.channels[i], NewPorts(input, i))
    ensures j < |input.channels[i].ports| && HolderAt(input, i, j, input.channels[i].RefOf(j), pk)
    ensures Assignments(input.channels[i], NewPorts(input, i))[pk]
         == OwnerOf(input.hash, input.channels[i].RefOf(j))
  {
    hide RunUpTo, OutcomeOf, ResolutionOf;
    var ch, numbers := input.channels[i], OutcomeOf(input, i).numbers;
    var p :| p in NewPorts(input, i) && p.Key() == pk;
    j :| 0 <= j < |numbers| && p == MuxPortOf(input.hash, ch, j, numbers[j]);
  }

  // ---- when a pass accepts a static channel ----

  /** No two ports of the channel ask for the same number. */
  predicate OwnPortsDiffer(ch: Channel)
    requires AllStatic(ch)
  {
    forall x, y | 0 <= x < y < |ch.ports| :: StaticKey(ch, x) != StaticKey(ch, y)
  }

  /** Nobody else owns a port of the channel when the pass starts. */
  ghost predicate Unowned(input: Input, i: nat)
    requires i < |input.channels| && AllStatic(input.channels[i])
  {
    var ch := input.channels[i];
    forall x | 0 <= x < |ch.ports| && StaticKey(ch, x) in FirstOwners(input) ::
      FirstOwners(input)[StaticKey(ch, x)] == OwnerOf(input.hash, ch.RefOf(x))
  }

  /** No channel processed and accepted before the `i`-th got `pk`. */
  ghost predicate NotTaken(input: Input, i: nat, pk: PortKey) {
    forall k: nat, j: nat, r | k < i :: !HolderAt(input, k, j, r, pk)
  }

  /** No channel processed and accepted earlier got a port of the channel. */
  ghost predicate Untaken(input: Input, i: nat)
    requires i < |input.channels| && AllStatic(input.channels[i])
  {
    forall x | 0 <= x < |input.channels[i].ports| :: NotTaken(input, i, StaticKey(input.channels[i], x))
  }

  ghost predicate HasRoom(input: Input, i: nat)
    requires i < |input.channels|
  {
    !WouldExceed(|RunUpTo(input, i).ports|, input.channels[i], MaxPorts(input.mux))
  }

  lemma OwnRef(channels: seq<Channel>, i: nat, j: nat)
    requires i < |channels| && j < |channels[i].ports| && Named(channels[i])
    ensures channels[i].RefOf(j) in ActiveRefs(channels)
  {
    RefsActive(channels, i);
    assert channels[i].RefOf(j) in RefsOf(channels[i]);
  }

  lemma HashesDiffer(hash: Hash, channels: seq<Channel>, i: nat, x: nat, y: nat)
    requires WellFormedAll(channels) && CollisionFree(hash, channels) && i < |channels| && Named(channels[i])
    requires x < |channels[i].ports| && y < |channels[i].ports| && x != y
    ensures PortHash(hash, channels[i].ns, channels[i].name, channels[i].ports[x].name)
         != PortHash(hash, channels[i].ns, channels[i].name, channels[i].ports[y].name)
  {
    hide ActiveRefs;
    OwnRef(channels, i, x);
    OwnRef(channels, i, y);
    var ch := channels[i];
    assert WellFormed(ch);
    assert ch.ports[x].name != ch.ports[y].name;
    assert ch.RefOf(x) in ActiveRefs(channels) && ch.RefOf(y) in ActiveRefs(channels);
  }

  /** Port `x` of a static channel is free for it at its turn exactly if nobody else owned
      it at the start and nobody got it since. */
  ghost predicate PortFree(input: Input, i: nat, x: nat)
    requires i < |input.channels| && AllStatic(input.channels[i]) && x < |input.channels[i].ports|
  {
    FreeFor(RunUpTo(input, i).owners, input.channels[i],
            MuxPortOf(input.hash, input.channels[i], x, StaticNumbers(input.channels[i])[x]))
  }

  lemma PortFreeIff(input: Input, i: nat, x: nat)
    requires WellFormedAll(input.channels) && CollisionFree(input.hash, input.channels)
    requires i < |input.channels| && AllStatic(input.channels[i]) && x < |input.channels[i].ports|
    ensures var ch := input.channels[i]; var pk := StaticKey(ch, x);
      PortFree(input, i, x) <==>
        (pk in FirstOwners(input) ==> FirstOwners(input)[pk] == OwnerOf(input.hash, ch.RefOf(x)))
        && NotTaken(input, i, pk)
  {
    hide RunUpTo, OutcomeOf, FirstOwners, Requests, StaticNumbers, WellFormed, ActiveRefs, CollisionFree;
    var ch := input.channels[i];
    var pk := StaticKey(ch, x);
    RunStart(input);
    OwnersPersist(input, 0, i);
    if PortFree(input, i, x) {
      forall k: nat, j: nat, r | k < i ensures !HolderAt(input, k, j, r, pk) {
        if HolderAt(input, k, j, r, pk) {
          TakenBefore(input, i, x, k, j, r);
        }
      }
    } else if pk !in FirstOwners(input) {
      var k, j := OwnersExact(input, i, pk);
    }
  }

  /** An accepted port stays with its owner for the rest of the pass. */
  lemma HolderOwned(input: Input, k: nat, j: nat, r: Ref, pk: PortKey, i: nat)
    requires k < i <= |input.channels| && HolderAt(input, k, j, r, pk)
    ensures pk in RunUpTo(input, i).owners && RunUpTo(input, i).owners[pk] == OwnerOf(input.hash, r)
  {
    hide RunUpTo, OutcomeOf, ResolutionOf;
    NumbersOwned(input, k, j);
    AcceptedIff(input, k);
    OwnersPersist(input, k + 1, i);
  }

  lemma OwnersDiffer(hash: Hash, channels: seq<Channel>, i: nat, x: nat, k: nat, j: nat)
    requires DistinctChannels(channels) && CollisionFree(hash, channels) && i < |channels| && k < |channels| && i != k
    requires x < |channels[i].ports| && Named(channels[i]) && j < |channels[k].ports| && Named(channels[k])
    ensures OwnerOf(hash, channels[i].RefOf(x)) != OwnerOf(hash, channels[k].RefOf(j))
  {}

  lemma TakenBefore(input: Input, i: nat, x: nat, k: nat, j: nat, r: Ref)
    requires WellFormedAll(input.channels) && CollisionFree(input.hash, input.channels)
    requires i < |input.channels| && AllStatic(input.channels[i]) && x < |input.channels[i].ports|
    requires k < i && HolderAt(input, k, j, r, StaticKey(input.channels[i], x))
    ensures !PortFree(input, i, x)
  {
    hide RunUpTo, OutcomeOf, Requests, StaticNumbers, AllStatic, WellFormed, CollisionFree;
    var pk, ch := StaticKey(input.channels[i], x), input.channels[i];
    HolderOwned(input, k, j, r, pk, i);
    AcceptedNamed(input, k);
    assert Named(ch) by { StaticNamed(ch); }
    OwnersDiffer(input.hash, input.channels, i, x, k, j);
    assert |StaticNumbers(ch)| == |ch.ports| by { StaticLength(ch); }
  }

  lemma CompatibleIff(input: Input, i: nat)
    requires WellFormedAll(input.channels) && CollisionFree(input.hash, input.channels)
    requires i < |input.channels| && AllStatic(input.channels[i])
    ensures var ch := input.channels[i];
      Compatible(RunUpTo(input, i).owners, ch, MuxPortsOf(input.hash, ch, StaticNumbers(ch))) <==>
      OwnPortsDiffer(ch) && forall x | 0 <= x < |ch.ports| :: PortFree(input, i, x)
  {
    hide RunUpTo, Requests, StaticNumbers, AllStatic, WellFormedAll, CollisionFree;
    var ch := input.channels[i];
    var numbers := StaticNumbers(ch);
    assert |numbers| == |ch.ports| by { StaticLength(ch); }
    var ports := MuxPortsOf(input.hash, ch, numbers);
    assert Named(ch) by { StaticNamed(ch); }
    if Compatible(RunUpTo(input, i).owners, ch, ports) {
      forall x | 0 <= x < |ch.ports| ensures PortFree(input, i, x) {
        assert MuxPortOf(input.hash, ch, x, numbers[x]) in ports;
      }
      forall x, y | 0 <= x < y < |ch.ports| ensures StaticKey(ch, x) != StaticKey(ch, y) {
        var p, q := MuxPortOf(input.hash, ch, x, numbers[x]), MuxPortOf(input.hash, ch, y, numbers[y]);
        assert p in ports && q in ports;
        HashesDiffer(input.hash, input.channels, i, x, y);
      }
    }
    if OwnPortsDiffer(ch) && forall x | 0 <= x < |ch.ports| :: PortFree(input, i, x) {
      forall p | p in ports ensures FreeFor(RunUpTo(input, i).owners, ch, p) {
        var x :| 0 <= x < |numbers| && p == MuxPortOf(input.hash, ch, x, numbers[x]);
        assert PortFree(input, i, x);
      }
      forall p, q | p in ports && q in ports && p.Key() == q.Key() ensures p == q {
        var x :| 0 <= x < |numbers| && p == MuxPortOf(input.hash, ch, x, numbers[x]);
        var y :| 0 <= y < |numbers| && q == MuxPortOf(input.hash, ch, y, numbers[y]);
        assert p.Key() == StaticKey(ch, x) && q.Key() == StaticKey(ch, y);
      }
    }
  }

  lemma StaticLength(ch: Channel)
    requires AllStatic(ch)
    ensures |StaticNumbers(ch)| == |ch.ports|
  {}

  /** THEOREM (when a pass accepts a static channel). Exactly if the limit leaves room, its
      own requests differ, the owner map at the start gives none of its ports to anybody
      else, and no channel accepted earlier in the pass took one. This holds of passes
      that cannot read the store too; their owner map is what was recovered. */
  lemma StaticAcceptedIff(input: Input, i: nat)
    requires WellFormedAll(input.channels) && CollisionFree(input.hash, input.channels)
    requires i < |input.channels| && AllStatic(input.channels[i])
    ensures OutcomeOf(input, i).Accepted? <==>
      HasRoom(input, i) && OwnPortsDiffer(input.channels[i]) && Unowned(input, i) && Untaken(input, i)
  {
    hide RunUpTo, OutcomeOf, Requests, StaticNumbers, AllStatic, WellFormedAll, CollisionFree, Compatible,
      FirstOwners, ResolutionOf, PortFree, MuxPortsOf, WouldExceed, NotTaken;
    AcceptedIff(input, i);
    StaticResolution(input, i);
    CompatibleIff(input, i);
    var ch := input.channels[i];
    forall x: nat | x < |ch.ports|
      ensures var pk := StaticKey(ch, x);
        PortFree(input, i, x) <==>
          (pk in FirstOwners(input) ==> FirstOwners(input)[pk] == OwnerOf(input.hash, ch.RefOf(x)))
          && NotTaken(input, i, pk)
    {
      PortFreeIff(input, i, x);
    }
    if Unowned(input, i) && Untaken(input, i) {
      forall x | 0 <= x < |ch.ports| ensures PortFree(input, i, x) {}
    }
    if forall x | 0 <= x < |ch.ports| :: PortFree(input, i, x) {
      forall x | 0 <= x < |ch.ports| && StaticKey(ch, x) in FirstOwners(input)
        ensures FirstOwners(input)[StaticKey(ch, x)] == OwnerOf(input.hash, ch.RefOf(x))
      {
        assert PortFree(input, i, x);
      }
      forall x | 0 <= x < |ch.ports| ensures NotTaken(input, i, StaticKey(ch, x)) {
        assert PortFree(input, i, x);
      }
    }
  }

  /** A pass that cannot read the store starts from what it recovers and nothing else. */
  lemma BlindOwners(input: Input)
    requires input.stored.Unreadable?
    ensures FirstOwners(input) == Recovered(input.hash, input.channels, input.livePorts)
  {
    hide Recovered;
    var active := ActiveRefs(input.channels);
    LoadValid(NoState, active);
    assert ReadUpTo([], 0) == EMPTY_BOOK;
    KeptIff([], active);
  }
}
