/** The invariant of the loop over the channels, and the theorems about one pass:
    exclusive ports, injective claims, recorded numbers, capacity. */
module PassInvariant {
  import opened Wrappers
  import opened Annotations
  import opened Model
  import opened PortRanges
  import opened Claims
  import opened Reconcile
  import opened PortLimit
  import opened Endpoints
  import opened Pass
  import opened PassFacts

  // ---- shape of the loop ----

  /** What the loop body adds for one channel. */
  lemma StepShape(c: Config, limit: Option<int>, cache: Cache, s: Progress, ch: Channel)
    ensures var t := Step(c, limit, cache, s, ch);
      && |t.outcomes| == |s.outcomes| + 1 && t.outcomes[..|s.outcomes|] == s.outcomes
      && |t.channels| == |s.channels| + 1 && t.channels[..|s.channels|] == s.channels
      && t.channels[|s.channels|].SameSpec(ch)
  {
    hide Resolve, Record, Compatible, MuxPortsOf, FormatPorts, MuxSubsets, Assignments, LinesOf;
  }

  lemma ShapeStep(input: Input, i: nat)
    requires i < |input.channels|
    ensures var s, t := RunUpTo(input, i), RunUpTo(input, i + 1);
      && |t.outcomes| == |s.outcomes| + 1 && t.outcomes[..|s.outcomes|] == s.outcomes
      && |t.channels| == |s.channels| + 1 && t.channels[..|s.channels|] == s.channels
      && t.channels[|s.channels|].SameSpec(input.channels[i])
  {
    hide Step, Cfg;
    StepShape(Cfg(input), MaxPorts(input.mux), input.cache, RunUpTo(input, i), input.channels[i]);
  }

  ghost predicate Shaped(input: Input, k: nat, s: Progress)
    requires k <= |input.channels|
  {
    && |s.outcomes| == k && |s.channels| == k
    && forall i | 0 <= i < k :: s.channels[i].SameSpec(input.channels[i])
  }

  lemma {:induction false} Shape(input: Input, k: nat)
    requires k <= |input.channels|
    ensures Shaped(input, k, RunUpTo(input, k))
  {
    hide RunUpTo;
    if k == 0 {
      RunStart(input);
    } else {
      Shape(input, k - 1);
      ShapeStep(input, k - 1);
      var s, t := RunUpTo(input, k - 1), RunUpTo(input, k);
      assert forall i | 0 <= i < k - 1 :: t.channels[i] == t.channels[..k - 1][i];
    }
  }

  lemma {:induction false} OutcomesPersist(input: Input, i: nat, k: nat)
    requires i < k <= |input.channels|
    ensures |RunUpTo(input, i + 1).outcomes| == i + 1 && |RunUpTo(input, k).outcomes| == k
    ensures |RunUpTo(input, i + 1).channels| == i + 1 && |RunUpTo(input, k).channels| == k
    ensures RunUpTo(input, k).outcomes[i] == RunUpTo(input, i + 1).outcomes[i]
    ensures RunUpTo(input, k).channels[i] == RunUpTo(input, i + 1).channels[i]
  {
    hide RunUpTo;
    Shape(input, k);
    Shape(input, i + 1);
    if i < k - 1 {
      OutcomesPersist(input, i, k - 1);
      ShapeStep(input, k - 1);
      var s, t := RunUpTo(input, k - 1), RunUpTo(input, k);
      assert t.outcomes[i] == t.outcomes[..k - 1][i] && t.channels[i] == t.channels[..k - 1][i];
    }
  }

  /** What became of channel `i` in the pass. */
  ghost function OutcomeOf(input: Input, i: nat): Outcome
    requires i < |input.channels|
  {
    Shape(input, |input.channels|);
    Final(input).outcomes[i]
  }

  /** What a channel's resolution gives when its turn comes. */
  ghost function ResolutionOf(input: Input, i: nat): (r: Resolution)
    requires i < |input.channels|
    ensures |r.numbers| <= |input.channels[i].ports|
    ensures r.error.None? ==> |r.numbers| == |input.channels[i].ports|
  {
    Resolve(Cfg(input), RunUpTo(input, i).book, input.channels[i])
  }

  /** The mux ports of that resolution. */
  ghost function NewPorts(input: Input, i: nat): set<MuxPort>
    requires i < |input.channels|
  {
    MuxPortsOf(input.hash, input.channels[i], ResolutionOf(input, i).numbers)
  }

  /** A channel is accepted exactly when the limit leaves room for its declared ports,
      its ports resolve, and none of them is somebody else's. */
  lemma AcceptedIff(input: Input, i: nat)
    requires i < |input.channels|
    ensures OutcomeOf(input, i).Accepted? <==>
      (!WouldExceed(|RunUpTo(input, i).ports|, input.channels[i], MaxPorts(input.mux))
      && ResolutionOf(input, i).error.None?
      && Compatible(RunUpTo(input, i).owners, input.channels[i], NewPorts(input, i)))
    ensures OutcomeOf(input, i).Accepted? ==> OutcomeOf(input, i).numbers == ResolutionOf(input, i).numbers
    ensures OutcomeOf(input, i).LimitExceeded? <==>
      WouldExceed(|RunUpTo(input, i).ports|, input.channels[i], MaxPorts(input.mux))
  {
    hide Resolve, Record, Compatible, MuxPortsOf, FormatPorts, Recovered, StaticClaims;
    OutcomesPersist(input, i, |input.channels|);
    Shape(input, i);
  }

  /** The step of an accepted channel, field by field. */
  lemma AcceptedStep(input: Input, i: nat)
    requires i < |input.channels| && OutcomeOf(input, i).Accepted?
    ensures var s, t, ch, r := RunUpTo(input, i), RunUpTo(input, i + 1), input.channels[i], ResolutionOf(input, i);
      && r.error.None? && OutcomeOf(input, i).numbers == r.numbers && |r.numbers| == |ch.ports|
      && (forall j | 0 <= j < |r.numbers| :: 1 <= r.numbers[j] <= 65535)
      && Compatible(s.owners, ch, NewPorts(input, i))
      && t.owners == s.owners + Assignments(ch, NewPorts(input, i))
      && t.ports == s.ports + NewPorts(input, i)
      && t.endpoints == s.endpoints + MuxSubsets(input.hash, ch, SubsetsOf(input.cache, ch))
      && t.channels == s.channels + [ch.(portsText := FormatPorts(LinesOf(ch, r.numbers)))]
      && t.book == Record(r.book, ch, FormatPorts(LinesOf(ch, r.numbers))).GetOr(r.book)
  {
    hide Resolve, Record, Compatible, MuxPortsOf, FormatPorts, Recovered, StaticClaims, MuxSubsets, Assignments,
      LinesOf;
    AcceptedIff(input, i);
    BookValid(input, i);
    ResolveSound(Cfg(input), RunUpTo(input, i).book, input.channels[i]);
  }

  /** The part of that step which concerns ports and their owners. */
  lemma AcceptedPorts(input: Input, i: nat)
    requires i < |input.channels| && OutcomeOf(input, i).Accepted?
    ensures var s, t, ch := RunUpTo(input, i), RunUpTo(input, i + 1), input.channels[i];
      && Compatible(s.owners, ch, NewPorts(input, i))
      && t.owners == s.owners + Assignments(ch, NewPorts(input, i))
      && t.ports == s.ports + NewPorts(input, i)
  {
    hide *;
    AcceptedStep(input, i);
  }

  /** The step of any other channel: nothing but the book may have changed. */
  lemma RejectedStep(input: Input, i: nat)
    requires i < |input.channels| && !OutcomeOf(input, i).Accepted?
    ensures var s, t, ch := RunUpTo(input, i), RunUpTo(input, i + 1), input.channels[i];
      && t.owners == s.owners && t.ports == s.ports && t.endpoints == s.endpoints
      && t.channels == s.channels + [ch]
      && (t.book == s.book || t.book == ResolutionOf(input, i).book)
  {
    hide Resolve, Record, Compatible, MuxPortsOf, FormatPorts, Recovered, StaticClaims, MuxSubsets, Assignments,
      LinesOf, Book.Valid, Cfg;
    OutcomesPersist(input, i, |input.channels|);
    Shape(input, i);
  }

  lemma RunStart(input: Input)
    ensures RunUpTo(input, 0) == Progress(FirstBook(input), FirstOwners(input), {}, [], [], [])
  {}

  // ---- the owner map only grows ----

  ghost predicate SubMap<K, V>(a: map<K, V>, b: map<K, V>) {
    forall k | k in a :: k in b && b[k] == a[k]
  }

  lemma AssignmentsAgree(owners: map<PortKey, Owner>, ch: Channel, ports: set<MuxPort>)
    requires Compatible(owners, ch, ports)
    ensures SubMap(owners, owners + Assignments(ch, ports))
    ensures forall p | p in ports ::
      p.Key() in Assignments(ch, ports) && Assignments(ch, ports)[p.Key()] == OwnerFor(ch, p)
  {}

  lemma OwnersStep(input: Input, i: nat)
    requires i < |input.channels|
    ensures SubMap(RunUpTo(input, i).owners, RunUpTo(input, i + 1).owners)
  {
    hide *;
    if OutcomeOf(input, i).Accepted? {
      AcceptedStep(input, i);
      AssignmentsAgree(RunUpTo(input, i).owners, input.channels[i], NewPorts(input, i));
    } else {
      RejectedStep(input, i);
      SubMapOrder(RunUpTo(input, i).owners, RunUpTo(input, i).owners, RunUpTo(input, i).owners);
    }
  }

  lemma SubMapOrder<K, V>(a: map<K, V>, b: map<K, V>, c: map<K, V>)
    ensures SubMap(a, a)
    ensures SubMap(a, b) && SubMap(b, c) ==> SubMap(a, c)
  {}

  lemma {:induction false} OwnersPersist(input: Input, i: nat, k: nat)
    requires i <= k <= |input.channels|
    ensures SubMap(RunUpTo(input, i).owners, RunUpTo(input, k).owners)
  {
    hide *;
    SubMapOrder(RunUpTo(input, i).owners, RunUpTo(input, i).owners, RunUpTo(input, i).owners);
    if i < k {
      OwnersPersist(input, i, k - 1);
      OwnersStep(input, k - 1);
      SubMapOrder(RunUpTo(input, i).owners, RunUpTo(input, k - 1).owners, RunUpTo(input, k).owners);
    }
  }

  ghost predicate Owned(owners: map<PortKey, Owner>, ports: set<MuxPort>) {
    forall p | p in ports :: p.Key() in owners && owners[p.Key()].muxName == p.name
  }

  lemma OwnedEmpty(owners: map<PortKey, Owner>)
    ensures Owned(owners, {})
  {}

  lemma OwnedOn(owners: map<PortKey, Owner>, ports: set<MuxPort>, ch: Channel, more: set<MuxPort>)
    requires Owned(owners, ports) && Compatible(owners, ch, more)
    ensures Owned(owners + Assignments(ch, more), ports + more)
  {
    AssignmentsAgree(owners, ch, more);
  }

  /** Every accepted mux port is entered in the owner map under its own name. */
  lemma {:induction false} PortsOwned(input: Input, k: nat)
    requires k <= |input.channels|
    ensures Owned(RunUpTo(input, k).owners, RunUpTo(input, k).ports)
  {
    hide *;
    if k == 0 {
      RunStart(input);
      OwnedEmpty(FirstOwners(input));
    } else {
      PortsOwned(input, k - 1);
      var s := RunUpTo(input, k - 1);
      if OutcomeOf(input, k - 1).Accepted? {
        AcceptedPorts(input, k - 1);
        OwnedOn(s.owners, s.ports, input.channels[k - 1], NewPorts(input, k - 1));
      } else {
        RejectedStep(input, k - 1);
      }
    }
  }

  /** THEOREM (exclusive ports). After a pass no two mux ports share a number and
      protocol, whatever the channels, claims, annotations and live ports were; and
      where the initial owner map (recovered owners overlaid by persisted claims)
      names an owner, the published port is that owner's. */
  lemma ExclusivePorts(input: Input)
    ensures DistinctKeys(Final(input).ports)
    ensures forall p | p in Final(input).ports :: p.Key() in FirstOwners(input) ==>
      FirstOwners(input)[p.Key()].muxName == p.name
  {
    hide Step, FirstOwners;
    RunStart(input);
    PortsOwned(input, |input.channels|);
    OwnersPersist(input, 0, |input.channels|);
  }

  // ---- the published ports are those of the accepted channels ----

  ghost predicate PortOfAccepted(input: Input, i: nat, p: MuxPort) {
    i < |input.channels| && OutcomeOf(input, i).Accepted? && p in NewPorts(input, i)
  }

  lemma PortsStep(input: Input, i: nat, p: MuxPort)
    requires i < |input.channels|
    ensures p in RunUpTo(input, i + 1).ports <==> p in RunUpTo(input, i).ports || PortOfAccepted(input, i, p)
  {
    hide Step, NewPorts, OutcomeOf, RunUpTo, Compatible, Assignments;
    if OutcomeOf(input, i).Accepted? {
      AcceptedPorts(input, i);
    } else {
      RejectedStep(input, i);
    }
  }

  /** The accepted ports are exactly the ports of the accepted channels. */
  lemma {:induction false} PortsExact(input: Input, k: nat, p: MuxPort)
    requires k <= |input.channels|
    ensures p in RunUpTo(input, k).ports <==> exists i | 0 <= i < k :: PortOfAccepted(input, i, p)
  {
    hide *;
    if k == 0 {
      RunStart(input);
    } else {
      PortsExact(input, k - 1, p);
      PortsStep(input, k - 1, p);
    }
  }

  /** Accepted ports of a channel carry that channel's owner to the end of the pass. */
  lemma AcceptedOwners(input: Input, i: nat, j: nat)
    requires i < |input.channels| && OutcomeOf(input, i).Accepted? && j < |input.channels[i].ports|
    ensures |OutcomeOf(input, i).numbers| == |input.channels[i].ports|
    ensures var pk := NumberKey(input.channels[i], OutcomeOf(input, i).numbers, j);
      pk in Final(input).owners && Final(input).owners[pk] == OwnerOf(input.hash, input.channels[i].RefOf(j))
  {
    hide Step, ResolutionOf, OutcomeOf, RunUpTo;
    AcceptedStep(input, i);
    var ch, numbers := input.channels[i], OutcomeOf(input, i).numbers;
    AssignmentsAgree(RunUpTo(input, i).owners, ch, NewPorts(input, i));
    assert MuxPortOf(input.hash, ch, j, numbers[j]) in NewPorts(input, i);
    OwnersPersist(input, i + 1, |input.channels|);
  }

  // ---- capacity ----

  lemma {:induction false} IndexedSize(hash: Hash, ch: Channel, numbers: seq<int>)
    requires |numbers| <= |ch.ports|
    ensures |MuxPortsOf(hash, ch, numbers)| <= |numbers|
    decreases |numbers|
  {
    if numbers != [] {
      var front := numbers[..|numbers| - 1];
      IndexedSize(hash, ch, front);
      var last := MuxPortOf(hash, ch, |front|, numbers[|front|]);
      forall p | p in MuxPortsOf(hash, ch, numbers) ensures p in MuxPortsOf(hash, ch, front) + {last} {
        var j :| 0 <= j < |numbers| && p == MuxPortOf(hash, ch, j, numbers[j]);
        if j < |front| {
          assert p == MuxPortOf(hash, ch, j, front[j]);
        }
      }
      SubsetSize(MuxPortsOf(hash, ch, numbers), MuxPortsOf(hash, ch, front) + {last});
    } else {
      assert MuxPortsOf(hash, ch, numbers) == {};
    }
  }

  lemma NewPortsSize(input: Input, i: nat)
    requires i < |input.channels|
    ensures |NewPorts(input, i)| <= |input.channels[i].ports|
  {
    hide ResolutionOf, MuxPortsOf;
    IndexedSize(input.hash, input.channels[i], ResolutionOf(input, i).numbers);
  }

  lemma RoomFor(input: Input, i: nat)
    requires i < |input.channels| && OutcomeOf(input, i).Accepted?
    ensures MaxPorts(input.mux).Some? ==>
      |RunUpTo(input, i).ports| + |input.channels[i].ports| <= MaxPorts(input.mux).value
  {
    hide OutcomeOf, RunUpTo, ResolutionOf, Compatible, NewPorts;
    AcceptedIff(input, i);
  }

  /** THEOREM (capacity). The number of accepted ports never exceeds the limit, at
      any point of the loop. */
  lemma {:induction false} CapacityBound(input: Input, k: nat)
    requires k <= |input.channels|
    ensures MaxPorts(input.mux).Some? ==> |RunUpTo(input, k).ports| <= MaxPorts(input.mux).value
  {
    hide *;
    if k == 0 {
      LimitNonNegative(input.mux);
      RunStart(input);
    } else {
      CapacityBound(input, k - 1);
      if OutcomeOf(input, k - 1).Accepted? {
        RoomFor(input, k - 1);
        AcceptedPorts(input, k - 1);
        NewPortsSize(input, k - 1);
        UnionSize(RunUpTo(input, k - 1).ports, NewPorts(input, k - 1));
      } else {
        RejectedStep(input, k - 1);
      }
    }
  }

  lemma LimitNonNegative(mux: MuxService)
    ensures MaxPorts(mux).Some? ==> MaxPorts(mux).value >= 0
  {}

  lemma UnionSize<T>(a: set<T>, b: set<T>)
    ensures |a + b| <= |a| + |b|
  {
    assert |a + b| == |a| + |b - a|;
    SubsetSize(b - a, b);
  }

  lemma NewPortNames(input: Input, i: nat, p: MuxPort)
    requires ShortHash(input.hash) && i < |input.channels| && p in NewPorts(input, i)
    ensures |p.name| == 7
  {
    hide ResolutionOf;
  }

  /** THEOREM (published list). The mux publishes exactly the accepted ports, or the
      single placeholder when there is none; on GKE never more than 100 ports. */
  lemma PublishedPorts(input: Input)
    requires ShortHash(input.hash)
    ensures var ports := Final(input).ports;
      BuildMuxPorts(ports) == if ports == {} then {MuxPort("placeholder", 101, "TCP")} else ports
    ensures IsGke(input.mux) ==> |BuildMuxPorts(Final(input).ports)| <= 100
    ensures DistinctKeys(BuildMuxPorts(Final(input).ports))
  {
    hide RunUpTo, MaxPorts, IsGke, NewPorts, OutcomeOf;
    var ports := Final(input).ports;
    forall p | p in ports ensures p.name != "placeholder" {
      PortsExact(input, |input.channels|, p);
      var i: nat :| i < |input.channels| && PortOfAccepted(input, i, p);
      NewPortNames(input, i, p);
    }
    CapacityBound(input, |input.channels|);
    ExclusivePorts(input);
    if IsGke(input.mux) {
      GkeIsCapped(input.mux);
    }
  }
}
