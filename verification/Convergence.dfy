/** Repeated passes over unchanging specs: the accepted set only grows, and static
    channels settle quickly. */
module Convergence {
  import opened Wrappers
  import opened Annotations
  import opened Model
  import opened PortRanges
  import opened Sorting
  import opened ChannelOrder
  import opened Claims
  import opened Reconcile
  import opened PortLimit
  import opened Endpoints
  import opened Pass
  import opened PassFacts
  import opened PassInvariant
  import opened StateRoundTrip
  import opened PassClaims
  import opened Stability
  import opened Recovery
  import opened Handover
  import opened Runs

  // ---- a pass is determined by the cluster ----

  /** The same progress, endpoints aside. */
  ghost predicate Agree(s: Progress, t: Progress) {
    s.book == t.book && s.owners == t.owners && s.ports == t.ports && s.outcomes == t.outcomes
      && s.channels == t.channels
  }

  lemma StepAgrees(c: Config, limit: Option<int>, one: Cache, two: Cache, s: Progress, t: Progress, ch: Channel)
    requires Agree(s, t)
    ensures Agree(Step(c, limit, one, s, ch), Step(c, limit, two, t, ch))
  {
    hide Resolve, Record, Compatible, MuxPortsOf, FormatPorts, MuxSubsets, Assignments, LinesOf;
  }

  /** Two inputs that differ only in the endpoint cache and the iteration order. */
  ghost predicate SamePass(a: Input, b: Input) {
    a.hash == b.hash && a.mux == b.mux && a.channels == b.channels && a.stored == b.stored
    && Recovered(a.hash, a.channels, a.livePorts) == Recovered(b.hash, b.channels, b.livePorts)
  }

  lemma {:induction false} RunsAgree(a: Input, b: Input, k: nat)
    requires SamePass(a, b) && k <= |a.channels|
    ensures Agree(RunUpTo(a, k), RunUpTo(b, k))
  {
    hide Recovered, Step, StaticClaims, AutoRanges, Load, PortOwners;
    if k > 0 {
      RunsAgree(a, b, k - 1);
      StepAgrees(Cfg(a), MaxPorts(a.mux), a.cache, b.cache, RunUpTo(a, k - 1), RunUpTo(b, k - 1), a.channels[k - 1]);
    }
  }

  /** THEOREM (determinism). What a pass makes of the cluster does not depend on the
      order in which it iterates over the live ports, nor on the endpoints. */
  lemma PassDeterministic(hash: Hash, c: Cluster, l: seq<MuxPort>, m: seq<MuxPort>, x: Cache, y: Cache)
    requires DistinctKeys(c.muxPorts) && Lists(l, c.muxPorts) && Lists(m, c.muxPorts)
    ensures AfterPass(c, InputOf(hash, c, l, x, true)) == AfterPass(c, InputOf(hash, c, m, y, true))
  {
    hide RunUpTo, Recovered, Readable, ChannelLe, BuildMuxPorts, ToState, Lists, DistinctKeys;
    var a, b := InputOf(hash, c, l, x, true), InputOf(hash, c, m, y, true);
    OrderIrrelevant(hash, a.channels, l, m, c.muxPorts);
    RunsAgree(a, b, |a.channels|);
  }

  // ---- static channels, and room for all ----

  predicate NoAuto(ch: Channel) {
    Requests(ch).Ok? ==> AllStatic(ch)
  }

  function TotalPorts(channels: seq<Channel>, k: nat): nat
    requires k <= |channels|
  {
    if k == 0 then 0 else TotalPorts(channels, k - 1) + |channels[k - 1].ports|
  }

  /** The limit has room for every declared port. */
  predicate Roomy(limit: Option<int>, channels: seq<Channel>) {
    limit.Some? ==> TotalPorts(channels, |channels|) <= limit.value
  }

  lemma {:induction false} TotalGrows(channels: seq<Channel>, i: nat, k: nat)
    requires i <= k <= |channels|
    ensures TotalPorts(channels, i) <= TotalPorts(channels, k)
  {
    if i < k {
      TotalGrows(channels, i, k - 1);
    }
  }

  lemma {:induction false} PortCount(input: Input, k: nat)
    requires k <= |input.channels|
    ensures |RunUpTo(input, k).ports| <= TotalPorts(input.channels, k)
  {
    hide RunUpTo, OutcomeOf, NewPorts, Compatible;
    if k == 0 {
      RunStart(input);
    } else {
      PortCount(input, k - 1);
      if OutcomeOf(input, k - 1).Accepted? {
        AcceptedPorts(input, k - 1);
        NewPortsSize(input, k - 1);
        UnionSize(RunUpTo(input, k - 1).ports, NewPorts(input, k - 1));
      } else {
        RejectedStep(input, k - 1);
      }
    }
  }

  lemma NeverOverLimit(input: Input, i: nat)
    requires i < |input.channels| && Roomy(MaxPorts(input.mux), input.channels)
    ensures !OutcomeOf(input, i).LimitExceeded?
  {
    hide RunUpTo, OutcomeOf, MaxPorts, Compatible, ResolutionOf;
    PortCount(input, i);
    TotalGrows(input.channels, i + 1, |input.channels|);
    AcceptedIff(input, i);
  }

  // ---- a pass over static channels, claim by claim ----

  lemma StaticBook(input: Input, i: nat)
    requires i < |input.channels| && NoAuto(input.channels[i])
    ensures ResolutionOf(input, i).book == RunUpTo(input, i).book
  {
    hide RunUpTo, ResolveUpTo, Requests, AllStatic, StaticNumbers, Cfg;
    if Requests(input.channels[i]).Ok? {
      StaticResolution(input, i);
    }
  }

  lemma {:induction false} RecordIdle(b: Book, ch: Channel, numbers: seq<int>, mappings: map<string, string>,
      autoNames: set<string>, k: nat)
    requires States(mappings, ch, numbers) && k <= |numbers|
    requires forall j | 0 <= j < k ::
      ch.RefOf(j) in b.claims && b.claims[ch.RefOf(j)] == ClaimWith(ch, j, numbers[j], autoNames)
    ensures RecordUpTo(b, ch, mappings, autoNames, k) == b
  {
    hide States, RecordOne;
    if k > 0 {
      RecordIdle(b, ch, numbers, mappings, autoNames, k - 1);
      assert |numbers| == |ch.ports| by { StatesLength(mappings, ch, numbers); }
      RecordOneIs(b, ch, numbers, mappings, autoNames, k - 1);
    }
  }

  lemma StatesLength(mappings: map<string, string>, ch: Channel, numbers: seq<int>)
    requires States(mappings, ch, numbers)
    ensures |numbers| == |ch.ports|
  {}

  lemma RecordNothingNew(b: Book, ch: Channel, numbers: seq<int>)
    requires WellFormed(ch) && Named(ch) && |numbers| == |ch.ports| && forall j | 0 <= j < |numbers| ::
      1 <= numbers[j] <= 65535
    requires forall j | 0 <= j < |numbers| ::
      ch.RefOf(j) in b.claims && b.claims[ch.RefOf(j)] == ClaimWith(ch, j, numbers[j], AutoNames(ch.externalPorts))
    ensures Record(b, ch, FormatPorts(LinesOf(ch, numbers))) == Some(b)
  {
    hide FormatPorts, AutoNames, PortMappings, ClaimWith, RecordUpTo;
    var lines := LinesOf(ch, numbers);
    LinesClean(ch, numbers);
    PortMappingsOfFormat(lines);
    var mappings := PortMappings(FormatPorts(lines)).value;
    forall j | 0 <= j < |numbers|
      ensures ch.ports[j].name in mappings && Text.ParsePort(mappings[ch.ports[j].name]) == Some(numbers[j])
    {
      PrintedPortReadsBack(lines, j);
    }
    RecordIdle(b, ch, numbers, mappings, AutoNames(ch.externalPorts), |numbers|);
  }

  /** A pass whose accepted channels are already recorded leaves the book alone. */
  lemma {:induction false} IdleBook(input: Input, k: nat)
    requires Fair(input) && k <= |input.channels|
    requires forall i | 0 <= i < |input.channels| :: NoAuto(input.channels[i])
    requires forall i: nat | i < |input.channels| && OutcomeOf(input, i).Accepted? :: AlreadyRecorded(input, i)
    ensures RunUpTo(input, k).book == FirstBook(input)
  {
    hide RunUpTo, OutcomeOf, FirstBook, Fair, NoAuto, AlreadyRecorded, Requests, Record, FormatPorts, LinesOf,
      ResolutionOf;
    if k == 0 {
      RunStart(input);
    } else {
      var i: nat := k - 1;
      IdleBook(input, i);
      StaticBook(input, i);
      if OutcomeOf(input, i).Accepted? {
        IdleTurn(input, i);
      } else {
        RejectedStep(input, i);
      }
    }
  }

  /** The claims read from the store record this acceptance already. */
  ghost predicate AlreadyRecorded(input: Input, i: nat) {
    i < |input.channels| && OutcomeOf(input, i).Accepted? && |OutcomeOf(input, i).numbers| == |input.channels[i].ports|
    && forall j | 0 <= j < |input.channels[i].ports| ::
        var ch := input.channels[i];
        ch.RefOf(j) in FirstBook(input).claims
        && FirstBook(input).claims[ch.RefOf(j)]
           == ClaimWith(ch, j, OutcomeOf(input, i).numbers[j], AutoNames(ch.externalPorts))
  }

  lemma IdleTurn(input: Input, i: nat)
    requires i < |input.channels| && Fair(input) && AlreadyRecorded(input, i)
    requires RunUpTo(input, i).book == FirstBook(input) && ResolutionOf(input, i).book == FirstBook(input)
    ensures RunUpTo(input, i + 1).book == FirstBook(input)
  {
    hide RunUpTo, OutcomeOf, FirstBook, Requests, Record, FormatPorts, ResolutionOf, AutoNames, ClaimWith,
      CollisionFree, Injective;
    AcceptedStep(input, i);
    AcceptedNamed(input, i);
    RecordNothingNew(FirstBook(input), input.channels[i], OutcomeOf(input, i).numbers);
  }

  // ---- two passes in a row ----

  ghost function Acc(input: Input): set<nat> {
    set i: nat | i < |input.channels| && OutcomeOf(input, i).Accepted?
  }

  /** `second` is the pass right after `first`, over the same specs. */
  ghost predicate Successive(first: Input, second: Input) {
    && Fair(first) && Fair(second) && ShortHash(first.hash)
    && StoreKept(first, second) && PortsKept(first, second) && first.mux == second.mux
    && SameSpecs(second.channels, first.channels)
    && second.channels == Final(first).channels
  }

  ghost predicate StaticOnly(channels: seq<Channel>) {
    forall i | 0 <= i < |channels| :: NoAuto(channels[i])
  }

  lemma {:induction false} SameSpecsStatic(a: seq<Channel>, b: seq<Channel>)
    requires SameSpecs(a, b)
    ensures StaticClaims(a) == StaticClaims(b)
  {
    hide Requests;
    if a != [] {
      SameSpecsStatic(a[..|a| - 1], b[..|b| - 1]);
      SameRequests(a[|a| - 1], b[|b| - 1]);
    }
  }

  /** What `first` allocated may be kept in `second`. */
  lemma AllowedAgain(first: Input, second: Input, i: nat)
    requires Successive(first, second) && i in Acc(first)
    ensures TracesKept(first, second, i, i) && AllStillAllowed(first, second, i)
  {
    hide RunUpTo, OutcomeOf, Requests, WantsAuto, CollisionFree, WellFormedAll, Injective, FirstBook, MaxPorts,
      TotalPorts, Holds, Contains, AutoRanges, Roomy, PortsKept;
    AcceptedStep(first, i);
    AcceptedNumbers(first, i);
    ClaimsSane(first, i);
    ResolutionSane(first, i);
    SameSpecsStatic(second.channels, first.channels);
    Shape(first, |first.channels|);
    assert second.channels[i].SameSpec(first.channels[i]);
    var ch, m := first.channels[i], Requests(first.channels[i]).value;
    forall j | 0 <= j < |ch.ports| && WantsAuto(m, ch.ports[j])
      ensures StillAllowed(second, NumberKey(ch, OutcomeOf(first, i).numbers, j))
    {
      assert AutoPort(Cfg(first), ResolutionOf(first, i).book.claims, ch.RefOf(j),
        NumberKey(ch, OutcomeOf(first, i).numbers, j));
    }
  }

  lemma NoAutoSame(a: Channel, b: Channel)
    requires a.SameSpec(b) && NoAuto(b)
    ensures NoAuto(a)
  {
    hide Requests;
    SameRequests(a, b);
  }

  lemma {:induction false} TotalSame(a: seq<Channel>, b: seq<Channel>, k: nat)
    requires SameSpecs(a, b) && k <= |a|
    ensures TotalPorts(a, k) == TotalPorts(b, k)
  {
    if k > 0 {
      TotalSame(a, b, k - 1);
      assert a[k - 1].SameSpec(b[k - 1]);
    }
  }

  /** An accepted channel is accepted again with the same ports, or skipped for the limit. */
  lemma AgainOrSkipped(first: Input, second: Input, i: nat)
    requires Successive(first, second) && i in Acc(first)
    ensures i < |second.channels|
    ensures OutcomeOf(second, i) == if OutcomeOf(second, i).LimitExceeded? then LimitExceeded else OutcomeOf(first, i)
  {
    hide RunUpTo, OutcomeOf, StoreKept, PortsKept, Fair, ShortHash, AllStillAllowed, TracesKept;
    AllowedAgain(first, second, i);
    AutoChannelStays(first, second, i, i);
  }

  /** With room for all it is accepted again. */
  lemma AcceptedAgain(first: Input, second: Input, i: nat)
    requires Successive(first, second) && Roomy(MaxPorts(first.mux), first.channels) && i in Acc(first)
    ensures i < |second.channels| && i in Acc(second) && OutcomeOf(second, i) == OutcomeOf(first, i)
  {
    hide RunUpTo, OutcomeOf, StoreKept, PortsKept, Fair, ShortHash, MaxPorts, TotalPorts;
    AgainOrSkipped(first, second, i);
    TotalSame(second.channels, first.channels, |first.channels|);
    NeverOverLimit(second, i);
  }

  /** THEOREM (the accepted set never shrinks, if there is room for all). */
  lemma AcceptedSetGrows(first: Input, second: Input)
    requires Successive(first, second) && Roomy(MaxPorts(first.mux), first.channels)
    ensures Acc(first) <= Acc(second)
  {
    hide Successive, OutcomeOf, Roomy;
    forall i | i in Acc(first) ensures i in Acc(second) {
      AcceptedAgain(first, second, i);
    }
  }

  lemma SecondRecorded(first: Input, second: Input, i: nat)
    requires Successive(first, second) && Acc(first) == Acc(second) && i in Acc(second)
    ensures AlreadyRecorded(second, i)
  {
    hide RunUpTo, OutcomeOf, Requests, StoreKept, CollisionFree, WellFormedAll, Injective, FirstBook, MaxPorts,
      TotalPorts, NamesOnce, AutoNames;
    AgainOrSkipped(first, second, i);
    AcceptedStep(second, i);
    ClaimsCarriedOver(first, second);
    var a, b := first.channels[i], second.channels[i];
    assert b.SameSpec(a);
    AcceptedNamed(second, i);
    RefsActive(second.channels, i);
    forall j | 0 <= j < |b.ports|
      ensures b.RefOf(j) in FirstBook(second).claims
      ensures FirstBook(second).claims[b.RefOf(j)]
        == ClaimWith(b, j, OutcomeOf(second, i).numbers[j], AutoNames(b.externalPorts))
    {
      RecordedEqualsAccepted(first, i, j);
      assert b.RefOf(j) == a.RefOf(j) && b.RefOf(j) in RefsOf(b);
    }
  }

  /** If no further channel was accepted, the second pass finds nothing to record. */
  lemma SecondBookIdle(first: Input, second: Input)
    requires Successive(first, second) && Acc(first) == Acc(second) && StaticOnly(first.channels)
    ensures Final(second).book == FirstBook(second) && !FirstBook(second).changed
  {
    hide RunUpTo, OutcomeOf, Requests, CollisionFree, WellFormedAll, Injective, MaxPorts, TotalPorts, AlreadyRecorded,
      NoAuto, Load, ReadAll, StoredAfter, NeedsClaimWrite;
    forall i | 0 <= i < |second.channels| ensures NoAuto(second.channels[i]) {
      assert second.channels[i].SameSpec(first.channels[i]);
      NoAutoSame(second.channels[i], first.channels[i]);
    }
    forall i: nat | i < |second.channels| && OutcomeOf(second, i).Accepted? ensures AlreadyRecorded(second, i) {
      assert i in Acc(second);
      SecondRecorded(first, second, i);
    }
    IdleBook(second, |second.channels|);
    NothingToRewrite(first, second);
  }

  /** The second pass finds a document that it need not rewrite. */
  lemma NothingToRewrite(first: Input, second: Input)
    requires Fair(first) && StoreKept(first, second) && SameSpecs(second.channels, first.channels)
    ensures !FirstBook(second).changed && FirstBook(second).claims == Final(first).book.claims
  {
    hide RunUpTo, OutcomeOf, Requests, CollisionFree, WellFormedAll, Injective, Load, ReadAll, StoredAfter,
      NeedsClaimWrite;
    StoreFollows(first);
    ClaimsSane(first, |first.channels|);
    SameSpecsActive(second.channels, first.channels);
    LoadIs(StoredAfter(first), ActiveRefs(second.channels));
  }

  lemma SecondPorts(first: Input, second: Input, p: MuxPort)
    requires Successive(first, second) && Acc(first) == Acc(second)
    ensures p in Final(second).ports <==> p in Final(first).ports
  {
    hide RunUpTo, OutcomeOf, Requests, CollisionFree, WellFormedAll, Injective, MaxPorts, TotalPorts, NoAuto,
      ResolutionOf, FirstBook;
    PortsExact(first, |first.channels|, p);
    PortsExact(second, |second.channels|, p);
    forall i: nat | i < |first.channels| ensures PortOfAccepted(first, i, p) <==> PortOfAccepted(second, i, p) {
      if i in Acc(first) {
        AgainOrSkipped(first, second, i);
        AcceptedStep(first, i);
        AcceptedStep(second, i);
        assert second.channels[i].SameSpec(first.channels[i]);
        SamePorts(first.hash, first.channels[i], second.channels[i], OutcomeOf(first, i).numbers);
      } else {
        assert i !in Acc(second);
      }
    }
  }

  lemma SamePorts(hash: Hash, a: Channel, b: Channel, numbers: seq<int>)
    requires b.SameSpec(a) && |numbers| <= |a.ports|
    ensures MuxPortsOf(hash, a, numbers) == MuxPortsOf(hash, b, numbers) && LinesOf(a, numbers) == LinesOf(b, numbers)
  {
    assert forall j: nat | j < |numbers| :: MuxPortOf(hash, a, j, numbers[j]) == MuxPortOf(hash, b, j, numbers[j]);
  }

  /** What channel `i` looks like after a pass. */
  lemma ChannelAfter(input: Input, i: nat)
    requires i < |input.channels|
    ensures |Final(input).channels| == |input.channels|
    ensures OutcomeOf(input, i).Accepted? ==> |OutcomeOf(input, i).numbers| == |input.channels[i].ports|
    ensures OutcomeOf(input, i).Accepted? ==>
      Final(input).channels[i]
        == input.channels[i].(portsText := FormatPorts(LinesOf(input.channels[i], OutcomeOf(input, i).numbers)))
    ensures !OutcomeOf(input, i).Accepted? ==> Final(input).channels[i] == input.channels[i]
  {
    hide RunUpTo, OutcomeOf, ResolutionOf, FormatPorts, LinesOf;
    OutcomesPersist(input, i, |input.channels|);
    Shape(input, i);
    if OutcomeOf(input, i).Accepted? {
      AcceptedStep(input, i);
    } else {
      RejectedStep(input, i);
    }
  }

  lemma SecondChannel(first: Input, second: Input, i: nat)
    requires Successive(first, second) && Acc(first) == Acc(second) && i < |second.channels|
    ensures |Final(second).channels| == |second.channels| && Final(second).channels[i] == second.channels[i]
  {
    hide RunUpTo, OutcomeOf, Requests, CollisionFree, WellFormedAll, Injective, MaxPorts, TotalPorts, NoAuto,
      FirstBook, FormatPorts, LinesOf;
    ChannelAfter(first, i);
    ChannelAfter(second, i);
    if i in Acc(second) {
      AgainOrSkipped(first, second, i);
      assert second.channels[i].SameSpec(first.channels[i]);
      SamePorts(first.hash, first.channels[i], second.channels[i], OutcomeOf(first, i).numbers);
    } else {
      assert i !in Acc(second);
    }
  }

  /** A pass that accepts no channel beyond those of the pass before it changes no
      annotation and no mux port. */
  lemma SamePublished(first: Input, second: Input)
    requires Successive(first, second) && Acc(first) == Acc(second)
    ensures Final(second).channels == second.channels
    ensures Final(second).ports == Final(first).ports
  {
    hide RunUpTo, Successive, Acc, Load, FirstBook;
    forall p ensures p in Final(second).ports <==> p in Final(first).ports {
      SecondPorts(first, second, p);
    }
    Shape(second, |second.channels|);
    forall i: nat | i < |second.channels| ensures Final(second).channels[i] == second.channels[i] {
      SecondChannel(first, second, i);
    }
  }

  /** THEOREM (settling step). If no channel asks for an automatic port, it changes no
      claim either. */
  lemma SettledPass(first: Input, second: Input)
    requires Successive(first, second) && Acc(first) == Acc(second) && StaticOnly(first.channels)
    ensures Final(second).channels == second.channels
    ensures Final(second).ports == Final(first).ports
    ensures Final(second).book == FirstBook(second) && !FirstBook(second).changed
  {
    hide *;
    SamePublished(first, second);
    SecondBookIdle(first, second);
  }

  // ---- runs of passes ----

  lemma SortIdle(channels: seq<Channel>, base: seq<Channel>)
    requires WellFormedAll(base) && SameSpecs(channels, Sort(base, ChannelLe))
    ensures Sort(channels, ChannelLe) == channels
  {
    hide ChannelLe, WellFormed;
    ChannelLeOrder();
    SortSorts(base, ChannelLe);
    SortedWellFormed(base);
    SameSpecsWellFormed(channels, Sort(base, ChannelLe));
    var sorted := Sort(base, ChannelLe);
    forall i, j | 0 <= i < j < |channels| ensures ChannelLe(channels[i], channels[j]) {
      assert channels[i].SameSpec(sorted[i]) && channels[j].SameSpec(sorted[j]);
      SameOrder(channels[i], sorted[i], channels[j], sorted[j]);
    }
    SortSorts(channels, ChannelLe);
    SortKeeps(channels, ChannelLe);
    ChannelsSeparated(channels);
    SortedUnique(channels, Sort(channels, ChannelLe), ChannelLe);
  }

  /** Room for the ports of all channels. */
  ghost predicate Steady(hash: Hash, c: Cluster) {
    Good(hash, c) && ShortHash(hash) && Roomy(MaxPorts(c.mux), Sort(c.channels, ChannelLe))
  }

  /** No channel asks for an automatic port. */
  ghost predicate AllStaticIn(c: Cluster) {
    StaticOnly(Sort(c.channels, ChannelLe))
  }

  function PassInput(hash: Hash, c: Cluster, e: Event): Input
    requires e.FullPass?
  {
    InputOf(hash, c, e.listing, e.cache, true)
  }

  lemma AfterShape(hash: Hash, c: Cluster, e: Event)
    requires Good(hash, c) && e.FullPass? && Readable(PassInput(hash, c, e).channels)
    ensures var input := PassInput(hash, c, e); var d := AfterPass(c, input);
      && d == Cluster(Final(input).channels, BuildMuxPorts(Final(input).ports), Some(StoredAfter(input)), c.mux)
      && SameSpecs(d.channels, input.channels) && Sort(d.channels, ChannelLe) == d.channels
  {
    hide RunUpTo, CollisionFree, WellFormedAll, Injective, StoreClaims, ChannelLe, DistinctKeys, AfterSave,
      StoredAfter, BuildMuxPorts, Readable, SameSpecs;
    var input := PassInput(hash, c, e);
    SavedClaims(hash, c, e.listing, e.cache);
    WrittenSpecs(input, 0);
    SortIdle(Final(input).channels, c.channels);
  }

  lemma SteadyOn(hash: Hash, c: Cluster, e: Event)
    requires Steady(hash, c) && e.FullPass?
    ensures Steady(hash, AfterPass(c, PassInput(hash, c, e)))
    ensures AllStaticIn(c) ==> AllStaticIn(AfterPass(c, PassInput(hash, c, e)))
  {
    hide RunUpTo, Good, ChannelLe, AfterSave, StoredAfter, BuildMuxPorts, Readable, NoAuto, TotalPorts, MaxPorts,
      ShortHash;
    var input := PassInput(hash, c, e);
    PassGood(hash, c, e.listing, e.cache, true);
    if Readable(input.channels) {
      AfterShape(hash, c, e);
      var d := AfterPass(c, input);
      if AllStaticIn(c) {
        forall i | 0 <= i < |d.channels| ensures NoAuto(d.channels[i]) {
          assert d.channels[i].SameSpec(input.channels[i]);
          NoAutoSame(d.channels[i], input.channels[i]);
        }
      }
      TotalSame(d.channels, input.channels, |d.channels|);
    }
  }

  /** Two passes in a row. */
  lemma InARow(hash: Hash, c: Cluster, e: Event, f: Event)
    requires Good(hash, c) && ShortHash(hash) && e.FullPass? && f.FullPass? && Readable(PassInput(hash, c, e).channels)
    requires Lists(f.listing, AfterPass(c, PassInput(hash, c, e)).muxPorts)
    ensures Successive(PassInput(hash, c, e), PassInput(hash, AfterPass(c, PassInput(hash, c, e)), f))
  {
    hide RunUpTo, Good, Fair, ChannelLe, AfterSave, StoredAfter, BuildMuxPorts, Readable, NoAuto, TotalPorts,
      MaxPorts, SameSpecs, ShortHash, Lists;
    var d := AfterPass(c, PassInput(hash, c, e));
    AfterShape(hash, c, e);
    FirstClaims(hash, c, e.listing, e.cache, true);
    PassGood(hash, c, e.listing, e.cache, true);
    FirstClaims(hash, d, f.listing, f.cache, true);
  }

  /** If the second of two passes accepts nothing new, it leaves the cluster as it is. */
  lemma SettledCluster(hash: Hash, c: Cluster, e: Event, f: Event)
    requires Good(hash, c) && ShortHash(hash) && e.FullPass? && f.FullPass? && Readable(PassInput(hash, c, e).channels)
    requires AllStaticIn(c) && Lists(f.listing, AfterPass(c, PassInput(hash, c, e)).muxPorts)
    requires var d := AfterPass(c, PassInput(hash, c, e)); Acc(PassInput(hash, c, e)) == Acc(PassInput(hash, d, f))
    ensures var d := AfterPass(c, PassInput(hash, c, e)); AfterPass(d, PassInput(hash, d, f)) == d
  {
    hide RunUpTo, Good, ChannelLe, StoredAfter, BuildMuxPorts, Readable, NoAuto, TotalPorts, MaxPorts, SameSpecs,
      Successive, Acc, FirstBook, ToState, Lists, ShortHash;
    var d := AfterPass(c, PassInput(hash, c, e));
    AfterShape(hash, c, e);
    InARow(hash, c, e, f);
    SettledPass(PassInput(hash, c, e), PassInput(hash, d, f));
  }

  lemma {:induction false} AccBound(s: set<nat>, n: nat)
    requires forall i | i in s :: i < n
    ensures |s| <= n
  {
    if n == 0 {
      assert s == {};
    } else {
      AccBound(s - {n - 1}, n - 1);
    }
  }

  lemma StrictlyMore(a: set<nat>, b: set<nat>)
    requires a <= b && a != b
    ensures |b| >= |a| + 1
  {
    var x :| x in b && x !in a;
    assert b == (b - a) + a && |b| == |b - a| + |a|;
    assert x in b - a;
  }

  ghost predicate Passes(hash: Hash, trace: seq<Cluster>, events: seq<Event>) {
    IsRun(hash, trace, events) && forall t | 0 <= t < |events| :: events[t].FullPass?
  }

  lemma PassAt(hash: Hash, trace: seq<Cluster>, events: seq<Event>, t: nat)
    requires Passes(hash, trace, events) && t < |events|
    ensures |trace| == |events| + 1 && events[t].FullPass? && Lists(events[t].listing, trace[t].muxPorts)
    ensures trace[t + 1] == AfterPass(trace[t], PassInput(hash, trace[t], events[t]))
  {
    hide AfterPass, Lists;
    assert Enabled(hash, trace[t], events[t]) && events[t].FullPass?;
  }

  lemma {:induction false} SteadyThroughout(hash: Hash, trace: seq<Cluster>, events: seq<Event>, t: nat)
    requires Passes(hash, trace, events) && t < |trace| && Steady(hash, trace[0])
    ensures Steady(hash, trace[t]) && |Sort(trace[t].channels, ChannelLe)| == |trace[0].channels|
    ensures AllStaticIn(trace[0]) ==> AllStaticIn(trace[t])
  {
    hide Steady, AllStaticIn, AfterPass, ChannelLe, Readable;
    if t == 0 {
      SortKeeps(trace[0].channels, ChannelLe);
    } else {
      SteadyThroughout(hash, trace, events, t - 1);
      PassAt(hash, trace, events, t - 1);
      SteadyOn(hash, trace[t - 1], events[t - 1]);
      SizeKept(hash, trace[t - 1], events[t - 1]);
    }
  }

  lemma SizeKept(hash: Hash, c: Cluster, e: Event)
    requires Steady(hash, c) && e.FullPass?
    ensures |Sort(AfterPass(c, PassInput(hash, c, e)).channels, ChannelLe)| == |Sort(c.channels, ChannelLe)|
  {
    hide Good, ChannelLe, Readable, Roomy, NoAuto, AfterSave, RunUpTo, BuildMuxPorts;
    if Readable(PassInput(hash, c, e).channels) {
      AfterShape(hash, c, e);
    }
  }

  /** THEOREM (once settled, settled). If one pass changes nothing, none after it does. */
  lemma {:induction false} SettledForGood(hash: Hash, trace: seq<Cluster>, events: seq<Event>, u: nat, t: nat)
    requires Passes(hash, trace, events) && Good(hash, trace[0]) && u < t < |trace| && trace[u + 1] == trace[u]
    ensures trace[t] == trace[u]
  {
    hide Good, AfterPass, Lists;
    if u + 1 < t {
      SettledForGood(hash, trace, events, u, t - 1);
      PassAt(hash, trace, events, u);
      PassAt(hash, trace, events, t - 1);
      ClaimsExclusiveOverRuns(hash, trace, events, u);
      assert DistinctKeys(trace[u].muxPorts) by { GoodPorts(hash, trace[u]); }
      PassDeterministic(hash, trace[u], events[u].listing, events[t - 1].listing, events[u].cache, events[t - 1].cache);
    }
  }

  lemma GoodPorts(hash: Hash, c: Cluster)
    requires Good(hash, c)
    ensures DistinctKeys(c.muxPorts)
  {}

  /** As long as passes keep changing something, each accepts a channel more. */
  lemma {:induction false} Growth(hash: Hash, trace: seq<Cluster>, events: seq<Event>, t: nat)
    requires Passes(hash, trace, events) && Steady(hash, trace[0]) && AllStaticIn(trace[0]) && t < |events|
    requires forall u | 0 <= u <= t :: trace[u + 1] != trace[u]
    ensures events[t].FullPass? && |Acc(PassInput(hash, trace[t], events[t]))| >= t
  {
    hide Steady, AllStaticIn, AfterPass, Acc, Successive, Readable, Lists, Good, ShortHash, Roomy, ChannelLe;
    PassAt(hash, trace, events, t);
    if t > 0 {
      var u: nat := t - 1;
      Growth(hash, trace, events, u);
      PassAt(hash, trace, events, u);
      SteadyThroughout(hash, trace, events, u);
      var c, e, f := trace[u], events[u], events[t];
      assert Readable(PassInput(hash, c, e).channels) by {
        if !Readable(PassInput(hash, c, e).channels) {
          UnreadableIdle(c, PassInput(hash, c, e));
        }
      }
      SteadyGood(hash, c);
      InARow(hash, c, e, f);
      AcceptedSetGrows(PassInput(hash, c, e), PassInput(hash, trace[t], f));
      if Acc(PassInput(hash, c, e)) == Acc(PassInput(hash, trace[t], f)) {
        SettledCluster(hash, c, e, f);
      }
      StrictlyMore(Acc(PassInput(hash, c, e)), Acc(PassInput(hash, trace[t], f)));
    }
  }

  lemma UnreadableIdle(c: Cluster, input: Input)
    requires !Readable(input.channels)
    ensures AfterPass(c, input) == c
  {}

  /** THEOREM (convergence). With unchanging specs that ask for static ports only, room
      for all of them, and nobody else writing, n channels settle within n + 1 passes:
      from then on no pass changes a claim, an annotation or a mux port. */
  lemma ConvergesWithinNPlusOnePasses(hash: Hash, trace: seq<Cluster>, events: seq<Event>, t: nat)
    requires Passes(hash, trace, events) && Steady(hash, trace[0]) && AllStaticIn(trace[0])
    requires |trace[0].channels| + 1 <= t < |trace|
    ensures trace[t] == trace[|trace[0].channels| + 1]
  {
    hide Steady, AllStaticIn, AfterPass, Readable, Passes, Acc, PassInput, ChannelLe, Good;
    assert |trace| == |events| + 1 by { PassesLength(hash, trace, events); }
    var n := |trace[0].channels|;
    if t > n + 1 {
      assert Good(hash, trace[0]) by { SteadyGood(hash, trace[0]); }
      if u :| 0 <= u <= n + 1 && trace[u + 1] == trace[u] {
        SettledForGood(hash, trace, events, u, t);
        if u < n + 1 {
          SettledForGood(hash, trace, events, u, n + 1);
        }
      } else {
        Growth(hash, trace, events, n + 1);
        SteadyThroughout(hash, trace, events, n + 1);
        AccSize(PassInput(hash, trace[n + 1], events[n + 1]));
        PassSize(hash, trace[n + 1], events[n + 1]);
        assert false;
      }
    }
  }

  lemma PassesLength(hash: Hash, trace: seq<Cluster>, events: seq<Event>)
    requires Passes(hash, trace, events)
    ensures |trace| == |events| + 1
  {}

  lemma PassSize(hash: Hash, c: Cluster, e: Event)
    requires e.FullPass?
    ensures |PassInput(hash, c, e).channels| == |Sort(c.channels, ChannelLe)|
  {}

  lemma AccSize(input: Input)
    ensures |Acc(input)| <= |input.channels|
  {
    hide OutcomeOf;
    AccBound(Acc(input), |input.channels|);
  }

  lemma SteadyGood(hash: Hash, c: Cluster)
    requires Steady(hash, c)
    ensures Good(hash, c) && ShortHash(hash) && Roomy(MaxPorts(c.mux), Sort(c.channels, ChannelLe))
  {}
}
