/** The run in which a newly declared static number moves an accepted automatic port. */
module AutoMove {
  import opened Wrappers
  import opened Text
  import opened Annotations
  import opened Model
  import opened PortRanges
  import opened ChannelOrder
  import opened Claims
  import opened Reconcile
  import opened PortLimit
  import opened Pass
  import opened PassFacts
  import opened PassInvariant
  import opened PassClaims
  import opened Stability
  import opened Recovery
  import opened Handover
  import opened Runs
  import opened Blocking
  import opened WaitsFor
  import opened Scenarios

  const RANGES := [Range(20000, 20001)]

  /** A mux with two ports to allocate from. */
  function RangedMux(): MuxService {
    MuxService("", map[PORT_RANGE_KEY := FormatRanges(RANGES)])
  }

  /** `beta` asks for an automatic port. */
  const BETA_AUTO := Channel("games", "beta", [PortSpec("p2p", 80, "TCP")], "p2p:auto", "", None, None)
  const STARTERS := [Single("alpha", 80), BETA_AUTO]

  function StartCluster(): Cluster {
    Cluster(STARTERS, {PLACEHOLDER}, None, RangedMux())
  }

  const FIRST_PASS := FullPass([PLACEHOLDER], map[])

  function FirstInput(hash: Hash): Input {
    InputOf(hash, StartCluster(), [PLACEHOLDER], map[], true)
  }

  ghost function AfterFirst(hash: Hash): Cluster {
    AfterPass(StartCluster(), FirstInput(hash))
  }

  /** Then `alpha` declares the number that `beta` was given. */
  ghost predicate Edit(channels: seq<Channel>) {
    && |channels| == 2
    && channels[0].SameSpec(Single("alpha", 20000)) && channels[1].SameSpec(BETA_AUTO)
    && AnnotatedPort(channels[0], 0) != Some(Tcp(20001)) && AnnotatedPort(channels[1], 0) != Some(Tcp(20001))
  }

  ghost function AfterEdit(hash: Hash, channels: seq<Channel>): Cluster {
    AfterFirst(hash).(channels := channels)
  }

  ghost function SecondInput(hash: Hash, channels: seq<Channel>, listing: seq<MuxPort>): Input {
    InputOf(hash, AfterEdit(hash, channels), listing, map[], true)
  }

  // ---- what is asked for ----

  lemma AutoExternal()
    ensures ExternalPorts("p2p:auto") == Ok(map["p2p" := Auto])
  {
    hide Strip, Cut, Split;
    var item := "p2p" + [':'] + "auto";
    ReadsEntry("p2p", "auto");
    SplitAtom(item, ',');
    assert item == "p2p:auto" && Lower("auto") == "auto";
    assert ReadExternal(item) == Ok(Some(("p2p", Auto)));
    assert ExternalUpTo([item], 0) == Ok(map[]);
    assert ExternalUpTo([item], 1) == Ok(map["p2p" := Auto]);
  }

  lemma AutoRequests(ch: Channel)
    requires ch.SameSpec(BETA_AUTO)
    ensures Requests(ch) == Ok(map["p2p" := Auto]) && WantsAuto(Requests(ch).value, ch.ports[0]) && StaticIn(ch) == {}
  {
    hide ExternalPorts;
    AutoExternal();
    assert ch.ports[0].name == "p2p";
  }

  lemma StaticOfPair(channels: seq<Channel>, number: PortNumber, pk: PortKey)
    requires |channels| == 2 && channels[0].SameSpec(Single("alpha", number)) && channels[1].SameSpec(BETA_AUTO)
    ensures pk in StaticClaims(channels) <==> pk == Tcp(number)
  {
    hide Requests;
    SingleRequests(channels[0], "alpha", number);
    AutoRequests(channels[1]);
    StaticClaimsIff(channels, pk);
    assert StaticIn(channels[0]) == {Tcp(number)};
  }

  lemma RangesRead()
    ensures AutoRanges(RangedMux()) == RANGES
  {
    hide FormatRanges;
    RangesRoundTrip(RANGES);
  }

  lemma TwoPorts(used: set<PortKey>)
    ensures Tcp(20000) !in used ==> FirstFree(RANGES, used, "TCP") == Some(20000)
    ensures Tcp(20000) in used && Tcp(20001) !in used ==> FirstFree(RANGES, used, "TCP") == Some(20001)
  {}

  /** `beta` gets the first free port, if it may not keep the one it has. */
  lemma BetaGets(input: Input, n: PortNumber)
    requires Fair(input) && TwoChannels(input.channels) && input.channels[1].SameSpec(BETA_AUTO)
    requires input.mux == RangedMux() && input.stored.Stored?
    requires var claims := RunUpTo(input, 1).book.claims;
      && !Reusable(Cfg(input), claims, RefNamed("beta"))
      && FirstFree(RANGES, Used(Cfg(input), claims, OwnerOf(input.hash, RefNamed("beta"))), "TCP") == Some(n)
    requires Tcp(n) !in RunUpTo(input, 1).owners
    ensures OutcomeOf(input, 1) == Accepted([n])
  {
    hide RunUpTo, OutcomeOf, Requests, Reusable, Used, FirstFree, Fair, AutoRanges, StaticClaims, Recovered, MaxPorts;
    RangesRead();
    var ch, b := input.channels[1], RunUpTo(input, 1).book;
    AutoRequests(ch);
    var m := Requests(ch).value;
    assert ch.RefOf(0) == RefNamed("beta");
    assert ResolveUpTo(Cfg(input), b, ch, m, 0) == Resolution(b, [], None);
    assert ResolveUpTo(Cfg(input), b, ch, m, 1).numbers == [n];
    OnlyPort(input.hash, ch, [n]);
    NoLimit(input, 1);
    AcceptedIff(input, 1);
  }

  lemma OnlyPort(hash: Hash, ch: Channel, numbers: seq<int>)
    requires |numbers| == 1 <= |ch.ports|
    ensures MuxPortsOf(hash, ch, numbers) == {MuxPortOf(hash, ch, 0, numbers[0])}
  {}

  // ---- the first pass ----

  lemma StartGood(hash: Hash)
    requires Apart(hash)
    ensures Good(hash, StartCluster()) && FirstInput(hash).channels == STARTERS && Fair(FirstInput(hash))
  {
    PairWellFormed(hash, STARTERS);
    PairSorted(STARTERS);
    assert Good(hash, StartCluster());
    hide *;
    FirstClaims(hash, StartCluster(), [PLACEHOLDER], map[], true);
  }

  lemma AlphaGets(hash: Hash)
    requires Apart(hash) && ShortHash(hash)
    ensures FirstInput(hash).channels == STARTERS && FirstOwners(FirstInput(hash)) == map[]
    ensures OutcomeOf(FirstInput(hash), 0) == Accepted([80])
  {
    hide RunUpTo, OutcomeOf, FirstOwners, ShortHash, Good, Fair, ChannelLe, Requests, AllStatic, StaticNumbers,
      HasRoom, FormatRanges;
    var input := FirstInput(hash);
    StartGood(hash);
    NothingOwned(input);
    SingleRequests(input.channels[0], "alpha", 80);
    PairWellFormed(hash, input.channels);
    NoLimit(input, 0);
    StaticAcceptedIff(input, 0);
    AcceptedStatic(input, 0);
  }

  /** At the turn of `beta`, nothing but port 80 is owned. */
  lemma OnlyAlphaOwns(hash: Hash, pk: PortKey)
    requires Apart(hash) && ShortHash(hash) && pk != Tcp(80)
    ensures pk !in RunUpTo(FirstInput(hash), 1).owners
  {
    hide RunUpTo, OutcomeOf, FirstOwners, ShortHash, ChannelLe, FormatRanges;
    var input := FirstInput(hash);
    AlphaGets(hash);
    assert NumberKey(STARTERS[0], [80], 0) == Tcp(80);
    if pk in RunUpTo(input, 1).owners {
      var i, j := OwnersExact(input, 1, pk);
    }
  }

  /** Nor is anything else claimed. */
  lemma OnlyAlphaHolds(hash: Hash, r: Ref, pk: PortKey)
    requires Apart(hash) && ShortHash(hash) && pk != Tcp(80)
    ensures !Holds(RunUpTo(FirstInput(hash), 1).book.claims, r, pk)
  {
    hide RunUpTo, OutcomeOf, FirstOwners, FirstBook, ShortHash, Good, Fair, ChannelLe, Holds, ActiveRefs,
      FormatRanges, Cfg, Backed, Injective;
    var input := FirstInput(hash);
    StartGood(hash);
    AlphaGets(hash);
    NothingOwned(input);
    AcceptedHolds(input, 0, 0);
    AfterTurn(input, 0, 0, 2);
    BeforeTurn(input, 1, 0);
    ClaimsSane(input, 1);
    PairActive(STARTERS);
    assert NumberKey(STARTERS[0], [80], 0) == Tcp(80);
    HoldsHere(RunUpTo(input, 1).book.claims, Final(input).book.claims, FirstBook(input).claims, r, pk);
  }

  lemma HoldsHere(claims: map<Ref, Claim>, after: map<Ref, Claim>, first: map<Ref, Claim>, r: Ref, pk: PortKey)
    requires pk != Tcp(80) && Holds(after, RefNamed("alpha"), Tcp(80)) && first == map[]
    requires Unmoved(claims, after, RefNamed("alpha")) && Unmoved(first, claims, RefNamed("beta"))
    requires claims.Keys <= {RefNamed("alpha"), RefNamed("beta")}
    ensures !Holds(claims, r, pk)
  {}

  lemma BetaGetsFirst(hash: Hash)
    requires Apart(hash) && ShortHash(hash)
    ensures FirstInput(hash).channels == STARTERS && OutcomeOf(FirstInput(hash), 1) == Accepted([20000])
  {
    hide RunUpTo, OutcomeOf, FirstOwners, ShortHash, Good, Fair, ChannelLe, FormatRanges, Recovered, Reusable, Used,
      FirstFree,
      AutoRanges, StaticClaims, Holds, FirstBook, Requests;
    var input := FirstInput(hash);
    StartGood(hash);
    var claims, c := RunUpTo(input, 1).book.claims, Cfg(input);
    BlankRecovered(hash, STARTERS, [PLACEHOLDER]);
    StaticOfPair(STARTERS, 80, Tcp(20000));
    UsedIff(c, claims, OwnerOf(hash, RefNamed("beta")), Tcp(20000));
    forall r ensures !Holds(claims, r, Tcp(20000)) {
      OnlyAlphaHolds(hash, r, Tcp(20000));
    }
    TwoPorts(Used(c, claims, OwnerOf(hash, RefNamed("beta"))));
    BetaNew(hash);
    OnlyAlphaOwns(hash, Tcp(20000));
    BetaGets(input, 20000);
  }

  /** It has no claim yet. */
  lemma BetaNew(hash: Hash)
    requires Apart(hash) && ShortHash(hash)
    ensures !Reusable(Cfg(FirstInput(hash)), RunUpTo(FirstInput(hash), 1).book.claims, RefNamed("beta"))
  {
    hide RunUpTo, FirstOwners, ShortHash, Good, Fair, ChannelLe, FormatRanges, FirstBook;
    StartGood(hash);
    NothingOwned(FirstInput(hash));
    BeforeTurn(FirstInput(hash), 1, 0);
  }

  /** After it the store says so, and nothing else. */
  lemma StoreAfterFirst(hash: Hash, r: Ref, pk: PortKey)
    requires Apart(hash) && ShortHash(hash)
    ensures Readable(STARTERS) && Good(hash, AfterFirst(hash))
    ensures StoreClaims(AfterFirst(hash)) == Final(FirstInput(hash)).book.claims
    ensures Holds(StoreClaims(AfterFirst(hash)), r, pk) <==>
      (r == RefNamed("alpha") && pk == Tcp(80)) || (r == RefNamed("beta") && pk == Tcp(20000))
  {
    hide RunUpTo, OutcomeOf, FirstOwners, FirstBook, ShortHash, Good, Fair, ChannelLe, Holds, ActiveRefs,
      FormatRanges, Cfg, Backed,
      Injective, StoreClaims, AfterSave, BuildMuxPorts;
    var input := FirstInput(hash);
    StartGood(hash);
    AlphaGets(hash);
    BetaGetsFirst(hash);
    forall i | 0 <= i < |STARTERS| ensures PortMappings(STARTERS[i].portsText).Some? {
      BlankAnnotation(STARTERS[i], 0);
    }
    PassGood(hash, StartCluster(), [PLACEHOLDER], map[], true);
    SavedClaims(hash, StartCluster(), [PLACEHOLDER], map[]);
    SameStore(StartCluster().(store := AfterSave(StartCluster(), input)), AfterFirst(hash));
    AcceptedHolds(input, 0, 0);
    AcceptedHolds(input, 1, 0);
    assert NumberKey(STARTERS[0], [80], 0) == Tcp(80) && NumberKey(STARTERS[1], [20000], 0) == Tcp(20000);
    ClaimsSane(input, 2);
    PairActive(STARTERS);
    HoldsTwo(Final(input).book.claims, r, pk);
  }

  lemma HoldsTwo(claims: map<Ref, Claim>, r: Ref, pk: PortKey)
    requires claims.Keys <= {RefNamed("alpha"), RefNamed("beta")}
    requires Holds(claims, RefNamed("alpha"), Tcp(80)) && Holds(claims, RefNamed("beta"), Tcp(20000))
    ensures Holds(claims, r, pk) <==>
      (r == RefNamed("alpha") && pk == Tcp(80)) || (r == RefNamed("beta") && pk == Tcp(20000))
  {}

  lemma SameMux(hash: Hash)
    ensures AfterFirst(hash).mux == RangedMux()
  {
    hide FormatRanges, RunUpTo;
  }

  // ---- the second pass ----

  lemma SecondStart(hash: Hash, channels: seq<Channel>, listing: seq<MuxPort>, r: Ref, pk: PortKey)
    requires Apart(hash) && ShortHash(hash) && Edit(channels)
    ensures SecondInput(hash, channels, listing).channels == channels && Good(hash, AfterEdit(hash, channels))
    ensures Fair(SecondInput(hash, channels, listing)) && SecondInput(hash, channels, listing).stored.Stored?
    ensures Holds(FirstBook(SecondInput(hash, channels, listing)).claims, r, pk) <==>
      (r == RefNamed("alpha") && pk == Tcp(80)) || (r == RefNamed("beta") && pk == Tcp(20000))
  {
    hide RunUpTo, FirstBook, ShortHash, Good, Fair, ChannelLe, ActiveRefs, FormatRanges, StoreClaims, AfterSave,
      BuildMuxPorts,
      AnnotatedPort, AfterPass, CollisionFree, WellFormedAll;
    StoreAfterFirst(hash, r, pk);
    PairSorted(channels);
    PairWellFormed(hash, channels);
    EventGood(hash, AfterFirst(hash), Edited(channels));
    SameStore(AfterFirst(hash), AfterEdit(hash, channels));
    FirstClaims(hash, AfterEdit(hash, channels), listing, map[], true);
    PairActive(channels);
  }

  /** Nobody was ever given 20001. */
  lemma Unheard(hash: Hash, channels: seq<Channel>, listing: seq<MuxPort>)
    requires Apart(hash) && ShortHash(hash) && Edit(channels) && Lists(listing, AfterFirst(hash).muxPorts)
    ensures SecondInput(hash, channels, listing).channels == channels
    ensures Tcp(20001) !in Recovered(hash, channels, listing)
    ensures Tcp(20001) !in FirstOwners(SecondInput(hash, channels, listing))
  {
    hide RunUpTo, OutcomeOf, FirstBook, FirstOwners, ShortHash, Good, Fair, ChannelLe, FormatRanges, Recovered,
      AnnotatedPort, Annotated,
      AfterSave, StoreClaims, Holds, Candidates;
    var input, pk := SecondInput(hash, channels, listing), Tcp(20001);
    SecondStart(hash, channels, listing, RefNamed("alpha"), pk);
    if pk in Recovered(hash, channels, listing) {
      RecoveredFrom(hash, channels, listing, pk);
      if o :| o in Annotated(hash, channels, pk) {
        var i, j := AnnotatedFrom(hash, channels, pk, o);
      } else {
        var e: nat :| Leads(hash, channels, listing, e, pk);
        NotPublished(hash, listing[e]);
      }
    }
    if pk in FirstOwners(input) {
      forall r ensures !Holds(FirstBook(input).claims, r, pk) {
        SecondStart(hash, channels, listing, r, pk);
      }
      OnlyRecovered(input, pk);
    }
  }

  lemma NotPublished(hash: Hash, p: MuxPort)
    requires Apart(hash) && ShortHash(hash) && p in AfterFirst(hash).muxPorts
    ensures p.Key() != Tcp(20001)
  {
    hide RunUpTo, OutcomeOf, FirstBook, FirstOwners, ShortHash, Good, Fair, ChannelLe, FormatRanges, AfterSave,
      ResolutionOf;
    var input := FirstInput(hash);
    StoreAfterFirst(hash, RefNamed("alpha"), Tcp(80));
    AlphaGets(hash);
    BetaGetsFirst(hash);
    if p in Final(input).ports {
      PortsExact(input, 2, p);
      var i: nat :| i < 2 && PortOfAccepted(input, i, p);
      AcceptedIff(input, i);
      assert OutcomeOf(input, i).numbers == if i == 0 then [80] else [20000];
    }
  }

  /** `alpha` must wait: the store still holds 20000 for `beta`. */
  lemma AlphaWaits(hash: Hash, channels: seq<Channel>, listing: seq<MuxPort>)
    requires Apart(hash) && ShortHash(hash) && Edit(channels)
    ensures SecondInput(hash, channels, listing).channels == channels
    ensures var input := SecondInput(hash, channels, listing);
      && !OutcomeOf(input, 0).Accepted?
      && RunUpTo(input, 1).book == FirstBook(input) && RunUpTo(input, 1).owners == FirstOwners(input)
  {
    hide RunUpTo, OutcomeOf, FirstBook, FirstOwners, ShortHash, Good, Fair, ChannelLe, FormatRanges, AnnotatedPort,
      Holds, Requests,
      AllStatic, StaticNumbers, ResolutionOf;
    var input := SecondInput(hash, channels, listing);
    SecondStart(hash, channels, listing, RefNamed("beta"), Tcp(20000));
    SingleRequests(channels[0], "alpha", 20000);
    ForeignClaimBlocks(input, 0, 0, RefNamed("beta"));
    RejectedStep(input, 0);
    StaticResolution(input, 0);
    RunStart(input);
  }

  lemma BetaMoved(hash: Hash, channels: seq<Channel>, listing: seq<MuxPort>)
    requires Apart(hash) && ShortHash(hash) && Edit(channels) && Lists(listing, AfterFirst(hash).muxPorts)
    ensures SecondInput(hash, channels, listing).channels == channels
    ensures OutcomeOf(SecondInput(hash, channels, listing), 1) == Accepted([20001])
  {
    hide RunUpTo, OutcomeOf, FirstBook, FirstOwners, ShortHash, Good, Fair, ChannelLe, FormatRanges, Recovered,
      AnnotatedPort,
      AutoRanges, StaticClaims, Holds, Requests, FirstFree, Used, AfterPass;
    var input := SecondInput(hash, channels, listing);
    SameMux(hash);
    SecondStart(hash, channels, listing, RefNamed("beta"), Tcp(20000));
    AlphaWaits(hash, channels, listing);
    Unheard(hash, channels, listing);
    var claims, c := FirstBook(input).claims, Cfg(input);
    StaticOfPair(channels, 20000, Tcp(20000));
    StaticOfPair(channels, 20000, Tcp(20001));
    UsedIff(c, claims, OwnerOf(hash, RefNamed("beta")), Tcp(20000));
    UsedIff(c, claims, OwnerOf(hash, RefNamed("beta")), Tcp(20001));
    forall r ensures !Holds(claims, r, Tcp(20001)) {
      SecondStart(hash, channels, listing, r, Tcp(20001));
    }
    TwoPorts(Used(c, claims, OwnerOf(hash, RefNamed("beta"))));
    assert !Reusable(c, claims, RefNamed("beta")) by { ReservedNotReused(c, claims, RefNamed("beta"), Tcp(20000)); }
    BetaGets(input, 20001);
  }

  lemma ReservedNotReused(c: Config, claims: map<Ref, Claim>, ref: Ref, pk: PortKey)
    requires Holds(claims, ref, pk) && pk in c.reserved && pk.proto == ref.proto
    ensures !Reusable(c, claims, ref)
  {}

  lemma MoveIsRun(hash: Hash, channels: seq<Channel>, listing: seq<MuxPort>)
    requires Apart(hash) && ShortHash(hash) && Edit(channels) && Lists(listing, AfterFirst(hash).muxPorts)
    ensures Good(hash, StartCluster())
    ensures IsRun(hash, [StartCluster(), AfterFirst(hash), AfterEdit(hash, channels)], [FIRST_PASS, Edited(channels)])
    ensures Enabled(hash, AfterEdit(hash, channels), FullPass(listing, map[]))
    ensures StoreKept(FirstInput(hash), SecondInput(hash, channels, listing))
    ensures PortsKept(FirstInput(hash), SecondInput(hash, channels, listing))
  {
    hide OutcomeOf, ShortHash, Good, Fair, ChannelLe, FormatRanges, AnnotatedPort, RunUpTo, StoredAfter, AfterSave,
      BuildMuxPorts, CollisionFree, WellFormedAll;
    StartGood(hash);
    StoreAfterFirst(hash, RefNamed("beta"), Tcp(20000));
    SavedClaims(hash, StartCluster(), [PLACEHOLDER], map[]);
    PairWellFormed(hash, channels);
  }

  /** THEOREM (an automatic port moves). In a real run, a pass gives `beta` the automatic
      port 20000 and saves it; then `alpha` declares 20000 statically; and the next pass,
      with the store and the published ports in place, moves `beta` to 20001, although it
      cannot yet give 20000 to `alpha`. */
  lemma AutoPortMoves(hash: Hash, channels: seq<Channel>, listing: seq<MuxPort>)
    requires Apart(hash) && ShortHash(hash) && Edit(channels) && Lists(listing, AfterFirst(hash).muxPorts)
    ensures Good(hash, StartCluster())
    ensures IsRun(hash, [StartCluster(), AfterFirst(hash), AfterEdit(hash, channels)], [FIRST_PASS, Edited(channels)])
    ensures Enabled(hash, AfterEdit(hash, channels), FullPass(listing, map[]))
    ensures FirstInput(hash).channels == STARTERS && OutcomeOf(FirstInput(hash), 1) == Accepted([20000])
    ensures var second := SecondInput(hash, channels, listing);
      && second.channels == channels && StoreKept(FirstInput(hash), second) && PortsKept(FirstInput(hash), second)
      && OutcomeOf(second, 1) == Accepted([20001]) && !OutcomeOf(second, 0).Accepted?
      && !StillAllowed(second, Tcp(20000))
  {
    hide OutcomeOf, ShortHash, Good, Fair, ChannelLe, FormatRanges, AnnotatedPort, StaticClaims, RunUpTo, IsRun,
      Enabled,
      AfterPass, StoreKept, PortsKept, Contains, Lists;
    MoveIsRun(hash, channels, listing);
    BetaGetsFirst(hash);
    AlphaWaits(hash, channels, listing);
    BetaMoved(hash, channels, listing);
    StaticOfPair(channels, 20000, Tcp(20000));
  }
}
