/** Repeated passes over unchanging specs settle with automatic ports too. While the
    accepted set stays the same, a pass that changes a claim gives one more channel port
    a claim that it will keep. */
module AutoConvergence {
  import opened Annotations
  import opened Model
  import opened PortRanges
  import opened Sorting
  import opened ChannelOrder
  import opened Claims
  import opened Reconcile
  import opened PortLimit
  import opened Pass
  import opened PassFacts
  import opened PassInvariant
  import opened PassClaims
  import opened Stability
  import opened Recovery
  import opened Handover
  import opened Runs
  import opened Convergence

  // ---- claims that stay ----

  /** The port that `r` holds, if any, may be kept. */
  predicate Firm(c: Config, claims: map<Ref, Claim>, r: Ref) {
    && r in claims && claims[r].MuxPortNumber().Some?
    && var pk := PortKey(claims[r].MuxPortNumber().value, claims[r].Proto());
      && pk.proto == r.proto && Contains(c.ranges, pk.port) && pk !in c.reserved
      && (pk in c.recovered ==> c.recovered[pk] == OwnerOf(c.hash, r))
  }

  function FirmRefs(c: Config, claims: map<Ref, Claim>): set<Ref> {
    set r | r in claims && Firm(c, claims, r)
  }

  lemma FirmIsKeepable(c: Config, claims: map<Ref, Claim>, r: Ref, pk: PortKey)
    ensures Keepable(c, claims, r, pk) ==> Firm(c, claims, r)
    ensures Firm(c, claims, r) ==> Keepable(c, claims, r, PortKey(claims[r].MuxPortNumber().value, claims[r].Proto()))
  {}

  /** Nothing happened, or some port got a claim that stays; and all that had one keep it. */
  ghost predicate Improves(c: Config, before: Book, after: Book) {
    && FirmRefs(c, before.claims) <= FirmRefs(c, after.claims)
    && (after == before || FirmRefs(c, before.claims) != FirmRefs(c, after.claims))
  }

  lemma ImprovesOn(c: Config, a: Book, b: Book, d: Book)
    requires Improves(c, a, b) && Improves(c, b, d)
    ensures Improves(c, a, d)
  {
    hide FirmRefs;
  }

  lemma ImprovesNot(c: Config, a: Book)
    ensures Improves(c, a, a)
  {
    hide FirmRefs;
  }

  /** One allocation improves the book: a firm claim is reused, any other becomes firm. */
  lemma AllocateImproves(c: Config, b: Book, ref: Ref, channelPort: int)
    requires b.Valid() && Injective(b.claims)
    ensures Improves(c, b, Allocate(c, b, ref, channelPort).book)
  {
    hide Allocate, Contains, Injective, Book.Valid;
    var a := Allocate(c, b, ref, channelPort);
    AllocateFor(c, b, ref, channelPort);
    if Firm(c, b.claims, ref) {
      FirmIsKeepable(c, b.claims, ref, PortKey(0, ""));
      KeepableIsReused(c, b, ref, PortKey(b.claims[ref].MuxPortNumber().value, b.claims[ref].Proto()), channelPort);
    } else if a.book != b {
      AllocatedIsFirm(c, b, ref, channelPort);
      forall r | r in FirmRefs(c, b.claims) ensures r in FirmRefs(c, a.book.claims) {
        assert r != ref && Unmoved(b.claims, a.book.claims, r);
        assert Firm(c, b.claims, r);
      }
      assert ref in FirmRefs(c, a.book.claims) && ref !in FirmRefs(c, b.claims);
    }
  }

  lemma AllocatedIsFirm(c: Config, b: Book, ref: Ref, channelPort: int)
    requires b.Valid() && Injective(b.claims) && Allocate(c, b, ref, channelPort).book != b
    ensures Firm(c, Allocate(c, b, ref, channelPort).book.claims, ref)
  {
    var a := Allocate(c, b, ref, channelPort);
    AllocateFor(c, b, ref, channelPort);
    FirmIsKeepable(c, a.book.claims, ref, PortKey(a.port.value, ref.proto));
  }

  lemma {:induction false} ResolveImproves(c: Config, b: Book, ch: Channel, m: map<string, Request>, k: nat)
    requires WellFormed(ch) && b.Valid() && Injective(b.claims) && k <= |ch.ports|
    ensures Improves(c, b, ResolveUpTo(c, b, ch, m, k).book)
  {
    hide Allocate, WellFormed, Injective, Book.Valid, Improves, WantsAuto, StaticNumber, Numbered;
    if k == 0 {
      ImprovesNot(c, b);
    } else {
      ResolveImproves(c, b, ch, m, k - 1);
      var r := ResolveUpTo(c, b, ch, m, k - 1);
      ResolveKeeps(c, b, ch, m, k - 1);
      AllocateImproves(c, r.book, ch.RefOf(k - 1), ch.ports[k - 1].port);
      ImprovesOn(c, b, r.book, Allocate(c, r.book, ch.RefOf(k - 1), ch.ports[k - 1].port).book);
    }
  }

  // ---- one pass ----

  lemma ResolutionImproves(input: Input, i: nat)
    requires i < |input.channels| && Fair(input)
    ensures Improves(Cfg(input), RunUpTo(input, i).book, ResolutionOf(input, i).book)
  {
    hide RunUpTo, ResolveUpTo, Requests, Injective, CollisionFree, Improves, Cfg, Backed;
    ClaimsSane(input, i);
    var ch := input.channels[i];
    if Requests(ch).Ok? {
      ResolveImproves(Cfg(input), RunUpTo(input, i).book, ch, Requests(ch).value, |ch.ports|);
    } else {
      ImprovesNot(Cfg(input), RunUpTo(input, i).book);
    }
  }

  /** An accepted channel that was accepted before, and whose numbers are recorded, adds
      nothing. */
  lemma AcceptedTurnIdle(first: Input, second: Input, i: nat)
    requires Successive(first, second) && Acc(first) == Acc(second) && i in Acc(second)
    ensures RunUpTo(second, i + 1).book == RunUpTo(second, i).book
  {
    hide RunUpTo, OutcomeOf, FirstBook, Requests, Record, FormatPorts, ResolutionOf, AutoNames, ClaimWith,
      CollisionFree, Injective,
      StoreKept, PortsKept, ShortHash, WellFormedAll, TotalPorts, MaxPorts, AllStillAllowed, TracesKept, LinesOf;
    AllowedAgain(first, second, i);
    ResolvedAgain(first, second, i, i);
    AgainOrSkipped(first, second, i);
    SecondRecorded(first, second, i);
    AcceptedStep(second, i);
    AcceptedNamed(second, i);
    var ch, numbers, b := second.channels[i], OutcomeOf(second, i).numbers, RunUpTo(second, i).book;
    forall j | 0 <= j < |numbers|
      ensures ch.RefOf(j) in b.claims
      ensures b.claims[ch.RefOf(j)] == ClaimWith(ch, j, numbers[j], AutoNames(ch.externalPorts))
    {
      BeforeTurn(second, i, j);
    }
    assert WellFormed(ch) by { WellFormedAt(second.channels, i); }
    RecordNothingNew(b, ch, numbers);
  }

  lemma WellFormedAt(channels: seq<Channel>, i: nat)
    requires WellFormedAll(channels) && i < |channels|
    ensures WellFormed(channels[i])
  {}

  /** If the accepted set did not grow, the pass as a whole improves the claims. */
  lemma {:induction false} PassImproves(first: Input, second: Input, k: nat)
    requires Successive(first, second) && Acc(first) == Acc(second) && k <= |second.channels|
    ensures Improves(Cfg(second), FirstBook(second), RunUpTo(second, k).book)
  {
    hide RunUpTo, OutcomeOf, FirstBook, Improves, Cfg, ResolutionOf, StoreKept, PortsKept, ShortHash, SameSpecs;
    if k == 0 {
      RunStart(second);
      ImprovesNot(Cfg(second), FirstBook(second));
    } else {
      var i: nat := k - 1;
      PassImproves(first, second, i);
      if OutcomeOf(second, i).Accepted? {
        assert i in Acc(second);
        AcceptedTurnIdle(first, second, i);
      } else {
        RejectedStep(second, i);
        ResolutionImproves(second, i);
        if RunUpTo(second, k).book == ResolutionOf(second, i).book {
          ImprovesOn(Cfg(second), FirstBook(second), RunUpTo(second, i).book, RunUpTo(second, k).book);
        }
      }
    }
  }

  // ---- three passes in a row ----

  /** If the accepted set did not grow, the next pass works under the same configuration. */
  lemma SameConfig(first: Input, second: Input, third: Input)
    requires Successive(first, second) && Successive(second, third) && Acc(first) == Acc(second)
    ensures Cfg(third) == Cfg(second)
  {
    hide RunUpTo, OutcomeOf, FirstBook, Fair, ShortHash, StoredAfter, Recovered, StaticClaims, AutoRanges, SameSpecs,
      Acc, Lists;
    SamePublished(first, second);
    assert DistinctKeys(BuildMuxPorts(Final(first).ports)) by { PublishedPorts(first); }
    OrderIrrelevant(second.hash, second.channels, second.livePorts, third.livePorts, BuildMuxPorts(Final(first).ports));
  }

  /** The number of channel ports whose claims stay. */
  ghost function FirmCount(input: Input): nat {
    |FirmRefs(Cfg(input), FirstBook(input).claims)|
  }

  /** If the accepted set did not grow and yet the book changed, more claims stay. */
  lemma MoreFirm(first: Input, second: Input, third: Input)
    requires Successive(first, second) && Successive(second, third) && Acc(first) == Acc(second)
    requires Final(second).book != FirstBook(second)
    ensures FirmCount(third) > FirmCount(second)
  {
    hide RunUpTo, OutcomeOf, FirstBook, Fair, ShortHash, StoredAfter, Cfg, Acc, FirmRefs, PortsKept;
    SameConfig(first, second, third);
    PassImproves(first, second, |second.channels|);
    assert FirstBook(third).claims == Final(second).book.claims by { NothingToRewrite(second, third); }
    Proper(FirmRefs(Cfg(second), FirstBook(second).claims), FirmRefs(Cfg(second), Final(second).book.claims));
  }

  lemma Proper<T>(a: set<T>, b: set<T>)
    requires a <= b && a != b
    ensures |a| < |b|
  {
    var x :| x in b && x !in a;
    SubsetSize(a, b - {x});
  }

  lemma FirmBound(input: Input)
    ensures FirmCount(input) <= |ActiveRefs(input.channels)|
  {
    hide Load, Cfg, Firm;
    LoadValid(LoadedState(input), ActiveRefs(input.channels));
    SubsetSize(FirmRefs(Cfg(input), FirstBook(input).claims), ActiveRefs(input.channels));
  }

  // ---- runs of passes ----

  /** If neither the accepted set grows nor the book changes, the cluster stays. */
  lemma SettledByBook(hash: Hash, c: Cluster, e: Event, f: Event)
    requires Good(hash, c) && ShortHash(hash) && e.FullPass? && f.FullPass? && Readable(PassInput(hash, c, e).channels)
    requires Lists(f.listing, AfterPass(c, PassInput(hash, c, e)).muxPorts)
    requires var first := PassInput(hash, c, e); var d := AfterPass(c, first); var second := PassInput(hash, d, f);
      Acc(first) == Acc(second) && Final(second).book == FirstBook(second)
    ensures var d := AfterPass(c, PassInput(hash, c, e)); AfterPass(d, PassInput(hash, d, f)) == d
  {
    hide RunUpTo, Good, ChannelLe, StoredAfter, BuildMuxPorts, Readable, NoAuto, TotalPorts, MaxPorts, Acc, FirstBook,
      ToState, Lists, ShortHash, Fair, SameSpecs;
    var d := AfterPass(c, PassInput(hash, c, e));
    AfterShape(hash, c, e);
    InARow(hash, c, e, f);
    SamePublished(PassInput(hash, c, e), PassInput(hash, d, f));
    NothingToRewrite(PassInput(hash, c, e), PassInput(hash, d, f));
  }

  lemma {:induction false} ActiveKept(hash: Hash, trace: seq<Cluster>, events: seq<Event>, t: nat)
    requires Passes(hash, trace, events) && t < |trace| && Good(hash, trace[0])
    ensures ActiveRefs(Sort(trace[t].channels, ChannelLe)) == ActiveRefs(trace[t].channels)
      == ActiveRefs(trace[0].channels)
  {
    hide ActiveRefs, ChannelLe, RunUpTo, Readable, CollisionFree, WellFormedAll, SameSpecs, Passes, Injective,
      BuildMuxPorts;
    SortedActive(trace[t].channels);
    if t > 0 {
      ActiveKept(hash, trace, events, t - 1);
      assert t - 1 < |events| by { PassesLength(hash, trace, events); }
      PassAt(hash, trace, events, t - 1);
      var input := PassInput(hash, trace[t - 1], events[t - 1]);
      ClaimsExclusiveOverRuns(hash, trace, events, t - 1) by { PassesRun(hash, trace, events); }
      WrittenSpecs(input, 0);
      ChannelsKept(hash, trace[t - 1], Final(input).channels);
    }
  }

  lemma PassesRun(hash: Hash, trace: seq<Cluster>, events: seq<Event>)
    requires Passes(hash, trace, events)
    ensures IsRun(hash, trace, events)
  {}

  /** How far a run has come by its pass `t`, `m` being the number of channel ports: an
      accepted channel outweighs every claim. */
  ghost function Potential(hash: Hash, trace: seq<Cluster>, events: seq<Event>, t: nat, m: nat): int
    requires 0 < t < |events| && |events| < |trace| && events[t - 1].FullPass? && events[t].FullPass?
  {
    |Acc(PassInput(hash, trace[t - 1], events[t - 1]))| * (m + 1) + FirmCount(PassInput(hash, trace[t], events[t]))
  }

  /** The arithmetic of the potential: an accepted channel more, or a firm claim more. */
  lemma Outweighs(a: nat, b: nat, v: nat, w: nat, m: nat)
    requires v <= m && ((a == b && w > v) || b > a)
    ensures b * (m + 1) + w > a * (m + 1) + v
  {
    if b > a {
      Scaled(a + 1, b, m + 1);
      assert (a + 1) * (m + 1) == a * (m + 1) + (m + 1);
    }
  }

  lemma {:induction false} Scaled(a: nat, b: nat, k: nat)
    requires a <= b
    ensures a * k <= b * k
  {
    if a < b {
      Scaled(a, b - 1, k);
      assert b * k == (b - 1) * k + k;
    }
  }

  /** A pass that changes anything raises the potential. */
  lemma PotentialRises(hash: Hash, trace: seq<Cluster>, events: seq<Event>, t: nat, m: nat)
    requires Passes(hash, trace, events) && Steady(hash, trace[0]) && m == |ActiveRefs(trace[0].channels)|
    requires 2 <= t < |events| && trace[t - 1] != trace[t - 2] && trace[t] != trace[t - 1]
    requires |events| < |trace| && events[t - 2].FullPass? && events[t - 1].FullPass? && events[t].FullPass?
    ensures Potential(hash, trace, events, t, m) > Potential(hash, trace, events, t - 1, m)
  {
    hide Steady, AfterPass, Acc, Successive, Readable, Lists, FirmCount, ActiveRefs, ChannelLe, Good, FirstBook,
      RunUpTo, ShortHash, Roomy;
    assert Good(hash, trace[0]) by { SteadyGood(hash, trace[0]); }
    PassAt(hash, trace, events, t - 2);
    PassAt(hash, trace, events, t - 1);
    PassAt(hash, trace, events, t);
    SteadyThroughout(hash, trace, events, t - 2);
    SteadyThroughout(hash, trace, events, t - 1);
    var first, second, third := PassInput(hash, trace[t - 2], events[t - 2]),
      PassInput(hash, trace[t - 1], events[t - 1]), PassInput(hash, trace[t], events[t]);
    ChangedReadable(trace[t - 2], first);
    ChangedReadable(trace[t - 1], second);
    SteadyGood(hash, trace[t - 2]);
    SteadyGood(hash, trace[t - 1]);
    InARow(hash, trace[t - 2], events[t - 2], events[t - 1]);
    InARow(hash, trace[t - 1], events[t - 1], events[t]);
    AcceptedSetGrows(first, second);
    ActiveKept(hash, trace, events, t - 1);
    FirmBound(second);
    if Acc(first) == Acc(second) {
      if Final(second).book == FirstBook(second) {
        SettledByBook(hash, trace[t - 2], events[t - 2], events[t - 1]);
      }
      MoreFirm(first, second, third);
    } else {
      StrictlyMore(Acc(first), Acc(second));
    }
    Outweighs(|Acc(first)|, |Acc(second)|, FirmCount(second), FirmCount(third), m);
  }

  lemma ChangedReadable(c: Cluster, input: Input)
    requires AfterPass(c, input) != c
    ensures Readable(input.channels)
  {
    if !Readable(input.channels) {
      UnreadableIdle(c, input);
    }
  }

  lemma {:induction false} PotentialSum(hash: Hash, trace: seq<Cluster>, events: seq<Event>, t: nat, m: nat)
    requires Passes(hash, trace, events) && Steady(hash, trace[0]) && m == |ActiveRefs(trace[0].channels)|
    requires 1 <= t < |events| && forall u | 0 <= u < t :: trace[u + 1] != trace[u]
    ensures |events| < |trace| && events[t - 1].FullPass? && events[t].FullPass?
    ensures Potential(hash, trace, events, t, m) >= t - 1
  {
    hide Steady, Potential, ActiveRefs, Passes, AfterPass, PassInput, Lists;
    PassAt(hash, trace, events, t - 1);
    PassAt(hash, trace, events, t);
    if t > 1 {
      PassAt(hash, trace, events, t - 2);
      PotentialSum(hash, trace, events, t - 1, m);
      assert trace[t - 2 + 1] != trace[t - 2] && trace[t - 1 + 1] != trace[t - 1];
      PotentialRises(hash, trace, events, t, m);
    } else {
      PotentialNonNegative(hash, trace, events, t, m);
    }
  }

  lemma PotentialNonNegative(hash: Hash, trace: seq<Cluster>, events: seq<Event>, t: nat, m: nat)
    requires 0 < t < |events| && |events| < |trace| && events[t - 1].FullPass? && events[t].FullPass?
    ensures Potential(hash, trace, events, t, m) >= 0
  {
    Scaled(0, |Acc(PassInput(hash, trace[t - 1], events[t - 1]))|, m + 1);
  }

  /** The number of passes that suffice for `n` channels with `m` ports. */
  function PassesToSettle(n: nat, m: nat): nat {
    (n + 1) * (m + 1) + 1
  }

  lemma PotentialBound(hash: Hash, trace: seq<Cluster>, events: seq<Event>, t: nat, m: nat)
    requires Passes(hash, trace, events) && Steady(hash, trace[0]) && m == |ActiveRefs(trace[0].channels)|
    requires 1 <= t < |events| && |events| < |trace| && events[t - 1].FullPass? && events[t].FullPass?
    ensures Potential(hash, trace, events, t, m) < PassesToSettle(|trace[0].channels|, m) - 1
  {
    hide Steady, AfterPass, Acc, FirmCount, ActiveRefs, ChannelLe, Good, Passes;
    assert Good(hash, trace[0]) by { SteadyGood(hash, trace[0]); }
    var n, before, input := |trace[0].channels|, PassInput(hash, trace[t - 1], events[t - 1]),
      PassInput(hash, trace[t], events[t]);
    SteadyThroughout(hash, trace, events, t - 1);
    AccSize(before);
    ActiveKept(hash, trace, events, t);
    FirmBound(input);
    assert |Acc(before)| <= n;
    Scaled(|Acc(before)|, n, m + 1);
    assert (n + 1) * (m + 1) == n * (m + 1) + m + 1;
  }

  /** THEOREM (convergence with automatic ports). With unchanging specs, room for all
      declared ports and nobody else writing, any n channels with m ports in all settle
      within (n + 1) * (m + 1) + 1 passes, whatever they ask for and whatever claims,
      annotations and live ports the run starts from: from then on no pass changes a
      claim, an annotation or a mux port. */
  lemma EveryRunSettles(hash: Hash, trace: seq<Cluster>, events: seq<Event>, t: nat)
    requires Passes(hash, trace, events) && Steady(hash, trace[0])
    requires PassesToSettle(|trace[0].channels|, |ActiveRefs(trace[0].channels)|) <= t < |trace|
    ensures trace[t] == trace[PassesToSettle(|trace[0].channels|, |ActiveRefs(trace[0].channels)|)]
  {
    hide Steady, AfterPass, Passes, PassInput, ActiveRefs, Good, Potential, PassesToSettle;
    assert |trace| == |events| + 1 by { PassesLength(hash, trace, events); }
    var m := |ActiveRefs(trace[0].channels)|;
    var settled := PassesToSettle(|trace[0].channels|, m);
    assert settled >= 1 by { AtLeastOne(|trace[0].channels|, m); }
    if t > settled {
      assert Good(hash, trace[0]) by { SteadyGood(hash, trace[0]); }
      if u :| 0 <= u < settled && trace[u + 1] == trace[u] {
        SettledForGood(hash, trace, events, u, t);
        SettledForGood(hash, trace, events, u, settled);
      } else {
        PotentialSum(hash, trace, events, settled, m);
        PotentialBound(hash, trace, events, settled, m);
        assert false;
      }
    }
  }

  lemma AtLeastOne(n: nat, m: nat)
    ensures PassesToSettle(n, m) >= 1
  {}
}
