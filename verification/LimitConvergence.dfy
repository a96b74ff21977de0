/** Repeated passes over unchanging specs settle under any port limit. Channels that were
    accepted once keep their ports in reserve while the limit skips them; so the set of
    channels with secure ports only grows, and among them the limit decides alone. */
module LimitConvergence {
  import opened Wrappers
  import opened Annotations
  import opened Model
  import opened PortRanges
  import opened Sorting
  import opened ChannelOrder
  import opened Claims
  import opened Reconcile
  import opened PortLimit
  import opened Pass
  import opened PassFacts
  import opened PassInvariant
  import opened PassClaims
  import opened Stability
  import opened Recovery
  import opened Handover
  import opened Runs
  import opened Convergence
  import opened AutoConvergence

  // ---- secure ports ----

  /** Nothing can make the channel lose its automatic port `pk`, number `j`. */
  ghost predicate SecureAuto(input: Input, ch: Channel, j: nat, pk: PortKey)
    requires j < |ch.ports|
  {
    StillAllowed(input, pk) && Friendly(input, ch.RefOf(j), pk) && AnnotatedPort(ch, j) == Some(pk)
  }

  /** Channel `i` brings `numbers` into the pass, and only the limit can keep it out. */
  ghost predicate SecureWith(input: Input, i: nat, numbers: seq<int>) {
    && i < |input.channels| && Requests(input.channels[i]).Ok? && |numbers| == |input.channels[i].ports|
    && Claimed(FirstBook(input).claims, input.channels[i], numbers)
    && forall j | 0 <= j < |numbers| :: SecurePort(input, i, numbers, j)
  }

  ghost predicate SecurePort(input: Input, i: nat, numbers: seq<int>, j: nat)
    requires i < |input.channels| && Requests(input.channels[i]).Ok? && j < |numbers| == |input.channels[i].ports|
  {
    var ch := input.channels[i];
    if WantsAuto(Requests(ch).value, ch.ports[j]) then SecureAuto(input, ch, j, NumberKey(ch, numbers, j))
    else numbers[j] == StaticNumber(Requests(ch).value, ch.ports[j])
  }

  ghost predicate Secure(input: Input, i: nat) {
    exists numbers :: SecureWith(input, i, numbers)
  }

  ghost function SecureSet(input: Input): set<nat> {
    set i: nat | i < |input.channels| && Secure(input, i)
  }

  lemma SecureBrings(input: Input, i: nat, numbers: seq<int>, j: nat)
    requires Fair(input) && SecureWith(input, i, numbers) && j < |numbers|
    ensures Brings(Cfg(input), RunUpTo(input, i).book.claims, input.channels[i], Requests(input.channels[i]).value,
      numbers, j)
  {
    hide RunUpTo, FirstBook, Fair, Requests, Recovered, StaticClaims, AutoRanges, Contains, AnnotatedPort;
    assert SecurePort(input, i, numbers, j);
    ClaimedAt(FirstBook(input).claims, input.channels[i], numbers, j);
    TurnClaims(input, i, j, NumberKey(input.channels[i], numbers, j));
  }

  /** A secure channel resolves to its numbers, and is accepted unless the limit skips it. */
  lemma SecureOutcome(input: Input, i: nat, numbers: seq<int>)
    requires Fair(input) && SecureWith(input, i, numbers)
    ensures ResolutionOf(input, i) == Resolution(RunUpTo(input, i).book, numbers, None)
    ensures OutcomeOf(input, i) == if OutcomeOf(input, i).LimitExceeded? then LimitExceeded else Accepted(numbers)
  {
    hide RunUpTo, OutcomeOf, FirstBook, CollisionFree, WellFormedAll, Requests, SecurePort, Claimed, Cfg, Brings,
      ResolveUpTo, Backed;
    var ch, b := input.channels[i], RunUpTo(input, i).book;
    var m := Requests(ch).value;
    ClaimsSane(input, i);
    forall j | 0 <= j < |numbers| ensures Brings(Cfg(input), b.claims, ch, m, numbers, j) {
      SecureBrings(input, i, numbers, j);
    }
    ResolveSame(Cfg(input), b, ch, m, numbers, |numbers|);
    assert numbers[..|numbers|] == numbers;
    Retained(input, i, numbers);
  }

  // ---- from one pass to the next ----

  /** A secure channel's claims outlive the pass. */
  lemma SecureClaims(input: Input, i: nat, numbers: seq<int>)
    requires Fair(input) && SecureWith(input, i, numbers)
    ensures Claimed(Final(input).book.claims, input.channels[i], numbers)
  {
    hide RunUpTo, OutcomeOf, ResolutionOf, FirstBook, Fair, SecurePort, Holds, Requests;
    SecureOutcome(input, i, numbers);
    if OutcomeOf(input, i).Accepted? {
      AcceptedClaimed(input, i);
    } else {
      RejectedStep(input, i);
      forall j | 0 <= j < |numbers|
        ensures Holds(Final(input).book.claims, input.channels[i].RefOf(j), NumberKey(input.channels[i], numbers, j))
      {
        KeptThrough(input, i, j, NumberKey(input.channels[i], numbers, j));
      }
    }
  }

  lemma KeptThrough(input: Input, i: nat, j: nat, pk: PortKey)
    requires Fair(input) && i < |input.channels| && j < |input.channels[i].ports|
    requires Holds(FirstBook(input).claims, input.channels[i].RefOf(j), pk)
    requires RunUpTo(input, i + 1).book == RunUpTo(input, i).book
    ensures Holds(Final(input).book.claims, input.channels[i].RefOf(j), pk)
  {
    hide RunUpTo, FirstBook, Fair;
    BeforeTurn(input, i, j);
    AfterTurn(input, i, j, |input.channels|);
  }

  /** An accepted channel's annotation states its port afterwards; a skipped one's states
      what it did. */
  lemma AnnotationAfter(first: Input, second: Input, i: nat, j: nat, pk: PortKey)
    requires Successive(first, second) && i < |first.channels| && j < |first.channels[i].ports|
    requires OutcomeOf(first, i).Accepted? ==>
      (j < |OutcomeOf(first, i).numbers| <= |first.channels[i].ports|
       && NumberKey(first.channels[i], OutcomeOf(first, i).numbers, j) == pk)
    requires !OutcomeOf(first, i).Accepted? ==> AnnotatedPort(first.channels[i], j) == Some(pk)
    ensures i < |second.channels| && second.channels[i].SameSpec(first.channels[i])
    ensures AnnotatedPort(second.channels[i], j) == Some(pk)
  {
    hide RunUpTo, OutcomeOf, ResolutionOf, FirstBook, CollisionFree, Injective, Requests, StoreKept, PortsKept,
      ShortHash, AnnotatedPort,
      FormatPorts, LinesOf, WellFormed;
    assert second.channels[i].SameSpec(first.channels[i]);
    ChannelAfter(first, i);
    if OutcomeOf(first, i).Accepted? {
      AcceptedStep(first, i);
      AcceptedNamed(first, i);
      AnnotationReadsBack(first.channels[i], OutcomeOf(first, i).numbers, j);
    }
  }

  /** Once the first pass has published, nobody else is recovered for a port that the
      store held for `r` and that the annotation of `r` states. */
  lemma FriendlyAfter(first: Input, second: Input, i: nat, j: nat, pk: PortKey)
    requires Successive(first, second) && i < |second.channels| && j < |second.channels[i].ports|
    requires second.channels[i].ports[j].name != ""
    requires Holds(FirstBook(first).claims, second.channels[i].RefOf(j), pk)
    requires AnnotatedPort(second.channels[i], j) == Some(pk)
    ensures Friendly(second, second.channels[i].RefOf(j), pk)
  {
    hide RunUpTo, OutcomeOf, FirstBook, CollisionFree, WellFormedAll, Injective, Holds, AnnotatedPort, Annotated,
      Recovered, StoreKept,
      ShortHash, SameSpecs, ActiveRefs, Candidates;
    var r := second.channels[i].RefOf(j);
    if pk in Recovered(second.hash, second.channels, second.livePorts) {
      RecoveredFrom(second.hash, second.channels, second.livePorts, pk);
      var o := Recovered(second.hash, second.channels, second.livePorts)[pk];
      if e: nat :| (Leads(second.hash, second.channels, second.livePorts, e, pk)
          && Candidates(second.hash, second.channels, second.livePorts[e].name) == {o}) {
        ActiveRefsIff(second.channels, r);
        LiveIsOwn(first, second, e, r, pk);
      } else {
        AnnotatedHas(second.hash, second.channels, i, j, pk);
      }
    }
  }

  lemma LiveIsOwn(first: Input, second: Input, e: nat, r: Ref, pk: PortKey)
    requires Successive(first, second) && Leads(second.hash, second.channels, second.livePorts, e, pk)
    requires Holds(FirstBook(first).claims, r, pk) && r in ActiveRefs(second.channels)
    ensures Candidates(second.hash, second.channels, second.livePorts[e].name) == {OwnerOf(second.hash, r)}
  {
    hide RunUpTo, OutcomeOf, FirstBook, CollisionFree, WellFormedAll, Injective, Holds, StoreKept, ShortHash,
      SameSpecs, ActiveRefs,
      Candidates, ResolutionOf;
    NoPlaceholderOwner(second.hash, second.channels);
    var p := second.livePorts[e];
    assert p in second.livePorts && p in BuildMuxPorts(Final(first).ports);
    assert p in Final(first).ports;
    PortsExact(first, |first.channels|, p);
    var k: nat :| k < |first.channels| && PortOfAccepted(first, k, p);
    AcceptedStep(first, k);
    var y: nat :| y < |first.channels[k].ports|
      && p == MuxPortOf(first.hash, first.channels[k], y, OutcomeOf(first, k).numbers[y]);
    AcceptedOwnClaim(first, k, y, r);
    CandidatesOfActive(second.hash, second.channels, r);
  }

  lemma SameAllowed(first: Input, second: Input, pk: PortKey)
    requires Successive(first, second)
    ensures StillAllowed(first, pk) <==> StillAllowed(second, pk)
  {
    hide RunUpTo, Fair, Recovered, AutoRanges, PortsKept, ShortHash, Contains;
    SameSpecsStatic(second.channels, first.channels);
  }

  lemma PortNamed(ch: Channel, j: nat)
    requires Requests(ch).Ok? && j < |ch.ports|
    ensures ch.ports[j].name != "" && Named(ch)
  {
    hide ExternalPorts;
  }

  /** THEOREM (security lasts). A secure channel stays secure, with the same ports,
      whether it is accepted or skipped. */
  lemma SecureStays(first: Input, second: Input, i: nat, numbers: seq<int>)
    requires Successive(first, second) && SecureWith(first, i, numbers)
    ensures SecureWith(second, i, numbers)
  {
    hide RunUpTo, OutcomeOf, ResolutionOf, FirstBook, Fair, Holds, Requests, StoreKept, PortsKept, ShortHash,
      AnnotatedPort, StillAllowed,
      Friendly, StaticNumber;
    SecureOutcome(first, i, numbers);
    SecureClaims(first, i, numbers);
    NothingToRewrite(first, second);
    var a, b := first.channels[i], second.channels[i];
    assert b.SameSpec(a);
    SameRequests(b, a);
    SpecClaimed(FirstBook(second).claims, a, b, numbers);
    forall j | 0 <= j < |numbers| ensures SecurePort(second, i, numbers, j) {
      assert SecurePort(first, i, numbers, j);
      assert NumberKey(b, numbers, j) == NumberKey(a, numbers, j);
      if WantsAuto(Requests(b).value, b.ports[j]) {
        var pk := NumberKey(a, numbers, j);
        SameAllowed(first, second, pk);
        AnnotationAfter(first, second, i, j, pk);
        ClaimedAt(FirstBook(first).claims, a, numbers, j);
        PortNamed(a, j);
        FriendlyAfter(first, second, i, j, pk);
      }
    }
  }

  /** THEOREM (acceptance secures). */
  lemma AcceptedSecure(first: Input, second: Input, i: nat)
    requires Successive(first, second) && i in Acc(first)
    ensures SecureWith(second, i, OutcomeOf(first, i).numbers)
  {
    hide RunUpTo, OutcomeOf, ResolutionOf, FirstBook, Fair, Holds, Requests, ShortHash, AnnotatedPort, StillAllowed,
      Friendly, StaticNumber, StoreKept, PortsKept, Claimed;
    AllowedAgain(first, second, i);
    AcceptedStep(first, i);
    AcceptedNumbers(first, i);
    ClaimedNext(first, second, i, i);
    var a, b, numbers := first.channels[i], second.channels[i], OutcomeOf(first, i).numbers;
    assert b.SameSpec(a);
    SameRequests(b, a);
    forall j | 0 <= j < |numbers| ensures SecurePort(second, i, numbers, j) {
      assert NumberKey(b, numbers, j) == NumberKey(a, numbers, j);
      if WantsAuto(Requests(b).value, b.ports[j]) {
        AnnotationAfter(first, second, i, j, NumberKey(a, numbers, j));
        ActiveAgain(first, second, i, j);
        PortsFriendly(first, second, i, j);
      }
    }
  }

  lemma ActiveAgain(first: Input, second: Input, i: nat, j: nat)
    requires Successive(first, second) && i in Acc(first) && j < |first.channels[i].ports|
    ensures CollisionFree(second.hash, second.channels) && first.channels[i].RefOf(j) in ActiveRefs(second.channels)
    ensures PortsKept(first, second) && OutcomeOfAccepted(first, i)
  {
    hide OutcomeOf, Requests, WellFormedAll, Injective, FirstBook, StoreKept, ShortHash;
    AcceptedNamed(first, i);
    RefsActive(first.channels, i);
    assert first.channels[i].RefOf(j) in RefsOf(first.channels[i]);
    SameSpecsActive(second.channels, first.channels);
  }

  lemma SecureGrows(first: Input, second: Input)
    requires Successive(first, second)
    ensures SecureSet(first) <= SecureSet(second) && Acc(first) <= SecureSet(second)
  {
    hide SecureWith, OutcomeOf, Fair, StoreKept, PortsKept, ShortHash;
    forall i | i in SecureSet(first) ensures i in SecureSet(second) {
      var numbers :| SecureWith(first, i, numbers);
      SecureStays(first, second, i, numbers);
      SecureIndex(second, i, numbers);
    }
    forall i | i in Acc(first) ensures i in SecureSet(second) {
      AcceptedSecure(first, second, i);
      SecureIndex(second, i, OutcomeOf(first, i).numbers);
    }
  }

  lemma SecureIndex(input: Input, i: nat, numbers: seq<int>)
    requires SecureWith(input, i, numbers)
    ensures i in SecureSet(input)
  {
    assert i < |input.channels| && Secure(input, i);
  }

  // ---- the limit decides alone ----

  /** A secure channel has the same ports in both passes. */
  lemma SameNewPorts(first: Input, second: Input, i: nat)
    requires Successive(first, second) && i in SecureSet(first)
    ensures i < |second.channels| && NewPorts(first, i) == NewPorts(second, i)
    ensures OutcomeOf(first, i).Accepted? <==> !OutcomeOf(first, i).LimitExceeded?
    ensures OutcomeOf(second, i).Accepted? <==> !OutcomeOf(second, i).LimitExceeded?
  {
    hide RunUpTo, OutcomeOf, ResolutionOf, SecureWith, Fair, PortsKept, ShortHash, StoredAfter, MuxPortsOf;
    var numbers :| SecureWith(first, i, numbers);
    SecureStays(first, second, i, numbers);
    SecureOutcome(first, i, numbers);
    SecureOutcome(second, i, numbers);
    assert second.channels[i].SameSpec(first.channels[i]);
    SamePorts(first.hash, first.channels[i], second.channels[i], numbers);
  }

  /** Two passes that accept secure channels only, and the same are secure in both. */
  ghost predicate Steered(first: Input, second: Input) {
    && Successive(first, second) && SecureSet(first) == SecureSet(second)
    && Acc(first) <= SecureSet(first) && Acc(second) <= SecureSet(second)
  }

  lemma {:induction false} SamePrefix(first: Input, second: Input, k: nat)
    requires Steered(first, second) && k <= |first.channels| == |second.channels|
    ensures RunUpTo(first, k).ports == RunUpTo(second, k).ports
    ensures forall i: nat | i < k :: i in Acc(first) <==> i in Acc(second)
  {
    hide RunUpTo, OutcomeOf, NewPorts, Secure, Fair, StoreKept, PortsKept, ShortHash, MaxPorts, Compatible,
      ResolutionOf;
    if k == 0 {
      RunStart(first);
      RunStart(second);
    } else {
      var i: nat := k - 1;
      SamePrefix(first, second, i);
      SameTurn(first, second, i);
      if i in Acc(first) {
        AcceptedPorts(first, i);
        AcceptedPorts(second, i);
      } else {
        RejectedStep(first, i);
        RejectedStep(second, i);
      }
    }
  }

  lemma SameTurn(first: Input, second: Input, i: nat)
    requires Steered(first, second) && i < |first.channels| == |second.channels|
    requires RunUpTo(first, i).ports == RunUpTo(second, i).ports
    ensures i in Acc(first) <==> i in Acc(second)
    ensures i in Acc(first) ==> NewPorts(first, i) == NewPorts(second, i)
  {
    hide RunUpTo, OutcomeOf, NewPorts, Secure, Fair, StoreKept, PortsKept, ShortHash, MaxPorts, Compatible,
      ResolutionOf;
    if i in SecureSet(first) {
      SameNewPorts(first, second, i);
      AcceptedIff(first, i);
      AcceptedIff(second, i);
      assert second.channels[i].SameSpec(first.channels[i]);
    }
  }

  lemma SameAccepted(first: Input, second: Input)
    requires Steered(first, second)
    ensures Acc(first) == Acc(second)
  {
    hide OutcomeOf, SecureSet, Fair, StoreKept, PortsKept, ShortHash;
    var n := |first.channels|;
    assert |second.channels| == n;
    SamePrefix(first, second, n);
    forall i ensures i in Acc(first) <==> i in Acc(second) {
      if i in Acc(first) || i in Acc(second) {
        assert i < n;
      }
    }
  }

  /** THEOREM (the limit decides alone). If three passes in a row find the same channels
      secure, the first two of them accept the same. */
  lemma SameSecureSameAccepted(first: Input, second: Input, third: Input)
    requires Successive(first, second) && Successive(second, third)
    requires SecureSet(first) == SecureSet(second) == SecureSet(third)
    ensures Acc(first) == Acc(second)
  {
    hide SecureSet, Acc, Successive;
    SecureGrows(first, second);
    SecureGrows(second, third);
    SameAccepted(first, second);
  }

  // ---- runs of passes ----

  lemma {:induction false} SpecsKept(hash: Hash, trace: seq<Cluster>, events: seq<Event>, t: nat)
    requires Passes(hash, trace, events) && t < |trace| && Good(hash, trace[0])
    ensures SameSpecs(Sort(trace[t].channels, ChannelLe), Sort(trace[0].channels, ChannelLe))
    ensures |Sort(trace[t].channels, ChannelLe)| == |trace[0].channels|
  {
    hide ChannelLe, Readable, AfterSave, RunUpTo, BuildMuxPorts, Passes, Good, Lists;
    if t == 0 {
      SortKeeps(trace[0].channels, ChannelLe);
      SameSpecsRefl(Sort(trace[0].channels, ChannelLe));
    } else {
      SpecsKept(hash, trace, events, t - 1);
      assert t - 1 < |events| by { PassesLength(hash, trace, events); }
      PassAt(hash, trace, events, t - 1);
      ClaimsExclusiveOverRuns(hash, trace, events, t - 1) by { PassesRun(hash, trace, events); }
      if Readable(PassInput(hash, trace[t - 1], events[t - 1]).channels) {
        AfterShape(hash, trace[t - 1], events[t - 1]);
        SpecsOfSpecs(Sort(trace[t].channels, ChannelLe), Sort(trace[t - 1].channels, ChannelLe),
          Sort(trace[0].channels, ChannelLe));
      }
    }
  }

  lemma SpecsOfSpecs(a: seq<Channel>, b: seq<Channel>, c: seq<Channel>)
    requires SameSpecs(a, b) && SameSpecs(b, c)
    ensures SameSpecs(a, c)
  {
    forall i | 0 <= i < |a| ensures a[i].SameSpec(c[i]) {
      assert a[i].SameSpec(b[i]) && b[i].SameSpec(c[i]);
    }
  }

  lemma StaticKept(a: seq<Channel>, b: seq<Channel>)
    requires SameSpecs(a, b) && StaticOnly(b)
    ensures StaticOnly(a)
  {
    hide NoAuto;
    forall i | 0 <= i < |a| ensures NoAuto(a[i]) {
      assert a[i].SameSpec(b[i]) && NoAuto(b[i]);
      NoAutoSame(a[i], b[i]);
    }
  }

  lemma SecureSize(input: Input)
    ensures |SecureSet(input)| <= |input.channels|
  {
    hide Secure;
    AccBound(SecureSet(input), |input.channels|);
  }

  /** The `t`-th pass of the run. */
  function InputAt(hash: Hash, trace: seq<Cluster>, events: seq<Event>, t: nat): Input
    requires t < |events| && t < |trace| && events[t].FullPass?
  {
    PassInput(hash, trace[t], events[t])
  }

  /** Every pass up to and including the `t`-th changed something. */
  ghost predicate Restless(trace: seq<Cluster>, t: nat) {
    t + 1 < |trace| && forall u | 0 <= u <= t :: trace[u + 1] != trace[u]
  }

  /** Two restless passes are consecutive ones over the same specs. */
  lemma RestlessRow(hash: Hash, trace: seq<Cluster>, events: seq<Event>, t: nat)
    requires Passes(hash, trace, events) && Good(hash, trace[0]) && ShortHash(hash)
    requires t + 1 < |events| && t + 1 < |trace| && trace[t + 1] != trace[t]
    ensures events[t].FullPass? && events[t + 1].FullPass?
    ensures Good(hash, trace[t]) && Readable(InputAt(hash, trace, events, t).channels)
    ensures trace[t + 1] == AfterPass(trace[t], InputAt(hash, trace, events, t))
    ensures Lists(events[t + 1].listing, trace[t + 1].muxPorts)
    ensures Successive(InputAt(hash, trace, events, t), InputAt(hash, trace, events, t + 1))
  {
    hide ChannelLe, Readable, Passes, Good, Lists, ShortHash, AfterPass, Successive;
    PassAt(hash, trace, events, t);
    PassAt(hash, trace, events, t + 1);
    ClaimsExclusiveOverRuns(hash, trace, events, t) by { PassesRun(hash, trace, events); }
    ChangedReadable(trace[t], InputAt(hash, trace, events, t));
    InARow(hash, trace[t], events[t], events[t + 1]);
  }

  /** How far a run has come by its pass `t`: secure channels outweigh firm claims. */
  ghost function Progressed(hash: Hash, trace: seq<Cluster>, events: seq<Event>, t: nat, m: nat): int
    requires t + 1 < |events| && t + 1 < |trace| && events[t].FullPass? && events[t + 1].FullPass?
  {
    var first, second := InputAt(hash, trace, events, t), InputAt(hash, trace, events, t + 1);
    (|SecureSet(first)| + |SecureSet(second)|) * (m + 1) + FirmCount(second)
  }

  /** Three passes in a row with the same secure channels: the middle one changed nothing,
      or more claims are firm. */
  lemma MiddlePass(hash: Hash, c: Cluster, e: Event, d: Cluster, f: Event, third: Input)
    requires Good(hash, c) && ShortHash(hash) && e.FullPass? && f.FullPass? && Readable(PassInput(hash, c, e).channels)
    requires d == AfterPass(c, PassInput(hash, c, e)) && Lists(f.listing, d.muxPorts)
    requires var first, second := PassInput(hash, c, e), PassInput(hash, d, f);
      && Successive(first, second) && Successive(second, third)
      && SecureSet(first) == SecureSet(second) == SecureSet(third)
    ensures AfterPass(d, PassInput(hash, d, f)) == d || FirmCount(third) > FirmCount(PassInput(hash, d, f))
    ensures StaticOnly(PassInput(hash, c, e).channels) ==> AfterPass(d, PassInput(hash, d, f)) == d
  {
    hide SecureSet, Acc, Successive, Good, ShortHash, AfterPass, Lists, Readable, ChannelLe, FirmCount, StaticOnly,
      RunUpTo, FirstBook;
    var first, second := PassInput(hash, c, e), PassInput(hash, d, f);
    SameSecureSameAccepted(first, second, third);
    if StaticOnly(first.channels) {
      SecondBookIdle(first, second);
    }
    if Final(second).book == FirstBook(second) {
      SettledByBook(hash, c, e, f);
    } else {
      MoreFirm(first, second, third);
    }
  }

  lemma SetsGrow(a: set<nat>, b: set<nat>, c: set<nat>)
    requires a <= b <= c
    ensures |a| <= |b| <= |c|
    ensures !(a == b == c) ==> |a| < |c|
  {
    SubsetSize(a, b);
    SubsetSize(b, c);
    if a != c {
      Proper(a, c);
    }
  }

  lemma ProgressRises(hash: Hash, trace: seq<Cluster>, events: seq<Event>, t: nat, m: nat)
    requires Passes(hash, trace, events) && Good(hash, trace[0]) && ShortHash(hash)
    requires m == |ActiveRefs(trace[0].channels)|
    requires t + 2 < |events| && |events| < |trace| && trace[t + 1] != trace[t] && trace[t + 2] != trace[t + 1]
    ensures events[t].FullPass? && events[t + 1].FullPass? && events[t + 2].FullPass?
    ensures Progressed(hash, trace, events, t + 1, m) > Progressed(hash, trace, events, t, m)
  {
    hide Passes, Good, ShortHash, AfterPass, Successive, Readable, Lists, SecureSet, FirmCount, ActiveRefs, ChannelLe,
      StaticOnly;
    RestlessRow(hash, trace, events, t);
    RestlessRow(hash, trace, events, t + 1);
    var first, second, third := InputAt(hash, trace, events, t), InputAt(hash, trace, events, t + 1),
      InputAt(hash, trace, events, t + 2);
    SecureGrows(first, second);
    SecureGrows(second, third);
    ActiveKept(hash, trace, events, t + 1);
    FirmBound(second);
    SetsGrow(SecureSet(first), SecureSet(second), SecureSet(third));
    if SecureSet(first) == SecureSet(second) == SecureSet(third) {
      MiddlePass(hash, trace[t], events[t], trace[t + 1], events[t + 1], third);
    }
    Outweighs(|SecureSet(first)| + |SecureSet(second)|, |SecureSet(second)| + |SecureSet(third)|, FirmCount(second),
      FirmCount(third), m);
  }

  lemma {:induction false} ProgressSum(hash: Hash, trace: seq<Cluster>, events: seq<Event>, t: nat, m: nat)
    requires Passes(hash, trace, events) && Good(hash, trace[0]) && ShortHash(hash)
    requires m == |ActiveRefs(trace[0].channels)|
    requires t + 1 < |events| && Restless(trace, t)
    ensures |events| < |trace| && events[t].FullPass? && events[t + 1].FullPass?
    ensures Progressed(hash, trace, events, t, m) >= t
  {
    hide Passes, Good, ShortHash, AfterPass, PassInput, Lists, ActiveRefs, Progressed;
    PassAt(hash, trace, events, t);
    PassAt(hash, trace, events, t + 1);
    if t == 0 {
      ProgressNonNegative(hash, trace, events, t, m);
    } else {
      assert trace[t - 1 + 1] != trace[t - 1] && trace[t + 1] != trace[t];
      ProgressSum(hash, trace, events, t - 1, m);
      ProgressRises(hash, trace, events, t - 1, m);
    }
  }

  lemma ProgressNonNegative(hash: Hash, trace: seq<Cluster>, events: seq<Event>, t: nat, m: nat)
    requires t + 1 < |events| && t + 1 < |trace| && events[t].FullPass? && events[t + 1].FullPass?
    ensures Progressed(hash, trace, events, t, m) >= 0
  {
    hide SecureSet, FirmCount, InputAt;
    Scaled(0, |SecureSet(InputAt(hash, trace, events, t))| + |SecureSet(InputAt(hash, trace, events, t + 1))|, m + 1);
  }

  /** The number of passes that suffice for `n` channels with `m` ports. */
  function LimitedPasses(n: nat, m: nat): nat {
    (2 * n + 1) * (m + 1) + 1
  }

  lemma ProgressBound(hash: Hash, trace: seq<Cluster>, events: seq<Event>, t: nat, m: nat)
    requires Passes(hash, trace, events) && Good(hash, trace[0]) && m == |ActiveRefs(trace[0].channels)|
    requires t + 1 < |events| && |events| < |trace| && events[t].FullPass? && events[t + 1].FullPass?
    ensures Progressed(hash, trace, events, t, m) < LimitedPasses(|trace[0].channels|, m) - 1
  {
    hide SecureSet, FirmCount, ActiveRefs, ChannelLe, Good, Passes, SameSpecs;
    var n, first, second := |trace[0].channels|, InputAt(hash, trace, events, t), InputAt(hash, trace, events, t + 1);
    SpecsKept(hash, trace, events, t);
    SpecsKept(hash, trace, events, t + 1);
    SecureSize(first);
    SecureSize(second);
    ActiveKept(hash, trace, events, t + 1);
    FirmBound(second);
    Scaled(|SecureSet(first)| + |SecureSet(second)|, 2 * n, m + 1);
    assert (2 * n + 1) * (m + 1) == 2 * n * (m + 1) + (m + 1);
  }

  /** THEOREM (convergence under any limit). With unchanging specs and nobody else writing,
      any n channels with m ports in all settle within (2n + 1) * (m + 1) + 1 passes,
      whatever the limit, whatever they ask for, and whatever claims, annotations and live
      ports the run starts from. */
  lemma EveryLimitedRunSettles(hash: Hash, trace: seq<Cluster>, events: seq<Event>, t: nat)
    requires Passes(hash, trace, events) && Good(hash, trace[0]) && ShortHash(hash)
    requires LimitedPasses(|trace[0].channels|, |ActiveRefs(trace[0].channels)|) <= t < |trace|
    ensures trace[t] == trace[LimitedPasses(|trace[0].channels|, |ActiveRefs(trace[0].channels)|)]
  {
    hide AfterPass, Passes, PassInput, ActiveRefs, Good, ShortHash, Progressed, LimitedPasses;
    assert |trace| == |events| + 1 by { PassesLength(hash, trace, events); }
    var m := |ActiveRefs(trace[0].channels)|;
    var settled := LimitedPasses(|trace[0].channels|, m);
    assert settled >= 1 by { SomePasses(|trace[0].channels|, m); }
    if t > settled {
      if u :| 0 <= u < settled && trace[u + 1] == trace[u] {
        SettledForGood(hash, trace, events, u, t);
        SettledForGood(hash, trace, events, u, settled);
      } else {
        ProgressSum(hash, trace, events, settled - 1, m);
        ProgressBound(hash, trace, events, settled - 1, m);
        assert false;
      }
    }
  }

  lemma SomePasses(n: nat, m: nat)
    ensures LimitedPasses(n, m) >= 1
  {}

  // ---- static channels ----

  ghost function SecurePair(hash: Hash, trace: seq<Cluster>, events: seq<Event>, t: nat): nat
    requires t + 1 < |events| && t + 1 < |trace| && events[t].FullPass? && events[t + 1].FullPass?
  {
    |SecureSet(InputAt(hash, trace, events, t))| + |SecureSet(InputAt(hash, trace, events, t + 1))|
  }

  lemma StaticRises(hash: Hash, trace: seq<Cluster>, events: seq<Event>, t: nat)
    requires Passes(hash, trace, events) && Good(hash, trace[0]) && ShortHash(hash) && AllStaticIn(trace[0])
    requires t + 2 < |events| && |events| < |trace| && trace[t + 1] != trace[t] && trace[t + 2] != trace[t + 1]
    ensures events[t].FullPass? && events[t + 1].FullPass? && events[t + 2].FullPass?
    ensures SecurePair(hash, trace, events, t + 1) > SecurePair(hash, trace, events, t)
  {
    hide Passes, Good, ShortHash, AfterPass, Successive, Readable, Lists, SecureSet, FirmCount, ChannelLe, StaticOnly,
      SameSpecs;
    RestlessRow(hash, trace, events, t);
    RestlessRow(hash, trace, events, t + 1);
    var first, second, third := InputAt(hash, trace, events, t), InputAt(hash, trace, events, t + 1),
      InputAt(hash, trace, events, t + 2);
    SecureGrows(first, second);
    SecureGrows(second, third);
    SpecsKept(hash, trace, events, t);
    StaticKept(first.channels, Sort(trace[0].channels, ChannelLe));
    SetsGrow(SecureSet(first), SecureSet(second), SecureSet(third));
    if SecureSet(first) == SecureSet(second) == SecureSet(third) {
      MiddlePass(hash, trace[t], events[t], trace[t + 1], events[t + 1], third);
    }
  }

  lemma {:induction false} StaticSum(hash: Hash, trace: seq<Cluster>, events: seq<Event>, t: nat)
    requires Passes(hash, trace, events) && Good(hash, trace[0]) && ShortHash(hash) && AllStaticIn(trace[0])
    requires t + 1 < |events| && Restless(trace, t)
    ensures |events| < |trace| && events[t].FullPass? && events[t + 1].FullPass?
    ensures t <= SecurePair(hash, trace, events, t) <= 2 * |trace[0].channels|
  {
    hide Passes, Good, ShortHash, AfterPass, Lists, SecureSet, AllStaticIn, ChannelLe, SameSpecs;
    PassAt(hash, trace, events, t);
    PassAt(hash, trace, events, t + 1);
    SpecsKept(hash, trace, events, t);
    SpecsKept(hash, trace, events, t + 1);
    SecureSize(InputAt(hash, trace, events, t));
    SecureSize(InputAt(hash, trace, events, t + 1));
    if t > 0 {
      assert trace[t - 1 + 1] != trace[t - 1] && trace[t + 1] != trace[t];
      StaticSum(hash, trace, events, t - 1);
      StaticRises(hash, trace, events, t - 1);
    }
  }

  /** THEOREM (static convergence under any limit). If no channel asks for an automatic
      port, n channels settle within 2n + 2 passes. */
  lemma StaticLimitedRunSettles(hash: Hash, trace: seq<Cluster>, events: seq<Event>, t: nat)
    requires Passes(hash, trace, events) && Good(hash, trace[0]) && ShortHash(hash) && AllStaticIn(trace[0])
    requires 2 * |trace[0].channels| + 2 <= t < |trace|
    ensures trace[t] == trace[2 * |trace[0].channels| + 2]
  {
    hide AfterPass, Passes, PassInput, Good, ShortHash, SecurePair, AllStaticIn;
    assert |trace| == |events| + 1 by { PassesLength(hash, trace, events); }
    var settled := 2 * |trace[0].channels| + 2;
    if t > settled {
      if u :| 0 <= u < settled && trace[u + 1] == trace[u] {
        SettledForGood(hash, trace, events, u, t);
        SettledForGood(hash, trace, events, u, settled);
      } else {
        StaticSum(hash, trace, events, settled - 1);
        assert false;
      }
    }
  }
}
