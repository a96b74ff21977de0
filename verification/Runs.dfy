/** Whole runs: passes, interrupted passes, passes without a readable store, and
    everything others do to the cluster in between. */
module Runs {
  import opened Wrappers
  import opened Text
  import opened Annotations
  import opened Model
  import opened Sorting
  import opened ChannelOrder
  import opened Claims
  import opened Reconcile
  import opened PortLimit
  import opened Endpoints
  import opened Pass
  import opened PassFacts
  import opened PassInvariant
  import opened StateRoundTrip
  import opened PassClaims
  import opened Stability
  import opened Recovery

  /** What outlives a pass: the channel Services with their annotations, the live mux
      ports, the state document (none before the first save) and the mux itself. */
  datatype Cluster = Cluster(channels: seq<Channel>, muxPorts: set<MuxPort>, store: Option<State>, mux: MuxService)

  datatype Event =
    // a pass; `listing` is the order in which it iterates over the live ports
    | FullPass(listing: seq<MuxPort>, cache: Cache)
    // a pass that cannot read the store
    | BlindPass(listing: seq<MuxPort>, cache: Cache)
    // a pass stopped by an error after some channels' turns, or after the save
    | Interrupted(listing: seq<MuxPort>, cache: Cache, readable: bool, turns: nat, wrote: bool)
    // channels added, changed or removed, annotations included
    | Edited(channels: seq<Channel>)
    // the live port list overwritten, as by GitOps with the placeholder
    | PortsReset(ports: set<MuxPort>)
    | MuxEdited(mux: MuxService)

  function StoredOf(c: Cluster): Stored {
    match c.store
    case None => Stored(false, NoState)
    case Some(state) => Stored(true, state)
  }

  function InputOf(hash: Hash, c: Cluster, listing: seq<MuxPort>, cache: Cache, readable: bool): Input {
    Input(hash, c.mux, Sort(c.channels, ChannelLe), listing, if readable then StoredOf(c) else Unreadable, cache)
  }

  ghost predicate Enabled(hash: Hash, c: Cluster, e: Event) {
    match e
    case FullPass(listing, _) => Lists(listing, c.muxPorts)
    case BlindPass(listing, _) => Lists(listing, c.muxPorts)
    case Interrupted(listing, _, readable, turns, wrote) =>
      Lists(listing, c.muxPorts) && turns <= |Sort(c.channels, ChannelLe)|
      && (wrote ==> readable && turns == |Sort(c.channels, ChannelLe)|)
    case Edited(channels) => WellFormedAll(channels) && CollisionFree(hash, channels)
    case PortsReset(ports) => DistinctKeys(ports)
    case MuxEdited(_) => true
  }

  ghost function AfterSave(c: Cluster, input: Input): Option<State> {
    BookValid(input, |input.channels|);
    var saved := Saved(input.stored, Final(input).book);
    if saved.Some? then saved else c.store
  }

  ghost function AfterPass(c: Cluster, input: Input): Cluster {
    if !Readable(input.channels) then c
    else c.(channels := Final(input).channels, muxPorts := BuildMuxPorts(Final(input).ports),
      store := AfterSave(c, input))
  }

  ghost function Apply(hash: Hash, c: Cluster, e: Event): Cluster
    requires Enabled(hash, c, e)
  {
    match e
    case FullPass(listing, cache) => AfterPass(c, InputOf(hash, c, listing, cache, true))
    case BlindPass(listing, cache) => AfterPass(c, InputOf(hash, c, listing, cache, false))
    case Interrupted(listing, cache, readable, turns, wrote) =>
      var input := InputOf(hash, c, listing, cache, readable);
      if !Readable(input.channels) then c
      else c.(channels := RunUpTo(input, turns).channels + input.channels[turns..],
              store := if wrote then AfterSave(c, input) else c.store)
    case Edited(channels) => c.(channels := channels)
    case PortsReset(ports) => c.(muxPorts := ports)
    case MuxEdited(mux) => c.(mux := mux)
  }

  // ---- annotations that stop a pass ----

  /** Some item of the channel's `ports` annotation has its arrows before its colon. */
  ghost predicate MisplacedIn(ch: Channel) {
    SomeMisplaced(Split(ch.portsText, ','))
  }

  /** THEOREM (when a pass stops). A pass raises before its loop exactly when the
      annotation of some channel has such an item. */
  lemma RaisedIff(input: Input)
    ensures Run(input).Raised? <==> exists ch | ch in input.channels :: MisplacedIn(ch)
  {
    hide RunUpTo, PortMappings, SomeMisplaced;
    forall ch: Channel ensures PortMappings(ch.portsText).None? <==> MisplacedIn(ch) {
      MappingsRaiseIff(ch.portsText);
    }
    if !Readable(input.channels) {
      var i :| 0 <= i < |input.channels| && PortMappings(input.channels[i].portsText).None?;
      assert MisplacedIn(input.channels[i]);
    }
  }

  predicate IsPass(e: Event) {
    e.FullPass? || e.BlindPass? || e.Interrupted?
  }

  /** THEOREM (one such annotation stops the mux). While it is there, no pass changes
      anything. */
  lemma MisplacedStops(hash: Hash, c: Cluster, e: Event, ch: Channel)
    requires Enabled(hash, c, e) && IsPass(e) && ch in c.channels && MisplacedIn(ch)
    ensures Apply(hash, c, e) == c
  {
    hide RunUpTo, ChannelLe, PortMappings, SomeMisplaced, AfterSave, Lists;
    MappingsRaiseIff(ch.portsText);
    SortKeeps(c.channels, ChannelLe);
    var sorted := Sort(c.channels, ChannelLe);
    var i :| 0 <= i < |sorted| && sorted[i] == ch;
    assert !Readable(sorted);
  }

  /** For instance the annotation `a->b:80`, on whatever channel of whatever cluster. */
  lemma ArrowFirstStops(hash: Hash, c: Cluster, e: Event, ch: Channel)
    requires Enabled(hash, c, e) && IsPass(e) && ch in c.channels && ch.portsText == ARROW_FIRST
    ensures Apply(hash, c, e) == c
  {
    hide Enabled, Apply, SomeMisplaced, PortMappings;
    ArrowFirstRaises();
    MappingsRaiseIff(ARROW_FIRST);
    MisplacedStops(hash, c, e, ch);
  }

  /** The claims the store states. */
  function StoreClaims(c: Cluster): map<Ref, Claim> {
    match c.store
    case None => map[]
    case Some(state) => ReadAll(state)
  }

  /** The invariant: channels as Kubernetes allows them, no short-hash collision, no
      live port listed twice, and no mux port claimed twice in the store. */
  ghost predicate Good(hash: Hash, c: Cluster) {
    WellFormedAll(c.channels) && CollisionFree(hash, c.channels) && DistinctKeys(c.muxPorts)
      && Injective(StoreClaims(c))
  }

  // ---- channels keep their specs ----

  ghost predicate SameSpecs(a: seq<Channel>, b: seq<Channel>) {
    |a| == |b| && forall i | 0 <= i < |a| :: a[i].SameSpec(b[i])
  }

  lemma ActiveRefsOf(channels: seq<Channel>, r: Ref)
    ensures r in ActiveRefs(channels) <==> exists ch | ch in channels :: r in ActiveIn(ch)
  {
    ActiveRefsIff(channels, r);
    if r in ActiveRefs(channels) {
      var i, j :| 0 <= i < |channels| && 0 <= j < |channels[i].ports|
        && channels[i].ports[j].name != "" && channels[i].RefOf(j) == r;
      assert channels[i] in channels && r in ActiveIn(channels[i]);
    }
    if ch :| ch in channels && r in ActiveIn(ch) {
      var i :| 0 <= i < |channels| && channels[i] == ch;
      var j :| 0 <= j < |ch.ports| && ch.ports[j].name != "" && r == ch.RefOf(j);
    }
  }

  lemma SortedActive(channels: seq<Channel>)
    ensures ActiveRefs(Sort(channels, ChannelLe)) == ActiveRefs(channels)
  {
    hide ChannelLe, ActiveRefs;
    SortKeeps(channels, ChannelLe);
    forall r ensures r in ActiveRefs(Sort(channels, ChannelLe)) <==> r in ActiveRefs(channels) {
      ActiveRefsOf(Sort(channels, ChannelLe), r);
      ActiveRefsOf(channels, r);
    }
  }

  lemma {:induction false} SameSpecsActive(a: seq<Channel>, b: seq<Channel>)
    requires SameSpecs(a, b)
    ensures ActiveRefs(a) == ActiveRefs(b)
  {
    if a != [] {
      SameSpecsActive(a[..|a| - 1], b[..|b| - 1]);
      var x, y := a[|a| - 1], b[|b| - 1];
      assert x.SameSpec(y);
      forall r ensures r in ActiveIn(x) <==> r in ActiveIn(y) {
        assert forall j: nat | j < |x.ports| :: x.RefOf(j) == y.RefOf(j);
      }
    }
  }

  lemma SameSpecsWellFormed(a: seq<Channel>, b: seq<Channel>)
    requires SameSpecs(a, b) && WellFormedAll(b)
    ensures WellFormedAll(a)
  {
    forall i | 0 <= i < |a| ensures WellFormed(a[i]) {
      assert a[i].SameSpec(b[i]) && WellFormed(b[i]);
    }
    forall i, k | 0 <= i < k < |a| ensures a[i].ns != a[k].ns || a[i].name != a[k].name {
      assert a[i].SameSpec(b[i]) && a[k].SameSpec(b[k]);
    }
  }

  /** The channels of a pass, sorted or rewritten, are as well-formed as they were. */
  lemma ChannelsKept(hash: Hash, c: Cluster, written: seq<Channel>)
    requires WellFormedAll(c.channels) && CollisionFree(hash, c.channels)
    requires SameSpecs(written, Sort(c.channels, ChannelLe))
    ensures WellFormedAll(written) && CollisionFree(hash, written)
    ensures WellFormedAll(Sort(c.channels, ChannelLe)) && CollisionFree(hash, Sort(c.channels, ChannelLe))
    ensures ActiveRefs(written) == ActiveRefs(c.channels) == ActiveRefs(Sort(c.channels, ChannelLe))
  {
    hide ActiveRefs, ChannelLe, WellFormedAll, SameSpecs;
    SortedWellFormed(c.channels);
    SameSpecsWellFormed(written, Sort(c.channels, ChannelLe));
    SortedActive(c.channels);
    SameSpecsActive(written, Sort(c.channels, ChannelLe));
  }

  lemma SameSpecsRefl(a: seq<Channel>)
    ensures SameSpecs(a, a)
  {}

  lemma WrittenSpecs(input: Input, turns: nat)
    requires turns <= |input.channels|
    ensures SameSpecs(RunUpTo(input, turns).channels + input.channels[turns..], input.channels)
    ensures SameSpecs(Final(input).channels, input.channels)
  {
    hide RunUpTo;
    Shape(input, turns);
    Shape(input, |input.channels|);
  }

  // ---- the claims a pass starts from ----

  lemma FirstClaims(hash: Hash, c: Cluster, listing: seq<MuxPort>, cache: Cache, readable: bool)
    requires Good(hash, c)
    ensures var input := InputOf(hash, c, listing, cache, readable);
      && Fair(input)
      && (readable ==> FirstBook(input).claims == Restricted(StoreClaims(c), ActiveRefs(input.channels)))
  {
    hide ReadAll, Load, ActiveRefs, ChannelLe, CollisionFree, WellFormedAll, Holds;
    var input := InputOf(hash, c, listing, cache, readable);
    SameSpecsRefl(Sort(c.channels, ChannelLe));
    ChannelsKept(hash, c, Sort(c.channels, ChannelLe));
    LoadIs(LoadedState(input), ActiveRefs(input.channels));
    EmptyRead();
    RestrictedInjective(ReadAll(LoadedState(input)), ActiveRefs(input.channels));
    if !readable {
      assert FirstBook(input).claims == map[];
    }
  }

  lemma EmptyRead()
    ensures ReadAll(NoState) == map[] && Injective(ReadAll(NoState))
  {}

  /** After a pass that could read the store, the store states its final claims. */
  lemma SavedClaims(hash: Hash, c: Cluster, listing: seq<MuxPort>, cache: Cache)
    requires Good(hash, c)
    ensures var input := InputOf(hash, c, listing, cache, true);
      && AfterSave(c, input) == Some(StoredAfter(input))
      && StoreClaims(c.(store := AfterSave(c, input))) == Final(input).book.claims
      && Injective(Final(input).book.claims)
  {
    hide ReadAll, RunUpTo, Good, Fair, ToState, Injective, Cfg, ChannelLe;
    var input := InputOf(hash, c, listing, cache, true);
    FirstClaims(hash, c, listing, cache, true);
    StoreFollows(input);
    ClaimsSane(input, |input.channels|);
  }

  lemma BlindKeepsStore(c: Cluster, input: Input)
    requires input.stored.Unreadable?
    ensures AfterSave(c, input) == c.store
  {
    hide RunUpTo;
  }

  lemma KeepDistinct(input: Input)
    ensures DistinctKeys(BuildMuxPorts(Final(input).ports))
  {
    hide RunUpTo;
    ExclusivePorts(input);
  }

  lemma PassGood(hash: Hash, c: Cluster, listing: seq<MuxPort>, cache: Cache, readable: bool)
    requires Good(hash, c)
    ensures Good(hash, AfterPass(c, InputOf(hash, c, listing, cache, readable)))
  {
    hide RunUpTo, CollisionFree, WellFormedAll, BuildMuxPorts, Injective, DistinctKeys, AfterSave, StoreClaims,
      ChannelLe, Readable;
    var input := InputOf(hash, c, listing, cache, readable);
    WrittenSpecs(input, 0);
    ChannelsKept(hash, c, Final(input).channels);
    KeepDistinct(input);
    if readable {
      SavedClaims(hash, c, listing, cache);
    } else {
      BlindKeepsStore(c, input);
    }
    SameStore(c, AfterPass(c, input));
    SameStore(c.(store := AfterSave(c, input)), AfterPass(c, input));
  }

  lemma SameStore(a: Cluster, b: Cluster)
    ensures a.store == b.store ==> StoreClaims(a) == StoreClaims(b)
  {}

  lemma InterruptedGood(hash: Hash, c: Cluster, e: Event)
    requires Good(hash, c) && Enabled(hash, c, e) && e.Interrupted?
    ensures Good(hash, Apply(hash, c, e))
  {
    hide RunUpTo, CollisionFree, WellFormedAll, BuildMuxPorts, Injective, DistinctKeys, AfterSave, StoreClaims,
      ChannelLe, Readable, Lists;
    var input := InputOf(hash, c, e.listing, e.cache, e.readable);
    WrittenSpecs(input, e.turns);
    ChannelsKept(hash, c, RunUpTo(input, e.turns).channels + input.channels[e.turns..]);
    if e.wrote {
      SavedClaims(hash, c, e.listing, e.cache);
    }
    SameStore(c, Apply(hash, c, e));
    SameStore(c.(store := AfterSave(c, input)), Apply(hash, c, e));
  }

  lemma EventGood(hash: Hash, c: Cluster, e: Event)
    requires Good(hash, c) && Enabled(hash, c, e)
    ensures Good(hash, Apply(hash, c, e))
  {
    hide AfterPass, InputOf, RunUpTo, CollisionFree, WellFormedAll, Injective, DistinctKeys, AfterSave, ChannelLe;
    match e {
      case FullPass(listing, cache) => PassGood(hash, c, listing, cache, true);
      case BlindPass(listing, cache) => PassGood(hash, c, listing, cache, false);
      case Interrupted(_, _, _, _, _) => InterruptedGood(hash, c, e);
      case Edited(channels) => SameStore(c, c.(channels := channels));
      case PortsReset(ports) => SameStore(c, c.(muxPorts := ports));
      case MuxEdited(mux) => SameStore(c, c.(mux := mux));
    }
  }

  ghost predicate IsRun(hash: Hash, trace: seq<Cluster>, events: seq<Event>) {
    |trace| == |events| + 1
    && forall t | 0 <= t < |events| ::
      Enabled(hash, trace[t], events[t]) && trace[t + 1] == Apply(hash, trace[t], events[t])
  }

  /** THEOREM (claims stay exclusive over whole runs). Starting from an empty store, or
      any store in which no mux port is claimed twice, no sequence of passes, channel
      edits, port-list resets, interrupted passes and passes without a readable store
      ever leads to a store that claims one mux port for two channel ports; nor do two
      live mux ports ever share a number. */
  lemma {:induction false} ClaimsExclusiveOverRuns(hash: Hash, trace: seq<Cluster>, events: seq<Event>, t: nat)
    requires IsRun(hash, trace, events) && Good(hash, trace[0]) && t < |trace|
    ensures Good(hash, trace[t])
  {
    hide Good, Enabled, Apply;
    if t > 0 {
      ClaimsExclusiveOverRuns(hash, trace, events, t - 1);
      EventGood(hash, trace[t - 1], events[t - 1]);
    }
  }

  // ---- tenure of static channels over runs ----

  /** A channel with this spec is declared. */
  ghost predicate Present(channels: seq<Channel>, spec: Channel) {
    exists i: nat :: i < |channels| && channels[i].SameSpec(spec)
  }

  /** The store claims for the channel exactly the ports it asks for. */
  ghost predicate Tenured(c: Cluster, spec: Channel) {
    AllStatic(spec) && Claimed(StoreClaims(c), spec, StaticNumbers(spec))
  }

  lemma SpecClaimed(claims: map<Ref, Claim>, a: Channel, b: Channel, numbers: seq<int>)
    requires a.SameSpec(b) && Claimed(claims, a, numbers)
    ensures Claimed(claims, b, numbers)
  {
    forall j | 0 <= j < |numbers| ensures Holds(claims, b.RefOf(j), NumberKey(b, numbers, j)) {
      assert Holds(claims, a.RefOf(j), NumberKey(a, numbers, j));
    }
  }

  lemma SpecStatic(a: Channel, b: Channel)
    requires a.SameSpec(b) && AllStatic(b)
    ensures AllStatic(a) && StaticNumbers(a) == StaticNumbers(b)
  {
    hide Requests;
    SameRequests(a, b);
  }

  /** A tenured channel comes into a pass with its claims. */
  lemma TenuredFirst(hash: Hash, c: Cluster, listing: seq<MuxPort>, cache: Cache, spec: Channel, k: nat)
    requires Good(hash, c) && Tenured(c, spec) && k < |Sort(c.channels, ChannelLe)|
    requires Sort(c.channels, ChannelLe)[k].SameSpec(spec)
    ensures var input := InputOf(hash, c, listing, cache, true);
      AllStatic(input.channels[k]) && StaticNumbers(input.channels[k]) == StaticNumbers(spec)
      && Claimed(FirstBook(input).claims, input.channels[k], StaticNumbers(spec))
  {
    hide Good, Fair, FirstBook, StoreClaims, ChannelLe, Requests, ActiveRefs, StaticNumbers;
    var input := InputOf(hash, c, listing, cache, true);
    var ch, numbers := input.channels[k], StaticNumbers(spec);
    FirstClaims(hash, c, listing, cache, true);
    SpecStatic(ch, spec);
    assert Named(ch) by { StaticNamed(ch); }
    RefsActive(input.channels, k);
    forall j | 0 <= j < |numbers| ensures Holds(FirstBook(input).claims, ch.RefOf(j), NumberKey(ch, numbers, j)) {
      assert Holds(StoreClaims(c), spec.RefOf(j), NumberKey(spec, numbers, j));
      assert ch.RefOf(j) in RefsOf(ch);
    }
  }

  lemma StaticNamed(ch: Channel)
    requires AllStatic(ch)
    ensures Named(ch)
  {
    hide Declares;
  }

  /** A channel skipped for the limit keeps its claims through the pass. */
  lemma SkippedClaimed(input: Input, k: nat, numbers: seq<int>)
    requires k < |input.channels| && Fair(input) && AllStatic(input.channels[k]) && OutcomeOf(input, k).LimitExceeded?
    requires Claimed(FirstBook(input).claims, input.channels[k], numbers)
    ensures Claimed(Final(input).book.claims, input.channels[k], numbers)
  {
    hide RunUpTo, OutcomeOf, ResolutionOf, FirstBook, Fair, AllStatic, StaticNumbers;
    var ch := input.channels[k];
    RejectedStep(input, k);
    StaticResolution(input, k);
    forall j | 0 <= j < |numbers| ensures Holds(Final(input).book.claims, ch.RefOf(j), NumberKey(ch, numbers, j)) {
      assert Holds(FirstBook(input).claims, ch.RefOf(j), NumberKey(ch, numbers, j));
      BeforeTurn(input, k, j);
      AfterTurn(input, k, j, |input.channels|);
    }
  }

  /** THEOREM (tenure in one pass). A tenured static channel is accepted with its ports
      unless the limit leaves no room, and is tenured afterwards in either case. */
  lemma TenureThroughPass(hash: Hash, c: Cluster, listing: seq<MuxPort>, cache: Cache, spec: Channel, k: nat)
    requires Good(hash, c) && Tenured(c, spec) && k < |Sort(c.channels, ChannelLe)|
    requires Sort(c.channels, ChannelLe)[k].SameSpec(spec)
    ensures var input := InputOf(hash, c, listing, cache, true);
      && OutcomeOf(input, k)
         == (if OutcomeOf(input, k).LimitExceeded? then LimitExceeded else Accepted(StaticNumbers(spec)))
      && Claimed(Final(input).book.claims, spec, StaticNumbers(spec))
  {
    hide RunUpTo, OutcomeOf, FirstBook, Fair, Claimed, StaticNumbers, AllStatic, Good, ChannelLe, StoreClaims;
    var input := InputOf(hash, c, listing, cache, true);
    TenuredFirst(hash, c, listing, cache, spec, k);
    FirstClaims(hash, c, listing, cache, true);
    StaticStays(input, k);
    if OutcomeOf(input, k).LimitExceeded? {
      SkippedClaimed(input, k, StaticNumbers(spec));
    } else {
      AcceptedClaimed(input, k);
    }
    SpecClaimed(Final(input).book.claims, input.channels[k], spec, StaticNumbers(spec));
  }

  lemma SortedPresent(channels: seq<Channel>, spec: Channel) returns (k: nat)
    requires Present(channels, spec)
    ensures k < |Sort(channels, ChannelLe)| && Sort(channels, ChannelLe)[k].SameSpec(spec)
  {
    hide ChannelLe;
    var i: nat :| i < |channels| && channels[i].SameSpec(spec);
    SortKeeps(channels, ChannelLe);
    assert channels[i] in channels;
    k :| 0 <= k < |Sort(channels, ChannelLe)| && Sort(channels, ChannelLe)[k] == channels[i];
  }

  lemma TenureThroughEvent(hash: Hash, c: Cluster, e: Event, spec: Channel)
    requires Good(hash, c) && Enabled(hash, c, e) && Present(c.channels, spec) && Tenured(c, spec)
    ensures Tenured(Apply(hash, c, e), spec)
  {
    hide RunUpTo, FirstBook, Claimed, StaticNumbers, AllStatic, Good, ChannelLe, StoreClaims, AfterSave, Readable,
      BuildMuxPorts, Present, Lists;
    var k := SortedPresent(c.channels, spec);
    var after := Apply(hash, c, e);
    SameStore(c, after);
    if after.store != c.store {
      var input := InputOf(hash, c, e.listing, e.cache, true);
      if e.BlindPass? {
        BlindKeepsStore(c, InputOf(hash, c, e.listing, e.cache, false));
      }
      assert after.store == AfterSave(c, input);
      SavedClaims(hash, c, e.listing, e.cache);
      TenureThroughPass(hash, c, e.listing, e.cache, spec, k);
      SameStore(c.(store := AfterSave(c, input)), after);
    }
  }

  /** THEOREM (static tenure over runs). Once the store holds an all-static channel's
      ports for it (as it does after any saved pass that accepted it), then for as long
      as the channel stays declared with the same spec it holds them for good: through
      edits of other channels, port-list resets, interrupted passes, passes without a
      readable store and passes that skip it for the limit. */
  lemma {:induction false} StaticTenureOverRuns(hash: Hash, trace: seq<Cluster>, events: seq<Event>, spec: Channel,
      t: nat)
    requires IsRun(hash, trace, events) && Good(hash, trace[0]) && t < |trace|
    requires Tenured(trace[0], spec) && forall u | 0 <= u < |trace| :: Present(trace[u].channels, spec)
    ensures Tenured(trace[t], spec)
  {
    hide Good, Enabled, Apply, Present, Tenured;
    if t > 0 {
      StaticTenureOverRuns(hash, trace, events, spec, t - 1);
      ClaimsExclusiveOverRuns(hash, trace, events, t - 1);
      TenureThroughEvent(hash, trace[t - 1], events[t - 1], spec);
    }
  }

  /** A saved pass that accepts an all-static channel makes it tenured. */
  lemma AcceptanceGivesTenure(hash: Hash, c: Cluster, listing: seq<MuxPort>, cache: Cache, k: nat)
    requires Good(hash, c) && k < |Sort(c.channels, ChannelLe)| && AllStatic(Sort(c.channels, ChannelLe)[k])
    requires var input := InputOf(hash, c, listing, cache, true);
      Readable(input.channels) && OutcomeOf(input, k).Accepted?
    ensures var input := InputOf(hash, c, listing, cache, true);
      Tenured(AfterPass(c, input), input.channels[k])
  {
    hide RunUpTo, OutcomeOf, FirstBook, Claimed, StaticNumbers, AllStatic, Good, ChannelLe, StoreClaims, AfterSave,
      Readable, BuildMuxPorts, Fair;
    var input := InputOf(hash, c, listing, cache, true);
    FirstClaims(hash, c, listing, cache, true);
    SavedClaims(hash, c, listing, cache);
    AcceptedStatic(input, k);
    AcceptedClaimed(input, k);
    SameStore(c.(store := AfterSave(c, input)), AfterPass(c, input));
  }
}
