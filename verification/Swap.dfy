/** The run in which two channels swap their numbers. */
module Swap {
  import opened Wrappers
  import opened Annotations
  import opened Model
  import opened ChannelOrder
  import opened Claims
  import opened Reconcile
  import opened Pass
  import opened PassFacts
  import opened PassInvariant
  import opened PassClaims
  import opened Stability
  import opened Recovery
  import opened Runs
  import opened Deadlock
  import opened Scenarios

  const SETTLERS := [Single("alpha", 80), Single("beta", 81)]

  /** A fresh mux: the placeholder, and no saved state. */
  const FRESH_CLUSTER := Cluster(SETTLERS, {PLACEHOLDER}, None, PLAIN_MUX)
  const FIRST_PASS := FullPass([PLACEHOLDER], map[])

  function FirstInput(hash: Hash): Input {
    InputOf(hash, FRESH_CLUSTER, [PLACEHOLDER], map[], true)
  }

  ghost function AfterFirst(hash: Hash): Cluster {
    AfterPass(FRESH_CLUSTER, FirstInput(hash))
  }

  /** The two channels with each other's number, and any annotations. */
  predicate Swapped(channels: seq<Channel>) {
    && |channels| == 2
    && channels[0].SameSpec(Single("alpha", 81)) && channels[1].SameSpec(Single("beta", 80))
  }

  ghost function AfterSwap(hash: Hash, channels: seq<Channel>): Cluster {
    AfterFirst(hash).(channels := channels)
  }

  lemma FreshGood(hash: Hash)
    requires Apart(hash)
    ensures Good(hash, FRESH_CLUSTER) && FirstInput(hash).channels == SETTLERS
  {
    PairWellFormed(hash, SETTLERS);
    PairSorted(SETTLERS);
  }

  lemma BothAccepted(hash: Hash)
    requires Apart(hash) && ShortHash(hash)
    ensures FirstInput(hash).channels == SETTLERS && Fair(FirstInput(hash))
    ensures OutcomeOf(FirstInput(hash), 0) == Accepted([80]) && OutcomeOf(FirstInput(hash), 1) == Accepted([81])
  {
    hide OutcomeOf, FirstOwners, ShortHash, Good, Fair, ChannelLe;
    FreshGood(hash);
    FirstClaims(hash, FRESH_CLUSTER, [PLACEHOLDER], map[], true);
    var input := FirstInput(hash);
    NothingOwned(input);
    FirstGets(input, 80);
    SecondGets(input, 80, 81);
  }

  /** The first pass records both acceptances. */
  lemma BothClaimed(hash: Hash)
    requires Apart(hash) && ShortHash(hash)
    ensures Readable(SETTLERS)
    ensures Holds(StoreClaims(AfterFirst(hash)), RefNamed("alpha"), Tcp(80))
    ensures Holds(StoreClaims(AfterFirst(hash)), RefNamed("beta"), Tcp(81))
  {
    hide OutcomeOf, FirstOwners, ShortHash, Good, Fair, ChannelLe, AfterSave, StoreClaims, RunUpTo, BuildMuxPorts,
      Holds;
    FreshGood(hash);
    BothAccepted(hash);
    var input := FirstInput(hash);
    forall i | 0 <= i < |SETTLERS| ensures PortMappings(SETTLERS[i].portsText).Some? {
      BlankAnnotation(SETTLERS[i], 0);
    }
    SavedClaims(hash, FRESH_CLUSTER, [PLACEHOLDER], map[]);
    SameStore(FRESH_CLUSTER.(store := AfterSave(FRESH_CLUSTER, input)), AfterFirst(hash));
    AcceptedClaimed(input, 0);
    AcceptedClaimed(input, 1);
    assert NumberKey(SETTLERS[0], [80], 0) == Tcp(80) && NumberKey(SETTLERS[1], [81], 0) == Tcp(81);
    assert SETTLERS[0].RefOf(0) == RefNamed("alpha") && SETTLERS[1].RefOf(0) == RefNamed("beta");
  }

  /** THEOREM (a swap is a deadlock). In a real run, in which a pass accepts and saves two
      static channels and their numbers are then exchanged, the store is left crossed. */
  lemma SwapCrosses(hash: Hash, channels: seq<Channel>)
    requires Apart(hash) && ShortHash(hash) && Swapped(channels)
    ensures Good(hash, FRESH_CLUSTER)
    ensures IsRun(hash, [FRESH_CLUSTER, AfterFirst(hash), AfterSwap(hash, channels)], [FIRST_PASS, Edited(channels)])
    ensures OutcomeOf(FirstInput(hash), 0) == Accepted([80]) && OutcomeOf(FirstInput(hash), 1) == Accepted([81])
    ensures Good(hash, AfterSwap(hash, channels))
    ensures Crossed(StoreClaims(AfterSwap(hash, channels)), Single("alpha", 81), 0, Single("beta", 80), 0)
  {
    hide OutcomeOf, Good, ChannelLe, StoreClaims, AfterPass, Requests, AllStatic, StaticNumbers, Holds, ShortHash;
    FreshGood(hash);
    BothAccepted(hash);
    BothClaimed(hash);
    PairWellFormed(hash, channels);
    SingleRequests(Single("alpha", 81), "alpha", 81);
    SingleRequests(Single("beta", 80), "beta", 80);
    SameStore(AfterFirst(hash), AfterSwap(hash, channels));
    EventGood(hash, FRESH_CLUSTER, FIRST_PASS);
    EventGood(hash, AfterFirst(hash), Edited(channels));
  }

  /** THEOREM (swapped numbers never settle). Whatever happens after that, for as long as
      the two stay declared as they are, no pass that reads the store accepts either. */
  lemma SwappedNeverAccepted(hash: Hash, channels: seq<Channel>, trace: seq<Cluster>, events: seq<Event>, t: nat)
    requires Apart(hash) && ShortHash(hash) && Swapped(channels)
    requires IsRun(hash, trace, events) && trace[0] == AfterSwap(hash, channels) && t < |events|
    requires ReadsStore(events[t])
    requires forall u | 0 <= u < |trace| :: AllPresent(trace[u].channels, [Single("alpha", 81), Single("beta", 80)])
    ensures t < |trace| && NoneAccepted(InputOf(hash, trace[t], events[t].listing, events[t].cache, true),
                                        [Single("alpha", 81), Single("beta", 80)])
  {
    hide Good, StoreClaims, Crossed, Deadlocked, AllPresent, NoneAccepted, Apply, Enabled, AfterSwap, InputOf;
    SwapCrosses(hash, channels);
    CrossedIsDeadlock(StoreClaims(trace[0]), Single("alpha", 81), 0, Single("beta", 80), 0);
    DeadlockOverRuns(hash, trace, events, [Single("alpha", 81), Single("beta", 80)], t);
  }

  // ---- the exception: a pass that cannot read the store ----

  /** The edit removed the annotations, and the port list was reset. */
  ghost function Wiped(hash: Hash): Cluster {
    AfterSwap(hash, [Single("alpha", 81), Single("beta", 80)]).(muxPorts := {PLACEHOLDER})
  }

  function WipedInput(hash: Hash): Input {
    Input(hash, PLAIN_MUX, [Single("alpha", 81), Single("beta", 80)], [PLACEHOLDER], Unreadable, map[])
  }

  /** Nothing else in such a pass remembers the old owners, so it accepts both. */
  lemma BlindPassLetsSwap(hash: Hash)
    requires Apart(hash) && ShortHash(hash)
    ensures InputOf(hash, Wiped(hash), [PLACEHOLDER], map[], false) == WipedInput(hash)
    ensures OutcomeOf(WipedInput(hash), 0) == Accepted([81]) && OutcomeOf(WipedInput(hash), 1) == Accepted([80])
  {
    hide OutcomeOf, FirstOwners, ShortHash, ChannelLe, RunUpTo;
    PairSorted([Single("alpha", 81), Single("beta", 80)]);
    NothingOwned(WipedInput(hash));
    FirstGets(WipedInput(hash), 81);
    SecondGets(WipedInput(hash), 81, 80);
  }
}
