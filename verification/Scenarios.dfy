/** The small clusters of the example runs: two channels with one port each. */
module Scenarios {
  import opened Wrappers
  import opened Text
  import opened Annotations
  import opened Model
  import opened Sorting
  import opened ChannelOrder
  import opened Claims
  import opened Reconcile
  import opened PortLimit
  import opened Pass
  import opened PassInvariant
  import opened Stability
  import opened Recovery
  import opened Blocking

  const PLAIN_MUX := MuxService("", map[])

  /** A channel that asks for one static port. */
  function Single(name: string, number: PortNumber): Channel {
    Channel("games", name, [PortSpec("p2p", number, "TCP")], "", "", None, None)
  }

  function RefNamed(name: string): Ref {
    Ref("games", name, "p2p", "TCP")
  }

  function Tcp(number: int): PortKey {
    PortKey(number, "TCP")
  }

  /** The channel has the name and the port of a `Single`, whatever its annotations. */
  predicate OnePort(ch: Channel, name: string) {
    ch.ns == "games" && ch.name == name && |ch.ports| == 1 && ch.ports[0].name == "p2p" && ch.ports[0].proto == "TCP"
  }

  predicate TwoChannels(channels: seq<Channel>) {
    |channels| == 2 && OnePort(channels[0], "alpha") && OnePort(channels[1], "beta")
  }

  /** The hash tells the two channels' ports apart. */
  predicate Apart(hash: Hash) {
    PortHash(hash, "games", "alpha", "p2p") != PortHash(hash, "games", "beta", "p2p")
  }

  lemma SingleRequests(ch: Channel, name: string, number: PortNumber)
    requires ch.SameSpec(Single(name, number))
    ensures Requests(ch) == Ok(map[]) && AllStatic(ch) && StaticNumbers(ch) == [number]
  {
    assert Split("", ',') == [""];
    assert ReadExternal("") == Ok(None);
    assert ExternalUpTo([""], 0) == Ok(map[]);
    assert ExternalUpTo([""], 1) == Ok(map[]);
  }

  lemma PairSorted(channels: seq<Channel>)
    requires TwoChannels(channels)
    ensures Sort(channels, ChannelLe) == channels
  {
    assert StrLe("alpha", "beta");
    assert channels[1..][1..] == [] && channels[1..][0] == channels[1];
    assert Sort(channels[1..], ChannelLe) == [channels[1]];
    assert channels == [channels[0]] + [channels[1]];
  }

  lemma PairActive(channels: seq<Channel>)
    requires TwoChannels(channels)
    ensures ActiveRefs(channels) == {RefNamed("alpha"), RefNamed("beta")}
  {
    assert channels[..1][..0] == [] && ActiveRefs([]) == {};
    assert ActiveIn(channels[0]) == {channels[0].RefOf(0)} && ActiveIn(channels[1]) == {channels[1].RefOf(0)};
    assert ActiveRefs(channels[..1]) == ActiveIn(channels[0]);
  }

  lemma PairWellFormed(hash: Hash, channels: seq<Channel>)
    requires TwoChannels(channels) && Apart(hash)
    ensures WellFormedAll(channels) && CollisionFree(hash, channels)
  {
    PairActive(channels);
  }

  /** The claims of an empty document. */
  lemma NothingLoaded(active: set<Ref>)
    ensures Load(NoState, active).claims == map[] && Load(NoState, active).order == []
  {
    assert ReadUpTo([], 0) == EMPTY_BOOK;
    KeptIff([], active);
  }

  /** A pass with no claims to read and nothing to recover starts without owners. */
  lemma NothingOwned(input: Input)
    requires LoadedState(input) == NoState && ShortHash(input.hash)
    requires (forall p | p in input.livePorts :: p.name == "placeholder")
    requires forall ch | ch in input.channels :: ch.portsText == ""
    ensures FirstOwners(input) == map[] && FirstBook(input).claims == map[]
  {
    hide Recovered, Load;
    BlankRecovered(input.hash, input.channels, input.livePorts);
    NothingLoaded(ActiveRefs(input.channels));
  }

  lemma NoLimit(input: Input, i: nat)
    requires input.mux.loadBalancerClass == "" && i < |input.channels|
    requires forall key | key in input.mux.annotations :: key == PORT_RANGE_KEY
    ensures HasRoom(input, i)
  {
    assert MAX_PORTS_KEY != PORT_RANGE_KEY && !IsGke(input.mux);
  }

  /** The first channel of a pass gets its port if nobody else owns it. */
  lemma FirstGets(input: Input, number: PortNumber)
    requires TwoChannels(input.channels) && Apart(input.hash) && input.mux == PLAIN_MUX
    requires input.channels[0].SameSpec(Single("alpha", number)) && Tcp(number) !in FirstOwners(input)
    ensures OutcomeOf(input, 0) == Accepted([number])
  {
    hide RunUpTo, OutcomeOf, FirstOwners, Requests, AllStatic, StaticNumbers, HasRoom;
    PairWellFormed(input.hash, input.channels);
    SingleRequests(input.channels[0], "alpha", number);
    NoLimit(input, 0);
    StaticAcceptedIff(input, 0);
    AcceptedStatic(input, 0);
  }

  /** So does the second, if the first one asks for another. */
  lemma SecondGets(input: Input, first: PortNumber, number: PortNumber)
    requires TwoChannels(input.channels) && Apart(input.hash) && input.mux == PLAIN_MUX && first != number
    requires input.channels[0].SameSpec(Single("alpha", first)) && input.channels[1].SameSpec(Single("beta", number))
    requires Tcp(number) !in FirstOwners(input)
    ensures OutcomeOf(input, 1) == Accepted([number])
  {
    hide RunUpTo, OutcomeOf, FirstOwners, Requests, AllStatic, StaticNumbers, HasRoom;
    PairWellFormed(input.hash, input.channels);
    SingleRequests(input.channels[0], "alpha", first);
    SingleRequests(input.channels[1], "beta", number);
    NoLimit(input, 1);
    forall k: nat, j: nat, r | k < 1 ensures !HolderAt(input, k, j, r, Tcp(number)) {
      if HolderAt(input, k, j, r, Tcp(number)) {
        AcceptedStatic(input, 0);
      }
    }
    StaticAcceptedIff(input, 1);
    AcceptedStatic(input, 1);
  }
}
