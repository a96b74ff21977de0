/** A surviving port list alone does not protect a port: a run in which a pass that
    cannot read the store gives a port away, and the next pass gives it back. */
module StaleStore {
  import opened Wrappers
  import opened Annotations
  import opened Model
  import opened ChannelOrder
  import opened Claims
  import opened Reconcile
  import opened Pass
  import opened PassFacts
  import opened PassInvariant
  import opened Stability
  import opened Recovery
  import opened Handover
  import opened Runs
  import opened Scenarios

  /** Two channels that both ask for port 80. */
  const RIVALS := [Single("alpha", 80), Single("beta", 80)]

  /** The store says that `beta` has it. */
  const BETAS_CLAIM := NewClaim(RefNamed("beta"), 80, 80, StaticSource)
  const BETAS := State(Some([BETAS_CLAIM]), [])

  /** The mux shows its placeholder. */
  const RIVAL_CLUSTER := Cluster(RIVALS, {PLACEHOLDER}, Some(BETAS), PLAIN_MUX)

  /** First a pass that cannot read the store. */
  const BLIND := BlindPass([PLACEHOLDER], map[])

  function BlindInput(hash: Hash): Input {
    InputOf(hash, RIVAL_CLUSTER, [PLACEHOLDER], map[], false)
  }

  ghost function AfterBlind(hash: Hash): Cluster {
    AfterPass(RIVAL_CLUSTER, BlindInput(hash))
  }

  /** Then one that can. */
  ghost function SightedInput(hash: Hash, listing: seq<MuxPort>): Input {
    InputOf(hash, AfterBlind(hash), listing, map[], true)
  }

  lemma RivalsGood(hash: Hash)
    requires Apart(hash)
    ensures Good(hash, RIVAL_CLUSTER) && StoreClaims(RIVAL_CLUSTER) == map[RefNamed("beta") := BETAS_CLAIM]
  {
    PairWellFormed(hash, RIVALS);
    var records := BETAS.portClaims.value;
    assert ReadUpTo(records, 0) == EMPTY_BOOK;
    assert ReadUpTo(records, 1).claims == map[RefNamed("beta") := BETAS_CLAIM];
  }

  /** Not seeing the claim, the pass gives the port to the first channel in order. */
  lemma BlindGivesAway(hash: Hash)
    requires Apart(hash) && ShortHash(hash)
    ensures Holder(BlindInput(hash), RefNamed("alpha"), Tcp(80))
  {
    hide RunUpTo, OutcomeOf, Recovered, FirstOwners, ShortHash;
    var input := BlindInput(hash);
    PairSorted(RIVALS);
    assert input.channels == RIVALS;
    NothingOwned(input);
    FirstGets(input, 80);
    assert HolderAt(input, 0, 0, RefNamed("alpha"), Tcp(80));
  }

  /** The store still names `beta`, and so does the next pass. */
  lemma SightedGivesBack(hash: Hash, listing: seq<MuxPort>)
    requires Apart(hash)
    ensures TwoChannels(SightedInput(hash, listing).channels)
    ensures Holder(SightedInput(hash, listing), RefNamed("beta"), Tcp(80))
  {
    hide RunUpTo, OutcomeOf, ChannelLe, Good, Requests, AllStatic, StaticNumbers, FirstBook, StoreClaims, Readable,
      BuildMuxPorts;
    var c, input := AfterBlind(hash), SightedInput(hash, listing);
    RivalsGood(hash);
    PairSorted(RIVALS);
    PassGood(hash, RIVAL_CLUSTER, [PLACEHOLDER], map[], false);
    BlindKeepsStore(RIVAL_CLUSTER, BlindInput(hash));
    Shape(BlindInput(hash), 2);
    PairSorted(c.channels);
    SameStore(RIVAL_CLUSTER, c);
    SingleRequests(input.channels[1], "beta", 80);
    assert NumberKey(Single("beta", 80), [80], 0) == Tcp(80);
    SingleRequests(Single("beta", 80), "beta", 80);
    assert Claimed(StoreClaims(c), Single("beta", 80), [80]);
    TenureThroughPass(hash, c, listing, map[], Single("beta", 80), 1);
    NoLimit(input, 1);
    AcceptedIff(input, 1);
    assert HolderAt(input, 1, 0, RefNamed("beta"), Tcp(80));
  }

  /** THEOREM (a direct handover). In the run of these two passes `alpha` holds port 80
      after the first and is still declared, the live port list is what the first pass
      published, and after the second `beta` holds port 80: the port went straight from
      one channel to another. */
  lemma StaleStoreHandsOver(hash: Hash, listing: seq<MuxPort>)
    requires Apart(hash) && ShortHash(hash) && Lists(listing, AfterBlind(hash).muxPorts)
    ensures var second := FullPass(listing, map[]);
      Good(hash, RIVAL_CLUSTER) && Enabled(hash, AfterBlind(hash), second)
      && IsRun(hash, [RIVAL_CLUSTER, AfterBlind(hash), Apply(hash, AfterBlind(hash), second)], [BLIND, second])
    ensures Readable(BlindInput(hash).channels) && PortsKept(BlindInput(hash), SightedInput(hash, listing))
    ensures Holder(BlindInput(hash), RefNamed("alpha"), Tcp(80))
    ensures RefNamed("alpha") in ActiveRefs(SightedInput(hash, listing).channels)
    ensures Holder(SightedInput(hash, listing), RefNamed("beta"), Tcp(80))
  {
    hide RunUpTo, Holder, ChannelLe, Good, ActiveRefs, ShortHash;
    RivalsGood(hash);
    BlindGivesAway(hash);
    SightedGivesBack(hash, listing);
    PairActive(SightedInput(hash, listing).channels);
    PairSorted(RIVALS);
    forall i | 0 <= i < |RIVALS| ensures PortMappings(RIVALS[i].portsText).Some? {
      BlankAnnotation(RIVALS[i], 0);
    }
  }
}
