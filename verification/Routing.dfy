/** Traffic for an accepted channel port reaches exactly that port's own backends. */
module Routing {
  import opened Model
  import opened Reconcile
  import opened Endpoints
  import opened Pass
  import opened PassInvariant

  /** No other endpoint port name of an accepted channel shares the hash of `name`. */
  ghost predicate Unshared(input: Input, i: nat, name: string)
    requires i < |input.channels|
  {
    forall k: nat | k < |input.channels| && OutcomeOf(input, k).Accepted? ::
      var ch, muxName := input.channels[k], PortHash(input.hash, input.channels[i].ns, input.channels[i].name, name);
      if k == i then HashesOnly(input.hash, ch, SubsetsOf(input.cache, ch), muxName, name)
      else HashesNever(input.hash, ch, SubsetsOf(input.cache, ch), muxName)
  }

  /** What one more accepted channel adds to the routes of `muxName`. */
  lemma TurnRoutes(input: Input, k: nat, muxName: string, ready: bool)
    requires k < |input.channels|
    ensures Routes(RunUpTo(input, k + 1).endpoints, muxName, ready) ==
      Routes(RunUpTo(input, k).endpoints, muxName, ready)
        + (if OutcomeOf(input, k).Accepted?
           then Routes(MuxSubsets(input.hash, input.channels[k], SubsetsOf(input.cache, input.channels[k])),
                       muxName, ready)
           else {})
  {
    hide RunUpTo, OutcomeOf, ResolutionOf, Routes, MuxSubsets, Compatible, NewPorts;
    if OutcomeOf(input, k).Accepted? {
      AcceptedStep(input, k);
      RoutesAppend(RunUpTo(input, k).endpoints,
        MuxSubsets(input.hash, input.channels[k], SubsetsOf(input.cache, input.channels[k])), muxName, ready);
    } else {
      RejectedStep(input, k);
    }
  }

  lemma {:induction false} RoutesUpTo(input: Input, i: nat, name: string, ready: bool, k: nat)
    requires i < |input.channels| && k <= |input.channels| && Unshared(input, i, name)
    ensures Routes(RunUpTo(input, k).endpoints,
      PortHash(input.hash, input.channels[i].ns, input.channels[i].name, name), ready) ==
      if i < k && OutcomeOf(input, i).Accepted? then Routes(SubsetsOf(input.cache, input.channels[i]), name, ready)
      else {}
  {
    hide RunUpTo, OutcomeOf, MuxSubsets, HashesOnly, HashesNever, PortHash, RoutesIn;
    var muxName := PortHash(input.hash, input.channels[i].ns, input.channels[i].name, name);
    if k == 0 {
      RunStart(input);
    } else {
      RoutesUpTo(input, i, name, ready, k - 1);
      TurnRoutes(input, k - 1, muxName, ready);
      var ch := input.channels[k - 1];
      if OutcomeOf(input, k - 1).Accepted? {
        if k - 1 == i {
          RenamingPreservesRoutes(input.hash, ch, SubsetsOf(input.cache, ch), muxName, name, ready);
        } else {
          ForeignRoutes(input.hash, ch, SubsetsOf(input.cache, ch), muxName, ready);
        }
      }
    }
  }

  /** What the cached Endpoints of `ns/service`, if there are any, list for a port. */
  function OwnRoutes(cache: Cache, ns: string, service: string, name: string, ready: bool): set<Backend> {
    if (ns, service) in cache then Routes(cache[(ns, service)], name, ready) else {}
  }

  lemma OwnSubsets(cache: Cache, ch: Channel, name: string, ready: bool)
    ensures Routes(SubsetsOf(cache, ch), name, ready) == OwnRoutes(cache, ch.ns, ch.name, name, ready)
  {
    assert Routes([], name, ready) == {};
  }

  /** THEOREM (routing preserved). For every port of an accepted channel the mux publishes
      an entry under the port's hash, and following that name through the generated
      subsets leads to exactly the backends, ready and not ready, that the channel's own
      Endpoints list for the port. */
  lemma RoutingPreserved(input: Input, i: nat, j: nat, ready: bool)
    requires i < |input.channels| && j < |input.channels[i].ports| && OutcomeOf(input, i).Accepted?
    requires ShortHash(input.hash) && Unshared(input, i, input.channels[i].ports[j].name)
    ensures |OutcomeOf(input, i).numbers| == |input.channels[i].ports|
    ensures var p := MuxPortOf(input.hash, input.channels[i], j, OutcomeOf(input, i).numbers[j]);
      p in BuildMuxPorts(Final(input).ports)
      && Routes(Final(input).endpoints, p.name, ready) ==
         OwnRoutes(input.cache, input.channels[i].ns, input.channels[i].name, input.channels[i].ports[j].name, ready)
  {
    hide RunUpTo, OutcomeOf, ResolutionOf, Routes, BuildMuxPorts, Unshared, ShortHash, OwnRoutes, SubsetsOf;
    OwnSubsets(input.cache, input.channels[i], input.channels[i].ports[j].name, ready);
    AcceptedStep(input, i);
    var p := MuxPortOf(input.hash, input.channels[i], j, OutcomeOf(input, i).numbers[j]);
    assert p in NewPorts(input, i);
    assert PortOfAccepted(input, i, p);
    PortsExact(input, |input.channels|, p);
    PublishedPorts(input);
    RoutesUpTo(input, i, input.channels[i].ports[j].name, ready, |input.channels|);
  }

  /** A channel that was not accepted contributes nothing: no port of its own leads
      anywhere through the mux. */
  lemma RejectedRoutesNowhere(input: Input, i: nat, name: string, ready: bool)
    requires i < |input.channels| && !OutcomeOf(input, i).Accepted? && Unshared(input, i, name)
    ensures var muxName := PortHash(input.hash, input.channels[i].ns, input.channels[i].name, name);
      Routes(Final(input).endpoints, muxName, ready) == {}
  {
    hide RunUpTo, OutcomeOf, Routes, Unshared;
    RoutesUpTo(input, i, name, ready, |input.channels|);
  }

  /** THEOREM (routing, backend by backend). A backend is reached through the published
      name `hash(namespace/service/port)` exactly if the cache has Endpoints for the
      channel's own namespace and name and some subset of them offers it for the port. */
  lemma RoutedIff(input: Input, i: nat, j: nat, ready: bool, b: Backend)
    requires i < |input.channels| && j < |input.channels[i].ports| && OutcomeOf(input, i).Accepted?
    requires ShortHash(input.hash) && Unshared(input, i, input.channels[i].ports[j].name)
    ensures var ch := input.channels[i];
      Offers(Final(input).endpoints, input.hash(ch.ns + "/" + ch.name + "/" + ch.ports[j].name), ready, b) <==>
      (ch.ns, ch.name) in input.cache && Offers(input.cache[(ch.ns, ch.name)], ch.ports[j].name, ready, b)
  {
    hide RunUpTo, OutcomeOf, Routes, Unshared, ShortHash, BuildMuxPorts, Offers;
    var ch := input.channels[i];
    var muxName := input.hash(ch.ns + "/" + ch.name + "/" + ch.ports[j].name);
    RoutingPreserved(input, i, j, ready);
    RoutesIff(Final(input).endpoints, muxName, ready, b);
    if (ch.ns, ch.name) in input.cache {
      RoutesIff(input.cache[(ch.ns, ch.name)], ch.ports[j].name, ready, b);
    }
  }

  /** Every published subset has an address. */
  lemma {:induction false} NoEmptyPublished(input: Input, k: nat, s: Subset)
    requires k <= |input.channels| && s in RunUpTo(input, k).endpoints
    ensures s.addresses != [] || s.notReady != []
  {
    hide RunUpTo, OutcomeOf, MuxSubsets, Compatible, ResolutionOf, NewPorts;
    if k == 0 {
      RunStart(input);
    } else {
      var i: nat := k - 1;
      if s in RunUpTo(input, i).endpoints {
        NoEmptyPublished(input, i, s);
      } else if OutcomeOf(input, i).Accepted? {
        AcceptedStep(input, i);
        NoEmptySubset(input.hash, input.channels[i], SubsetsOf(input.cache, input.channels[i]), s);
      } else {
        RejectedStep(input, i);
      }
    }
  }
}
