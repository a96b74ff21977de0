/** Endpoint subsets: copied from accepted channels into the mux Endpoints, with
    port names replaced by their hashes. */
module Endpoints {
  import opened Model

  datatype EndpointPort = EndpointPort(name: string, port: int, proto: string)
  datatype Subset = Subset(addresses: seq<string>, notReady: seq<string>, ports: seq<EndpointPort>)

  /** The endpoint cache: the subsets of each channel's own Endpoints. */
  type Cache = map<(string, string), seq<Subset>>

  function SubsetsOf(cache: Cache, ch: Channel): seq<Subset> {
    if (ch.ns, ch.name) in cache then cache[(ch.ns, ch.name)] else []
  }

  function RenamedPorts(hash: Hash, ch: Channel, ports: seq<EndpointPort>): seq<EndpointPort> {
    seq(|ports|, i requires 0 <= i < |ports| =>
      EndpointPort(PortHash(hash, ch.ns, ch.name, ports[i].name), ports[i].port, ports[i].proto))
  }

  function MuxSubset(hash: Hash, ch: Channel, s: Subset): Subset {
    Subset(s.addresses, s.notReady, RenamedPorts(hash, ch, s.ports))
  }

  /** `collect_channel_endpoints`: a subset without any address is skipped. */
  function MuxSubsets(hash: Hash, ch: Channel, subsets: seq<Subset>): seq<Subset> {
    if subsets == [] then []
    else
      var rest := MuxSubsets(hash, ch, subsets[..|subsets| - 1]);
      var last := subsets[|subsets| - 1];
      if last.addresses == [] && last.notReady == [] then rest else rest + [MuxSubset(hash, ch, last)]
  }

  method CollectChannelEndpoints(hash: Hash, ch: Channel, cache: Cache) returns (endpoints: seq<Subset>)
    ensures endpoints == MuxSubsets(hash, ch, SubsetsOf(cache, ch))
  {
    endpoints := [];
    var subsets := SubsetsOf(cache, ch);
    for i := 0 to |subsets|
      invariant endpoints == MuxSubsets(hash, ch, subsets[..i])
    {
      assert subsets[..i + 1][..i] == subsets[..i];
      if subsets[i].addresses == [] && subsets[i].notReady == [] {
        continue;
      }
      var ports: seq<EndpointPort> := [];
      for j := 0 to |subsets[i].ports|
        invariant ports == RenamedPorts(hash, ch, subsets[i].ports[..j])
      {
        var port := subsets[i].ports[j];
        ports := ports + [EndpointPort(PortHash(hash, ch.ns, ch.name, port.name), port.port, port.proto)];
      }
      assert subsets[i].ports[..|subsets[i].ports|] == subsets[i].ports;
      endpoints := endpoints + [Subset(subsets[i].addresses, subsets[i].notReady, ports)];
    }
    assert subsets[..|subsets|] == subsets;
  }

  // ---- routing ----

  /** Where traffic for a named port ends up: an address and a target port. */
  datatype Backend = Backend(ip: string, port: int, proto: string)

  function Addresses(s: Subset, ready: bool): seq<string> {
    if ready then s.addresses else s.notReady
  }

  /** The backends a subset offers for the port called `name`. */
  function RoutesIn(s: Subset, name: string, ready: bool): set<Backend> {
    set a, p | a in Addresses(s, ready) && p in s.ports && p.name == name :: Backend(a, p.port, p.proto)
  }

  /** Kubernetes resolves a Service port to the Endpoints ports of the same name. */
  function Routes(subsets: seq<Subset>, name: string, ready: bool): set<Backend> {
    if subsets == [] then {}
    else Routes(subsets[..|subsets| - 1], name, ready) + RoutesIn(subsets[|subsets| - 1], name, ready)
  }

  /** Some subset lists the address of `b`, ready or not as asked, and has a port called
      `name` with the port and protocol of `b`. */
  ghost predicate Offers(subsets: seq<Subset>, name: string, ready: bool, b: Backend) {
    exists s, p :: s in subsets && OfferedBy(s, p, name, ready, b)
  }

  predicate OfferedBy(s: Subset, p: EndpointPort, name: string, ready: bool, b: Backend) {
    && p in s.ports && p.name == name && b.port == p.port && b.proto == p.proto
    && b.ip in (if ready then s.addresses else s.notReady)
  }

  lemma RoutesInIff(s: Subset, name: string, ready: bool, b: Backend)
    ensures b in RoutesIn(s, name, ready) <==> exists p :: OfferedBy(s, p, name, ready, b)
  {
    if b in RoutesIn(s, name, ready) {
      var a, p :| a in Addresses(s, ready) && p in s.ports && p.name == name && b == Backend(a, p.port, p.proto);
      assert OfferedBy(s, p, name, ready, b);
    }
    if p :| OfferedBy(s, p, name, ready, b) {
      assert b == Backend(b.ip, p.port, p.proto) && b.ip in Addresses(s, ready);
    }
  }

  lemma {:induction false} RoutesIff(subsets: seq<Subset>, name: string, ready: bool, b: Backend)
    ensures b in Routes(subsets, name, ready) <==> Offers(subsets, name, ready, b)
  {
    hide RoutesIn, OfferedBy;
    if subsets != [] {
      var front, last := subsets[..|subsets| - 1], subsets[|subsets| - 1];
      RoutesIff(front, name, ready, b);
      RoutesInIff(last, name, ready, b);
      assert subsets == front + [last];
    }
  }

  /** No collected subset is without an address. */
  lemma {:induction false} NoEmptySubset(hash: Hash, ch: Channel, subsets: seq<Subset>, s: Subset)
    requires s in MuxSubsets(hash, ch, subsets)
    ensures s.addresses != [] || s.notReady != []
  {
    if s in MuxSubsets(hash, ch, subsets[..|subsets| - 1]) {
      NoEmptySubset(hash, ch, subsets[..|subsets| - 1], s);
    }
  }

  /** `name` is the only endpoint port name of the channel with this hash. */
  ghost predicate HashesOnly(hash: Hash, ch: Channel, subsets: seq<Subset>, muxName: string, name: string) {
    forall s, p | s in subsets && p in s.ports ::
      PortHash(hash, ch.ns, ch.name, p.name) == muxName <==> p.name == name
  }

  /** No endpoint port name of the channel has this hash. */
  ghost predicate HashesNever(hash: Hash, ch: Channel, subsets: seq<Subset>, muxName: string) {
    forall s, p | s in subsets && p in s.ports :: PortHash(hash, ch.ns, ch.name, p.name) != muxName
  }

  lemma RoutesInRenamed(hash: Hash, ch: Channel, s: Subset, muxName: string, name: string, ready: bool)
    requires forall p | p in s.ports :: PortHash(hash, ch.ns, ch.name, p.name) == muxName <==> p.name == name
    ensures RoutesIn(MuxSubset(hash, ch, s), muxName, ready) == RoutesIn(s, name, ready)
  {
    var renamed := RenamedPorts(hash, ch, s.ports);
    forall b | b in RoutesIn(MuxSubset(hash, ch, s), muxName, ready) ensures b in RoutesIn(s, name, ready) {
      var a, p :| a in Addresses(s, ready) && p in renamed && p.name == muxName && b == Backend(a, p.port, p.proto);
      var i :| 0 <= i < |renamed| && renamed[i] == p;
      assert s.ports[i] in s.ports;
    }
    forall b | b in RoutesIn(s, name, ready) ensures b in RoutesIn(MuxSubset(hash, ch, s), muxName, ready) {
      var a, p :| a in Addresses(s, ready) && p in s.ports && p.name == name && b == Backend(a, p.port, p.proto);
      var i :| 0 <= i < |s.ports| && s.ports[i] == p;
      var q := renamed[i];
      assert q in MuxSubset(hash, ch, s).ports && q.name == muxName;
      assert a in Addresses(MuxSubset(hash, ch, s), ready) && b == Backend(a, q.port, q.proto);
    }
  }

  /** Renaming preserves routing: the hashed name leads to exactly the backends the
      channel's own Endpoints list for the original name, ready and not ready alike. */
  lemma {:induction false} RenamingPreservesRoutes(hash: Hash, ch: Channel, subsets: seq<Subset>, muxName: string,
      name: string, ready: bool)
    requires HashesOnly(hash, ch, subsets, muxName, name)
    ensures Routes(MuxSubsets(hash, ch, subsets), muxName, ready) == Routes(subsets, name, ready)
  {
    if subsets != [] {
      var front, last := subsets[..|subsets| - 1], subsets[|subsets| - 1];
      assert forall s | s in front :: s in subsets;
      RenamingPreservesRoutes(hash, ch, front, muxName, name, ready);
      assert last in subsets;
      RoutesInRenamed(hash, ch, last, muxName, name, ready);
      RoutesAppend(MuxSubsets(hash, ch, front), [MuxSubset(hash, ch, last)], muxName, ready);
      if last.addresses == [] && last.notReady == [] {
        assert RoutesIn(last, name, ready) == {};
      } else {
        assert [MuxSubset(hash, ch, last)][..0] == [];
      }
    }
  }

  lemma {:induction false} ForeignRoutes(hash: Hash, ch: Channel, subsets: seq<Subset>, muxName: string, ready: bool)
    requires HashesNever(hash, ch, subsets, muxName)
    ensures Routes(MuxSubsets(hash, ch, subsets), muxName, ready) == {}
  {
    if subsets != [] {
      var front, last := subsets[..|subsets| - 1], subsets[|subsets| - 1];
      assert forall s | s in front :: s in subsets;
      ForeignRoutes(hash, ch, front, muxName, ready);
      assert last in subsets;
      var renamed := RenamedPorts(hash, ch, last.ports);
      forall p | p in renamed ensures p.name != muxName {
        var i :| 0 <= i < |renamed| && renamed[i] == p;
        assert last.ports[i] in last.ports;
      }
      assert RoutesIn(MuxSubset(hash, ch, last), muxName, ready) == {};
      RoutesAppend(MuxSubsets(hash, ch, front), [MuxSubset(hash, ch, last)], muxName, ready);
      assert [MuxSubset(hash, ch, last)][..0] == [];
    }
  }

  lemma {:induction false} RoutesAppend(xs: seq<Subset>, ys: seq<Subset>, name: string, ready: bool)
    ensures Routes(xs + ys, name, ready) == Routes(xs, name, ready) + Routes(ys, name, ready)
  {
    if ys == [] {
      assert xs + ys == xs;
    } else {
      RoutesAppend(xs, ys[..|ys| - 1], name, ready);
      assert (xs + ys)[..|xs + ys| - 1] == xs + ys[..|ys| - 1];
    }
  }
}
