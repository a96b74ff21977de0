/** The entities of the controller: channel Services, mux ports, claim keys, owners. */
module Model {
  import opened Wrappers
  import opened Text
  import opened Annotations

  /** A mux port number together with its protocol. */
  datatype PortKey = PortKey(port: int, proto: string)

  /** An entry of the mux Service's `spec.ports`. */
  datatype MuxPort = MuxPort(name: string, port: int, proto: string) {
    function Key(): PortKey {
      PortKey(port, proto)
    }
  }

  /** `PortAllocationRef`: the identity of a channel port. */
  datatype Ref = Ref(ns: string, service: string, portName: string, proto: string) {
    function KeyText(): string {
      proto + ":" + ns + ":" + service + ":" + portName
    }

    predicate CleanNames() {
      Clean(ns) && Clean(service) && Clean(portName) && Clean(proto)
    }
  }

  /** Who holds a mux port: a channel and the hashed name of one of its ports. */
  datatype Owner = Owner(ns: string, service: string, muxName: string) {
    function OwnerText(): string {
      ns + "/" + service + ":" + muxName
    }
  }

  datatype PortSpec = PortSpec(name: string, port: PortNumber, proto: string)

  /** A channel Service, with its `external-ports`, `ports`, `external-dns-hostname` and
      `cloudflare-proxied` annotations. */
  datatype Channel = Channel(ns: string, name: string, ports: seq<PortSpec>, externalPorts: string, portsText: string,
                             dnsHostname: Option<string>, proxied: Option<string>) {
    /** The same Service, whatever its `ports` annotation says. */
    predicate SameSpec(other: Channel) {
      ns == other.ns && name == other.name && ports == other.ports && externalPorts == other.externalPorts
    }

    function RefOf(j: nat): Ref
      requires j < |ports|
    {
      Ref(ns, name, ports[j].name, ports[j].proto)
    }
  }

  type Hash = string -> string

  /** `port_hash(ns, service, portName)`. */
  function PortHash(hash: Hash, ns: string, service: string, portName: string): string {
    hash(ns + "/" + service + "/" + portName)
  }

  function OwnerOf(hash: Hash, ref: Ref): Owner {
    Owner(ref.ns, ref.service, PortHash(hash, ref.ns, ref.service, ref.portName))
  }

  function ActiveIn(ch: Channel): set<Ref> {
    set j | 0 <= j < |ch.ports| && ch.ports[j].name != "" :: ch.RefOf(j)
  }

  /** `_active_claim_keys`, as a set. */
  function ActiveRefs(channels: seq<Channel>): set<Ref> {
    if channels == [] then {} else ActiveRefs(channels[..|channels| - 1]) + ActiveIn(channels[|channels| - 1])
  }

  lemma {:induction false} ActiveRefsIff(channels: seq<Channel>, r: Ref)
    ensures r in ActiveRefs(channels) <==>
      exists i, j :: 0 <= i < |channels| && 0 <= j < |channels[i].ports|
        && channels[i].ports[j].name != "" && channels[i].RefOf(j) == r
  {
    if channels != [] {
      var rest := channels[..|channels| - 1];
      ActiveRefsIff(rest, r);
      if r in ActiveRefs(rest) {
        var i, j :| 0 <= i < |rest| && 0 <= j < |rest[i].ports| && rest[i].ports[j].name != "" && rest[i].RefOf(j) == r;
        assert channels[i].RefOf(j) == r;
      }
      if i, j :| (0 <= i < |channels| && 0 <= j < |channels[i].ports|
          && channels[i].ports[j].name != "" && channels[i].RefOf(j) == r) {
        if i < |rest| {
          assert rest[i].RefOf(j) == r;
        }
      }
    }
  }

  /** What the Kubernetes API guarantees of a Service's port list: names are
      distinct, and free of separators and blanks. */
  predicate WellFormed(ch: Channel) {
    && (forall j | 0 <= j < |ch.ports| :: Clean(ch.ports[j].name))
    && (forall j, k | 0 <= j < k < |ch.ports| :: ch.ports[j].name != ch.ports[k].name)
  }

  predicate DistinctChannels(channels: seq<Channel>) {
    forall i, k | 0 <= i < k < |channels| ::
      channels[i].ns != channels[k].ns || channels[i].name != channels[k].name
  }

  predicate WellFormedAll(channels: seq<Channel>) {
    DistinctChannels(channels) && forall i | 0 <= i < |channels| :: WellFormed(channels[i])
  }

  /** The short port hash has no collision among the declared channel ports. */
  predicate CollisionFree(hash: Hash, channels: seq<Channel>) {
    forall r, s | r in ActiveRefs(channels) && s in ActiveRefs(channels) ::
      PortHash(hash, r.ns, r.service, r.portName) == PortHash(hash, s.ns, s.service, s.portName)
      ==> r.ns == s.ns && r.service == s.service && r.portName == s.portName
  }

  /** No hash reads "placeholder": a hash is seven hexadecimal digits. */
  ghost predicate ShortHash(hash: Hash) {
    forall s :: |hash(s)| == 7
  }

  // ---- the texts identify what they print ----

  lemma UniqueCut(a: string, b: string, x: string, y: string, sep: char)
    requires sep !in a && sep !in b
    requires a + [sep] + x == b + [sep] + y
    ensures a == b && x == y
  {
    CutAt(a, x, sep);
    CutAt(b, y, sep);
  }

  /** The text keys of the claim dictionary tell channel ports apart, so the
      dictionary may be keyed by the channel port itself. */
  lemma KeyTextInjective(r: Ref, s: Ref)
    requires r.CleanNames() && s.CleanNames() && r.KeyText() == s.KeyText()
    ensures r == s
  {
    var r2, s2 := r.service + [':'] + r.portName, s.service + [':'] + s.portName;
    var r1, s1 := r.ns + [':'] + r2, s.ns + [':'] + s2;
    assert r.KeyText() == r.proto + [':'] + r1 && s.KeyText() == s.proto + [':'] + s1;
    UniqueCut(r.proto, s.proto, r1, s1, ':');
    UniqueCut(r.ns, s.ns, r2, s2, ':');
    UniqueCut(r.service, s.service, r.portName, s.portName, ':');
  }

  /** Likewise for the owner texts. */
  lemma OwnerTextInjective(a: Owner, b: Owner)
    requires Clean(a.ns) && Clean(a.service) && Clean(b.ns) && Clean(b.service)
    requires a.OwnerText() == b.OwnerText()
    ensures a == b
  {
    var at, bt := a.service + [':'] + a.muxName, b.service + [':'] + b.muxName;
    assert a.OwnerText() == a.ns + ['/'] + at && b.OwnerText() == b.ns + ['/'] + bt;
    UniqueCut(a.ns, b.ns, at, bt, '/');
    UniqueCut(a.service, b.service, a.muxName, b.muxName, ':');
  }

  /** What the texts look like. */
  lemma TextExamples()
    ensures Ref("games", "alpha", "p2p", "TCP").KeyText() == "TCP:games:alpha:p2p"
    ensures Owner("games", "alpha", "0a1b2c3").OwnerText() == "games/alpha:0a1b2c3"
  {}
}
