/** The reconciliation helpers: requested ports, recovered owners, port resolution
    and conflict detection. Functions on values first, the source's loops after. */
module Reconcile {
  import opened Wrappers
  import opened Text
  import opened Annotations
  import opened Model
  import opened PortRanges
  import opened Sorting
  import opened Claims
  import MuxState

  // ---- requested ports ----

  predicate Named(ch: Channel) {
    forall j | 0 <= j < |ch.ports| :: ch.ports[j].name != ""
  }

  predicate Declares(ch: Channel, name: string) {
    exists j :: 0 <= j < |ch.ports| && ch.ports[j].name == name
  }

  /** `channel_port_claims`: the explicit requests of a channel whose annotation
      parses, whose ports are all named, and which requests declared names only. */
  function Requests(ch: Channel): Result<map<string, Request>> {
    match ExternalPorts(ch.externalPorts)
    case Err(e) => Err(e)
    case Ok(m) =>
      if !Named(ch) then Err(UnnamedPort)
      else if exists name | name in m :: !Declares(ch, name) then Err(UnknownName)
      else Ok(m)
  }

  predicate WantsAuto(m: map<string, Request>, port: PortSpec) {
    port.name in m && m[port.name].Auto?
  }

  /** The mux port of a request that is not automatic. */
  function StaticNumber(m: map<string, Request>, port: PortSpec): PortNumber
    requires !WantsAuto(m, port)
  {
    if port.name in m then m[port.name].port else port.port
  }

  function StaticUpTo(ch: Channel, k: nat): set<PortKey>
    requires k <= |ch.ports| && Requests(ch).Ok?
  {
    set j | 0 <= j < k && !WantsAuto(Requests(ch).value, ch.ports[j])
      :: PortKey(StaticNumber(Requests(ch).value, ch.ports[j]), ch.ports[j].proto)
  }

  lemma StaticStep(ch: Channel, k: nat)
    requires k < |ch.ports| && Requests(ch).Ok?
    ensures var port := ch.ports[k];
      StaticUpTo(ch, k + 1) == StaticUpTo(ch, k)
        + (if WantsAuto(Requests(ch).value, port) then {}
           else {PortKey(StaticNumber(Requests(ch).value, port), port.proto)})
  {
    hide Requests;
  }

  function StaticIn(ch: Channel): set<PortKey> {
    if Requests(ch).Err? then {} else StaticUpTo(ch, |ch.ports|)
  }

  /** `collect_static_port_claims`: what the valid channels declare statically. */
  function StaticClaims(channels: seq<Channel>): set<PortKey> {
    if channels == [] then {}
    else StaticClaims(channels[..|channels| - 1]) + StaticIn(channels[|channels| - 1])
  }

  lemma {:induction false} StaticClaimsIff(channels: seq<Channel>, pk: PortKey)
    ensures pk in StaticClaims(channels) <==> exists i :: 0 <= i < |channels| && pk in StaticIn(channels[i])
  {
    hide StaticIn;
    if channels != [] {
      var front := channels[..|channels| - 1];
      StaticClaimsIff(front, pk);
      if i :| 0 <= i < |channels| && pk in StaticIn(channels[i]) {
        assert i < |front| ==> front[i] == channels[i];
      }
    }
  }

  lemma StaticPrefix(channels: seq<Channel>, i: nat)
    requires i < |channels|
    ensures StaticClaims(channels[..i + 1]) == StaticClaims(channels[..i]) + StaticIn(channels[i])
  {
    hide StaticIn;
    assert channels[..i + 1][..i] == channels[..i] && channels[..i + 1][i] == channels[i];
  }

  lemma StaticAll(ch: Channel)
    ensures StaticIn(ch) == if Requests(ch).Err? then {} else StaticUpTo(ch, |ch.ports|)
    ensures Requests(ch).Ok? ==> StaticUpTo(ch, 0) == {}
  {
    hide Requests;
  }

  method CollectStaticPortClaims(channels: seq<Channel>) returns (claims: set<PortKey>)
    ensures claims == StaticClaims(channels)
  {
    hide Requests, StaticIn, StaticUpTo, StaticClaims, WantsAuto, StaticNumber;
    claims := {};
    assert channels[..0] == [] && StaticClaims(channels[..0]) == {} by { NothingStatic(channels); }
    for i := 0 to |channels|
      invariant claims == StaticClaims(channels[..i])
    {
      StaticPrefix(channels, i);
      var ch := channels[i];
      StaticAll(ch);
      var requests := Requests(ch);
      if requests.Ok? {
        for j := 0 to |ch.ports|
          invariant claims == StaticClaims(channels[..i]) + StaticUpTo(ch, j)
        {
          StaticStep(ch, j);
          if !WantsAuto(requests.value, ch.ports[j]) {
            claims := claims + {PortKey(StaticNumber(requests.value, ch.ports[j]), ch.ports[j].proto)};
          }
        }
      }
    }
    assert channels[..|channels|] == channels;
  }

  lemma NothingStatic(channels: seq<Channel>)
    ensures channels[..0] == [] && StaticClaims(channels[..0]) == {}
  {}

  // ---- recovered owners ----

  function OwnersNamedUpTo(hash: Hash, ch: Channel, k: nat, muxName: string): set<Owner>
    requires k <= |ch.ports|
  {
    if k == 0 then {}
    else if ch.ports[k - 1].name != "" && PortHash(hash, ch.ns, ch.name, ch.ports[k - 1].name) == muxName
    then OwnersNamedUpTo(hash, ch, k - 1, muxName) + {OwnerOf(hash, ch.RefOf(k - 1))}
    else OwnersNamedUpTo(hash, ch, k - 1, muxName)
  }

  /** The channel ports whose hash reads `muxName`. */
  function Candidates(hash: Hash, channels: seq<Channel>, muxName: string): set<Owner> {
    if channels == [] then {}
    else
      var last := channels[|channels| - 1];
      Candidates(hash, channels[..|channels| - 1], muxName) + OwnersNamedUpTo(hash, last, |last.ports|, muxName)
  }

  /** The mux port that a parsed annotation states for a port, if readable. */
  function MappedPort(m: map<string, string>, port: PortSpec): Option<PortKey> {
    if port.name == "" || port.name !in m then None
    else
      match ParsePort(m[port.name])
      case None => None
      case Some(n) => Some(PortKey(n, port.proto))
  }

  /** The mux port that the `ports` annotation states for port `j`. */
  function AnnotatedPort(ch: Channel, j: nat): Option<PortKey>
    requires j < |ch.ports|
  {
    match PortMappings(ch.portsText)
    case None => None
    case Some(m) => MappedPort(m, ch.ports[j])
  }

  function AnnotatedUpTo(hash: Hash, ch: Channel, k: nat, pk: PortKey): set<Owner>
    requires k <= |ch.ports|
  {
    if k == 0 then {}
    else if AnnotatedPort(ch, k - 1) == Some(pk)
    then AnnotatedUpTo(hash, ch, k - 1, pk) + {OwnerOf(hash, ch.RefOf(k - 1))}
    else AnnotatedUpTo(hash, ch, k - 1, pk)
  }

  function AnnotatedKeysUpTo(ch: Channel, k: nat): set<PortKey>
    requires k <= |ch.ports|
  {
    if k == 0 then {}
    else if AnnotatedPort(ch, k - 1).Some? then AnnotatedKeysUpTo(ch, k - 1) + {AnnotatedPort(ch, k - 1).value}
    else AnnotatedKeysUpTo(ch, k - 1)
  }

  /** The channel ports whose annotation states `pk`. */
  function Annotated(hash: Hash, channels: seq<Channel>, pk: PortKey): set<Owner> {
    if channels == [] then {}
    else
      var last := channels[|channels| - 1];
      Annotated(hash, channels[..|channels| - 1], pk) + AnnotatedUpTo(hash, last, |last.ports|, pk)
  }

  function AnnotatedKeys(channels: seq<Channel>): set<PortKey> {
    if channels == [] then {}
    else
      var last := channels[|channels| - 1];
      AnnotatedKeys(channels[..|channels| - 1]) + AnnotatedKeysUpTo(last, |last.ports|)
  }

  /** The one member of a singleton. */
  ghost function Only(owners: set<Owner>): (owner: Owner)
    requires |owners| == 1
    ensures owners == {owner}
  {
    var owner :| owner in owners;
    assert |owners - {owner}| == 0;
    owner
  }

  /** Owners read off the live mux ports: the first entry of a port that belongs to
      exactly one channel port wins. */
  ghost function MuxOwnersUpTo(hash: Hash, channels: seq<Channel>, existing: seq<MuxPort>, k: nat): map<PortKey, Owner>
    requires k <= |existing|
  {
    if k == 0 then map[]
    else
      var owners := MuxOwnersUpTo(hash, channels, existing, k - 1);
      var candidates := Candidates(hash, channels, existing[k - 1].name);
      if |candidates| != 1 || existing[k - 1].Key() in owners then owners
      else owners[existing[k - 1].Key() := Only(candidates)]
  }

  /** `collect_existing_port_owners`: live mux ports first, unambiguous annotations
      for the rest. */
  ghost function Recovered(hash: Hash, channels: seq<Channel>, existing: seq<MuxPort>): map<PortKey, Owner> {
    var owners := MuxOwnersUpTo(hash, channels, existing, |existing|);
    owners + map pk | pk in AnnotatedKeys(channels) && pk !in owners && |Annotated(hash, channels, pk)| == 1
      :: Only(Annotated(hash, channels, pk))
  }

  function SetAt<K, V>(d: map<K, set<V>>, k: K): set<V> {
    if k in d then d[k] else {}
  }

  method ChannelOwnersByMuxName(hash: Hash, channels: seq<Channel>) returns (owners: map<string, set<Owner>>)
    ensures forall name :: SetAt(owners, name) == Candidates(hash, channels, name)
  {
    owners := map[];
    for i := 0 to |channels|
      invariant forall name :: SetAt(owners, name) == Candidates(hash, channels[..i], name)
    {
      var ch := channels[i];
      assert channels[..i + 1][..i] == channels[..i];
      for j := 0 to |ch.ports|
        invariant forall name ::
          SetAt(owners, name) == Candidates(hash, channels[..i], name) + OwnersNamedUpTo(hash, ch, j, name)
      {
        if ch.ports[j].name != "" {
          var muxName := PortHash(hash, ch.ns, ch.name, ch.ports[j].name);
          owners := owners[muxName := SetAt(owners, muxName) + {Owner(ch.ns, ch.name, muxName)}];
        }
      }
    }
    assert channels[..|channels|] == channels;
  }

  method OwnersFromExistingMuxPorts(hash: Hash, channels: seq<Channel>, byName: map<string, set<Owner>>,
      existing: seq<MuxPort>)
    returns (owners: map<PortKey, Owner>)
    requires forall name :: SetAt(byName, name) == Candidates(hash, channels, name)
    ensures owners == MuxOwnersUpTo(hash, channels, existing, |existing|)
  {
    owners := map[];
    for k := 0 to |existing|
      invariant owners == MuxOwnersUpTo(hash, channels, existing, k)
    {
      var candidates := SetAt(byName, existing[k].name);
      assert candidates == Candidates(hash, channels, existing[k].name);
      if |candidates| == 1 {
        var key := existing[k].Key();
        if key !in owners {
          var owner :| owner in candidates;
          assert candidates == {Only(candidates)};
          owners := owners[key := owner];
        }
      }
    }
  }

  /** False when some annotation cannot be read: the source raises there. */
  method OwnersFromChannelPortAnnotations(hash: Hash, channels: seq<Channel>)
    returns (ok: bool, owners: map<PortKey, set<Owner>>)
    ensures ok <==> Readable(channels)
    ensures ok ==> owners.Keys == AnnotatedKeys(channels)
    ensures ok ==> forall pk :: SetAt(owners, pk) == Annotated(hash, channels, pk)
  {
    owners := map[];
    for i := 0 to |channels|
      invariant Readable(channels[..i])
      invariant owners.Keys == AnnotatedKeys(channels[..i])
      invariant forall pk :: SetAt(owners, pk) == Annotated(hash, channels[..i], pk)
    {
      AnnotatedPrefix(hash, channels, i);
      var mappings := ParsePortMappings(channels[i].portsText);
      if mappings.None? {
        return false, owners;
      }
      owners := AddAnnotated(hash, channels[i], mappings.value, owners);
    }
    assert channels[..|channels|] == channels;
    return true, owners;
  }

  lemma AnnotatedPrefix(hash: Hash, channels: seq<Channel>, i: nat)
    requires i < |channels|
    ensures Readable(channels[..i + 1]) <==> Readable(channels[..i]) && PortMappings(channels[i].portsText).Some?
    ensures AnnotatedKeys(channels[..i + 1])
      == AnnotatedKeys(channels[..i]) + AnnotatedKeysUpTo(channels[i], |channels[i].ports|)
    ensures forall pk :: Annotated(hash, channels[..i + 1], pk) ==
                    Annotated(hash, channels[..i], pk) + AnnotatedUpTo(hash, channels[i], |channels[i].ports|, pk)
  {
    hide PortMappings, AnnotatedUpTo, AnnotatedKeysUpTo;
    assert channels[..i + 1][..i] == channels[..i] && channels[..i + 1][i] == channels[i];
  }

  /** The inner loop: the entries of one channel's annotation. */
  method AddAnnotated(hash: Hash, ch: Channel, m: map<string, string>, before: map<PortKey, set<Owner>>)
    returns (owners: map<PortKey, set<Owner>>)
    requires PortMappings(ch.portsText) == Some(m)
    ensures owners.Keys == before.Keys + AnnotatedKeysUpTo(ch, |ch.ports|)
    ensures forall pk :: SetAt(owners, pk) == SetAt(before, pk) + AnnotatedUpTo(hash, ch, |ch.ports|, pk)
  {
    owners := before;
    for j := 0 to |ch.ports|
      invariant owners.Keys == before.Keys + AnnotatedKeysUpTo(ch, j)
      invariant forall pk :: SetAt(owners, pk) == SetAt(before, pk) + AnnotatedUpTo(hash, ch, j, pk)
    {
      var key := MappedPort(m, ch.ports[j]);
      assert key == AnnotatedPort(ch, j);
      if key.Some? {
        owners := owners[key.value := SetAt(owners, key.value) + {OwnerOf(hash, ch.RefOf(j))}];
      }
    }
  }

  /** Every channel's `ports` annotation can be read. */
  predicate Readable(channels: seq<Channel>) {
    forall i | 0 <= i < |channels| :: PortMappings(channels[i].portsText).Some?
  }

  ghost predicate Unambiguous(annotated: map<PortKey, set<Owner>>, pk: PortKey) {
    pk in annotated && |annotated[pk]| == 1
  }

  /** The annotation fallback: entries are added for ports not yet owned. */
  method AddUnambiguous(fromMux: map<PortKey, Owner>, annotated: map<PortKey, set<Owner>>)
    returns (owners: map<PortKey, Owner>)
    ensures forall pk :: pk in owners <==> pk in fromMux || Unambiguous(annotated, pk)
    ensures forall pk | pk in owners ::
      if pk in fromMux then owners[pk] == fromMux[pk] else {owners[pk]} == SetAt(annotated, pk)
  {
    owners := fromMux;
    var todo := annotated.Keys;
    while todo != {}
      invariant todo <= annotated.Keys
      invariant forall pk :: pk in owners <==> pk in fromMux || (pk !in todo && Unambiguous(annotated, pk))
      invariant forall pk | pk in owners ::
        if pk in fromMux then owners[pk] == fromMux[pk] else {owners[pk]} == SetAt(annotated, pk)
      decreases todo
    {
      var pk :| pk in todo;
      todo := todo - {pk};
      if pk !in owners && |annotated[pk]| == 1 {
        var owner :| owner in annotated[pk];
        assert annotated[pk] == {Only(annotated[pk])};
        owners := owners[pk := owner];
      }
    }
  }

  lemma RecoveredIs(hash: Hash, channels: seq<Channel>, existing: seq<MuxPort>,
                    annotated: map<PortKey, set<Owner>>, owners: map<PortKey, Owner>)
    requires annotated.Keys == AnnotatedKeys(channels)
    requires forall pk :: SetAt(annotated, pk) == Annotated(hash, channels, pk)
    requires var fromMux := MuxOwnersUpTo(hash, channels, existing, |existing|);
      && (forall pk :: pk in owners <==> pk in fromMux || Unambiguous(annotated, pk))
      && (forall pk | pk in owners ::
        if pk in fromMux then owners[pk] == fromMux[pk] else {owners[pk]} == SetAt(annotated, pk))
    ensures owners == Recovered(hash, channels, existing)
  {
    hide MuxOwnersUpTo, Annotated, AnnotatedKeys;
    var expected := Recovered(hash, channels, existing);
    forall pk ensures pk in owners <==> pk in expected {
      assert SetAt(annotated, pk) == Annotated(hash, channels, pk);
    }
    forall pk | pk in owners ensures owners[pk] == expected[pk] {
      assert SetAt(annotated, pk) == Annotated(hash, channels, pk);
    }
  }

  method CollectExistingPortOwners(hash: Hash, channels: seq<Channel>, existing: seq<MuxPort>)
    returns (ok: bool, owners: map<PortKey, Owner>)
    ensures ok <==> Readable(channels)
    ensures ok ==> owners == Recovered(hash, channels, existing)
  {
    var byName := ChannelOwnersByMuxName(hash, channels);
    var fromMux := OwnersFromExistingMuxPorts(hash, channels, byName, existing);
    var annotated;
    ok, annotated := OwnersFromChannelPortAnnotations(hash, channels);
    owners := fromMux;
    if ok {
      owners := AddUnambiguous(fromMux, annotated);
      RecoveredIs(hash, channels, existing, annotated, owners);
    }
  }

  // ---- resolving a channel's ports ----

  /** The book after the first ports of a channel, the mux ports found so far, and
      the error that ended the resolution. */
  datatype Resolution = Resolution(book: Book, numbers: seq<int>, error: Option<Failure>)

  function ResolveOne(c: Config, b: Book, ch: Channel, m: map<string, Request>, j: nat): Allocation
    requires j < |ch.ports|
  {
    if WantsAuto(m, ch.ports[j]) then Allocate(c, b, ch.RefOf(j), ch.ports[j].port)
    else Allocation(b, Ok(StaticNumber(m, ch.ports[j])))
  }

  function ResolveUpTo(c: Config, b: Book, ch: Channel, m: map<string, Request>, k: nat): (r: Resolution)
    requires k <= |ch.ports|
    ensures |r.numbers| <= k && (r.error.None? ==> |r.numbers| == k)
  {
    if k == 0 then Resolution(b, [], None)
    else
      var r := ResolveUpTo(c, b, ch, m, k - 1);
      if r.error.Some? then r
      else
        var a := ResolveOne(c, r.book, ch, m, k - 1);
        match a.port
        case Err(e) => Resolution(a.book, r.numbers, Some(e))
        case Ok(p) => Resolution(a.book, r.numbers + [p], None)
  }

  function Resolve(c: Config, b: Book, ch: Channel): (r: Resolution)
    ensures |r.numbers| <= |ch.ports| && (r.error.None? ==> |r.numbers| == |ch.ports|)
  {
    match Requests(ch)
    case Err(e) => Resolution(b, [], Some(e))
    case Ok(m) => ResolveUpTo(c, b, ch, m, |ch.ports|)
  }

  function MuxPortOf(hash: Hash, ch: Channel, j: nat, number: int): MuxPort
    requires j < |ch.ports|
  {
    MuxPort(PortHash(hash, ch.ns, ch.name, ch.ports[j].name), number, ch.ports[j].proto)
  }

  function MuxPortsOf(hash: Hash, ch: Channel, numbers: seq<int>): set<MuxPort>
    requires |numbers| <= |ch.ports|
  {
    set j | 0 <= j < |numbers| :: MuxPortOf(hash, ch, j, numbers[j])
  }

  function LinesOf(ch: Channel, numbers: seq<int>): seq<PortLine>
    requires |numbers| <= |ch.ports|
  {
    seq(|numbers|, j requires 0 <= j < |numbers| => PortLine(ch.ports[j].name, ch.ports[j].port, numbers[j]))
  }

  lemma {:induction false} ResolveFails(c: Config, b: Book, ch: Channel, m: map<string, Request>, j: nat, k: nat)
    requires j <= k <= |ch.ports| && ResolveUpTo(c, b, ch, m, j).error.Some?
    ensures ResolveUpTo(c, b, ch, m, k) == ResolveUpTo(c, b, ch, m, j)
  {
    if j < k {
      ResolveFails(c, b, ch, m, j, k - 1);
    }
  }

  lemma {:induction false} ResolveValid(c: Config, b: Book, ch: Channel, m: map<string, Request>, k: nat)
    requires b.Valid() && ValidRanges(c.ranges) && k <= |ch.ports|
    ensures var r := ResolveUpTo(c, b, ch, m, k);
      r.book.Valid() && forall j | 0 <= j < |r.numbers| :: 1 <= r.numbers[j] <= 65535
  {
    if k > 0 {
      ResolveValid(c, b, ch, m, k - 1);
      var r := ResolveUpTo(c, b, ch, m, k - 1);
      if r.error.None? && WantsAuto(m, ch.ports[k - 1]) {
        AllocateExact(c, r.book, ch.RefOf(k - 1), ch.ports[k - 1].port);
        var a := Allocate(c, r.book, ch.RefOf(k - 1), ch.ports[k - 1].port);
        if a.port.Ok? {
          var i :| 0 <= i < |c.ranges| && InRange(c.ranges[i], a.port.value);
        }
      }
    }
  }

  lemma OneMorePort(hash: Hash, ch: Channel, numbers: seq<int>, n: int)
    requires |numbers| < |ch.ports|
    ensures MuxPortsOf(hash, ch, numbers + [n]) == MuxPortsOf(hash, ch, numbers) + {MuxPortOf(hash, ch, |numbers|, n)}
    ensures LinesOf(ch, numbers + [n])
      == LinesOf(ch, numbers) + [PortLine(ch.ports[|numbers|].name, ch.ports[|numbers|].port, n)]
  {
    var more := numbers + [n];
    forall p | p in MuxPortsOf(hash, ch, numbers) ensures p in MuxPortsOf(hash, ch, more) {
      var j :| 0 <= j < |numbers| && p == MuxPortOf(hash, ch, j, numbers[j]);
      assert p == MuxPortOf(hash, ch, j, more[j]);
    }
    assert MuxPortOf(hash, ch, |numbers|, more[|numbers|]) in MuxPortsOf(hash, ch, more);
    forall p | p in MuxPortsOf(hash, ch, more) && p != MuxPortOf(hash, ch, |numbers|, n)
      ensures p in MuxPortsOf(hash, ch, numbers)
    {
      var j :| 0 <= j < |more| && p == MuxPortOf(hash, ch, j, more[j]);
      assert p == MuxPortOf(hash, ch, j, numbers[j]);
    }
  }

  lemma ResolveStart(c: Config, b: Book, ch: Channel, m: map<string, Request>, hash: Hash)
    ensures ResolveUpTo(c, b, ch, m, 0) == Resolution(b, [], None) && MuxPortsOf(hash, ch, []) == {}
    ensures LinesOf(ch, []) == []
  {}

  lemma ResolveNext(c: Config, b: Book, ch: Channel, m: map<string, Request>, k: nat, mid: Book, numbers: seq<int>)
    requires k < |ch.ports| && ResolveUpTo(c, b, ch, m, k) == Resolution(mid, numbers, None)
    ensures var a := ResolveOne(c, mid, ch, m, k);
      if a.port.Ok? then ResolveUpTo(c, b, ch, m, k + 1) == Resolution(a.book, numbers + [a.port.value], None)
      else ResolveUpTo(c, b, ch, m, |ch.ports|) == Resolution(a.book, numbers, Some(a.port.error))
  {
    hide ResolveOne;
    if ResolveOne(c, mid, ch, m, k).port.Err? {
      ResolveFails(c, b, ch, m, k + 1, |ch.ports|);
    }
  }

  /** The set of mux ports and the annotation text, or the error; the allocator
      keeps what it allocated before an error. */
  method ResolveChannelPorts(ch: Channel, allocator: MuxState.MuxState)
    returns (error: Option<Failure>, ports: set<MuxPort>, text: string, numbers: seq<int>)
    requires allocator.Valid()
    modifies allocator
    ensures allocator.Valid()
    ensures var r := Resolve(allocator.Config(), old(allocator.Book()), ch);
      && allocator.Book() == r.book && error == r.error && numbers == r.numbers
      && (error.None? ==> ports == MuxPortsOf(allocator.hash, ch, numbers))
      && (error.None? ==> text == FormatPorts(LinesOf(ch, numbers)))
  {
    ports, text, numbers := {}, "", [];
    var requests := Requests(ch);
    if requests.Err? {
      return Some(requests.error), ports, text, numbers;
    }
    var m := requests.value;
    var lines: seq<PortLine> := [];
    ghost var c, b := allocator.Config(), allocator.Book();
    hide Requests, ResolveUpTo, Allocate, MuxPortsOf, LinesOf, FormatPorts, Book.Valid, ValidRanges;
    assert ResolveUpTo(c, b, ch, m, 0) == Resolution(b, [], None) && MuxPortsOf(allocator.hash, ch, []) == {}
      && LinesOf(ch, []) == [] by {
      ResolveStart(c, b, ch, m, allocator.hash);
    }
    for k := 0 to |ch.ports|
      invariant allocator.Valid()
      invariant ResolveUpTo(c, b, ch, m, k) == Resolution(allocator.Book(), numbers, None)
      invariant ports == MuxPortsOf(allocator.hash, ch, numbers)
      invariant lines == LinesOf(ch, numbers)
    {
      ResolveNext(c, b, ch, m, k, allocator.Book(), numbers);
      var number: int;
      if WantsAuto(m, ch.ports[k]) {
        var got := allocator.Allocate(ch, k);
        if got.Err? {
          return Some(got.error), ports, text, numbers;
        }
        number := got.value;
      } else {
        number := StaticNumber(m, ch.ports[k]);
      }
      OneMorePort(allocator.hash, ch, numbers, number);
      ports := ports + {MuxPortOf(allocator.hash, ch, k, number)};
      lines := lines + [PortLine(ch.ports[k].name, ch.ports[k].port, number)];
      numbers := numbers + [number];
    }
    return None, ports, FormatPorts(lines), numbers;
  }

  // ---- conflicts ----

  function OwnerFor(ch: Channel, muxPort: MuxPort): Owner {
    Owner(ch.ns, ch.name, muxPort.name)
  }

  /** Nobody else owns the number of `muxPort`. */
  predicate FreeFor(owners: map<PortKey, Owner>, ch: Channel, muxPort: MuxPort) {
    muxPort.Key() in owners ==> owners[muxPort.Key()] == OwnerFor(ch, muxPort)
  }

  predicate DistinctKeys(ports: set<MuxPort>) {
    forall a, b | a in ports && b in ports :: a.Key() == b.Key() ==> a == b
  }

  /** The channel may have all of `ports`. */
  predicate Compatible(owners: map<PortKey, Owner>, ch: Channel, ports: set<MuxPort>) {
    DistinctKeys(ports) && forall p | p in ports :: FreeFor(owners, ch, p)
  }

  function Assignments(ch: Channel, ports: set<MuxPort>): map<PortKey, Owner>
    requires DistinctKeys(ports)
  {
    map p | p in ports :: p.Key() := OwnerFor(ch, p)
  }

  predicate MuxPortLe(a: MuxPort, b: MuxPort) {
    if a.proto != b.proto then StrLe(a.proto, b.proto)
    else if a.port != b.port then a.port <= b.port
    else StrLe(a.name, b.name)
  }

  /** A mux port of the channel that `owner` holds already. */
  datatype Conflict = Conflict(muxPort: MuxPort, owner: Owner)

  /** The reported owner is a different one, and holds the number: in the owner map,
      or as another port of the same channel. */
  predicate Justified(owners: map<PortKey, Owner>, ch: Channel, ports: set<MuxPort>, c: Conflict) {
    && c.muxPort in ports && c.owner != OwnerFor(ch, c.muxPort)
    && var pk := c.muxPort.Key();
      if pk in owners then owners[pk] == c.owner
      else exists p | p in ports :: p.Key() == pk && c.owner == OwnerFor(ch, p)
  }

  /** `find_mux_port_conflicts`. It is all or nothing: without conflicts every port
      of the channel is entered in the owner map, otherwise the map is unchanged; and
      there is a conflict exactly when some port belongs to somebody else or two
      ports of the channel share a number. */
  method FindMuxPortConflicts(portOwners: map<PortKey, Owner>, ch: Channel, muxPorts: set<MuxPort>)
    returns (conflicts: seq<Conflict>, owners: map<PortKey, Owner>)
    ensures conflicts == [] <==> Compatible(portOwners, ch, muxPorts)
    ensures conflicts == [] ==> owners == portOwners + Assignments(ch, muxPorts)
    ensures conflicts != [] ==> owners == portOwners
    ensures forall c | c in conflicts :: Justified(portOwners, ch, muxPorts, c)
  {
    hide Justified, JustifiedBy;
    var listed := ListOf(muxPorts);
    var items := Sort(listed, MuxPortLe);
    SortKeeps(listed, MuxPortLe);
    var assignments;
    conflicts, assignments := ScanConflicts(portOwners, ch, items);
    ScannedAll(portOwners, ch, muxPorts, items);
    owners := portOwners;
    if conflicts == [] {
      AssignedAll(ch, muxPorts, items, assignments);
      owners := owners + assignments;
    }
    forall c | c in conflicts ensures Justified(portOwners, ch, muxPorts, c) {
      JustifiedIn(portOwners, ch, muxPorts, items, c);
    }
  }

  /** The first `k` items can be entered together. */
  ghost predicate CompatibleUpTo(owners: map<PortKey, Owner>, ch: Channel, items: seq<MuxPort>, k: nat)
    requires k <= |items|
  {
    && (forall i | 0 <= i < k :: FreeFor(owners, ch, items[i]))
    && (forall i, j | 0 <= i < j < k :: items[i].Key() == items[j].Key() ==> items[i] == items[j])
  }

  ghost predicate JustifiedBy(owners: map<PortKey, Owner>, ch: Channel, items: seq<MuxPort>, c: Conflict) {
    && c.muxPort in items && c.owner != OwnerFor(ch, c.muxPort)
    && var pk := c.muxPort.Key();
      if pk in owners then owners[pk] == c.owner
      else exists i :: 0 <= i < |items| && items[i].Key() == pk && c.owner == OwnerFor(ch, items[i])
  }

  lemma ScannedAll(owners: map<PortKey, Owner>, ch: Channel, ports: set<MuxPort>, items: seq<MuxPort>)
    requires forall p :: p in items <==> p in ports
    ensures CompatibleUpTo(owners, ch, items, |items|) <==> Compatible(owners, ch, ports)
  {
    if CompatibleUpTo(owners, ch, items, |items|) {
      forall a, b | a in ports && b in ports && a.Key() == b.Key() ensures a == b {
        assert a in items && b in items;
      }
      forall p | p in ports ensures FreeFor(owners, ch, p) {
        assert p in items;
      }
    }
    if Compatible(owners, ch, ports) {
      forall i | 0 <= i < |items| ensures items[i] in ports {}
    }
  }

  lemma AssignedAll(ch: Channel, ports: set<MuxPort>, items: seq<MuxPort>, assignments: map<PortKey, Owner>)
    requires DistinctKeys(ports) && forall p :: p in items <==> p in ports
    requires forall i | 0 <= i < |items| ::
      items[i].Key() in assignments && assignments[items[i].Key()] == OwnerFor(ch, items[i])
    requires forall pk | pk in assignments ::
      exists i :: 0 <= i < |items| && items[i].Key() == pk && assignments[pk] == OwnerFor(ch, items[i])
    ensures assignments == Assignments(ch, ports)
  {
    forall p | p in ports ensures p.Key() in assignments && assignments[p.Key()] == OwnerFor(ch, p) {
      var i :| 0 <= i < |items| && items[i] == p;
    }
    forall pk | pk in assignments ensures exists p :: p in ports && p.Key() == pk {
      var i :| 0 <= i < |items| && items[i].Key() == pk && assignments[pk] == OwnerFor(ch, items[i]);
      assert items[i] in ports;
    }
  }

  lemma JustifiedIn(owners: map<PortKey, Owner>, ch: Channel, ports: set<MuxPort>, items: seq<MuxPort>, c: Conflict)
    requires forall p :: p in items <==> p in ports
    requires JustifiedBy(owners, ch, items, c)
    ensures Justified(owners, ch, ports, c)
  {
    var pk := c.muxPort.Key();
    if pk !in owners {
      var i :| 0 <= i < |items| && items[i].Key() == pk && c.owner == OwnerFor(ch, items[i]);
      assert items[i] in ports;
    }
  }

  /** A port whose number somebody else has cannot be entered, and the report is true. */
  lemma Clash(owners: map<PortKey, Owner>, ch: Channel, items: seq<MuxPort>, k: nat, previous: Owner)
    requires k < |items| && previous != OwnerFor(ch, items[k])
    requires var key := items[k].Key();
      if key in owners then owners[key] == previous
      else exists i :: 0 <= i < k && items[i].Key() == key && previous == OwnerFor(ch, items[i])
    ensures JustifiedBy(owners, ch, items, Conflict(items[k], previous))
    ensures !CompatibleUpTo(owners, ch, items, k + 1)
  {
    var key := items[k].Key();
    if key !in owners {
      var i :| 0 <= i < k && items[i].Key() == key && previous == OwnerFor(ch, items[i]);
      assert items[i] != items[k];
    } else {
      assert !FreeFor(owners, ch, items[k]);
    }
  }

  lemma NoClash(owners: map<PortKey, Owner>, ch: Channel, items: seq<MuxPort>, k: nat, assignments: map<PortKey, Owner>)
    requires k < |items| && CompatibleUpTo(owners, ch, items, k)
    requires forall i | 0 <= i < k ::
      items[i].Key() in assignments && assignments[items[i].Key()] == OwnerFor(ch, items[i])
    requires var key := items[k].Key();
      if key in owners then owners[key] == OwnerFor(ch, items[k])
      else key in assignments ==> assignments[key] == OwnerFor(ch, items[k])
    ensures CompatibleUpTo(owners, ch, items, k + 1)
  {
    forall i | 0 <= i < k && items[i].Key() == items[k].Key() ensures items[i] == items[k] {
      assert FreeFor(owners, ch, items[i]);
    }
  }

  lemma StillIncompatible(owners: map<PortKey, Owner>, ch: Channel, items: seq<MuxPort>, k: nat)
    requires k < |items| && !CompatibleUpTo(owners, ch, items, k)
    ensures !CompatibleUpTo(owners, ch, items, k + 1)
  {}

  /** The loop of `find_mux_port_conflicts` over the ports in sorted order. */
  method ScanConflicts(portOwners: map<PortKey, Owner>, ch: Channel, items: seq<MuxPort>)
    returns (conflicts: seq<Conflict>, assignments: map<PortKey, Owner>)
    ensures conflicts == [] <==> CompatibleUpTo(portOwners, ch, items, |items|)
    ensures conflicts == [] ==> forall i | 0 <= i < |items| ::
      items[i].Key() in assignments && assignments[items[i].Key()] == OwnerFor(ch, items[i])
    ensures forall pk | pk in assignments ::
      exists i :: 0 <= i < |items| && items[i].Key() == pk && assignments[pk] == OwnerFor(ch, items[i])
    ensures forall c | c in conflicts :: JustifiedBy(portOwners, ch, items, c)
  {
    conflicts := [];
    assignments := map[];
    hide JustifiedBy;
    for k := 0 to |items|
      invariant conflicts == [] <==> CompatibleUpTo(portOwners, ch, items, k)
      invariant conflicts == [] ==> forall i | 0 <= i < k ::
        items[i].Key() in assignments && assignments[items[i].Key()] == OwnerFor(ch, items[i])
      invariant forall pk | pk in assignments ::
        exists i :: 0 <= i < k && items[i].Key() == pk && assignments[pk] == OwnerFor(ch, items[i])
      invariant forall c | c in conflicts :: JustifiedBy(portOwners, ch, items, c)
    {
      var item := items[k];
      var key := item.Key();
      var owner := OwnerFor(ch, item);
      var previous := if key in portOwners then Some(portOwners[key])
        else if key in assignments then Some(assignments[key]) else None;
      if previous.Some? && previous.value != owner {
        Clash(portOwners, ch, items, k, previous.value);
        conflicts := conflicts + [Conflict(item, previous.value)];
      } else {
        if conflicts == [] {
          NoClash(portOwners, ch, items, k, assignments);
        } else {
          StillIncompatible(portOwners, ch, items, k);
        }
        assignments := assignments[key := owner];
      }
    }
  }

  method ListOf(s: set<MuxPort>) returns (xs: seq<MuxPort>)
    ensures forall x :: x in xs <==> x in s
  {
    xs := [];
    var todo := s;
    while todo != {}
      invariant todo <= s
      invariant forall x :: x in xs <==> x in s - todo
      decreases todo
    {
      var x :| x in todo;
      todo := todo - {x};
      xs := xs + [x];
    }
  }
}
