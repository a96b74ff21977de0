/** The per-mux state manager: the claim dictionary one reconciliation pass works on. */
module MuxState {
  import opened Wrappers
  import opened Text
  import opened Annotations
  import opened Model
  import opened PortRanges
  import opened Claims

  class MuxState {
    const hash: Hash
    const ranges: seq<Range>
    const reservedPorts: set<PortKey>
    const reservedPortOwners: map<PortKey, Owner>
    var claims: map<Ref, Claim>
    var order: seq<Ref>
    var changed: bool

    ghost function Config(): Config {
      Claims.Config(hash, ranges, reservedPorts, reservedPortOwners)
    }

    ghost function Book(): Book
      reads this
    {
      Claims.Book(claims, order, changed)
    }

    ghost predicate Valid()
      reads this
    {
      Book().Valid()
    }

    constructor (hash: Hash, ranges: seq<Range>, state: State, channels: seq<Channel>,
                 reservedPorts: set<PortKey>, reservedPortOwners: map<PortKey, Owner>)
      ensures Valid()
      ensures Config() == Claims.Config(hash, ranges, reservedPorts, reservedPortOwners)
      ensures Book() == Load(state, ActiveRefs(channels))
    {
      this.hash := hash;
      this.ranges := ranges;
      this.reservedPorts := reservedPorts;
      this.reservedPortOwners := reservedPortOwners;
      claims := map[];
      order := [];
      changed := NeedsClaimWrite(state);
      new;
      var active := ActiveClaimKeys(channels);
      ReadClaims(StateClaims(state));
      LoadValid(state, active);
      PruneInactive(active);
    }

    /** `_claims_by_key`: a later record of the same key replaces an earlier one. */
    method ReadClaims(records: seq<Claim>)
      requires claims == map[] && order == []
      modifies this`claims, this`order
      ensures Book() == ReadUpTo(records, |records|).(changed := old(changed))
    {
      for k := 0 to |records|
        invariant Book() == ReadUpTo(records, k).(changed := old(changed))
        invariant changed == old(changed)
      {
        var key := records[k].Key();
        if key !in claims {
          order := order + [key];
        }
        claims := claims[key := records[k].Normalised()];
      }
    }

    method PruneInactive(active: set<Ref>)
      modifies this
      ensures Book() == Prune(old(Book()), active)
    {
      var before := claims.Keys;
      ghost var was := claims;
      claims := map r | r in claims && r in active :: claims[r];
      var kept: seq<Ref> := [];
      for k := 0 to |order|
        invariant order == old(order) && changed == old(changed)
        invariant claims == map r | r in was && r in active :: was[r]
        invariant kept == Kept(order[..k], active)
      {
        assert order[..k + 1][..k] == order[..k];
        if order[k] in active {
          kept := kept + [order[k]];
        }
      }
      assert order[..|order|] == order;
      order := kept;
      if claims.Keys != before {
        changed := true;
      }
    }

    /** The owner map: of several claims on one port, the first loaded owns it. */
    method PortOwners() returns (owners: map<PortKey, Owner>)
      requires Valid()
      ensures owners == Claims.PortOwners(hash, Book())
    {
      owners := map[];
      for k := 0 to |order|
        invariant owners == OwnersUpTo(hash, claims, order, k)
      {
        var claim := claims[order[k]];
        match claim.MuxPortNumber() {
          case None =>
          case Some(n) =>
            var key := PortKey(n, claim.Proto());
            if key !in owners {
              owners := owners[key := OwnerOf(hash, order[k])];
            }
        }
      }
    }

    /** Allocates or reuses a mux port for an `auto` request. */
    method Allocate(ch: Channel, j: nat) returns (port: Result<int>)
      requires Valid() && j < |ch.ports|
      modifies this
      ensures Valid()
      ensures var a := Claims.Allocate(Config(), old(Book()), ch.RefOf(j), ch.ports[j].port);
        Book() == a.book && port == a.port
    {
      AllocateExact(Config(), Book(), ch.RefOf(j), ch.ports[j].port);
      if ranges == [] {
        return Err(NoRange);
      }
      var ref := ch.RefOf(j);
      var owner := OwnerOf(hash, ref);
      if ref in claims && claims[ref].MuxPortNumber().Some? {
        var existing := claims[ref].MuxPortNumber().value;
        var claimed := IsClaimed(existing, ref.proto, ref, owner);
        if Contains(ranges, existing) && !claimed {
          return Ok(existing);
        }
      }
      assert !Reusable(Config(), claims, ref);
      var found := NextAvailablePort(ref.proto, owner);
      match found {
        case None => return Err(Exhausted);
        case Some(p) =>
          SetClaim(ref, NewClaim(ref, ch.ports[j].port, p, AutoSource));
          return Ok(p);
      }
    }

    method IsClaimed(port: int, proto: string, currentKey: Ref, owner: Owner) returns (claimed: bool)
      requires Valid() && owner == OwnerOf(hash, currentKey)
      ensures claimed == Claims.IsClaimed(Config(), claims, PortKey(port, proto), currentKey)
    {
      var pk := PortKey(port, proto);
      for k := 0 to |order|
        invariant forall i | 0 <= i < k :: order[i] != currentKey ==> !Holds(claims, order[i], pk)
      {
        if order[k] != currentKey && claims[order[k]].MuxPortNumber() == Some(port)
          && claims[order[k]].Proto() == proto {
          assert Holds(claims, order[k], pk);
          return true;
        }
      }
      assert !TakenByClaim(claims, pk, currentKey);
      if pk in reservedPorts {
        return true;
      }
      return pk in reservedPortOwners && reservedPortOwners[pk] != owner;
    }

    method UsedPortProtocols(owner: Owner) returns (used: set<PortKey>)
      requires Valid()
      ensures used == Used(Config(), claims, owner)
    {
      used := reservedPorts + ForeignPorts(reservedPortOwners, owner);
      ghost var fixed := used;
      for k := 0 to |order|
        invariant forall pk :: pk in used <==>
          pk in fixed || exists i | 0 <= i < k :: Holds(claims, order[i], pk)
      {
        var claim := claims[order[k]];
        match claim.MuxPortNumber() {
          case None =>
            assert forall pk :: !Holds(claims, order[k], pk);
          case Some(n) =>
            assert forall pk :: Holds(claims, order[k], pk) <==> pk == PortKey(n, claim.Proto());
            used := used + {PortKey(n, claim.Proto())};
        }
      }
      forall pk ensures pk in used <==> pk in Used(Config(), claims, owner) {
        UsedIff(Config(), claims, owner, pk);
        if r :| Holds(claims, r, pk) {
          assert r in order;
        }
      }
    }

    method NextAvailablePort(proto: string, owner: Owner) returns (port: Option<int>)
      requires Valid()
      ensures port == FirstFree(ranges, Used(Config(), claims, owner), proto)
    {
      var used := UsedPortProtocols(owner);
      port := FirstUnused(ranges, used, proto);
    }

    method SetClaim(ref: Ref, claim: Claim)
      requires Valid() && claim.Key() == ref
      modifies this
      ensures Valid() && Book() == old(Book()).Set(ref, claim)
    {
      PutValid(Book(), ref, claim);
      if !(ref in claims && claims[ref] == claim) {
        if ref !in claims {
          order := order + [ref];
        }
        claims := claims[ref := claim];
        changed := true;
      }
    }

    /** Persists the claims of an accepted channel, as its annotation states them;
        false when the annotation cannot be read. */
    method RecordChannelClaims(ch: Channel, portsText: string) returns (ok: bool)
      requires Valid()
      modifies this
      ensures Valid()
      ensures ok == Record(old(Book()), ch, portsText).Some?
      ensures Book() == Record(old(Book()), ch, portsText).GetOr(old(Book()))
    {
      var mappings := ParsePortMappings(portsText);
      if mappings.None? {
        return false;
      }
      var autoNames := ExternalPortModes(ch.externalPorts);
      for k := 0 to |ch.ports|
        invariant Valid()
        invariant Book() == RecordUpTo(old(Book()), ch, mappings.value, autoNames, k)
      {
        var port := ch.ports[k];
        if port.name != "" && port.name in mappings.value {
          match ParsePort(mappings.value[port.name]) {
            case None =>
            case Some(n) =>
              var source := if port.name in autoNames then AutoSource else StaticSource;
              SetClaim(ch.RefOf(k), NewClaim(ch.RefOf(k), port.port, n, source));
          }
        }
      }
      return true;
    }

    method ToState() returns (state: State)
      requires Valid()
      ensures state == Claims.ToState(Book())
    {
      var refs := SortedKeys(Claims.Book(claims, order, changed));
      var list := Lookup(claims, refs);
      return State(Some(list), AutoOnly(list));
    }
  }

  /** `_active_claim_keys` */
  method ActiveClaimKeys(channels: seq<Channel>) returns (keys: set<Ref>)
    ensures keys == ActiveRefs(channels)
  {
    keys := {};
    for i := 0 to |channels|
      invariant keys == ActiveRefs(channels[..i])
    {
      var ch := channels[i];
      assert channels[..i + 1][..i] == channels[..i];
      for j := 0 to |ch.ports|
        invariant keys == ActiveRefs(channels[..i]) + set k | 0 <= k < j && ch.ports[k].name != "" :: ch.RefOf(k)
      {
        if ch.ports[j].name != "" {
          keys := keys + {ch.RefOf(j)};
        }
      }
    }
    assert channels[..|channels|] == channels;
  }

  /** The nested first-fit loop: ranges in order, ports of a range upwards. */
  method FirstUnused(ranges: seq<Range>, used: set<PortKey>, proto: string) returns (port: Option<int>)
    ensures port == FirstFree(ranges, used, proto)
  {
    for i := 0 to |ranges|
      invariant FirstFree(ranges, used, proto) == FirstFree(ranges[i..], used, proto)
    {
      assert ranges[i..][1..] == ranges[i + 1..];
      var p := ranges[i].lo;
      while p <= ranges[i].hi
        invariant FirstFreeIn(ranges[i].lo, ranges[i].hi, used, proto) == FirstFreeIn(p, ranges[i].hi, used, proto)
        decreases ranges[i].hi - p
      {
        if PortKey(p, proto) !in used {
          return Some(p);
        }
        p := p + 1;
      }
    }
    assert ranges[|ranges|..] == [];
    return None;
  }
}
