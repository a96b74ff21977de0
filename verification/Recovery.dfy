/** What the recovered owner map says of a port that the previous pass published. */
module Recovery {
  import opened Wrappers
  import opened Text
  import opened Annotations
  import opened Model
  import opened Reconcile

  lemma {:induction false} OwnersNamedIff(hash: Hash, ch: Channel, k: nat, muxName: string, o: Owner)
    requires k <= |ch.ports|
    ensures o in OwnersNamedUpTo(hash, ch, k, muxName) <==>
      exists j :: 0 <= j < k && ch.ports[j].name != "" && PortHash(hash, ch.ns, ch.name, ch.ports[j].name) == muxName
        && o == OwnerOf(hash, ch.RefOf(j))
  {
    if k > 0 {
      OwnersNamedIff(hash, ch, k - 1, muxName, o);
    }
  }

  lemma {:induction false} CandidatesFrom(hash: Hash, channels: seq<Channel>, muxName: string, o: Owner)
    ensures o in Candidates(hash, channels, muxName) <==>
      exists r :: r in ActiveRefs(channels) && PortHash(hash, r.ns, r.service, r.portName) == muxName
        && o == OwnerOf(hash, r)
  {
    if channels != [] {
      var front, last := channels[..|channels| - 1], channels[|channels| - 1];
      CandidatesFrom(hash, front, muxName, o);
      OwnersNamedIff(hash, last, |last.ports|, muxName, o);
      if o in OwnersNamedUpTo(hash, last, |last.ports|, muxName) {
        var j :| 0 <= j < |last.ports| && last.ports[j].name != ""
          && PortHash(hash, last.ns, last.name, last.ports[j].name) == muxName && o == OwnerOf(hash, last.RefOf(j));
        assert last.RefOf(j) in ActiveIn(last);
      }
    }
  }

  /** Without collisions a hash leads back to its one channel port. */
  lemma CandidatesOfActive(hash: Hash, channels: seq<Channel>, r: Ref)
    requires CollisionFree(hash, channels) && r in ActiveRefs(channels)
    ensures Candidates(hash, channels, PortHash(hash, r.ns, r.service, r.portName)) == {OwnerOf(hash, r)}
  {
    var muxName := PortHash(hash, r.ns, r.service, r.portName);
    forall o ensures o in Candidates(hash, channels, muxName) <==> o == OwnerOf(hash, r) {
      CandidatesFrom(hash, channels, muxName, o);
    }
  }

  lemma NoPlaceholderOwner(hash: Hash, channels: seq<Channel>)
    requires ShortHash(hash)
    ensures Candidates(hash, channels, "placeholder") == {}
  {
    forall o ensures o !in Candidates(hash, channels, "placeholder") {
      CandidatesFrom(hash, channels, "placeholder", o);
      forall r: Ref ensures PortHash(hash, r.ns, r.service, r.portName) != "placeholder" {
        assert |PortHash(hash, r.ns, r.service, r.portName)| == 7;
      }
    }
  }

  ghost predicate Leads(hash: Hash, channels: seq<Channel>, existing: seq<MuxPort>, e: nat, pk: PortKey) {
    e < |existing| && existing[e].Key() == pk && |Candidates(hash, channels, existing[e].name)| == 1
  }

  lemma {:induction false} MuxOwnersFrom(hash: Hash, channels: seq<Channel>, existing: seq<MuxPort>, k: nat,
      pk: PortKey)
    requires k <= |existing|
    ensures pk in MuxOwnersUpTo(hash, channels, existing, k) <==>
      exists e: nat :: e < k && Leads(hash, channels, existing, e, pk)
    ensures pk in MuxOwnersUpTo(hash, channels, existing, k) ==>
      exists e: nat :: e < k && Leads(hash, channels, existing, e, pk)
        && Candidates(hash, channels, existing[e].name) == {MuxOwnersUpTo(hash, channels, existing, k)[pk]}
  {
    hide Candidates;
    if k > 0 {
      MuxOwnersFrom(hash, channels, existing, k - 1, pk);
      var owners := MuxOwnersUpTo(hash, channels, existing, k - 1);
      if Leads(hash, channels, existing, k - 1, pk) && pk !in owners {
        assert Candidates(hash, channels, existing[k - 1].name) == {MuxOwnersUpTo(hash, channels, existing, k)[pk]};
      }
    }
  }

  lemma {:induction false} AnnotatedUpToIff(hash: Hash, ch: Channel, k: nat, pk: PortKey, o: Owner)
    requires k <= |ch.ports|
    ensures o in AnnotatedUpTo(hash, ch, k, pk) <==>
      exists j :: 0 <= j < k && AnnotatedPort(ch, j) == Some(pk) && o == OwnerOf(hash, ch.RefOf(j))
  {
    hide AnnotatedPort;
    if k > 0 {
      AnnotatedUpToIff(hash, ch, k - 1, pk, o);
    }
  }

  lemma {:induction false} AnnotatedHas(hash: Hash, channels: seq<Channel>, i: nat, j: nat, pk: PortKey)
    requires i < |channels| && j < |channels[i].ports| && AnnotatedPort(channels[i], j) == Some(pk)
    ensures OwnerOf(hash, channels[i].RefOf(j)) in Annotated(hash, channels, pk)
  {
    hide AnnotatedPort, AnnotatedUpTo;
    var front, last := channels[..|channels| - 1], channels[|channels| - 1];
    if i < |front| {
      AnnotatedHas(hash, front, i, j, pk);
    } else {
      AnnotatedUpToIff(hash, last, |last.ports|, pk, OwnerOf(hash, last.RefOf(j)));
    }
  }

  lemma {:induction false} AnnotatedFrom(hash: Hash, channels: seq<Channel>, pk: PortKey, o: Owner)
      returns (i: nat, j: nat)
    requires o in Annotated(hash, channels, pk)
    ensures i < |channels| && j < |channels[i].ports| && AnnotatedPort(channels[i], j) == Some(pk)
    ensures o == OwnerOf(hash, channels[i].RefOf(j))
  {
    hide AnnotatedPort;
    var front, last := channels[..|channels| - 1], channels[|channels| - 1];
    if o in Annotated(hash, front, pk) {
      i, j := AnnotatedFrom(hash, front, pk, o);
    } else {
      AnnotatedUpToIff(hash, last, |last.ports|, pk, o);
      i := |front|;
      j :| j < |last.ports| && AnnotatedPort(last, j) == Some(pk) && o == OwnerOf(hash, last.RefOf(j));
    }
  }

  /** Where a recovered owner comes from: a live port with its hash, or an annotation. */
  lemma RecoveredFrom(hash: Hash, channels: seq<Channel>, existing: seq<MuxPort>, pk: PortKey)
    requires pk in Recovered(hash, channels, existing)
    ensures var o := Recovered(hash, channels, existing)[pk];
      || (exists e: nat ::
        Leads(hash, channels, existing, e, pk) && Candidates(hash, channels, existing[e].name) == {o})
      || Annotated(hash, channels, pk) == {o}
  {
    hide Annotated, AnnotatedKeys, Candidates;
    MuxOwnersFrom(hash, channels, existing, |existing|, pk);
  }

  lemma {:induction false} AnnotatedKey(hash: Hash, channels: seq<Channel>, i: nat, j: nat, pk: PortKey)
    requires i < |channels| && j < |channels[i].ports| && AnnotatedPort(channels[i], j) == Some(pk)
    ensures pk in AnnotatedKeys(channels)
  {
    hide AnnotatedPort;
    var front, last := channels[..|channels| - 1], channels[|channels| - 1];
    if i < |front| {
      AnnotatedKey(hash, front, i, j, pk);
    } else {
      AnnotatedKeyUpTo(last, |last.ports|, j, pk);
    }
  }

  lemma {:induction false} AnnotatedKeyUpTo(ch: Channel, k: nat, j: nat, pk: PortKey)
    requires j < k <= |ch.ports| && AnnotatedPort(ch, j) == Some(pk)
    ensures pk in AnnotatedKeysUpTo(ch, k)
  {
    hide AnnotatedPort;
    if j < k - 1 {
      AnnotatedKeyUpTo(ch, k - 1, j, pk);
    }
  }

  /** Port `j` of channel `i` is the only one whose annotation states `pk`. */
  ghost predicate OnlyAnnotated(channels: seq<Channel>, i: nat, j: nat, pk: PortKey) {
    && i < |channels| && j < |channels[i].ports| && AnnotatedPort(channels[i], j) == Some(pk)
    && forall k: nat, l: nat | k < |channels| && l < |channels[k].ports| && AnnotatedPort(channels[k], l) == Some(pk) ::
      k == i && l == j
  }

  /** THEOREM (the annotation fallback). If no live port leads to an owner of `pk` and
      exactly one channel port's annotation states it, that channel port owns it. */
  lemma AnnotationRecovers(hash: Hash, channels: seq<Channel>, existing: seq<MuxPort>, i: nat, j: nat, pk: PortKey)
    requires OnlyAnnotated(channels, i, j, pk) && forall e: nat :: !Leads(hash, channels, existing, e, pk)
    ensures pk in Recovered(hash, channels, existing)
    ensures Recovered(hash, channels, existing)[pk] == OwnerOf(hash, channels[i].RefOf(j))
  {
    hide Annotated, AnnotatedKeys, Candidates, AnnotatedPort, Leads;
    MuxOwnersFrom(hash, channels, existing, |existing|, pk);
    AnnotatedKey(hash, channels, i, j, pk);
    AnnotatedHas(hash, channels, i, j, pk);
    var owner := OwnerOf(hash, channels[i].RefOf(j));
    forall o | o in Annotated(hash, channels, pk) ensures o == owner {
      var k, l := AnnotatedFrom(hash, channels, pk, o);
    }
    assert Annotated(hash, channels, pk) == {owner};
  }

  /** A placeholder and blank annotations give nobody anything. */
  lemma BlankRecovered(hash: Hash, channels: seq<Channel>, existing: seq<MuxPort>)
    requires ShortHash(hash) && (forall p | p in existing :: p.name == "placeholder")
    requires forall ch | ch in channels :: ch.portsText == ""
    ensures Recovered(hash, channels, existing) == map[]
  {
    hide Annotated, Candidates, AnnotatedPort;
    NoPlaceholderOwner(hash, channels);
    assert forall e: nat | e < |existing| :: existing[e] in existing;
    assert forall e: nat, pk :: !Leads(hash, channels, existing, e, pk);
    forall pk ensures pk !in Recovered(hash, channels, existing) {
      if pk in Recovered(hash, channels, existing) {
        RecoveredFrom(hash, channels, existing, pk);
        if o :| o in Annotated(hash, channels, pk) {
          var i, j := AnnotatedFrom(hash, channels, pk, o);
          BlankAnnotation(channels[i], j);
        }
      }
    }
  }

  lemma BlankAnnotation(ch: Channel, j: nat)
    requires ch.portsText == "" && j < |ch.ports|
    ensures AnnotatedPort(ch, j).None? && PortMappings(ch.portsText) == Some(map[])
  {
    assert Split("", ',') == [""] && ReadItem("") == Skip;
    assert MappingsUpTo([""], 0) == Some(map[]);
  }

  ghost predicate Lists(listing: seq<MuxPort>, ports: set<MuxPort>) {
    forall p :: p in listing <==> p in ports
  }

  /** If the live port list still is a duplicate-free list that has `r` on `pk`, then
      `r` is recovered as the owner of `pk`. */
  lemma RecoveredFromPorts(hash: Hash, channels: seq<Channel>, existing: seq<MuxPort>, ports: set<MuxPort>, r: Ref,
      pk: PortKey)
    requires CollisionFree(hash, channels) && r in ActiveRefs(channels)
    requires Lists(existing, ports) && DistinctKeys(ports)
    requires MuxPort(PortHash(hash, r.ns, r.service, r.portName), pk.port, pk.proto) in ports
    ensures pk in Recovered(hash, channels, existing) && Recovered(hash, channels, existing)[pk] == OwnerOf(hash, r)
  {
    hide Annotated, AnnotatedKeys, CollisionFree;
    var p := MuxPort(PortHash(hash, r.ns, r.service, r.portName), pk.port, pk.proto);
    var e0: nat :| e0 < |existing| && existing[e0] == p;
    CandidatesOfActive(hash, channels, r);
    assert Leads(hash, channels, existing, e0, pk);
    MuxOwnersFrom(hash, channels, existing, |existing|, pk);
    var owners := MuxOwnersUpTo(hash, channels, existing, |existing|);
    var e: nat :| e < |existing| && Leads(hash, channels, existing, e, pk)
      && Candidates(hash, channels, existing[e].name) == {owners[pk]};
    assert existing[e] in ports && existing[e].Key() == p.Key();
    assert existing[e] == p;
    assert owners[pk] in {OwnerOf(hash, r)};
  }

  /** If the live port list was reset to the placeholder, the annotation that states
      `pk` for `r` keeps anybody else from being recovered for it. */
  lemma RecoveredFromAnnotation(hash: Hash, channels: seq<Channel>, existing: seq<MuxPort>, i: nat, j: nat, pk: PortKey)
    requires ShortHash(hash) && (forall p | p in existing :: p.name == "placeholder")
    requires i < |channels| && j < |channels[i].ports| && AnnotatedPort(channels[i], j) == Some(pk)
    ensures pk in Recovered(hash, channels, existing) ==>
      Recovered(hash, channels, existing)[pk] == OwnerOf(hash, channels[i].RefOf(j))
  {
    hide Annotated, AnnotatedKeys, AnnotatedPort, Candidates;
    AnnotatedHas(hash, channels, i, j, pk);
    NoPlaceholderOwner(hash, channels);
    MuxOwnersFrom(hash, channels, existing, |existing|, pk);
    assert forall e: nat | e < |existing| :: existing[e] in existing;
    assert pk !in MuxOwnersUpTo(hash, channels, existing, |existing|);
  }

  /** The recovered map does not depend on the order in which a duplicate-free port
      list is iterated over. */
  lemma OrderIrrelevant(hash: Hash, channels: seq<Channel>, existing: seq<MuxPort>, other: seq<MuxPort>,
      ports: set<MuxPort>)
    requires Lists(existing, ports) && Lists(other, ports) && DistinctKeys(ports)
    ensures Recovered(hash, channels, existing) == Recovered(hash, channels, other)
  {
    hide Annotated, AnnotatedKeys, Candidates;
    var a := MuxOwnersUpTo(hash, channels, existing, |existing|);
    var b := MuxOwnersUpTo(hash, channels, other, |other|);
    forall pk ensures (pk in a <==> pk in b) && (pk in a ==> a[pk] == b[pk]) {
      SameOwners(hash, channels, existing, other, ports, pk);
      SameOwners(hash, channels, other, existing, ports, pk);
    }
    assert a == b;
  }

  lemma SameOwners(hash: Hash, channels: seq<Channel>, existing: seq<MuxPort>, other: seq<MuxPort>,
      ports: set<MuxPort>, pk: PortKey)
    requires Lists(existing, ports) && Lists(other, ports) && DistinctKeys(ports)
    ensures var a := MuxOwnersUpTo(hash, channels, existing, |existing|);
      var b := MuxOwnersUpTo(hash, channels, other, |other|);
      pk in a ==> pk in b && a[pk] == b[pk]
  {
    hide Candidates;
    var a := MuxOwnersUpTo(hash, channels, existing, |existing|);
    var b := MuxOwnersUpTo(hash, channels, other, |other|);
    MuxOwnersFrom(hash, channels, existing, |existing|, pk);
    MuxOwnersFrom(hash, channels, other, |other|, pk);
    if pk in a {
      var e: nat :| e < |existing| && Leads(hash, channels, existing, e, pk)
        && Candidates(hash, channels, existing[e].name) == {a[pk]};
      assert existing[e] in ports && existing[e] in other;
      var f: nat :| f < |other| && other[f] == existing[e];
      assert Leads(hash, channels, other, f, pk);
      var g: nat :| g < |other| && Leads(hash, channels, other, g, pk)
        && Candidates(hash, channels, other[g].name) == {b[pk]};
      assert other[g] in ports && other[g].Key() == existing[e].Key();
      assert b[pk] in {a[pk]};
    }
  }
}
