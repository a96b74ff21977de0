/** The legacy automatic allocator, and the proof that the claim manager which
    replaced it makes the same allocations. */
module PortAllocator {
  import opened Wrappers
  import opened Model
  import opened PortRanges
  import opened Claims
  import opened StateRoundTrip
  import MuxState

  /** The legacy allocation dictionary (records as in the state document), the keys it
      will keep, and the `changed` flag. */
  datatype Ledger = Ledger(allocations: map<Ref, Claim>, activeKeys: set<Ref>, changed: bool)

  /** A legacy record: number and protocol present, and no diverging second number. */
  predicate LegacyRecord(c: Claim) {
    c.port.Some? && c.proto.Some? && (c.muxPort.None? || c.muxPort == c.port)
  }

  predicate LegacyRecords(records: seq<Claim>) {
    forall i | 0 <= i < |records| :: LegacyRecord(records[i])
  }

  function ReadLegacy(records: seq<Claim>, k: nat): map<Ref, Claim>
    requires k <= |records|
  {
    if k == 0 then map[] else ReadLegacy(records, k - 1)[records[k - 1].Key() := records[k - 1]]
  }

  /** The constructor: without a set of active keys nothing is dropped yet. */
  function LoadLegacy(records: seq<Claim>, active: Option<set<Ref>>): Ledger {
    var all := ReadLegacy(records, |records|);
    match active
    case None => Ledger(all, {}, false)
    case Some(keys) =>
      var kept := map r | r in all && r in keys :: all[r];
      Ledger(kept, keys, kept.Keys != all.Keys)
  }

  ghost predicate ValidLedger(l: Ledger) {
    forall r | r in l.allocations :: l.allocations[r].Key() == r && LegacyRecord(l.allocations[r])
  }

  predicate Takes(allocations: map<Ref, Claim>, r: Ref, pk: PortKey) {
    r in allocations && allocations[r].port == Some(pk.port) && allocations[r].proto == Some(pk.proto)
  }

  function LegacyPorts(allocations: map<Ref, Claim>): set<PortKey> {
    set r | r in allocations && allocations[r].port.Some? && allocations[r].proto.Some?
      :: PortKey(allocations[r].port.value, allocations[r].proto.value)
  }

  predicate LegacyClaimed(allocations: map<Ref, Claim>, reserved: set<PortKey>, pk: PortKey, but: Ref) {
    (exists r | r in allocations :: r != but && Takes(allocations, r, pk)) || pk in reserved
  }

  predicate LegacyReusable(ranges: seq<Range>, reserved: set<PortKey>, allocations: map<Ref, Claim>, ref: Ref) {
    && ref in allocations && allocations[ref].port.Some?
    && Contains(ranges, allocations[ref].port.value)
    && !LegacyClaimed(allocations, reserved, PortKey(allocations[ref].port.value, ref.proto), ref)
  }

  function LegacyRecordOf(ref: Ref, port: int): Claim {
    Claim(ref.ns, ref.service, ref.portName, Some(ref.proto), None, None, Some(port), Some(AutoSource))
  }

  datatype LegacyAllocation = LegacyAllocation(ledger: Ledger, port: Result<int>)

  function AllocateLegacy(ranges: seq<Range>, reserved: set<PortKey>, l: Ledger, ref: Ref): LegacyAllocation {
    if ranges == [] then LegacyAllocation(l, Err(NoRange))
    else
      var active := l.(activeKeys := l.activeKeys + {ref});
      if LegacyReusable(ranges, reserved, l.allocations, ref)
      then LegacyAllocation(active, Ok(l.allocations[ref].port.value))
      else
        match FirstFree(ranges, reserved + LegacyPorts(l.allocations), ref.proto)
        case None => LegacyAllocation(active, Err(Exhausted))
        case Some(p) =>
          var allocations := l.allocations[ref := LegacyRecordOf(ref, p)];
          LegacyAllocation(active.(allocations := allocations, changed := true), Ok(p))
  }

  /** `prune_inactive`, as `to_state` runs it. */
  function PruneLegacy(l: Ledger): Ledger {
    var kept := map r | r in l.allocations && r in l.activeKeys :: l.allocations[r];
    l.(allocations := kept, changed := l.changed || kept.Keys != l.allocations.Keys)
  }

  class PortAllocator {
    const ranges: seq<Range>
    const reservedPorts: set<PortKey>
    var allocations: map<Ref, Claim>
    var activeKeys: set<Ref>
    var changed: bool

    ghost function Value(): Ledger
      reads this
    {
      Ledger(allocations, activeKeys, changed)
    }

    ghost predicate Valid()
      reads this
    {
      ValidLedger(Value())
    }

    constructor (ranges: seq<Range>, records: seq<Claim>, reservedPorts: set<PortKey>, active: Option<set<Ref>>)
      requires LegacyRecords(records)
      ensures Valid() && this.ranges == ranges && this.reservedPorts == reservedPorts
      ensures Value() == LoadLegacy(records, active)
    {
      this.ranges := ranges;
      this.reservedPorts := reservedPorts;
      allocations := map[];
      activeKeys := active.GetOr({});
      changed := false;
      new;
      ReadAllocations(records);
      ReadLegacyValid(records, |records|);
      if active.Some? {
        var before := allocations.Keys;
        allocations := map r | r in allocations && r in activeKeys :: allocations[r];
        changed := allocations.Keys != before;
      }
    }

    method ReadAllocations(records: seq<Claim>)
      requires allocations == map[]
      modifies this`allocations
      ensures allocations == ReadLegacy(records, |records|)
    {
      for k := 0 to |records|
        invariant allocations == ReadLegacy(records, k)
      {
        allocations := allocations[records[k].Key() := records[k]];
      }
    }

    method Allocate(ref: Ref) returns (port: Result<int>)
      requires Valid()
      modifies this
      ensures Valid()
      ensures var a := AllocateLegacy(ranges, reservedPorts, old(Value()), ref);
        Value() == a.ledger && port == a.port
    {
      if ranges == [] {
        return Err(NoRange);
      }
      activeKeys := activeKeys + {ref};
      if ref in allocations {
        var existing := allocations[ref].port.value;
        var claimed := IsClaimed(existing, ref.proto, ref);
        if Contains(ranges, existing) && !claimed {
          return Ok(existing);
        }
      }
      var used := UsedPortProtocols();
      var found := MuxState.FirstUnused(ranges, used, ref.proto);
      match found {
        case None => return Err(Exhausted);
        case Some(p) =>
          allocations := allocations[ref := LegacyRecordOf(ref, p)];
          changed := true;
          return Ok(p);
      }
    }

    method IsClaimed(port: int, proto: string, currentKey: Ref) returns (claimed: bool)
      ensures claimed == LegacyClaimed(allocations, reservedPorts, PortKey(port, proto), currentKey)
    {
      var pk := PortKey(port, proto);
      var todo := allocations.Keys;
      while todo != {}
        invariant todo <= allocations.Keys
        invariant forall r | r in allocations && r !in todo :: r != currentKey ==> !Takes(allocations, r, pk)
        decreases todo
      {
        var r :| r in todo;
        todo := todo - {r};
        if r != currentKey && Takes(allocations, r, pk) {
          return true;
        }
      }
      return pk in reservedPorts;
    }

    method UsedPortProtocols() returns (used: set<PortKey>)
      requires Valid()
      ensures used == reservedPorts + LegacyPorts(allocations)
    {
      used := reservedPorts;
      var todo := allocations.Keys;
      while todo != {}
        invariant todo <= allocations.Keys
        invariant forall pk :: pk in used <==>
          pk in reservedPorts || exists r | r in allocations :: r !in todo && Takes(allocations, r, pk)
        decreases todo
      {
        var r :| r in todo;
        todo := todo - {r};
        used := used + {PortKey(allocations[r].port.value, allocations[r].proto.value)};
        assert forall pk :: Takes(allocations, r, pk) <==>
          pk == PortKey(allocations[r].port.value, allocations[r].proto.value);
      }
      forall pk ensures pk in used <==> pk in reservedPorts + LegacyPorts(allocations) {
        LegacyPortsIff(allocations, pk);
      }
    }

    method PruneInactive()
      modifies this
      ensures Value() == PruneLegacy(old(Value()))
    {
      var before := allocations.Keys;
      allocations := map r | r in allocations && r in activeKeys :: allocations[r];
      if allocations.Keys != before {
        changed := true;
      }
    }
  }

  lemma {:induction false} ReadLegacyValid(records: seq<Claim>, k: nat)
    requires LegacyRecords(records) && k <= |records|
    ensures ValidLedger(Ledger(ReadLegacy(records, k), {}, false))
  {
    if k > 0 {
      ReadLegacyValid(records, k - 1);
    }
  }

  lemma LegacyPortsIff(allocations: map<Ref, Claim>, pk: PortKey)
    ensures pk in LegacyPorts(allocations) <==> exists r | r in allocations :: Takes(allocations, r, pk)
  {}

  // ---- the new allocator refines the old one ----

  /** The same keys with the same numbers. */
  ghost predicate Agree(l: Ledger, b: Book) {
    && l.allocations.Keys == b.claims.Keys
    && forall r | r in b.claims ::
        b.claims[r].Key() == r && l.allocations[r].port.Some? && l.allocations[r].proto == Some(r.proto)
        && b.claims[r].MuxPortNumber() == l.allocations[r].port
  }

  lemma AgreeHolds(l: Ledger, b: Book, r: Ref, pk: PortKey)
    requires Agree(l, b)
    ensures Takes(l.allocations, r, pk) <==> Holds(b.claims, r, pk)
  {
    if r in b.claims {
      assert r in l.allocations.Keys;
    }
  }

  lemma AgreeUsed(c: Config, l: Ledger, b: Book, ref: Ref)
    requires Agree(l, b) && c.recovered == map[]
    ensures Used(c, b.claims, OwnerOf(c.hash, ref)) == c.reserved + LegacyPorts(l.allocations)
  {
    forall pk ensures pk in Used(c, b.claims, OwnerOf(c.hash, ref)) <==> pk in c.reserved + LegacyPorts(l.allocations) {
      UsedIff(c, b.claims, OwnerOf(c.hash, ref), pk);
      LegacyPortsIff(l.allocations, pk);
      if r :| Holds(b.claims, r, pk) {
        AgreeHolds(l, b, r, pk);
        assert r in l.allocations.Keys;
      }
      if r :| r in l.allocations && Takes(l.allocations, r, pk) {
        AgreeHolds(l, b, r, pk);
      }
    }
  }

  lemma AgreeReusable(c: Config, l: Ledger, b: Book, ref: Ref)
    requires Agree(l, b) && c.recovered == map[]
    ensures LegacyReusable(c.ranges, c.reserved, l.allocations, ref) <==> Reusable(c, b.claims, ref)
  {
    if ref in b.claims {
      assert ref in l.allocations.Keys;
      var pk := PortKey(l.allocations[ref].port.value, ref.proto);
      assert LegacyClaimed(l.allocations, c.reserved, pk, ref) <==> IsClaimed(c, b.claims, pk, ref) by {
        forall r ensures Takes(l.allocations, r, pk) <==> Holds(b.claims, r, pk) {
          AgreeHolds(l, b, r, pk);
        }
        assert l.allocations.Keys == b.claims.Keys;
      }
    } else {
      assert ref !in l.allocations.Keys;
    }
  }

  lemma AgreeWritten(l: Ledger, b: Book, ref: Ref, channelPort: int, p: int, active: set<Ref>)
    requires Agree(l, b)
    ensures Agree(Ledger(l.allocations[ref := LegacyRecordOf(ref, p)], active, true),
      b.Set(ref, NewClaim(ref, channelPort, p, AutoSource)))
  {
    var allocations := l.allocations[ref := LegacyRecordOf(ref, p)];
    var claims := b.Set(ref, NewClaim(ref, channelPort, p, AutoSource)).claims;
    assert allocations.Keys == l.allocations.Keys + {ref};
    assert claims.Keys == b.claims.Keys + {ref};
    assert claims[ref] == NewClaim(ref, channelPort, p, AutoSource);
    forall r | r in claims && r != ref
      ensures claims[r] == b.claims[r] && r in b.claims && allocations[r] == l.allocations[r]
    {}
  }

  /** One call: the same answer, and agreement is kept. */
  lemma AllocateAgrees(c: Config, l: Ledger, b: Book, ref: Ref, channelPort: int)
    requires Agree(l, b) && c.recovered == map[]
    ensures var legacy, current := AllocateLegacy(c.ranges, c.reserved, l, ref), Allocate(c, b, ref, channelPort);
      legacy.port == current.port && Agree(legacy.ledger, current.book)
  {
    hide Used, LegacyPorts, LegacyReusable, Reusable, FirstFree, Agree, NewClaim, LegacyRecordOf;
    AgreeUsed(c, l, b, ref);
    AgreeReusable(c, l, b, ref);
    ReusableKnown(c, l, b, ref);
    AgreeActive(l, b, l.activeKeys + {ref});
    var p := FirstFree(c.ranges, c.reserved + LegacyPorts(l.allocations), ref.proto);
    if p.Some? {
      AgreeWritten(l, b, ref, channelPort, p.value, l.activeKeys + {ref});
    }
  }

  lemma AgreeActive(l: Ledger, b: Book, active: set<Ref>)
    requires Agree(l, b)
    ensures Agree(l.(activeKeys := active), b)
  {}

  lemma ReusableKnown(c: Config, l: Ledger, b: Book, ref: Ref)
    requires Agree(l, b)
    ensures LegacyReusable(c.ranges, c.reserved, l.allocations, ref) ==>
      ref in l.allocations && ref in b.claims && l.allocations[ref].port.Some?
        && b.claims[ref].MuxPortNumber() == l.allocations[ref].port
  {
    assert ref in l.allocations.Keys <==> ref in b.claims.Keys;
  }

  /** A call of `allocate`: a channel port, and its own port number. */
  datatype Call = Call(ref: Ref, channelPort: int)

  function LegacyAfter(c: Config, l: Ledger, calls: seq<Call>, k: nat): Ledger
    requires k <= |calls|
  {
    if k == 0 then l else AllocateLegacy(c.ranges, c.reserved, LegacyAfter(c, l, calls, k - 1), calls[k - 1].ref).ledger
  }

  function BookAfter(c: Config, b: Book, calls: seq<Call>, k: nat): Book
    requires k <= |calls|
  {
    if k == 0 then b else Allocate(c, BookAfter(c, b, calls, k - 1), calls[k - 1].ref, calls[k - 1].channelPort).book
  }

  lemma {:induction false} ReadsAgree(records: seq<Claim>, k: nat)
    requires LegacyRecords(records) && k <= |records|
    ensures Agree(Ledger(ReadLegacy(records, k), {}, false), ReadUpTo(records, k))
  {
    if k > 0 {
      ReadsAgree(records, k - 1);
      var c := records[k - 1];
      assert LegacyRecord(c);
      NormalisedTwice(c);
      var l, b := ReadLegacy(records, k - 1), ReadUpTo(records, k - 1);
      assert l[c.Key() := c].Keys == l.Keys + {c.Key()};
    }
  }

  lemma LoadsAgree(records: seq<Claim>, active: set<Ref>)
    requires LegacyRecords(records)
    ensures Agree(LoadLegacy(records, Some(active)), Load(State(None, records), active))
  {
    hide ReadUpTo, ReadLegacy;
    ReadsAgree(records, |records|);
    var l, b := LoadLegacy(records, Some(active)), Load(State(None, records), active);
    assert forall r :: r in l.allocations <==> r in b.claims by {
      assert ReadLegacy(records, |records|).Keys == ReadUpTo(records, |records|).claims.Keys;
    }
  }

  lemma {:induction false} CallsAgree(c: Config, l: Ledger, b: Book, calls: seq<Call>, k: nat)
    requires Agree(l, b) && c.recovered == map[] && k <= |calls|
    ensures Agree(LegacyAfter(c, l, calls, k), BookAfter(c, b, calls, k))
  {
    hide Agree, Allocate, AllocateLegacy;
    if k > 0 {
      CallsAgree(c, l, b, calls, k - 1);
      AllocateAgrees(c, LegacyAfter(c, l, calls, k - 1), BookAfter(c, b, calls, k - 1), calls[k - 1].ref,
        calls[k - 1].channelPort);
    }
  }

  /** THEOREM (legacy refinement). Started from the same allocation records, ranges,
      reserved ports and declared keys, and with nothing recovered, the legacy allocator
      and the claim manager answer any sequence of calls alike: the same ports, the same
      failures, and the same map from keys to ports after every call. */
  lemma LegacyRefinement(c: Config, records: seq<Claim>, active: set<Ref>, calls: seq<Call>, k: nat)
    requires LegacyRecords(records) && c.recovered == map[] && k < |calls|
    ensures var l := LegacyAfter(c, LoadLegacy(records, Some(active)), calls, k);
      var b := BookAfter(c, Load(State(None, records), active), calls, k);
      && AllocateLegacy(c.ranges, c.reserved, l, calls[k].ref).port
         == Allocate(c, b, calls[k].ref, calls[k].channelPort).port
      && (forall r :: r in l.allocations <==> r in b.claims)
      && (forall r | r in b.claims :: l.allocations[r].port == b.claims[r].MuxPortNumber())
  {
    hide Allocate, AllocateLegacy, LoadLegacy, Load, LegacyAfter, BookAfter;
    LoadsAgree(records, active);
    CallsAgree(c, LoadLegacy(records, Some(active)), Load(State(None, records), active), calls, k);
    var l, b := LegacyAfter(c, LoadLegacy(records, Some(active)), calls, k),
      BookAfter(c, Load(State(None, records), active), calls, k);
    AllocateAgrees(c, l, b, calls[k].ref, calls[k].channelPort);
    assert l.allocations.Keys == b.claims.Keys;
  }

  /** Saving drops nothing: every allocation belongs to a declared or just served key. */
  lemma {:induction false} NothingToPrune(c: Config, records: seq<Claim>, active: set<Ref>, calls: seq<Call>, k: nat)
    requires k <= |calls|
    ensures var l := LegacyAfter(c, LoadLegacy(records, Some(active)), calls, k);
      l.allocations.Keys <= l.activeKeys && PruneLegacy(l) == l
  {
    hide FirstFree, LegacyReusable, ReadLegacy;
    if k > 0 {
      NothingToPrune(c, records, active, calls, k - 1);
    }
    var l := LegacyAfter(c, LoadLegacy(records, Some(active)), calls, k);
    assert l.allocations.Keys <= l.activeKeys;
    assert (map r | r in l.allocations && r in l.activeKeys :: l.allocations[r]) == l.allocations;
  }

  // ---- dropping at the end ----

  /** The keys that a sequence of calls has served. */
  function Served(calls: seq<Call>, k: nat): set<Ref>
    requires k <= |calls|
  {
    set x | 0 <= x < k :: calls[x].ref
  }

  lemma {:induction false} ServedActive(c: Config, l: Ledger, calls: seq<Call>, k: nat)
    requires k <= |calls| && c.ranges != []
    ensures LegacyAfter(c, l, calls, k).activeKeys == l.activeKeys + Served(calls, k)
  {
    if k > 0 {
      ServedActive(c, l, calls, k - 1);
      assert Served(calls, k) == Served(calls, k - 1) + {calls[k - 1].ref};
    }
  }

  /** Started without a set of keys, the allocator drops nothing at first; saving then
      keeps exactly the allocations of the keys it has served. */
  lemma SavingKeepsServed(c: Config, records: seq<Claim>, calls: seq<Call>, k: nat)
    requires k <= |calls| && c.ranges != []
    ensures LoadLegacy(records, None).allocations == ReadLegacy(records, |records|)
    ensures var l := LegacyAfter(c, LoadLegacy(records, None), calls, k);
      var kept := PruneLegacy(l).allocations;
      && (forall r :: r in kept <==> r in l.allocations && exists x :: 0 <= x < k && calls[x].ref == r)
      && (forall r | r in kept :: kept[r] == l.allocations[r])
  {
    ServedActive(c, LoadLegacy(records, None), calls, k);
  }

  /** THEOREM (the flag). A call raises the `changed` flag exactly if it changes an
      allocation, the constructor exactly if it drops one, and so does saving. */
  lemma FlagTells(c: Config, records: seq<Claim>, l: Ledger, ref: Ref, active: set<Ref>)
    requires ValidLedger(l)
    ensures var a := AllocateLegacy(c.ranges, c.reserved, l, ref).ledger;
      a.changed <==> l.changed || a.allocations != l.allocations
    ensures var d := LoadLegacy(records, Some(active));
      d.changed <==> exists r :: r in ReadLegacy(records, |records|) && r !in active
    ensures PruneLegacy(l).changed <==> l.changed || exists r :: r in l.allocations && r !in l.activeKeys
  {
    AllocationDiffers(c, l, ref);
    Dropped(ReadLegacy(records, |records|), active);
    Dropped(l.allocations, l.activeKeys);
  }

  lemma Dropped(allocations: map<Ref, Claim>, active: set<Ref>)
    ensures (map r | r in allocations && r in active :: allocations[r]).Keys != allocations.Keys
      <==> exists r :: r in allocations && r !in active
  {
    var kept := map r | r in allocations && r in active :: allocations[r];
    if r :| r in allocations && r !in active {
      assert r in allocations.Keys && r !in kept.Keys;
    }
    if kept.Keys != allocations.Keys {
      var r :| r in allocations.Keys && r !in kept.Keys;
      assert r in allocations && r !in active;
    }
  }

  lemma AllocationDiffers(c: Config, l: Ledger, ref: Ref)
    requires ValidLedger(l)
    ensures var a := AllocateLegacy(c.ranges, c.reserved, l, ref).ledger;
      a.changed <==> l.changed || a.allocations != l.allocations
  {
    var used := c.reserved + LegacyPorts(l.allocations);
    FirstFreeSound(c.ranges, used, ref.proto);
    forall p | ref in l.allocations && l.allocations[ref] == LegacyRecordOf(ref, p)
      ensures PortKey(p, ref.proto) in used
    {
      LegacyPortsIff(l.allocations, PortKey(p, ref.proto));
      assert Takes(l.allocations, ref, PortKey(p, ref.proto));
    }
  }
}
