/** Persisted port claims: their loading, the owner map, allocation and recording,
    as functions on values. The class in MuxState.dfy is proved against these. */
module Claims {
  import opened Wrappers
  import opened Text
  import opened Annotations
  import opened Model
  import opened PortRanges
  import opened Sorting

  datatype Source = AutoSource | StaticSource

  /** One claim record of the state document; every field after the identity may be missing. */
  datatype Claim = Claim(ns: string, service: string, portName: string, proto: Option<string>,
                         channelPort: Option<int>, muxPort: Option<int>, port: Option<int>, source: Option<Source>) {
    /** `claim.get("protocol", "TCP")`. */
    function Proto(): string {
      proto.GetOr("TCP")
    }

    function Key(): Ref {
      Ref(ns, service, portName, Proto())
    }

    /** `_claim_mux_port`. */
    function MuxPortNumber(): Option<int> {
      if muxPort.Some? then muxPort else port
    }

    /** What `_claims_by_key` stores for a record it reads. */
    function Normalised(): Claim {
      var numbered := if MuxPortNumber().Some? then this.(muxPort := MuxPortNumber(), port := MuxPortNumber())
        else this;
      if source.None? then numbered.(source := Some(AutoSource)) else numbered
    }
  }

  /** The record `_set_claim` writes. */
  function NewClaim(ref: Ref, channelPort: int, muxPort: int, source: Source): Claim {
    Claim(ref.ns, ref.service, ref.portName, Some(ref.proto), Some(channelPort), Some(muxPort), Some(muxPort),
      Some(source))
  }

  /** The state document; `NoState` is the empty document of a fresh or absent ConfigMap. */
  datatype State = NoState | State(portClaims: Option<seq<Claim>>, allocations: seq<Claim>)

  /** The claim dictionary with its insertion order, and the `changed` flag. */
  datatype Book = Book(claims: map<Ref, Claim>, order: seq<Ref>, changed: bool) {
    /** Dictionary assignment: a new key goes to the end. */
    function Put(ref: Ref, claim: Claim): Book {
      Book(claims[ref := claim], if ref in claims then order else order + [ref], changed)
    }

    /** Assignment that raises the flag when the stored record differs. */
    function Set(ref: Ref, claim: Claim): Book {
      if ref in claims && claims[ref] == claim then this else Put(ref, claim).(changed := true)
    }

    ghost predicate Valid() {
      && (forall i, j | 0 <= i < j < |order| :: order[i] != order[j])
      && (forall r :: r in order <==> r in claims)
      && (forall r | r in claims :: claims[r].Key() == r)
    }
  }

  const EMPTY_BOOK := Book(map[], [], false)

  /** What stays fixed for one reconciliation pass. */
  datatype Config = Config(hash: Hash, ranges: seq<Range>, reserved: set<PortKey>, recovered: map<PortKey, Owner>)

  // ---- loading ----

  function StateClaims(state: State): seq<Claim> {
    match state
    case NoState => []
    case State(portClaims, allocations) => portClaims.GetOr(allocations)
  }

  predicate NeedsClaimWrite(state: State) {
    state.State? && state.portClaims.None?
  }

  function ReadUpTo(records: seq<Claim>, k: nat): Book
    requires k <= |records|
  {
    if k == 0 then EMPTY_BOOK
    else ReadUpTo(records, k - 1).Put(records[k - 1].Key(), records[k - 1].Normalised())
  }

  function Kept(order: seq<Ref>, active: set<Ref>): seq<Ref> {
    if order == [] then []
    else
      var rest := Kept(order[..|order| - 1], active);
      if order[|order| - 1] in active then rest + [order[|order| - 1]] else rest
  }

  function Prune(b: Book, active: set<Ref>): Book {
    var claims := map r | r in b.claims && r in active :: b.claims[r];
    Book(claims, Kept(b.order, active), b.changed || claims.Keys != b.claims.Keys)
  }

  function Load(state: State, active: set<Ref>): Book {
    var records := StateClaims(state);
    Prune(ReadUpTo(records, |records|).(changed := NeedsClaimWrite(state)), active)
  }

  lemma {:induction false} KeptIff(order: seq<Ref>, active: set<Ref>)
    ensures forall r :: r in Kept(order, active) <==> r in order && r in active
    ensures |Kept(order, active)| <= |order|
  {
    if order != [] {
      KeptIff(order[..|order| - 1], active);
      assert order == order[..|order| - 1] + [order[|order| - 1]];
    }
  }

  lemma {:induction false} KeptDistinct(order: seq<Ref>, active: set<Ref>)
    requires forall i, j | 0 <= i < j < |order| :: order[i] != order[j]
    ensures forall i, j | 0 <= i < j < |Kept(order, active)| :: Kept(order, active)[i] != Kept(order, active)[j]
  {
    if order != [] {
      var front := order[..|order| - 1];
      KeptDistinct(front, active);
      KeptIff(front, active);
    }
  }

  lemma PutValid(b: Book, ref: Ref, claim: Claim)
    requires b.Valid() && claim.Key() == ref
    ensures b.Put(ref, claim).Valid() && b.Set(ref, claim).Valid()
  {}

  lemma {:induction false} ReadValid(records: seq<Claim>, k: nat)
    requires k <= |records|
    ensures ReadUpTo(records, k).Valid()
  {
    if k > 0 {
      ReadValid(records, k - 1);
      PutValid(ReadUpTo(records, k - 1), records[k - 1].Key(), records[k - 1].Normalised());
    }
  }

  lemma PruneValid(b: Book, active: set<Ref>)
    requires b.Valid()
    ensures Prune(b, active).Valid()
  {
    KeptIff(b.order, active);
    KeptDistinct(b.order, active);
  }

  lemma LoadValid(state: State, active: set<Ref>)
    ensures Load(state, active).Valid()
    ensures Load(state, active).claims.Keys <= active
  {
    var records := StateClaims(state);
    ReadValid(records, |records|);
    PruneValid(ReadUpTo(records, |records|).(changed := NeedsClaimWrite(state)), active);
  }

  // ---- who holds what ----

  /** Key `r` holds the mux port `pk` in the claim dictionary. */
  predicate Holds(claims: map<Ref, Claim>, r: Ref, pk: PortKey) {
    r in claims && claims[r].MuxPortNumber() == Some(pk.port) && claims[r].Proto() == pk.proto
  }

  /** No two keys hold the same mux port. */
  ghost predicate Injective(claims: map<Ref, Claim>) {
    forall r, s, pk :: Holds(claims, r, pk) && Holds(claims, s, pk) ==> r == s
  }

  function OwnersUpTo(hash: Hash, claims: map<Ref, Claim>, order: seq<Ref>, k: nat): map<PortKey, Owner>
    requires k <= |order| && forall r | r in order :: r in claims
  {
    if k == 0 then map[]
    else
      var owners := OwnersUpTo(hash, claims, order, k - 1);
      var claim := claims[order[k - 1]];
      match claim.MuxPortNumber()
      case None => owners
      case Some(n) =>
        if PortKey(n, claim.Proto()) in owners then owners
        else owners[PortKey(n, claim.Proto()) := OwnerOf(hash, order[k - 1])]
  }

  /** `port_owners()`: the first claim in dictionary order wins. */
  function PortOwners(hash: Hash, b: Book): map<PortKey, Owner>
    requires forall r | r in b.order :: r in b.claims
  {
    OwnersUpTo(hash, b.claims, b.order, |b.order|)
  }

  lemma {:induction false} OwnersFrom(hash: Hash, claims: map<Ref, Claim>, order: seq<Ref>, k: nat, pk: PortKey)
    requires k <= |order| && forall r | r in order :: r in claims
    ensures pk in OwnersUpTo(hash, claims, order, k) ==>
      exists i :: 0 <= i < k && Holds(claims, order[i], pk)
        && OwnersUpTo(hash, claims, order, k)[pk] == OwnerOf(hash, order[i])
    ensures forall i :: 0 <= i < k && Holds(claims, order[i], pk) ==> pk in OwnersUpTo(hash, claims, order, k)
  {
    if k > 0 {
      OwnersFrom(hash, claims, order, k - 1, pk);
      assert Holds(claims, order[k - 1], pk) <==>
        claims[order[k - 1]].MuxPortNumber() == Some(pk.port) && claims[order[k - 1]].Proto() == pk.proto;
    }
  }

  /** Of several claims on one port the first in dictionary order owns it. */
  lemma {:induction false} FirstClaimOwns(hash: Hash, claims: map<Ref, Claim>, order: seq<Ref>, k: nat, i: nat,
      pk: PortKey)
    requires i < k <= |order| && (forall r | r in order :: r in claims) && Holds(claims, order[i], pk)
    requires forall j | 0 <= j < i :: !Holds(claims, order[j], pk)
    ensures pk in OwnersUpTo(hash, claims, order, k)
    ensures OwnersUpTo(hash, claims, order, k)[pk] == OwnerOf(hash, order[i])
  {
    if i < k - 1 {
      FirstClaimOwns(hash, claims, order, k - 1, i, pk);
    } else {
      OwnersFrom(hash, claims, order, k - 1, pk);
    }
  }

  /** When no port is claimed twice, the owner map and the claims say the same. */
  lemma PortOwnersExact(hash: Hash, b: Book, pk: PortKey)
    requires b.Valid() && Injective(b.claims)
    ensures pk in PortOwners(hash, b) <==> exists r :: Holds(b.claims, r, pk)
    ensures forall r :: Holds(b.claims, r, pk) ==>
      pk in PortOwners(hash, b) && PortOwners(hash, b)[pk] == OwnerOf(hash, r)
  {
    OwnersFrom(hash, b.claims, b.order, |b.order|, pk);
    forall r | Holds(b.claims, r, pk)
      ensures pk in PortOwners(hash, b) && PortOwners(hash, b)[pk] == OwnerOf(hash, r)
    {
      assert r in b.order;
      var i :| 0 <= i < |b.order| && b.order[i] == r;
      assert Holds(b.claims, b.order[i], pk);
    }
  }

  // ---- allocation ----

  predicate TakenByClaim(claims: map<Ref, Claim>, pk: PortKey, but: Ref) {
    exists r | r in claims :: r != but && Holds(claims, r, pk)
  }

  /** `_is_claimed`. */
  predicate IsClaimed(c: Config, claims: map<Ref, Claim>, pk: PortKey, ref: Ref) {
    || TakenByClaim(claims, pk, ref)
    || pk in c.reserved
    || (pk in c.recovered && c.recovered[pk] != OwnerOf(c.hash, ref))
  }

  function ClaimedPorts(claims: map<Ref, Claim>): set<PortKey> {
    set r | r in claims && claims[r].MuxPortNumber().Some? ::
      PortKey(claims[r].MuxPortNumber().value, claims[r].Proto())
  }

  function ForeignPorts(recovered: map<PortKey, Owner>, owner: Owner): set<PortKey> {
    set pk | pk in recovered && recovered[pk] != owner
  }

  /** `_used_port_protocols`. */
  function Used(c: Config, claims: map<Ref, Claim>, owner: Owner): set<PortKey> {
    c.reserved + ForeignPorts(c.recovered, owner) + ClaimedPorts(claims)
  }

  /** The existing claim of `ref` may be kept. */
  predicate Reusable(c: Config, claims: map<Ref, Claim>, ref: Ref) {
    && ref in claims
    && claims[ref].MuxPortNumber().Some?
    && Contains(c.ranges, claims[ref].MuxPortNumber().value)
    && !IsClaimed(c, claims, PortKey(claims[ref].MuxPortNumber().value, ref.proto), ref)
  }

  datatype Allocation = Allocation(book: Book, port: Result<int>)

  function Allocate(c: Config, b: Book, ref: Ref, channelPort: int): Allocation {
    if c.ranges == [] then Allocation(b, Err(NoRange))
    else if Reusable(c, b.claims, ref) then Allocation(b, Ok(b.claims[ref].MuxPortNumber().value))
    else
      match FirstFree(c.ranges, Used(c, b.claims, OwnerOf(c.hash, ref)), ref.proto)
      case None => Allocation(b, Err(Exhausted))
      case Some(p) => Allocation(b.Set(ref, NewClaim(ref, channelPort, p, AutoSource)), Ok(p))
  }

  lemma UsedIff(c: Config, claims: map<Ref, Claim>, owner: Owner, pk: PortKey)
    ensures pk in Used(c, claims, owner) <==>
      || pk in c.reserved
      || (pk in c.recovered && c.recovered[pk] != owner)
      || exists r :: Holds(claims, r, pk)
  {
    if pk in ClaimedPorts(claims) {
      var r :| r in claims && claims[r].MuxPortNumber().Some?
        && PortKey(claims[r].MuxPortNumber().value, claims[r].Proto()) == pk;
      assert Holds(claims, r, pk);
    }
  }

  /** Everything a caller learns from an allocation: the number is in the ranges,
      not statically declared, not recovered for somebody else, and held by no other
      key before; afterwards `ref` holds it and no other claim has moved. A failed
      allocation leaves the book alone. */
  lemma AllocateExact(c: Config, b: Book, ref: Ref, channelPort: int)
    requires b.Valid()
    ensures var a := Allocate(c, b, ref, channelPort);
      && a.book.Valid()
      && (forall r | r != ref ::
        (r in a.book.claims <==> r in b.claims) && (r in b.claims ==> a.book.claims[r] == b.claims[r]))
      && (a.port.Err? ==> a.book == b)
      && (a.port.Ok? ==>
          var pk := PortKey(a.port.value, ref.proto);
          && Contains(c.ranges, pk.port) && pk !in c.reserved
          && (pk in c.recovered ==> c.recovered[pk] == OwnerOf(c.hash, ref))
          && (forall r | r != ref :: !Holds(b.claims, r, pk))
          && Holds(a.book.claims, ref, pk)
          && (a.book != b ==> forall r :: !Holds(b.claims, r, pk)))
  {
    var a := Allocate(c, b, ref, channelPort);
    if c.ranges != [] && !Reusable(c, b.claims, ref) && a.port.Ok? {
      var pk := PortKey(a.port.value, ref.proto);
      var owner := OwnerOf(c.hash, ref);
      FirstFreeSound(c.ranges, Used(c, b.claims, owner), ref.proto);
      UsedIff(c, b.claims, owner, pk);
      PutValid(b, ref, NewClaim(ref, channelPort, pk.port, AutoSource));
    }
  }

  /** A newly allocated claim says whose it is and what it is for. */
  lemma AllocatedRecord(c: Config, b: Book, ref: Ref, channelPort: int)
    ensures var a := Allocate(c, b, ref, channelPort);
      a.book != b ==>
        a.port.Ok? && ref in a.book.claims
        && a.book.claims[ref] == Claim(ref.ns, ref.service, ref.portName, Some(ref.proto), Some(channelPort),
                                       Some(a.port.value), Some(a.port.value), Some(AutoSource))
  {}

  /** A claim may be kept exactly if its number is in the ranges, not statically declared,
      not recovered for somebody else, and held by no other key. */
  lemma ReusableIff(c: Config, claims: map<Ref, Claim>, ref: Ref, pk: PortKey)
    requires Holds(claims, ref, pk) && pk.proto == ref.proto
    ensures Reusable(c, claims, ref) <==>
      Contains(c.ranges, pk.port) && pk !in c.reserved
      && (pk in c.recovered ==> c.recovered[pk] == OwnerOf(c.hash, ref))
      && forall r | r != ref :: !Holds(claims, r, pk)
  {}

  /** Allocation is exact first fit. A still valid claim is kept; otherwise the
      result is the first port, in range order, that is not reserved, not recovered
      for another owner and not claimed; and it fails exactly when there is none. */
  lemma AllocateFirstFit(c: Config, b: Book, ref: Ref, channelPort: int)
    requires c.ranges != []
    ensures var a := Allocate(c, b, ref, channelPort);
      var used := Used(c, b.claims, OwnerOf(c.hash, ref));
      && (Reusable(c, b.claims, ref) ==> a.port == Ok(b.claims[ref].MuxPortNumber().value))
      && (!Reusable(c, b.claims, ref) && a.port.Ok? ==>
        exists i: nat :: EarliestAt(c.ranges, used, ref.proto, i, a.port.value))
      && (a.port.Err? <==>
          (!Reusable(c, b.claims, ref) && forall p :: Contains(c.ranges, p) ==> PortKey(p, ref.proto) in used))
  {
    var used := Used(c, b.claims, OwnerOf(c.hash, ref));
    FirstFreeExact(c.ranges, used, ref.proto);
    if forall p :: Contains(c.ranges, p) ==> PortKey(p, ref.proto) in used {
      forall i, q | 0 <= i < |c.ranges| && InRange(c.ranges[i], q) ensures PortKey(q, ref.proto) in used {
        assert Contains(c.ranges, q);
      }
    }
  }

  /** Pigeonhole: with fewer ports of the protocol in use than the ranges hold,
      automatic allocation cannot fail. */
  lemma AllocateSucceeds(c: Config, b: Book, ref: Ref, channelPort: int)
    requires |set k | k in Used(c, b.claims, OwnerOf(c.hash, ref)) && k.proto == ref.proto ::
      k.port| < |Covered(c.ranges)|
    ensures Allocate(c, b, ref, channelPort).port.Ok?
  {
    FirstFreeSucceeds(c.ranges, Used(c, b.claims, OwnerOf(c.hash, ref)), ref.proto);
  }

  /** A newly allocated number is held by nobody else, so allocation never makes
      two keys share a mux port. */
  lemma AllocateInjective(c: Config, b: Book, ref: Ref, channelPort: int)
    requires b.Valid() && Injective(b.claims)
    ensures Injective(Allocate(c, b, ref, channelPort).book.claims)
  {
    var a := Allocate(c, b, ref, channelPort);
    AllocateExact(c, b, ref, channelPort);
    if a.book != b {
      var mine := PortKey(a.port.value, ref.proto);
      forall r, s, pk | Holds(a.book.claims, r, pk) && Holds(a.book.claims, s, pk) ensures r == s {
        if r != ref { assert Holds(b.claims, r, pk); }
        if s != ref { assert Holds(b.claims, s, pk); }
        if r == ref || s == ref { assert pk == mine; }
      }
    }
  }

  // ---- recording ----

  function RecordOne(b: Book, ch: Channel, mappings: map<string, string>, autoNames: set<string>, j: nat): Book
    requires j < |ch.ports|
  {
    var port := ch.ports[j];
    if port.name == "" || port.name !in mappings then b
    else
      match ParsePort(mappings[port.name])
      case None => b
      case Some(n) =>
        b.Set(ch.RefOf(j),
          NewClaim(ch.RefOf(j), port.port, n, if port.name in autoNames then AutoSource else StaticSource))
  }

  function RecordUpTo(b: Book, ch: Channel, mappings: map<string, string>, autoNames: set<string>, k: nat): Book
    requires k <= |ch.ports|
  {
    if k == 0 then b
    else RecordOne(RecordUpTo(b, ch, mappings, autoNames, k - 1), ch, mappings, autoNames, k - 1)
  }

  /** `record_channel_claims`; `None` when the annotation cannot be read. */
  function Record(b: Book, ch: Channel, text: string): Option<Book> {
    match PortMappings(text)
    case None => None
    case Some(mappings) => Some(RecordUpTo(b, ch, mappings, AutoNames(ch.externalPorts), |ch.ports|))
  }

  lemma {:induction false} RecordValid(b: Book, ch: Channel, mappings: map<string, string>, autoNames: set<string>,
      k: nat)
    requires b.Valid() && k <= |ch.ports|
    ensures RecordUpTo(b, ch, mappings, autoNames, k).Valid()
  {
    if k > 0 {
      RecordValid(b, ch, mappings, autoNames, k - 1);
    }
  }

  // ---- saving ----

  predicate KeyLe(r: Ref, s: Ref) {
    StrLe(r.KeyText(), s.KeyText())
  }

  lemma KeyLeOrder()
    ensures Total(KeyLe) && Transitive(KeyLe)
  {
    forall r, s ensures KeyLe(r, s) || KeyLe(s, r) {
      StrLeTotal(r.KeyText(), s.KeyText());
    }
    forall r, s, t | KeyLe(r, s) && KeyLe(s, t) ensures KeyLe(r, t) {
      StrLeTransitive(r.KeyText(), s.KeyText(), t.KeyText());
    }
  }

  function Lookup(claims: map<Ref, Claim>, refs: seq<Ref>): seq<Claim>
    requires forall r | r in refs :: r in claims
  {
    seq(|refs|, i requires 0 <= i < |refs| => claims[refs[i]])
  }

  function AutoOnly(claims: seq<Claim>): seq<Claim> {
    if claims == [] then []
    else
      var rest := AutoOnly(claims[..|claims| - 1]);
      var last := claims[|claims| - 1];
      if last.source == Some(AutoSource) then rest + [last] else rest
  }

  function SortedKeys(b: Book): (refs: seq<Ref>)
    ensures forall r :: r in refs <==> r in b.order
  {
    SortKeeps(b.order, KeyLe);
    Sort(b.order, KeyLe)
  }

  /** `to_state()`: the claims in key order, and the automatic ones once more. */
  function ToState(b: Book): State
    requires forall r | r in b.order :: r in b.claims
  {
    var claims := Lookup(b.claims, SortedKeys(b));
    State(Some(claims), AutoOnly(claims))
  }
}
