/** Saving the claim book and loading it back; loading documents of the older form. */
module StateRoundTrip {
  import opened Wrappers
  import opened Model
  import opened Sorting
  import opened Claims

  /** Every stored record is in the form the loader would give it. */
  ghost predicate Normal(claims: map<Ref, Claim>) {
    forall r | r in claims :: claims[r].Normalised() == claims[r]
  }

  lemma NormalisedTwice(c: Claim)
    ensures c.Normalised().Normalised() == c.Normalised()
    ensures c.Normalised().Key() == c.Key() && c.Normalised().MuxPortNumber() == c.MuxPortNumber()
  {}

  lemma {:induction false} ReadNormal(records: seq<Claim>, k: nat)
    requires k <= |records|
    ensures Normal(ReadUpTo(records, k).claims)
  {
    if k > 0 {
      ReadNormal(records, k - 1);
      NormalisedTwice(records[k - 1]);
    }
  }

  lemma LoadNormal(state: State, active: set<Ref>)
    ensures Normal(Load(state, active).claims)
  {
    ReadNormal(StateClaims(state), |StateClaims(state)|);
  }

  ghost predicate Distinct(refs: seq<Ref>) {
    forall i, j | 0 <= i < j < |refs| :: refs[i] != refs[j]
  }

  lemma {:induction false} InsertDistinct(r: Ref, refs: seq<Ref>)
    requires Distinct(refs) && r !in refs
    ensures Distinct(Insert(r, refs, KeyLe))
  {
    hide KeyLe;
    if refs != [] && !KeyLe(r, refs[0]) {
      InsertDistinct(r, refs[1..]);
      InsertKeeps(r, refs[1..], KeyLe);
      var rest := Insert(r, refs[1..], KeyLe);
      forall i | 0 <= i < |rest| ensures rest[i] != refs[0] {
        assert rest[i] in multiset(rest);
        if rest[i] != r {
          assert rest[i] in multiset(refs[1..]);
        }
      }
    }
  }

  lemma {:induction false} SortDistinct(refs: seq<Ref>)
    requires Distinct(refs)
    ensures Distinct(Sort(refs, KeyLe))
  {
    hide KeyLe;
    if refs != [] {
      SortDistinct(refs[1..]);
      SortKeeps(refs[1..], KeyLe);
      InsertDistinct(refs[0], Sort(refs[1..], KeyLe));
    }
  }

  lemma NormalAt(claims: map<Ref, Claim>, r: Ref)
    requires Normal(claims) && r in claims
    ensures claims[r].Normalised() == claims[r]
  {}

  lemma OneMore(claims: map<Ref, Claim>, refs: seq<Ref>, k: nat)
    requires 0 < k <= |refs| && forall r | r in refs :: r in claims
    ensures (map r | r in refs[..k - 1] :: claims[r])[refs[k - 1] := claims[refs[k - 1]]] == map r | r in refs[..k] ::
      claims[r]
  {
    assert refs[..k] == refs[..k - 1] + [refs[k - 1]];
  }

  lemma {:induction false} ReadBack(claims: map<Ref, Claim>, refs: seq<Ref>, k: nat)
    requires forall r | r in claims :: claims[r].Key() == r
    requires Normal(claims) && k <= |refs| && forall r | r in refs :: r in claims
    ensures ReadUpTo(Lookup(claims, refs), k).claims == map r | r in refs[..k] :: claims[r]
  {
    hide Normal;
    if k > 0 {
      ReadBack(claims, refs, k - 1);
      var records := Lookup(claims, refs);
      OneMore(claims, refs, k);
      assert records[k - 1] == claims[refs[k - 1]] && refs[k - 1] in refs;
      NormalAt(claims, refs[k - 1]);
      assert ReadUpTo(records, k).claims == ReadUpTo(records, k - 1).claims[refs[k - 1] := claims[refs[k - 1]]];
    }
  }

  /** The claims a document states, before any is dropped. */
  function ReadAll(state: State): map<Ref, Claim> {
    ReadUpTo(StateClaims(state), |StateClaims(state)|).claims
  }

  function Restricted(claims: map<Ref, Claim>, active: set<Ref>): map<Ref, Claim> {
    map r | r in claims && r in active :: claims[r]
  }

  /** Loading drops exactly the claims of undeclared ports, and asks for a rewrite
      exactly when it did so or the document has the older form. */
  lemma LoadIs(state: State, active: set<Ref>)
    ensures Load(state, active).claims == Restricted(ReadAll(state), active)
    ensures Load(state, active).changed <==> NeedsClaimWrite(state) || exists r | r in ReadAll(state) :: r !in active
  {
    hide ReadUpTo, Kept, NeedsClaimWrite;
    var read, claims := ReadAll(state), Load(state, active).claims;
    if r :| r in read && r !in active {
      assert r in read.Keys && r !in claims.Keys;
    } else {
      assert claims.Keys == read.Keys;
    }
  }

  /** THEOREM (state round trip). Reading what was saved gives the identical claim
      dictionary. */
  lemma ReadSaved(b: Book)
    requires b.Valid() && Normal(b.claims)
    ensures ReadAll(ToState(b)) == b.claims && !NeedsClaimWrite(ToState(b))
  {
    hide KeyLe, AutoOnly, Normal;
    var refs := SortedKeys(b);
    ReadBack(b.claims, refs, |refs|);
    assert refs[..|refs|] == refs;
    assert forall r :: r in refs <==> r in b.claims;
    assert (map r | r in refs :: b.claims[r]) == b.claims;
  }

  /** In particular, loading it with the same channels still there rebuilds the claim
      dictionary and asks for no rewrite. */
  lemma SaveLoad(b: Book, active: set<Ref>)
    requires b.Valid() && Normal(b.claims) && b.claims.Keys <= active
    ensures Load(ToState(b), active).claims == b.claims
    ensures !Load(ToState(b), active).changed
  {
    hide Load, ToState, Normal, ReadAll;
    ReadSaved(b);
    LoadIs(ToState(b), active);
    assert Restricted(b.claims, active) == b.claims;
  }

  lemma SortedRefs(b: Book)
    requires b.Valid()
    ensures var refs := SortedKeys(b);
      Sorted(refs, KeyLe) && Distinct(refs) && |refs| == |b.order| && forall r :: r in refs <==> r in b.claims
  {
    KeyLeOrder();
    hide KeyLe;
    SortSorts(b.order, KeyLe);
    SortKeeps(b.order, KeyLe);
    SortDistinct(b.order);
  }

  lemma LookupIff(claims: map<Ref, Claim>, refs: seq<Ref>, c: Claim)
    requires forall r :: r in refs <==> r in claims
    ensures c in Lookup(claims, refs) <==> exists r | r in claims :: claims[r] == c
  {
    var list := Lookup(claims, refs);
    if r :| r in claims && claims[r] == c {
      var i :| 0 <= i < |refs| && refs[i] == r;
      assert list[i] == c;
    }
    if c in list {
      var i :| 0 <= i < |list| && list[i] == c;
      assert refs[i] in refs && claims[refs[i]] == c;
    }
  }

  /** The saved list is in strict key order, lists every claim, and its second view
      holds exactly the automatic ones. */
  lemma SavedForm(b: Book)
    requires b.Valid()
    ensures ToState(b).State? && ToState(b).portClaims.Some?
    ensures var list := ToState(b).portClaims.value;
      && (forall i, j | 0 <= i < j < |list| :: KeyLe(list[i].Key(), list[j].Key()) && list[i].Key() != list[j].Key())
      && (forall c :: c in list <==> exists r | r in b.claims :: b.claims[r] == c)
      && (forall c :: c in ToState(b).allocations <==> c in list && c.source == Some(AutoSource))
  {
    hide KeyLe, AutoOnly, SortedKeys;
    SortedRefs(b);
    var refs := SortedKeys(b);
    var list := Lookup(b.claims, refs);
    forall i | 0 <= i < |refs| ensures list[i].Key() == refs[i] {
      assert refs[i] in refs;
    }
    forall c ensures c in list <==> exists r | r in b.claims :: b.claims[r] == c {
      LookupIff(b.claims, refs, c);
    }
    forall c ensures c in AutoOnly(list) <==> c in list && c.source == Some(AutoSource) {
      AutoOnlyIff(list, c);
    }
  }

  lemma {:induction false} AutoOnlyIff(claims: seq<Claim>, c: Claim)
    ensures c in AutoOnly(claims) <==> c in claims && c.source == Some(AutoSource)
  {
    if claims != [] {
      AutoOnlyIff(claims[..|claims| - 1], c);
      assert claims == claims[..|claims| - 1] + [claims[|claims| - 1]];
    }
  }

  // ---- the older, allocation-only form ----

  /** Record `i` is the last one of its key. */
  ghost predicate LastOfKey(records: seq<Claim>, i: nat) {
    i < |records| && forall j | i < j < |records| :: records[j].Key() != records[i].Key()
  }

  lemma {:induction false} LastWins(records: seq<Claim>, i: nat, k: nat)
    requires LastOfKey(records, i) && i < k <= |records|
    ensures records[i].Key() in ReadUpTo(records, k).claims
    ensures ReadUpTo(records, k).claims[records[i].Key()] == records[i].Normalised()
  {
    if i < k - 1 {
      LastWins(records, i, k - 1);
    }
  }

  /** Every claim that was read comes from the last record of its key. */
  lemma {:induction false} FromLast(records: seq<Claim>, k: nat, r: Ref)
    requires k <= |records| && r in ReadUpTo(records, k).claims
    ensures exists i: nat :: i < k && records[i].Key() == r && forall j | i < j < k :: records[j].Key() != r
  {
    if records[k - 1].Key() != r {
      FromLast(records, k - 1, r);
      var i: nat :| i < k - 1 && records[i].Key() == r && forall j | i < j < k - 1 :: records[j].Key() != r;
      assert forall j | i < j < k :: records[j].Key() != r;
    }
  }

  /** The claim that a legacy record becomes: the same number under the same label, or
      under `auto` if the record has none. */
  ghost predicate Migrated(record: Claim, claims: map<Ref, Claim>) {
    && record.Key() in claims
    && claims[record.Key()].MuxPortNumber() == record.MuxPortNumber()
    && claims[record.Key()].source == Some(record.source.GetOr(AutoSource))
  }

  lemma AllMigrated(allocations: seq<Claim>, active: set<Ref>, i: nat)
    requires LastOfKey(allocations, i) && allocations[i].Key() in active
    ensures Migrated(allocations[i], Load(State(None, allocations), active).claims)
  {
    LastWins(allocations, i, |allocations|);
    NormalisedTwice(allocations[i]);
  }

  lemma NoneInvented(allocations: seq<Claim>, active: set<Ref>, r: Ref)
    requires r in Load(State(None, allocations), active).claims
    ensures r in active && exists i: nat :: LastOfKey(allocations, i) && allocations[i].Key() == r
  {
    hide ReadUpTo, Kept;
    FromLast(allocations, |allocations|, r);
    var i: nat :| i < |allocations| && allocations[i].Key() == r
      && forall j | i < j < |allocations| :: allocations[j].Key() != r;
    assert LastOfKey(allocations, i);
  }

  /** THEOREM (migration). An allocation-only document keeps the assignment of every
      declared port and invents none, and asks for a rewrite; once rewritten, it loads to
      the same claims and asks for none. */
  lemma LegacyMigrates(allocations: seq<Claim>, active: set<Ref>)
    ensures var b := Load(State(None, allocations), active);
      && b.changed && b.Valid()
      && (forall i: nat | LastOfKey(allocations, i) && allocations[i].Key() in active ::
        Migrated(allocations[i], b.claims))
      && (forall r | r in b.claims ::
        r in active && exists i: nat :: LastOfKey(allocations, i) && allocations[i].Key() == r)
      && Load(ToState(b), active).claims == b.claims && !Load(ToState(b), active).changed
  {
    hide Migrated, ReadUpTo, ToState, Normal, Book.Valid;
    var legacy := State(None, allocations);
    LoadValid(legacy, active);
    LoadNormal(legacy, active);
    var b := Load(legacy, active);
    forall i: nat | LastOfKey(allocations, i) && allocations[i].Key() in active
      ensures Migrated(allocations[i], b.claims)
    {
      AllMigrated(allocations, active, i);
    }
    forall r | r in b.claims
      ensures r in active && exists i: nat :: LastOfKey(allocations, i) && allocations[i].Key() == r
    {
      NoneInvented(allocations, active, r);
    }
    SaveLoad(b, active);
  }

  // ---- records, field by field ----

  function ProtocolOf(record: Claim): string {
    if record.proto.Some? then record.proto.value else "TCP"
  }

  /** Record `i` is the last one of its channel port; a missing protocol means TCP. */
  ghost predicate LastOfPort(records: seq<Claim>, i: nat) {
    i < |records| && forall j | i < j < |records| ::
      !(records[j].ns == records[i].ns && records[j].service == records[i].service
        && records[j].portName == records[i].portName && ProtocolOf(records[j]) == ProtocolOf(records[i]))
  }

  /** THEOREM (what a record means). In a document of either form, the last record of a
      declared port is its claim: on the number in `muxPort`, or else in `port`, for the
      protocol it states or else TCP, and automatic unless it says otherwise. */
  lemma LoadedRecord(records: seq<Claim>, allocations: seq<Claim>, active: set<Ref>, i: nat)
    requires LastOfPort(records, i)
    requires Ref(records[i].ns, records[i].service, records[i].portName, ProtocolOf(records[i])) in active
    ensures forall state | state == State(Some(records), allocations) || state == State(None, records) ::
      var claims := Load(state, active).claims;
      var ref := Ref(records[i].ns, records[i].service, records[i].portName, ProtocolOf(records[i]));
      var number := if records[i].muxPort.Some? then records[i].muxPort else records[i].port;
      && ref in claims && claims[ref].muxPort == number && claims[ref].port == number
      && claims[ref].source == Some(if records[i].source.Some? then records[i].source.value else AutoSource)
      && claims[ref].channelPort == records[i].channelPort
  {
    LastWins(records, i, |records|);
  }

  /** An empty document has no claims, and needs no rewrite. */
  lemma EmptyDocument(active: set<Ref>)
    ensures Load(NoState, active).claims == map[] && !Load(NoState, active).changed
  {
    assert ReadUpTo([], 0) == EMPTY_BOOK;
  }

  // ---- order ----

  /** The text a record is sorted by. */
  function SortText(record: Claim): string {
    ProtocolOf(record) + ":" + record.ns + ":" + record.service + ":" + record.portName
  }

  ghost predicate StrictlySorted(list: seq<Claim>) {
    forall i, j | 0 <= i < j < |list| :: StrLe(SortText(list[i]), SortText(list[j])) && list[i].Key() != list[j].Key()
  }

  /** The automatic claims keep the order of the list. */
  lemma {:induction false} AutoOnlyOrder(claims: seq<Claim>, i: nat, j: nat)
    requires i < j < |AutoOnly(claims)|
    ensures exists p, q :: 0 <= p < q < |claims| && claims[p] == AutoOnly(claims)[i] && claims[q] == AutoOnly(claims)[j]
  {
    var front, last := claims[..|claims| - 1], claims[|claims| - 1];
    if j < |AutoOnly(front)| {
      AutoOnlyOrder(front, i, j);
      var p, q :| 0 <= p < q < |front| && front[p] == AutoOnly(front)[i] && front[q] == AutoOnly(front)[j];
      assert claims[p] == AutoOnly(claims)[i] && claims[q] == AutoOnly(claims)[j];
    } else {
      AutoOnlyIff(front, AutoOnly(front)[i]);
      assert AutoOnly(front)[i] in AutoOnly(front);
      var p :| 0 <= p < |front| && front[p] == AutoOnly(front)[i];
      assert claims[p] == AutoOnly(claims)[i] && claims[|front|] == AutoOnly(claims)[j];
    }
  }

  /** THEOREM (the saved order). Both lists of a saved document are sorted by the text
      `protocol:namespace:service:port`, and no channel port occurs in either twice. */
  lemma SavedOrder(b: Book)
    requires b.Valid()
    ensures ToState(b).State? && ToState(b).portClaims.Some?
    ensures StrictlySorted(ToState(b).portClaims.value) && StrictlySorted(ToState(b).allocations)
  {
    hide AutoOnly, StrLe;
    SavedForm(b);
    var list, autos := ToState(b).portClaims.value, ToState(b).allocations;
    forall i, j | 0 <= i < j < |list|
      ensures StrLe(SortText(list[i]), SortText(list[j])) && list[i].Key() != list[j].Key()
    {
      assert KeyLe(list[i].Key(), list[j].Key());
    }
    forall i, j | 0 <= i < j < |autos|
      ensures StrLe(SortText(autos[i]), SortText(autos[j])) && autos[i].Key() != autos[j].Key()
    {
      AutoOnlyOrder(list, i, j);
    }
  }

  /** Record `i` is the first one of its key. */
  ghost predicate FirstOfKey(records: seq<Claim>, i: nat) {
    i < |records| && forall j | 0 <= j < i :: records[j].Key() != records[i].Key()
  }

  ghost predicate Earlier(order: seq<Ref>, r: Ref, s: Ref) {
    exists p, q :: 0 <= p < q < |order| && order[p] == r && order[q] == s
  }

  lemma OrderIsKeys(records: seq<Claim>, k: nat, r: Ref)
    requires k <= |records|
    ensures r in ReadUpTo(records, k).order <==> r in ReadUpTo(records, k).claims
  {
    ReadValid(records, k);
  }

  lemma {:induction false} ReadKeys(records: seq<Claim>, k: nat, r: Ref)
    requires k <= |records|
    ensures r in ReadUpTo(records, k).claims <==>
      exists i: nat :: i < k && FirstOfKey(records, i) && records[i].Key() == r
  {
    if k > 0 {
      ReadKeys(records, k - 1, r);
      if records[k - 1].Key() == r && r !in ReadUpTo(records, k - 1).claims {
        NewKey(records, k - 1);
      }
      if i: nat :| i < k && FirstOfKey(records, i) && records[i].Key() == r {
        ReadHas(records, k, i);
      }
    }
  }

  lemma NewKey(records: seq<Claim>, k: nat)
    requires k < |records| && records[k].Key() !in ReadUpTo(records, k).claims
    ensures FirstOfKey(records, k)
  {
    hide ReadUpTo;
    forall j: nat | j < k ensures records[j].Key() != records[k].Key() {
      ReadHas(records, k, j);
    }
  }

  lemma {:induction false} ReadHas(records: seq<Claim>, k: nat, j: nat)
    requires j < k <= |records|
    ensures records[j].Key() in ReadUpTo(records, k).claims
  {
    if j < k - 1 {
      ReadHas(records, k - 1, j);
    }
  }

  /** The dictionary is in the order in which the document first mentions its keys. */
  lemma {:induction false} ReadOrder(records: seq<Claim>, k: nat, i: nat, j: nat)
    requires i < j < k <= |records| && FirstOfKey(records, i) && FirstOfKey(records, j)
    ensures Earlier(ReadUpTo(records, k).order, records[i].Key(), records[j].Key())
  {
    var before, after := ReadUpTo(records, k - 1).order, ReadUpTo(records, k).order;
    if j < k - 1 {
      ReadOrder(records, k - 1, i, j);
      var p, q :| 0 <= p < q < |before| && before[p] == records[i].Key() && before[q] == records[j].Key();
      assert after[p] == records[i].Key() && after[q] == records[j].Key();
    } else {
      ReadKeys(records, k - 1, records[i].Key());
      ReadKeys(records, k - 1, records[j].Key());
      OrderIsKeys(records, k - 1, records[i].Key());
      OrderIsKeys(records, k - 1, records[j].Key());
      assert records[i].Key() in before && records[j].Key() !in before;
      var p :| 0 <= p < |before| && before[p] == records[i].Key();
      assert after[p] == records[i].Key() && after[|before|] == records[j].Key();
    }
  }

  lemma {:induction false} KeptOrder(order: seq<Ref>, active: set<Ref>, r: Ref, s: Ref)
    requires Earlier(order, r, s) && r in active && s in active
    ensures Earlier(Kept(order, active), r, s)
  {
    var front, last := order[..|order| - 1], order[|order| - 1];
    var p, q :| 0 <= p < q < |order| && order[p] == r && order[q] == s;
    var rest := Kept(front, active);
    if q < |front| {
      assert front[p] == r && front[q] == s;
      KeptOrder(front, active, r, s);
      var x, y :| 0 <= x < y < |rest| && rest[x] == r && rest[y] == s;
      assert Kept(order, active)[x] == r && Kept(order, active)[y] == s;
    } else {
      KeptIff(front, active);
      assert front[p] == r && r in front;
      var x :| 0 <= x < |rest| && rest[x] == r;
      assert Kept(order, active)[x] == r && Kept(order, active)[|rest|] == s;
    }
  }

  /** THEOREM (the first record owns). Should a document claim one mux port for several
      declared channel ports, the one it mentions first owns the port. */
  lemma FirstRecordOwns(hash: Hash, records: seq<Claim>, allocations: seq<Claim>, active: set<Ref>, i: nat, pk: PortKey)
    requires FirstOfKey(records, i) && records[i].Key() in active
    requires var claims := Load(State(Some(records), allocations), active).claims;
      Holds(claims, records[i].Key(), pk) && forall j: nat | j < i :: !Holds(claims, records[j].Key(), pk)
    ensures var b := Load(State(Some(records), allocations), active);
      && b.Valid()
      && pk in PortOwners(hash, b) && PortOwners(hash, b)[pk] == OwnerOf(hash, records[i].Key())
  {
    hide OwnersUpTo, Holds, ReadUpTo, Kept;
    var b := Load(State(Some(records), allocations), active);
    LoadValid(State(Some(records), allocations), active);
    var r := records[i].Key();
    assert r in b.order by { HoldsIn(b, r, pk); }
    var x :| 0 <= x < |b.order| && b.order[x] == r;
    forall y | 0 <= y < x ensures !Holds(b.claims, b.order[y], pk) {
      BeforeFirst(records, active, i, b.order, x, y);
      var j: nat :| j < i && records[j].Key() == b.order[y];
    }
    FirstClaimOwns(hash, b.claims, b.order, |b.order|, x, pk);
  }

  lemma HoldsIn(b: Book, r: Ref, pk: PortKey)
    requires b.Valid() && Holds(b.claims, r, pk)
    ensures r in b.order
  {}

  lemma NotLater(order: seq<Ref>, x: nat, y: nat)
    requires y < x < |order| && forall p, q | 0 <= p < q < |order| :: order[p] != order[q]
    ensures !Earlier(order, order[x], order[y])
  {}

  /** What stands before a key in the loaded order was mentioned before it. */
  lemma BeforeFirst(records: seq<Claim>, active: set<Ref>, i: nat, order: seq<Ref>, x: nat, y: nat)
    requires order == Kept(ReadUpTo(records, |records|).order, active)
    requires FirstOfKey(records, i) && y < x < |order| && order[x] == records[i].Key()
    requires forall p, q | 0 <= p < q < |order| :: order[p] != order[q]
    ensures exists j: nat :: j < i && records[j].Key() == order[y]
  {
    hide Kept, ReadUpTo;
    var s := order[y];
    KeptIff(ReadUpTo(records, |records|).order, active);
    assert s in order && order[x] in order;
    ReadKeys(records, |records|, s);
    OrderIsKeys(records, |records|, s);
    var j: nat :| j < |records| && FirstOfKey(records, j) && records[j].Key() == s;
    NotLater(order, x, y);
    if i < j {
      ReadOrder(records, |records|, i, j);
      KeptOrder(ReadUpTo(records, |records|).order, active, order[x], s);
    }
  }
}
