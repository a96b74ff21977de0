/** What one pass keeps and establishes. The invariant of the loop over the channels
    lives here; the theorems about passes and runs are built on it. */
module PassFacts {
  import opened Wrappers
  import opened Text
  import opened Annotations
  import opened Model
  import opened PortRanges
  import opened Sorting
  import opened ChannelOrder
  import opened Claims
  import opened Reconcile

  // ---- sorting keeps the channels ----

  lemma {:induction false} InsertWellFormed(ch: Channel, channels: seq<Channel>)
    requires WellFormedAll(channels) && WellFormed(ch)
    requires forall other | other in channels :: other.ns != ch.ns || other.name != ch.name
    ensures WellFormedAll(Insert(ch, channels, ChannelLe))
  {
    hide WellFormed, ChannelLe;
    if channels != [] && !ChannelLe(ch, channels[0]) {
      var rest := Insert(ch, channels[1..], ChannelLe);
      InsertWellFormed(ch, channels[1..]);
      InsertKeeps(ch, channels[1..], ChannelLe);
      forall i | 0 <= i < |rest| ensures rest[i].ns != channels[0].ns || rest[i].name != channels[0].name {
        assert rest[i] in multiset(rest);
        if rest[i] != ch {
          assert rest[i] in multiset(channels[1..]);
        }
      }
    }
  }

  lemma {:induction false} SortedWellFormed(channels: seq<Channel>)
    requires WellFormedAll(channels)
    ensures WellFormedAll(Sort(channels, ChannelLe))
  {
    if channels != [] {
      SortedWellFormed(channels[1..]);
      SortKeeps(channels[1..], ChannelLe);
      InsertWellFormed(channels[0], Sort(channels[1..], ChannelLe));
    }
  }

  // ---- the annotation is a faithful channel ----

  lemma LinesClean(ch: Channel, numbers: seq<int>)
    requires WellFormed(ch) && |numbers| <= |ch.ports|
    requires forall j | 0 <= j < |numbers| :: 1 <= numbers[j] <= 65535
    ensures CleanNames(LinesOf(ch, numbers)) && DistinctNames(LinesOf(ch, numbers))
  {}

  /** The printed assignment of a channel reads back, port by port, as assigned. */
  lemma AnnotationReadsBack(ch: Channel, numbers: seq<int>, j: nat)
    requires WellFormed(ch) && Named(ch) && j < |numbers| == |ch.ports|
    requires forall i | 0 <= i < |numbers| :: 1 <= numbers[i] <= 65535
    ensures AnnotatedPort(ch.(portsText := FormatPorts(LinesOf(ch, numbers))), j)
      == Some(PortKey(numbers[j], ch.ports[j].proto))
  {
    LinesClean(ch, numbers);
    PrintedPortReadsBack(LinesOf(ch, numbers), j);
  }

  lemma AnnotationReadable(ch: Channel, numbers: seq<int>)
    requires WellFormed(ch) && |numbers| <= |ch.ports|
    requires forall i | 0 <= i < |numbers| :: 1 <= numbers[i] <= 65535
    ensures PortMappings(FormatPorts(LinesOf(ch, numbers))).Some?
  {
    LinesClean(ch, numbers);
    PortMappingsOfFormat(LinesOf(ch, numbers));
  }

  // ---- resolving one channel ----

  ghost function RefsOf(ch: Channel): set<Ref> {
    set j | 0 <= j < |ch.ports| :: ch.RefOf(j)
  }

  ghost predicate Unmoved(before: map<Ref, Claim>, after: map<Ref, Claim>, r: Ref) {
    (r in after <==> r in before) && (r in before ==> after[r] == before[r])
  }

  function NumberKey(ch: Channel, numbers: seq<int>, j: nat): PortKey
    requires j < |numbers| <= |ch.ports|
  {
    PortKey(numbers[j], ch.ports[j].proto)
  }

  lemma DistinctRefs(ch: Channel, i: nat, j: nat)
    requires WellFormed(ch) && i < |ch.ports| && j < |ch.ports| && ch.RefOf(i) == ch.RefOf(j)
    ensures i == j
  {}

  /** `ref` holds an automatic port: in the ranges, declared statically by nobody,
      recovered for nobody else. */
  ghost predicate AutoPort(c: Config, claims: map<Ref, Claim>, ref: Ref, pk: PortKey) {
    && Holds(claims, ref, pk) && Contains(c.ranges, pk.port) && pk !in c.reserved
    && (pk in c.recovered ==> c.recovered[pk] == OwnerOf(c.hash, ref))
  }

  /** How the book may have changed while the ports of a channel were resolved:
      claims of other channels have not moved, no port is claimed twice, and new
      holdings avoid every statically declared port. */
  ghost predicate Allocating(c: Config, before: Book, ch: Channel, after: Book) {
    && after.Valid() && Injective(after.claims)
    && (forall x | x !in RefsOf(ch) :: Unmoved(before.claims, after.claims, x))
    && (forall x, pk :: Holds(after.claims, x, pk) ==> Holds(before.claims, x, pk) || pk !in c.reserved)
    && (!after.changed ==> after == before)
  }

  /** The numbers found so far: automatic ones are held and were free to take,
      static ones are as asked. */
  ghost predicate Numbered(c: Config, claims: map<Ref, Claim>, ch: Channel, m: map<string, Request>, numbers: seq<int>)
    requires |numbers| <= |ch.ports|
  {
    forall j | 0 <= j < |numbers| ::
      if WantsAuto(m, ch.ports[j]) then AutoPort(c, claims, ch.RefOf(j), NumberKey(ch, numbers, j))
      else numbers[j] == StaticNumber(m, ch.ports[j])
  }

  /** One allocation, seen from its channel. */
  ghost predicate AllocatedFor(c: Config, b: Book, ref: Ref, a: Allocation) {
    && a.book.Valid() && Injective(a.book.claims)
    && (forall x | x != ref :: Unmoved(b.claims, a.book.claims, x))
    && (forall x, pk :: Holds(a.book.claims, x, pk) ==> Holds(b.claims, x, pk) || pk !in c.reserved)
    && (a.port.Ok? ==> AutoPort(c, a.book.claims, ref, PortKey(a.port.value, ref.proto)))
    && (!a.book.changed ==> a.book == b)
  }

  lemma AllocateFor(c: Config, b: Book, ref: Ref, channelPort: int)
    requires b.Valid() && Injective(b.claims)
    ensures AllocatedFor(c, b, ref, Allocate(c, b, ref, channelPort))
  {
    var a := Allocate(c, b, ref, channelPort);
    AllocateExact(c, b, ref, channelPort);
    AllocateInjective(c, b, ref, channelPort);
    forall x, pk | Holds(a.book.claims, x, pk) ensures Holds(b.claims, x, pk) || pk !in c.reserved {
      if x == ref && a.port.Ok? {
        assert pk == PortKey(a.port.value, ref.proto);
      }
    }
  }

  lemma AllocatingOn(c: Config, b: Book, ch: Channel, j: nat, mid: Book, a: Allocation)
    requires j < |ch.ports| && Allocating(c, b, ch, mid) && AllocatedFor(c, mid, ch.RefOf(j), a)
    ensures Allocating(c, b, ch, a.book)
  {
    assert ch.RefOf(j) in RefsOf(ch);
    forall x | x !in RefsOf(ch) ensures Unmoved(b.claims, a.book.claims, x) {
      assert Unmoved(b.claims, mid.claims, x) && Unmoved(mid.claims, a.book.claims, x);
    }
  }

  lemma NumberedOn(c: Config, b: Book, ch: Channel, m: map<string, Request>, numbers: seq<int>, a: Allocation)
    requires WellFormed(ch) && |numbers| < |ch.ports| && WantsAuto(m, ch.ports[|numbers|]) && a.port.Ok?
    requires Numbered(c, b.claims, ch, m, numbers) && AllocatedFor(c, b, ch.RefOf(|numbers|), a)
    ensures Numbered(c, a.book.claims, ch, m, numbers + [a.port.value])
  {
    var more := numbers + [a.port.value];
    forall j | 0 <= j < |numbers| && WantsAuto(m, ch.ports[j])
      ensures AutoPort(c, a.book.claims, ch.RefOf(j), NumberKey(ch, more, j))
    {
      assert AutoPort(c, b.claims, ch.RefOf(j), NumberKey(ch, numbers, j));
      assert ch.RefOf(j) != ch.RefOf(|numbers|);
      assert Unmoved(b.claims, a.book.claims, ch.RefOf(j));
    }
  }

  lemma NumberedStatic(c: Config, claims: map<Ref, Claim>, ch: Channel, m: map<string, Request>, numbers: seq<int>)
    requires |numbers| < |ch.ports| && !WantsAuto(m, ch.ports[|numbers|])
    requires Numbered(c, claims, ch, m, numbers)
    ensures Numbered(c, claims, ch, m, numbers + [StaticNumber(m, ch.ports[|numbers|])])
  {
    var more := numbers + [StaticNumber(m, ch.ports[|numbers|])];
    forall j | 0 <= j < |numbers| && WantsAuto(m, ch.ports[j])
      ensures AutoPort(c, claims, ch.RefOf(j), NumberKey(ch, more, j))
    {
      assert AutoPort(c, claims, ch.RefOf(j), NumberKey(ch, numbers, j));
    }
  }

  ghost predicate KeptSoFar(c: Config, b: Book, ch: Channel, m: map<string, Request>, r: Resolution)
    requires |r.numbers| <= |ch.ports|
  {
    Allocating(c, b, ch, r.book) && Numbered(c, r.book.claims, ch, m, r.numbers)
  }

  lemma KeptOn(c: Config, b: Book, ch: Channel, m: map<string, Request>, r: Resolution, channelPort: int)
    requires WellFormed(ch) && |r.numbers| < |ch.ports| && KeptSoFar(c, b, ch, m, r)
    requires WantsAuto(m, ch.ports[|r.numbers|])
    ensures var a := Allocate(c, r.book, ch.RefOf(|r.numbers|), channelPort);
      if a.port.Ok? then KeptSoFar(c, b, ch, m, Resolution(a.book, r.numbers + [a.port.value], None))
      else KeptSoFar(c, b, ch, m, Resolution(a.book, r.numbers, Some(a.port.error)))
  {
    var j := |r.numbers|;
    var a := Allocate(c, r.book, ch.RefOf(j), channelPort);
    AllocateFor(c, r.book, ch.RefOf(j), channelPort);
    AllocateExact(c, r.book, ch.RefOf(j), channelPort);
    AllocatingOn(c, b, ch, j, r.book, a);
    if a.port.Ok? {
      NumberedOn(c, r.book, ch, m, r.numbers, a);
    }
  }

  lemma {:induction false} ResolveKeeps(c: Config, b: Book, ch: Channel, m: map<string, Request>, k: nat)
    requires WellFormed(ch) && b.Valid() && Injective(b.claims) && k <= |ch.ports|
    ensures KeptSoFar(c, b, ch, m, ResolveUpTo(c, b, ch, m, k))
  {
    if k > 0 {
      ResolveKeeps(c, b, ch, m, k - 1);
      var r := ResolveUpTo(c, b, ch, m, k - 1);
      if r.error.None? {
        if WantsAuto(m, ch.ports[k - 1]) {
          KeptOn(c, b, ch, m, r, ch.ports[k - 1].port);
        } else {
          NumberedStatic(c, r.book.claims, ch, m, r.numbers);
        }
      }
    }
  }

  // ---- recording an accepted channel ----

  /** The claim that records port `j` of a channel with mux port `number`. */
  function ClaimWith(ch: Channel, j: nat, number: int, autoNames: set<string>): Claim
    requires j < |ch.ports|
  {
    NewClaim(ch.RefOf(j), ch.ports[j].port, number, if ch.ports[j].name in autoNames then AutoSource else StaticSource)
  }

  ghost predicate Recorded(b: Book, ch: Channel, numbers: seq<int>, autoNames: set<string>, k: nat, after: Book)
    requires k <= |numbers| == |ch.ports|
  {
    && (forall x | x !in RefsOf(ch) :: Unmoved(b.claims, after.claims, x))
    && (forall j | 0 <= j < k ::
      ch.RefOf(j) in after.claims && after.claims[ch.RefOf(j)] == ClaimWith(ch, j, numbers[j], autoNames))
    && (!after.changed ==> after == b)
  }

  lemma RecordedOn(b: Book, ch: Channel, numbers: seq<int>, autoNames: set<string>, k: nat, mid: Book)
    requires WellFormed(ch) && k < |numbers| == |ch.ports|
    requires Recorded(b, ch, numbers, autoNames, k, mid)
    ensures Recorded(b, ch, numbers, autoNames, k + 1, mid.Set(ch.RefOf(k), ClaimWith(ch, k, numbers[k], autoNames)))
  {
    assert ch.RefOf(k) in RefsOf(ch);
    assert forall j | 0 <= j < k :: ch.RefOf(j) != ch.RefOf(k);
  }

  /** Every port of the channel has a readable entry with its number. */
  ghost predicate States(mappings: map<string, string>, ch: Channel, numbers: seq<int>) {
    && Named(ch) && |numbers| == |ch.ports|
    && forall j | 0 <= j < |numbers| ::
      ch.ports[j].name in mappings && ParsePort(mappings[ch.ports[j].name]) == Some(numbers[j])
  }

  lemma RecordOneIs(b: Book, ch: Channel, numbers: seq<int>, mappings: map<string, string>, autoNames: set<string>,
      j: nat)
    requires States(mappings, ch, numbers) && j < |numbers|
    ensures RecordOne(b, ch, mappings, autoNames, j) == b.Set(ch.RefOf(j), ClaimWith(ch, j, numbers[j], autoNames))
  {}

  lemma {:induction false} RecordSteps(b: Book, ch: Channel, numbers: seq<int>, mappings: map<string, string>,
      autoNames: set<string>, k: nat)
    requires WellFormed(ch) && States(mappings, ch, numbers) && k <= |numbers|
    ensures Recorded(b, ch, numbers, autoNames, k, RecordUpTo(b, ch, mappings, autoNames, k))
  {
    hide RecordOne;
    if k > 0 {
      RecordSteps(b, ch, numbers, mappings, autoNames, k - 1);
      var mid := RecordUpTo(b, ch, mappings, autoNames, k - 1);
      RecordedOn(b, ch, numbers, autoNames, k - 1, mid);
      RecordOneIs(mid, ch, numbers, mappings, autoNames, k - 1);
    }
  }

  /** Recording stores for every port of the channel exactly the number it was given,
      although the numbers travel through the text annotation, and moves nothing else. */
  lemma RecordExact(b: Book, ch: Channel, numbers: seq<int>)
    requires WellFormed(ch) && Named(ch) && |numbers| == |ch.ports|
    requires forall j | 0 <= j < |numbers| :: 1 <= numbers[j] <= 65535
    ensures var after := Record(b, ch, FormatPorts(LinesOf(ch, numbers)));
      after.Some? && Recorded(b, ch, numbers, AutoNames(ch.externalPorts), |numbers|, after.value)
  {
    LinesClean(ch, numbers);
    var lines := LinesOf(ch, numbers);
    PortMappingsOfFormat(lines);
    var mappings := PortMappings(FormatPorts(lines)).value;
    forall j | 0 <= j < |numbers|
      ensures ch.ports[j].name in mappings && ParsePort(mappings[ch.ports[j].name]) == Some(numbers[j])
    {
      PrintedPortReadsBack(lines, j);
    }
    RecordSteps(b, ch, numbers, mappings, AutoNames(ch.externalPorts), |numbers|);
  }
}
