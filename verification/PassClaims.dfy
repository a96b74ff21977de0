/** What a pass does to the persisted claims: no port is ever claimed twice, an
    accepted channel's claims are exactly its assignment, nobody else's move. */
module PassClaims {
  import opened Wrappers
  import opened Annotations
  import opened Model
  import opened PortRanges
  import opened Claims
  import opened Reconcile
  import opened PortLimit
  import opened Pass
  import opened PassFacts
  import opened PassInvariant
  import opened StateRoundTrip

  /** The hypotheses under which claims stay exclusive: Kubernetes' own rules for
      names, no collision of the short hash, and claims that were exclusive before. */
  ghost predicate Fair(input: Input) {
    WellFormedAll(input.channels) && CollisionFree(input.hash, input.channels) && Injective(FirstBook(input).claims)
  }

  /** A held port is either one that nobody declares statically, or one that the
      owner map gives to its holder. */
  ghost predicate Backed(c: Config, claims: map<Ref, Claim>, owners: map<PortKey, Owner>) {
    forall r, pk :: Holds(claims, r, pk) ==> pk !in c.reserved || (pk in owners && owners[pk] == OwnerOf(c.hash, r))
  }

  ghost predicate Sane(c: Config, active: set<Ref>, b: Book, owners: map<PortKey, Owner>) {
    b.Valid() && Injective(b.claims) && b.claims.Keys <= active && Backed(c, b.claims, owners)
  }

  lemma RefsActive(channels: seq<Channel>, i: nat)
    requires i < |channels| && Named(channels[i])
    ensures RefsOf(channels[i]) <= ActiveRefs(channels)
  {
    forall r | r in RefsOf(channels[i]) ensures r in ActiveRefs(channels) {
      ActiveRefsIff(channels, r);
    }
  }

  lemma SaneStart(input: Input)
    requires Fair(input)
    ensures Sane(Cfg(input), ActiveRefs(input.channels), FirstBook(input), FirstOwners(input))
  {
    hide StaticClaims, Recovered, Load, PortOwners;
    LoadValid(LoadedState(input), ActiveRefs(input.channels));
    var b := FirstBook(input);
    forall r, pk | Holds(b.claims, r, pk)
      ensures pk in FirstOwners(input) && FirstOwners(input)[pk] == OwnerOf(input.hash, r)
    {
      PortOwnersExact(input.hash, b, pk);
    }
  }

  lemma SaneAllocating(c: Config, active: set<Ref>, b: Book, owners: map<PortKey, Owner>, ch: Channel, after: Book)
    requires Sane(c, active, b, owners) && Allocating(c, b, ch, after) && RefsOf(ch) <= active
    ensures Sane(c, active, after, owners)
  {
    forall r | r in after.claims ensures r in active {
      if r !in RefsOf(ch) {
        assert Unmoved(b.claims, after.claims, r);
      }
    }
    forall r, pk | Holds(after.claims, r, pk)
      ensures pk !in c.reserved || (pk in owners && owners[pk] == OwnerOf(c.hash, r))
    {
      if pk in c.reserved {
        assert Holds(b.claims, r, pk);
      }
    }
  }

  lemma SameOwner(hash: Hash, channels: seq<Channel>, r: Ref, s: Ref)
    requires CollisionFree(hash, channels) && r in ActiveRefs(channels) && s in ActiveRefs(channels)
    requires OwnerOf(hash, r) == OwnerOf(hash, s) && r.proto == s.proto
    ensures r == s
  {}

  /** What is known when channel `ch` is about to be recorded. */
  ghost predicate Committed(c: Config, channels: seq<Channel>, b: Book, owners: map<PortKey, Owner>,
                            ch: Channel, m: map<string, Request>, numbers: seq<int>) {
    && CollisionFree(c.hash, channels) && Sane(c, ActiveRefs(channels), b, owners)
    && WellFormed(ch) && |numbers| == |ch.ports| && RefsOf(ch) <= ActiveRefs(channels)
    && Numbered(c, b.claims, ch, m, numbers)
    && (forall j | 0 <= j < |numbers| && !WantsAuto(m, ch.ports[j]) :: NumberKey(ch, numbers, j) in c.reserved)
    && (forall j | 0 <= j < |numbers| ::
        NumberKey(ch, numbers, j) in owners && owners[NumberKey(ch, numbers, j)] == OwnerOf(c.hash, ch.RefOf(j)))
  }

  /** The crux: whoever holds the number that port `j` is about to record is port `j`. */
  lemma NobodyElseHolds(c: Config, channels: seq<Channel>, b: Book, owners: map<PortKey, Owner>,
                        ch: Channel, m: map<string, Request>, numbers: seq<int>, j: nat, s: Ref)
    requires Committed(c, channels, b, owners, ch, m, numbers) && j < |numbers|
    requires Holds(b.claims, s, NumberKey(ch, numbers, j))
    ensures s == ch.RefOf(j)
  {
    var pk := NumberKey(ch, numbers, j);
    if WantsAuto(m, ch.ports[j]) {
      assert AutoPort(c, b.claims, ch.RefOf(j), pk);
    } else {
      assert owners[pk] == OwnerOf(c.hash, s);
      assert b.claims[s].Key() == s;
      assert ch.RefOf(j) in RefsOf(ch);
      SameOwner(c.hash, channels, s, ch.RefOf(j));
    }
  }

  /** Two ports of the channel cannot have been given the same number. */
  lemma NumbersDiffer(c: Config, channels: seq<Channel>, b: Book, owners: map<PortKey, Owner>,
                      ch: Channel, m: map<string, Request>, numbers: seq<int>, i: nat, j: nat)
    requires Committed(c, channels, b, owners, ch, m, numbers) && i < |numbers| && j < |numbers|
    requires NumberKey(ch, numbers, i) == NumberKey(ch, numbers, j)
    ensures i == j
  {
    assert ch.RefOf(i) in RefsOf(ch) && ch.RefOf(j) in RefsOf(ch);
    SameOwner(c.hash, channels, ch.RefOf(i), ch.RefOf(j));
  }

  lemma HoldsRecorded(ch: Channel, numbers: seq<int>, autoNames: set<string>, b: Book, after: Book, r: Ref, pk: PortKey)
    requires |numbers| == |ch.ports| && Recorded(b, ch, numbers, autoNames, |numbers|, after)
    requires Holds(after.claims, r, pk)
    ensures r !in RefsOf(ch) ==> Holds(b.claims, r, pk)
    ensures r in RefsOf(ch) ==> exists j: nat :: j < |numbers| && r == ch.RefOf(j) && pk == NumberKey(ch, numbers, j)
  {
    if r in RefsOf(ch) {
      var j: nat :| j < |ch.ports| && r == ch.RefOf(j);
      assert after.claims[r] == ClaimWith(ch, j, numbers[j], autoNames);
    } else {
      assert Unmoved(b.claims, after.claims, r);
    }
  }

  lemma RecordedInjective(c: Config, channels: seq<Channel>, b: Book, owners: map<PortKey, Owner>,
                          ch: Channel, m: map<string, Request>, numbers: seq<int>, autoNames: set<string>, after: Book)
    requires Committed(c, channels, b, owners, ch, m, numbers)
    requires Recorded(b, ch, numbers, autoNames, |numbers|, after)
    ensures Injective(after.claims)
  {
    hide Committed, Recorded, NumberKey, Holds, WantsAuto;
    assert Injective(b.claims) && |numbers| == |ch.ports| by {
      UnpackCommitted(c, channels, b, owners, ch, m, numbers);
    }
    forall r, s, pk | Holds(after.claims, r, pk) && Holds(after.claims, s, pk) ensures r == s {
      HoldsRecorded(ch, numbers, autoNames, b, after, r, pk);
      HoldsRecorded(ch, numbers, autoNames, b, after, s, pk);
      if r in RefsOf(ch) {
        var i: nat :| i < |numbers| && r == ch.RefOf(i) && pk == NumberKey(ch, numbers, i);
        if s in RefsOf(ch) {
          var j: nat :| j < |numbers| && s == ch.RefOf(j) && pk == NumberKey(ch, numbers, j);
          NumbersDiffer(c, channels, b, owners, ch, m, numbers, i, j);
        } else {
          NobodyElseHolds(c, channels, b, owners, ch, m, numbers, i, s);
        }
      } else if s in RefsOf(ch) {
        var j: nat :| j < |numbers| && s == ch.RefOf(j) && pk == NumberKey(ch, numbers, j);
        NobodyElseHolds(c, channels, b, owners, ch, m, numbers, j, r);
      }
    }
  }

  lemma UnpackCommitted(c: Config, channels: seq<Channel>, b: Book, owners: map<PortKey, Owner>,
                        ch: Channel, m: map<string, Request>, numbers: seq<int>)
    requires Committed(c, channels, b, owners, ch, m, numbers)
    ensures Injective(b.claims) && |numbers| == |ch.ports| && b.claims.Keys <= ActiveRefs(channels)
    ensures RefsOf(ch) <= ActiveRefs(channels) && Backed(c, b.claims, owners)
    ensures forall j | 0 <= j < |numbers| ::
      NumberKey(ch, numbers, j) in owners && owners[NumberKey(ch, numbers, j)] == OwnerOf(c.hash, ch.RefOf(j))
  {}

  lemma RecordedSane(c: Config, channels: seq<Channel>, b: Book, owners: map<PortKey, Owner>,
                     ch: Channel, m: map<string, Request>, numbers: seq<int>, autoNames: set<string>, after: Book)
    requires Committed(c, channels, b, owners, ch, m, numbers) && after.Valid()
    requires Recorded(b, ch, numbers, autoNames, |numbers|, after)
    ensures Sane(c, ActiveRefs(channels), after, owners)
  {
    RecordedInjective(c, channels, b, owners, ch, m, numbers, autoNames, after);
    hide Committed, Recorded, Holds, WantsAuto, Injective;
    UnpackCommitted(c, channels, b, owners, ch, m, numbers);
    forall r | r in after.claims ensures r in ActiveRefs(channels) {
      if r !in RefsOf(ch) {
        UnmovedBy(b, ch, numbers, autoNames, after, r);
      }
    }
    forall r, pk | Holds(after.claims, r, pk)
      ensures pk !in c.reserved || (pk in owners && owners[pk] == OwnerOf(c.hash, r))
    {
      HoldsRecorded(ch, numbers, autoNames, b, after, r, pk);
    }
  }

  lemma UnmovedBy(b: Book, ch: Channel, numbers: seq<int>, autoNames: set<string>, after: Book, r: Ref)
    requires |numbers| == |ch.ports| && Recorded(b, ch, numbers, autoNames, |numbers|, after) && r !in RefsOf(ch)
    ensures Unmoved(b.claims, after.claims, r)
  {}

  // ---- one step ----

  /** The resolution of a channel, seen from the whole pass. */
  lemma ResolutionSane(input: Input, i: nat)
    requires i < |input.channels| && WellFormedAll(input.channels)
    requires Sane(Cfg(input), ActiveRefs(input.channels), RunUpTo(input, i).book, RunUpTo(input, i).owners)
    ensures var s, ch, r := RunUpTo(input, i), input.channels[i], ResolutionOf(input, i);
      && Allocating(Cfg(input), s.book, ch, r.book)
      && Sane(Cfg(input), ActiveRefs(input.channels), r.book, s.owners)
      && (r.error.None? ==>
        Requests(ch).Ok? && Named(ch) && Numbered(Cfg(input), r.book.claims, ch, Requests(ch).value, r.numbers))
  {
    hide RunUpTo, Cfg, WantsAuto, ResolveUpTo, ExternalPorts, Declares, Holds;
    var c, s, ch := Cfg(input), RunUpTo(input, i), input.channels[i];
    if Requests(ch).Ok? {
      ResolveKeeps(c, s.book, ch, Requests(ch).value, |ch.ports|);
      RefsActive(input.channels, i);
      SaneAllocating(c, ActiveRefs(input.channels), s.book, s.owners, ch, ResolutionOf(input, i).book);
    }
  }

  lemma StaticReserved(channels: seq<Channel>, i: nat, numbers: seq<int>, j: nat)
    requires i < |channels| && Requests(channels[i]).Ok? && |numbers| == |channels[i].ports| && j < |numbers|
    requires !WantsAuto(Requests(channels[i]).value, channels[i].ports[j])
    requires numbers[j] == StaticNumber(Requests(channels[i]).value, channels[i].ports[j])
    ensures NumberKey(channels[i], numbers, j) in StaticClaims(channels)
  {
    hide Requests, StaticClaims;
    StaticClaimsIff(channels, NumberKey(channels[i], numbers, j));
  }

  /** After an accepted channel's turn the owner map gives it all its numbers. */
  lemma NumbersOwned(input: Input, i: nat, j: nat)
    requires i < |input.channels| && OutcomeOf(input, i).Accepted? && j < |input.channels[i].ports|
    ensures |ResolutionOf(input, i).numbers| == |input.channels[i].ports|
    ensures var pk := NumberKey(input.channels[i], ResolutionOf(input, i).numbers, j);
      var owners := RunUpTo(input, i + 1).owners;
      pk in owners && owners[pk] == OwnerOf(input.hash, input.channels[i].RefOf(j))
  {
    hide RunUpTo, OutcomeOf, ResolutionOf;
    var ch, r := input.channels[i], ResolutionOf(input, i);
    AcceptedStep(input, i);
    AssignmentsAgree(RunUpTo(input, i).owners, ch, NewPorts(input, i));
    assert MuxPortOf(input.hash, ch, j, r.numbers[j]) in NewPorts(input, i);
  }

  lemma NumbersReserved(c: Config, claims: map<Ref, Claim>, channels: seq<Channel>, i: nat, numbers: seq<int>, j: nat)
    requires i < |channels| && Requests(channels[i]).Ok? && |numbers| == |channels[i].ports| && j < |numbers|
    requires Numbered(c, claims, channels[i], Requests(channels[i]).value, numbers)
    requires !WantsAuto(Requests(channels[i]).value, channels[i].ports[j])
    ensures NumberKey(channels[i], numbers, j) in StaticClaims(channels)
  {
    hide Requests, StaticClaims;
    StaticReserved(channels, i, numbers, j);
  }

  /** An accepted channel is ready to be recorded. */
  lemma AcceptedCommitted(input: Input, i: nat)
    requires i < |input.channels| && Fair(input) && OutcomeOf(input, i).Accepted?
    requires Sane(Cfg(input), ActiveRefs(input.channels), RunUpTo(input, i).book, RunUpTo(input, i).owners)
    ensures var t, ch, r := RunUpTo(input, i + 1), input.channels[i], ResolutionOf(input, i);
      Requests(ch).Ok? && Named(ch)
      && Committed(Cfg(input), input.channels, r.book, t.owners, ch, Requests(ch).value, r.numbers)
  {
    hide RunUpTo, OutcomeOf, ResolutionOf, ActiveRefs, StaticClaims, Recovered, Requests, Holds, AutoRanges, Injective,
      FirstBook, Backed, Numbered, WantsAuto, NumberKey, CollisionFree, WellFormed;
    var c, s, t, ch, r := Cfg(input), RunUpTo(input, i), RunUpTo(input, i + 1), input.channels[i],
      ResolutionOf(input, i);
    AcceptedStep(input, i);
    ResolutionSane(input, i);
    RefsActive(input.channels, i);
    OwnersStep(input, i);
    BackedMore(c, r.book.claims, s.owners, t.owners);
    forall j | 0 <= j < |r.numbers|
      ensures NumberKey(ch, r.numbers, j) in t.owners
      ensures t.owners[NumberKey(ch, r.numbers, j)] == OwnerOf(c.hash, ch.RefOf(j))
      ensures !WantsAuto(Requests(ch).value, ch.ports[j]) ==> NumberKey(ch, r.numbers, j) in c.reserved
    {
      NumbersOwned(input, i, j);
      if !WantsAuto(Requests(ch).value, ch.ports[j]) {
        NumbersReserved(c, r.book.claims, input.channels, i, r.numbers, j);
      }
    }
  }

  lemma BackedMore(c: Config, claims: map<Ref, Claim>, owners: map<PortKey, Owner>, more: map<PortKey, Owner>)
    requires Backed(c, claims, owners) && SubMap(owners, more)
    ensures Backed(c, claims, more)
  {}

  /** The book after an accepted channel's turn. */
  lemma AcceptedBook(input: Input, i: nat)
    requires i < |input.channels| && WellFormedAll(input.channels) && OutcomeOf(input, i).Accepted?
    requires Sane(Cfg(input), ActiveRefs(input.channels), RunUpTo(input, i).book, RunUpTo(input, i).owners)
    ensures var ch, r := input.channels[i], ResolutionOf(input, i);
      |r.numbers| == |ch.ports|
      && Recorded(r.book, ch, r.numbers, AutoNames(ch.externalPorts), |r.numbers|, RunUpTo(input, i + 1).book)
  {
    hide RunUpTo, OutcomeOf, ResolutionOf, Requests, Recorded, Sane;
    AcceptedStep(input, i);
    ResolutionSane(input, i);
    RecordExact(ResolutionOf(input, i).book, input.channels[i], ResolutionOf(input, i).numbers);
  }

  /** THEOREM (exclusive claims within a pass). Throughout the loop no two claim keys
      hold the same mux port: not the claims read from the store, not those allocated
      early, not those recorded, not even those left behind by rejected channels. */
  lemma {:induction false} ClaimsSane(input: Input, k: nat)
    requires k <= |input.channels| && Fair(input)
    ensures Sane(Cfg(input), ActiveRefs(input.channels), RunUpTo(input, k).book, RunUpTo(input, k).owners)
  {
    hide RunUpTo, OutcomeOf, ResolutionOf, Sane, Requests, Cfg, Recorded, Committed, Injective, FirstBook,
      CollisionFree;
    if k == 0 {
      RunStart(input);
      SaneStart(input);
    } else {
      ClaimsSane(input, k - 1);
      var i: nat, c := k - 1, Cfg(input);
      ResolutionSane(input, i);
      if OutcomeOf(input, i).Accepted? {
        var ch, r := input.channels[i], ResolutionOf(input, i);
        AcceptedCommitted(input, i);
        AcceptedBook(input, i);
        BookValid(input, k);
        RecordedSane(c, input.channels, r.book, RunUpTo(input, k).owners, ch, Requests(ch).value, r.numbers,
                     AutoNames(ch.externalPorts), RunUpTo(input, k).book);
      } else {
        RejectedStep(input, i);
      }
    }
  }

  // ---- frames ----

  /** A channel's turn moves only that channel's claims, and leaves the book alone if
      it does not raise the `changed` flag. */
  lemma StepFrame(input: Input, i: nat)
    requires i < |input.channels| && Fair(input)
    ensures var s, t := RunUpTo(input, i), RunUpTo(input, i + 1);
      && (forall x | x !in RefsOf(input.channels[i]) :: Unmoved(s.book.claims, t.book.claims, x))
      && (!t.book.changed ==> t.book == s.book)
  {
    hide RunUpTo, OutcomeOf, ResolutionOf, Sane, Requests, Cfg, Injective, FirstBook, CollisionFree, WellFormedAll,
      Holds;
    ClaimsSane(input, i);
    ResolutionSane(input, i);
    var s, t := RunUpTo(input, i), RunUpTo(input, i + 1);
    if OutcomeOf(input, i).Accepted? {
      AcceptedBook(input, i);
      UnmovedTwice(s.book.claims, ResolutionOf(input, i).book.claims, t.book.claims);
    } else {
      RejectedStep(input, i);
    }
  }

  lemma UnmovedTwice(a: map<Ref, Claim>, b: map<Ref, Claim>, c: map<Ref, Claim>)
    ensures forall x :: Unmoved(a, b, x) && Unmoved(b, c, x) ==> Unmoved(a, c, x)
  {}

  lemma {:induction false} Frame(input: Input, i: nat, k: nat, x: Ref)
    requires i <= k <= |input.channels| && Fair(input)
    requires forall t | i <= t < k :: x !in RefsOf(input.channels[t])
    ensures Unmoved(RunUpTo(input, i).book.claims, RunUpTo(input, k).book.claims, x)
  {
    hide RunUpTo, Fair, RefsOf;
    if i < k {
      Frame(input, i, k - 1, x);
      StepFrame(input, k - 1);
      assert x !in RefsOf(input.channels[k - 1]);
      UnmovedTwice(RunUpTo(input, i).book.claims, RunUpTo(input, k - 1).book.claims, RunUpTo(input, k).book.claims);
    }
  }

  lemma ForeignRef(channels: seq<Channel>, i: nat, j: nat, k: nat)
    requires DistinctChannels(channels) && i < |channels| && k < |channels| && i != k && j < |channels[i].ports|
    ensures channels[i].RefOf(j) !in RefsOf(channels[k])
  {}

  /** Until a channel's turn its claims are those read from the store. */
  lemma BeforeTurn(input: Input, i: nat, j: nat)
    requires i < |input.channels| && j < |input.channels[i].ports| && Fair(input)
    ensures Unmoved(FirstBook(input).claims, RunUpTo(input, i).book.claims, input.channels[i].RefOf(j))
  {
    hide RunUpTo, FirstBook, CollisionFree;
    RunStart(input);
    forall t | 0 <= t < i ensures input.channels[i].RefOf(j) !in RefsOf(input.channels[t]) {
      ForeignRef(input.channels, i, j, t);
    }
    Frame(input, 0, i, input.channels[i].RefOf(j));
  }

  /** After a channel's turn its claims stay as they are. */
  lemma AfterTurn(input: Input, i: nat, j: nat, k: nat)
    requires i < k <= |input.channels| && j < |input.channels[i].ports| && Fair(input)
    ensures Unmoved(RunUpTo(input, i + 1).book.claims, RunUpTo(input, k).book.claims, input.channels[i].RefOf(j))
  {
    hide RunUpTo, FirstBook, CollisionFree;
    forall t | i + 1 <= t < k ensures input.channels[i].RefOf(j) !in RefsOf(input.channels[t]) {
      ForeignRef(input.channels, i, j, t);
    }
    Frame(input, i + 1, k, input.channels[i].RefOf(j));
  }

  lemma {:induction false} UnchangedBook(input: Input, k: nat)
    requires k <= |input.channels| && Fair(input)
    ensures !RunUpTo(input, k).book.changed ==> RunUpTo(input, k).book == FirstBook(input)
  {
    hide RunUpTo, FirstBook, Fair, RefsOf;
    if k == 0 {
      RunStart(input);
    } else {
      UnchangedBook(input, k - 1);
      StepFrame(input, k - 1);
    }
  }

  // ---- an accepted channel's claims ----

  /** THEOREM (recorded claims equal accepted ports). At the end of the pass, every port
      of an accepted channel is published under its hash with the number it was given,
      and the claim dictionary records exactly that number for it, although the number
      went through the text annotation. The label says `auto` exactly when `auto` was
      asked for, if no name is repeated in the request. */
  lemma RecordedEqualsAccepted(input: Input, i: nat, j: nat)
    requires i < |input.channels| && j < |input.channels[i].ports| && Fair(input) && OutcomeOf(input, i).Accepted?
    ensures |OutcomeOf(input, i).numbers| == |input.channels[i].ports| && Requests(input.channels[i]).Ok?
    ensures var ch, n := input.channels[i], OutcomeOf(input, i).numbers[j];
      var s, ref := Final(input), ch.RefOf(j);
      && MuxPortOf(input.hash, ch, j, n) in s.ports
      && ref in s.book.claims && s.book.claims[ref] == ClaimWith(ch, j, n, AutoNames(ch.externalPorts))
      && (NamesOnce(ch.externalPorts) ==>
          (s.book.claims[ref].source == Some(AutoSource) <==> WantsAuto(Requests(ch).value, ch.ports[j])))
  {
    hide RunUpTo, OutcomeOf, ResolutionOf, Sane, Cfg, Injective, FirstBook, CollisionFree, WellFormedAll, Holds,
      ExternalPorts, AutoNames, NamesOnce, Named, Declares, FormatPorts;
    var ch := input.channels[i];
    ClaimsSane(input, i);
    ResolutionSane(input, i);
    AcceptedStep(input, i);
    AcceptedBook(input, i);
    AfterTurn(input, i, j, |input.channels|);
    var p := MuxPortOf(input.hash, ch, j, OutcomeOf(input, i).numbers[j]);
    assert PortOfAccepted(input, i, p);
    PortsExact(input, |input.channels|, p);
    if NamesOnce(ch.externalPorts) {
      LabelsAgree(ch.externalPorts, ch.ports[j].name);
    }
  }

  // ---- saving ----

  lemma RecordedNormal(ch: Channel, numbers: seq<int>, autoNames: set<string>, b: Book, after: Book)
    requires |numbers| == |ch.ports| && Normal(b.claims) && Recorded(b, ch, numbers, autoNames, |numbers|, after)
    ensures Normal(after.claims)
  {
    forall r | r in after.claims ensures after.claims[r].Normalised() == after.claims[r] {
      if r in RefsOf(ch) {
        var j: nat :| j < |ch.ports| && r == ch.RefOf(j);
        assert after.claims[r] == ClaimWith(ch, j, numbers[j], autoNames);
      } else {
        assert Unmoved(b.claims, after.claims, r);
      }
    }
  }

  lemma {:induction false} ResolveNormal(c: Config, b: Book, ch: Channel, m: map<string, Request>, k: nat)
    requires k <= |ch.ports| && Normal(b.claims)
    ensures Normal(ResolveUpTo(c, b, ch, m, k).book.claims)
  {
    hide Reusable, FirstFree, WantsAuto;
    if k > 0 {
      ResolveNormal(c, b, ch, m, k - 1);
    }
  }

  lemma {:induction false} ClaimsNormal(input: Input, k: nat)
    requires k <= |input.channels| && Fair(input)
    ensures Normal(RunUpTo(input, k).book.claims)
  {
    hide RunUpTo, OutcomeOf, Sane, Cfg, Injective, CollisionFree, Holds, Normal, ResolveUpTo, Load, Recorded, Requests;
    if k == 0 {
      RunStart(input);
      LoadNormal(LoadedState(input), ActiveRefs(input.channels));
    } else {
      var i: nat := k - 1;
      ClaimsNormal(input, i);
      ClaimsSane(input, i);
      var c, s, ch := Cfg(input), RunUpTo(input, i), input.channels[i];
      if Requests(ch).Ok? {
        ResolveNormal(c, s.book, ch, Requests(ch).value, |ch.ports|);
      }
      if OutcomeOf(input, i).Accepted? {
        AcceptedBook(input, i);
        RecordedNormal(ch, ResolutionOf(input, i).numbers, AutoNames(ch.externalPorts), ResolutionOf(input, i).book,
          RunUpTo(input, k).book);
      } else {
        RejectedStep(input, i);
      }
    }
  }

  /** What the store holds after a pass that could read it. */
  ghost function StoredAfter(input: Input): State
    requires input.stored.Stored?
  {
    BookValid(input, |input.channels|);
    Saved(input.stored, Final(input).book).GetOr(input.stored.state)
  }

  /** THEOREM (the store follows the pass). Whether or not the pass had to write, the
      document in the store afterwards states exactly the pass's final claims. */
  lemma StoreFollows(input: Input)
    requires Fair(input) && input.stored.Stored?
    ensures ReadAll(StoredAfter(input)) == Final(input).book.claims && !NeedsClaimWrite(StoredAfter(input))
  {
    hide RunUpTo, Fair, Load, ToState, Normal, ReadAll, NeedsClaimWrite;
    BookValid(input, |input.channels|);
    if Saved(input.stored, Final(input).book).Some? {
      ClaimsNormal(input, |input.channels|);
      ReadSaved(Final(input).book);
    } else {
      UnchangedBook(input, |input.channels|);
      LoadIs(input.stored.state, ActiveRefs(input.channels));
      var read := ReadAll(input.stored.state);
      assert Restricted(read, ActiveRefs(input.channels)) == read;
    }
  }
}
