/** What a channel gets, said of the texts and numbers its owner writes: which mux port a
    declared port gets, which requests are refused, and what is published and recorded. */
module StaticPorts {
  import opened Wrappers
  import opened Text
  import opened Annotations
  import opened Model
  import opened Claims
  import opened Reconcile
  import opened Endpoints
  import opened Pass
  import opened PassFacts
  import opened PassInvariant
  import opened PassClaims
  import opened Stability

  // ---- valid requests ----

  /** The channel's request parses, its ports are named, and it asks for no other name. */
  ghost predicate ValidRequest(ch: Channel, m: map<string, Request>) {
    && ExternalPorts(ch.externalPorts) == Ok(m)
    && (forall j | 0 <= j < |ch.ports| :: ch.ports[j].name != "")
    && (forall name | name in m :: exists j :: 0 <= j < |ch.ports| && ch.ports[j].name == name)
  }

  lemma RequestsValid(ch: Channel, m: map<string, Request>)
    ensures Requests(ch) == Ok(m) <==> ValidRequest(ch, m)
  {}

  /** The request is for a port that the channel does not declare. */
  predicate AsksUnknown(ch: Channel, name: string) {
    && ExternalPorts(ch.externalPorts).Ok? && name in ExternalPorts(ch.externalPorts).value
    && forall j | 0 <= j < |ch.ports| :: ch.ports[j].name != name
  }

  /** The error of an invalid one. */
  lemma RequestError(ch: Channel)
    requires Requests(ch).Err?
    ensures ExternalPorts(ch.externalPorts).Err? ==> Requests(ch).error == ExternalPorts(ch.externalPorts).error
    ensures ExternalPorts(ch.externalPorts).Ok? ==>
      (Requests(ch).error == UnnamedPort && exists j :: 0 <= j < |ch.ports| && ch.ports[j].name == "")
      || (Requests(ch).error == UnknownName && exists name :: AsksUnknown(ch, name))
  {
    var m := ExternalPorts(ch.externalPorts);
    if m.Ok? && Named(ch) {
      var name :| name in m.value && !Declares(ch, name);
      assert AsksUnknown(ch, name);
    }
  }

  /** THEOREM (invalid requests). In every pass a channel whose request is invalid is
      skipped, for the limit or with its error; nothing is claimed at its turn. */
  lemma InvalidSkipped(input: Input, i: nat)
    requires i < |input.channels| && forall m :: !ValidRequest(input.channels[i], m)
    ensures Requests(input.channels[i]).Err?
    ensures OutcomeOf(input, i).LimitExceeded?
      || OutcomeOf(input, i) == InvalidMapping(Requests(input.channels[i]).error)
    ensures RunUpTo(input, i + 1).book == RunUpTo(input, i).book
  {
    hide RunUpTo, OutcomeOf, Requests, Recovered, StaticClaims;
    var ch := input.channels[i];
    if Requests(ch).Ok? {
      RequestsValid(ch, Requests(ch).value);
    }
    OutcomesPersist(input, i, |input.channels|);
    Shape(input, i);
    FailedTurn(input, i);
  }

  /** The turn of a channel whose resolution fails. */
  lemma FailedTurn(input: Input, i: nat)
    requires i < |input.channels| && ResolutionOf(input, i).error.Some?
    ensures !OutcomeOf(input, i).LimitExceeded? ==>
      OutcomeOf(input, i) == InvalidMapping(ResolutionOf(input, i).error.value)
    ensures RunUpTo(input, i + 1).book == RunUpTo(input, i).book
      || RunUpTo(input, i + 1).book == ResolutionOf(input, i).book
  {
    hide Resolve, Record, Compatible, MuxPortsOf, FormatPorts, Recovered, StaticClaims, Cfg, RunUpTo;
    OutcomesPersist(input, i, |input.channels|);
    Shape(input, i);
    FailedStep(input, i);
  }

  lemma FailedStep(input: Input, i: nat)
    requires i < |input.channels| && ResolutionOf(input, i).error.Some?
    ensures var s, t := RunUpTo(input, i), RunUpTo(input, i + 1);
      && |t.outcomes| == |s.outcomes| + 1
      && (t.outcomes[|s.outcomes|] == LimitExceeded
          || t.outcomes[|s.outcomes|] == InvalidMapping(ResolutionOf(input, i).error.value))
      && (t.book == s.book || t.book == ResolutionOf(input, i).book)
  {
    hide Resolve, Record, Compatible, MuxPortsOf, FormatPorts, Recovered, StaticClaims, Cfg, MuxSubsets, Assignments,
      LinesOf;
  }

  // ---- static numbers ----

  /** THEOREM (static numbers). An accepted channel gets, for every port that it requests a
      number for, that number; and for every port that it requests nothing for, the port's
      own number. */
  lemma StaticOutcome(input: Input, i: nat, m: map<string, Request>, j: nat)
    requires Fair(input) && i < |input.channels| && OutcomeOf(input, i).Accepted? && j < |input.channels[i].ports|
    requires ExternalPorts(input.channels[i].externalPorts) == Ok(m)
    ensures |OutcomeOf(input, i).numbers| == |input.channels[i].ports|
    ensures var ch, n := input.channels[i], OutcomeOf(input, i).numbers[j];
      && (ch.ports[j].name in m && m[ch.ports[j].name].Fixed? ==> n == m[ch.ports[j].name].port)
      && (ch.ports[j].name !in m ==> n == ch.ports[j].port)
  {
    hide RunUpTo, OutcomeOf, ResolutionOf, CollisionFree, Injective, Holds, AutoPort, ExternalPorts;
    AcceptedStep(input, i);
    ClaimsSane(input, i);
    ResolutionSane(input, i);
  }

  /** The request gives the port this number, or says nothing and the port has it. */
  predicate Gives(m: map<string, Request>, port: PortSpec, n: int) {
    if port.name in m then m[port.name].Fixed? && m[port.name].port == n else port.port == n
  }

  /** Port `j` of the channel is to be the static mux port `pk`. */
  ghost predicate WantsStatic(ch: Channel, j: nat, pk: PortKey) {
    && j < |ch.ports| && pk.proto == ch.ports[j].proto
    && exists m :: ValidRequest(ch, m) && Gives(m, ch.ports[j], pk.port)
  }

  lemma StaticInIff(ch: Channel, pk: PortKey)
    ensures pk in StaticIn(ch) <==> exists j: nat :: WantsStatic(ch, j, pk)
  {
    if Requests(ch).Ok? {
      RequestsValid(ch, Requests(ch).value);
    }
    if pk in StaticIn(ch) {
      var j: nat :| j < |ch.ports| && !WantsAuto(Requests(ch).value, ch.ports[j])
        && pk == PortKey(StaticNumber(Requests(ch).value, ch.ports[j]), ch.ports[j].proto);
      assert WantsStatic(ch, j, pk);
    }
    if j: nat :| WantsStatic(ch, j, pk) {
      var m :| ValidRequest(ch, m) && Gives(m, ch.ports[j], pk.port);
      RequestsValid(ch, m);
    }
  }

  /** THEOREM (reserved ports). Reserved are exactly the numbers that some valid channel
      requests, or declares without a request. */
  lemma ReservedIff(channels: seq<Channel>, pk: PortKey)
    ensures pk in StaticClaims(channels) <==> exists i: nat, j: nat :: i < |channels| && WantsStatic(channels[i], j, pk)
  {
    hide StaticIn, WantsStatic;
    StaticClaimsIff(channels, pk);
    forall i: nat | i < |channels|
      ensures pk in StaticIn(channels[i]) <==> exists j: nat :: WantsStatic(channels[i], j, pk)
    {
      StaticInIff(channels[i], pk);
    }
  }

  /** THEOREM (`name:number`). A channel with this request gets this number on this port. */
  lemma NumberRequested(input: Input, i: nat, j: nat, n: PortNumber)
    requires Fair(input) && i < |input.channels| && OutcomeOf(input, i).Accepted? && j < |input.channels[i].ports|
    requires input.channels[i].externalPorts == input.channels[i].ports[j].name + ":" + Dec(n)
    ensures |OutcomeOf(input, i).numbers| == |input.channels[i].ports| && OutcomeOf(input, i).numbers[j] == n
  {
    hide RunUpTo, OutcomeOf, CollisionFree, Injective, Dec, ExternalPorts, Requests;
    var ch := input.channels[i];
    AcceptedNamed(input, i);
    assert WellFormed(ch);
    FixedRequest(ch.ports[j].name, n);
    StaticOutcome(input, i, map[ch.ports[j].name := Fixed(n)], j);
  }

  lemma FixedRequest(name: string, n: PortNumber)
    requires Clean(name) && name != ""
    ensures ExternalPorts(name + ":" + Dec(n)) == Ok(map[name := Fixed(n)])
  {
    hide Strip, Cut, Split, Dec, ReadRequest;
    var item := name + [':'] + Dec(n);
    ParseDec(n);
    ParsePortDec(n);
    ReadsEntry(name, Dec(n));
    SplitAtom(item, ',');
    assert ReadRequest(Dec(n)) == Ok(Fixed(n)) by { NumberIsFixed(n); }
    assert ReadExternal(item) == Ok(Some((name, Fixed(n))));
    assert ExternalUpTo([item], 0) == Ok(map[]);
    assert ExternalUpTo([item], 1) == Ok(map[name := Fixed(n)]);
    assert item == name + ":" + Dec(n);
  }

  lemma NumberIsFixed(n: PortNumber)
    ensures ReadRequest(Dec(n)) == Ok(Fixed(n))
  {
    hide Dec, SpellsAuto;
    ParsePortDec(n);
    AutoAnyCase(Dec(n));
    NotAutoAndNumber(Dec(n));
  }


  // ---- what is published and recorded ----

  /** THEOREM (the published port). Port `j` of an accepted channel is published under the
      hash of `namespace/service/port`, with its number and its own protocol. */
  lemma PublishedAs(input: Input, i: nat, j: nat)
    requires Fair(input) && i < |input.channels| && OutcomeOf(input, i).Accepted? && j < |input.channels[i].ports|
    ensures |OutcomeOf(input, i).numbers| == |input.channels[i].ports|
    ensures var ch, n := input.channels[i], OutcomeOf(input, i).numbers[j];
      MuxPort(input.hash(ch.ns + "/" + ch.name + "/" + ch.ports[j].name), n, ch.ports[j].proto) in Final(input).ports
  {
    hide RunUpTo, OutcomeOf, Fair, AutoNames, NamesOnce, ClaimWith, Requests;
    RecordedEqualsAccepted(input, i, j);
  }

  /** THEOREM (the record). It is recorded, field by field, as what it is. */
  lemma RecordedAs(input: Input, i: nat, j: nat)
    requires Fair(input) && i < |input.channels| && OutcomeOf(input, i).Accepted? && j < |input.channels[i].ports|
    ensures |OutcomeOf(input, i).numbers| == |input.channels[i].ports|
    ensures var ch, n := input.channels[i], OutcomeOf(input, i).numbers[j];
      var port, ref := ch.ports[j], Ref(ch.ns, ch.name, ch.ports[j].name, ch.ports[j].proto);
      var claims := Final(input).book.claims;
      && ref in claims
      && claims[ref].ns == ch.ns && claims[ref].service == ch.name && claims[ref].portName == port.name
      && claims[ref].proto == Some(port.proto) && claims[ref].channelPort == Some(port.port)
      && claims[ref].muxPort == Some(n) && claims[ref].port == Some(n)
  {
    hide RunUpTo, OutcomeOf, Fair, AutoNames, NamesOnce, MuxPortOf, Requests;
    RecordedEqualsAccepted(input, i, j);
  }

  /** The items of a printed annotation, one for each port. */
  lemma PrintedItems(lines: seq<PortLine>, j: nat)
    requires CleanNames(lines) && j < |lines| && 1 <= lines[j].muxPort
    ensures var items := Split(FormatPorts(lines), ',');
      |items| == |lines|
      && Strip(items[j]) == lines[j].name + ":" + Dec(lines[j].channelPort) + "->" + Dec(lines[j].muxPort)
  {
    hide Dec, Strip, Trimmed;
    forall piece | piece in LineTexts(lines) ensures ',' !in piece {
      var k :| 0 <= k < |lines| && piece == LineText(lines[k]);
      LineHasNoComma(lines[k]);
    }
    SplitJoin(LineTexts(lines));
    LineTextTrimmed(lines[j]);
    StripTrimmed(LineText(lines[j]));
    StripLeadingBlank(LineText(lines[j]));
  }

  /** THEOREM (the annotation). Its `j`-th item reads `name:port->number`. */
  lemma AnnotatedAs(input: Input, i: nat, j: nat)
    requires Fair(input) && i < |input.channels| && OutcomeOf(input, i).Accepted? && j < |input.channels[i].ports|
    ensures |OutcomeOf(input, i).numbers| == |input.channels[i].ports| && i < |Final(input).channels|
    ensures var ch, n := input.channels[i], OutcomeOf(input, i).numbers[j];
      var items := Split(Final(input).channels[i].portsText, ',');
      && 1 <= n <= 65535 && |items| == |ch.ports|
      && Strip(items[j]) == ch.ports[j].name + ":" + Dec(ch.ports[j].port) + "->" + Dec(n)
  {
    hide RunUpTo, OutcomeOf, ResolutionOf, CollisionFree, Injective, FormatPorts, Split, Strip, Dec, Compatible;
    AcceptedStep(input, i);
    Shape(input, |input.channels|);
    OutcomesPersist(input, i, |input.channels|);
    Shape(input, i);
    var ch, numbers := input.channels[i], OutcomeOf(input, i).numbers;
    assert WellFormed(ch);
    LinesClean(ch, numbers);
    PrintedItems(LinesOf(ch, numbers), j);
  }

  /** What a changed claim of the channel says after its first ports were resolved. */
  ghost predicate ClaimedAnew(before: Book, after: Book, ch: Channel, k: nat, r: Ref) {
    exists j: nat :: j < k && j < |ch.ports| && r == ch.RefOf(j)
      && r in after.claims && after.claims[r].channelPort == Some(ch.ports[j].port)
      && after.claims[r].source == Some(AutoSource)
  }

  /** THEOREM (early claims). Any claim that resolving a channel adds or moves, be the channel
      accepted in the end or not, is an automatic one of a port of that channel, and states
      the port's own number. */
  lemma {:induction false} EarlyClaims(c: Config, b: Book, ch: Channel, m: map<string, Request>, k: nat, r: Ref)
    requires k <= |ch.ports|
    ensures var after := ResolveUpTo(c, b, ch, m, k).book;
      Unmoved(b.claims, after.claims, r) || ClaimedAnew(b, after, ch, k, r)
  {
    hide Allocate;
    if k > 0 {
      EarlyClaims(c, b, ch, m, k - 1, r);
      var mid := ResolveUpTo(c, b, ch, m, k - 1);
      if mid.error.None? && WantsAuto(m, ch.ports[k - 1]) {
        var ref, a := ch.RefOf(k - 1), Allocate(c, mid.book, ch.RefOf(k - 1), ch.ports[k - 1].port);
        AllocatedRecord(c, mid.book, ref, ch.ports[k - 1].port);
        if r != ref {
          OthersStay(c, mid.book, ref, ch.ports[k - 1].port, r);
        }
      }
    }
  }

  lemma OthersStay(c: Config, b: Book, ref: Ref, channelPort: int, r: Ref)
    requires r != ref
    ensures Unmoved(b.claims, Allocate(c, b, ref, channelPort).book.claims, r)
  {}
}
