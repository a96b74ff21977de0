/** One reconciliation pass of a mux, as a function of everything it reads. */
module Pass {
  import opened Wrappers
  import opened Annotations
  import opened Model
  import opened PortRanges
  import opened Claims
  import opened Reconcile
  import opened PortLimit
  import opened Endpoints

  /** What loading the state ConfigMap gave: a document (with `present` false and an
      empty document when there is no object), or an error. */
  datatype Stored = Unreadable | Stored(present: bool, state: State)

  /** `channels` is in namespace/name order; `livePorts` lists the set of live mux
      ports in whatever order the pass happens to iterate over it. */
  datatype Input = Input(hash: Hash, mux: MuxService, channels: seq<Channel>, livePorts: seq<MuxPort>, stored: Stored,
                         cache: Cache)

  datatype Outcome = LimitExceeded | InvalidMapping(error: Failure) | PortConflict | Accepted(numbers: seq<int>)

  /** Where the loop over the channels stands: the claim book, the owner map, the
      accepted mux ports, what happened to each channel so far, those channels with
      the annotations now written, and the collected endpoint subsets. */
  datatype Progress = Progress(book: Book, owners: map<PortKey, Owner>, ports: set<MuxPort>,
                               outcomes: seq<Outcome>, channels: seq<Channel>, endpoints: seq<Subset>)

  ghost function Cfg(input: Input): Config {
    Config(input.hash, if input.stored.Unreadable? then [] else AutoRanges(input.mux),
           StaticClaims(input.channels), Recovered(input.hash, input.channels, input.livePorts))
  }

  function LoadedState(input: Input): State {
    if input.stored.Unreadable? then NoState else input.stored.state
  }

  function FirstBook(input: Input): Book {
    Load(LoadedState(input), ActiveRefs(input.channels))
  }

  /** The owner map at the start of the loop: recovered owners, overlaid by the
      persisted claims. */
  ghost function FirstOwners(input: Input): map<PortKey, Owner> {
    LoadValid(LoadedState(input), ActiveRefs(input.channels));
    Recovered(input.hash, input.channels, input.livePorts) + PortOwners(input.hash, FirstBook(input))
  }

  /** What the loop body does to one channel. */
  ghost function Step(c: Config, limit: Option<int>, cache: Cache, s: Progress, ch: Channel): Progress {
    if WouldExceed(|s.ports|, ch, limit) then Skip(s, s.book, ch, LimitExceeded)
    else
      var r := Resolve(c, s.book, ch);
      if r.error.Some? then Skip(s, r.book, ch, InvalidMapping(r.error.value))
      else if !Compatible(s.owners, ch, MuxPortsOf(c.hash, ch, r.numbers)) then Skip(s, r.book, ch, PortConflict)
      else Accept(c, cache, s, ch, r)
  }

  ghost function Accept(c: Config, cache: Cache, s: Progress, ch: Channel, r: Resolution): Progress
    requires |r.numbers| <= |ch.ports| && Compatible(s.owners, ch, MuxPortsOf(c.hash, ch, r.numbers))
  {
    var ports := MuxPortsOf(c.hash, ch, r.numbers);
    var text := FormatPorts(LinesOf(ch, r.numbers));
    Progress(Record(r.book, ch, text).GetOr(r.book),
             s.owners + Assignments(ch, ports),
             s.ports + ports,
             s.outcomes + [Accepted(r.numbers)],
             s.channels + [ch.(portsText := text)],
             s.endpoints + MuxSubsets(c.hash, ch, SubsetsOf(cache, ch)))
  }

  /** A skipped channel keeps its annotation; what it allocated stays in the book. */
  function Skip(s: Progress, book: Book, ch: Channel, outcome: Outcome): Progress {
    s.(book := book, outcomes := s.outcomes + [outcome], channels := s.channels + [ch])
  }

  lemma ResolveSound(c: Config, b: Book, ch: Channel)
    requires b.Valid() && ValidRanges(c.ranges)
    ensures Resolve(c, b, ch).book.Valid()
    ensures forall j | 0 <= j < |Resolve(c, b, ch).numbers| :: 1 <= Resolve(c, b, ch).numbers[j] <= 65535
  {
    if Requests(ch).Ok? {
      ResolveValid(c, b, ch, Requests(ch).value, |ch.ports|);
    }
  }

  lemma RecordSound(b: Book, ch: Channel, text: string)
    requires b.Valid()
    ensures Record(b, ch, text).GetOr(b).Valid()
  {
    if PortMappings(text).Some? {
      RecordValid(b, ch, PortMappings(text).value, AutoNames(ch.externalPorts), |ch.ports|);
    }
  }

  /** The loop after its first `k` channels. */
  ghost function RunUpTo(input: Input, k: nat): Progress
    requires k <= |input.channels|
    decreases k, 0
  {
    if k == 0 then Progress(FirstBook(input), FirstOwners(input), {}, [], [], [])
    else Advance(input, k - 1)
  }

  /** The loop after the turn of channel `i`. */
  ghost function Advance(input: Input, i: nat): Progress
    requires i < |input.channels|
    decreases i, 1
  {
    Step(Cfg(input), MaxPorts(input.mux), input.cache, RunUpTo(input, i), input.channels[i])
  }

  ghost function Final(input: Input): Progress {
    RunUpTo(input, |input.channels|)
  }

  /** The claim book stays a well-formed dictionary throughout. */
  lemma {:induction false} BookValid(input: Input, k: nat)
    requires k <= |input.channels|
    ensures RunUpTo(input, k).book.Valid()
  {
    hide Resolve, Record, Compatible, MuxPortsOf, FormatPorts, MuxSubsets, Assignments, LinesOf, Recovered,
      StaticClaims, Load;
    if k == 0 {
      LoadValid(LoadedState(input), ActiveRefs(input.channels));
    } else {
      BookValid(input, k - 1);
      var s, ch := RunUpTo(input, k - 1), input.channels[k - 1];
      ResolveSound(Cfg(input), s.book, ch);
      var r := Resolve(Cfg(input), s.book, ch);
      RecordSound(r.book, ch, FormatPorts(LinesOf(ch, r.numbers)));
    }
  }

  /** The document written back, if any. */
  function Saved(stored: Stored, book: Book): Option<State>
    requires book.Valid()
  {
    if stored.Stored? && (book.changed || !stored.present) then Some(ToState(book)) else None
  }

  const PLACEHOLDER := MuxPort("placeholder", 101, "TCP")

  /** `build_mux_ports`: a mux without ports gets one placeholder. */
  function BuildMuxPorts(ports: set<MuxPort>): set<MuxPort> {
    if ports == {} then {PLACEHOLDER} else set p | p in ports && p.name != "placeholder"
  }

  /** `Raised`: the pass stopped before the loop, on an unreadable annotation. */
  datatype Output = Raised | Done(progress: Progress, saved: Option<State>, muxPorts: set<MuxPort>)

  ghost function Run(input: Input): Output {
    if !Readable(input.channels) then Raised
    else
      var s := Final(input);
      BookValid(input, |input.channels|);
      Done(s, Saved(input.stored, s.book), BuildMuxPorts(s.ports))
  }
}
