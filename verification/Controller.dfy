/** The daemon's loop body: one pass over a mux, step by step. */
module Controller {
  import opened Wrappers
  import opened Model
  import opened Sorting
  import opened ChannelOrder
  import opened Claims
  import opened Reconcile
  import opened PortLimit
  import opened Endpoints
  import opened Pass
  import opened PassFacts
  import MuxState

  /** `build_mux_state`: without a readable store there is neither state nor range. */
  method BuildMuxState(input: Input, recovered: map<PortKey, Owner>) returns (state: MuxState.MuxState)
    requires recovered == Recovered(input.hash, input.channels, input.livePorts)
    ensures fresh(state) && state.Valid()
    ensures state.Config() == Cfg(input) && state.Book() == FirstBook(input)
  {
    var reserved := CollectStaticPortClaims(input.channels);
    if input.stored.Unreadable? {
      state := new MuxState.MuxState(input.hash, [], NoState, input.channels, reserved, recovered);
    } else {
      state := new MuxState.MuxState(input.hash, AutoRanges(input.mux), input.stored.state, input.channels, reserved,
        recovered);
    }
  }

  /** One pass. `channels` come in any order and are processed sorted. */
  method MuxPass(hash: Hash, mux: MuxService, channels: seq<Channel>, livePorts: seq<MuxPort>, stored: Stored,
      cache: Cache)
    returns (out: Output)
    requires WellFormedAll(channels)
    ensures out == Run(Input(hash, mux, Sort(channels, ChannelLe), livePorts, stored, cache))
  {
    var sorted := Sort(channels, ChannelLe);
    SortedWellFormed(channels);
    var input := Input(hash, mux, sorted, livePorts, stored, cache);
    var limit := MaxPorts(mux);
    var ok, recovered := CollectExistingPortOwners(hash, sorted, livePorts);
    if !ok {
      return Raised;
    }
    var state := BuildMuxState(input, recovered);
    var stateOwners := state.PortOwners();
    var portOwners := recovered + stateOwners;
    var ports: set<MuxPort> := {};
    var outcomes: seq<Outcome> := [];
    var written: seq<Channel> := [];
    var endpoints: seq<Subset> := [];
    for k := 0 to |sorted|
      invariant fresh(state) && state.Valid() && state.Config() == Cfg(input)
      invariant RunUpTo(input, k) == Progress(state.Book(), portOwners, ports, outcomes, written, endpoints)
    {
      var ch := sorted[k];
      ghost var s := RunUpTo(input, k);
      assert RunUpTo(input, k + 1) == Step(Cfg(input), limit, cache, s, ch);
      if WouldExceed(|ports|, ch, limit) {
        outcomes, written := outcomes + [LimitExceeded], written + [ch];
        continue;
      }
      var error, chPorts, text, numbers := ResolveChannelPorts(ch, state);
      if error.Some? {
        outcomes, written := outcomes + [InvalidMapping(error.value)], written + [ch];
        continue;
      }
      var conflicts;
      conflicts, portOwners := FindMuxPortConflicts(portOwners, ch, chPorts);
      if conflicts != [] {
        outcomes, written := outcomes + [PortConflict], written + [ch];
        continue;
      }
      ports := ports + chPorts;
      BookValid(input, k);
      ResolveSound(Cfg(input), s.book, ch);
      AnnotationReadable(ch, numbers);
      var recorded := state.RecordChannelClaims(ch, text);
      assert recorded;
      var chEndpoints := CollectChannelEndpoints(hash, ch, cache);
      endpoints := endpoints + chEndpoints;
      outcomes, written := outcomes + [Accepted(numbers)], written + [ch.(portsText := text)];
    }
    var saved := None;
    if stored.Stored? && (state.changed || !stored.present) {
      var document := state.ToState();
      saved := Some(document);
    }
    var book := Book(state.claims, state.order, state.changed);
    return Done(Progress(book, portOwners, ports, outcomes, written, endpoints), saved, BuildMuxPorts(ports));
  }
}
