/** Automatic ports, said of the texts: when a channel that asks for one is refused, and
    where the number comes from. */
module AutoPorts {
  import opened Wrappers
  import opened Text
  import opened Annotations
  import opened Model
  import opened PortRanges
  import opened Claims
  import opened Reconcile
  import opened PortLimit
  import opened Pass
  import opened PassFacts
  import opened PassInvariant
  import opened PassClaims
  import opened StaticPorts

  // ---- the ranges of a pass ----

  /** The items of the mux's `port-range` annotation. */
  function RangeItems(mux: MuxService): seq<string> {
    if "svc-mux.nowake.ai/port-range" in mux.annotations
    then Split(mux.annotations["svc-mux.nowake.ai/port-range"], ',')
    else []
  }

  predicate AllBlank(items: seq<string>) {
    forall x | 0 <= x < |items| :: Strip(items[x]) == ""
  }

  /** The pass has no port to allocate: it cannot read the store, or the annotation is
      missing, blank or invalid. */
  ghost predicate Rangeless(input: Input) {
    input.stored.Unreadable? || AllBlank(RangeItems(input.mux)) || SomeBadRange(RangeItems(input.mux))
  }

  lemma {:induction false} RangesFrom(items: seq<string>, k: nat)
    requires k <= |items| && RangesUpTo(items, k).Ok?
    ensures RangesUpTo(items, k).value == [] <==> forall x | 0 <= x < k :: Strip(items[x]) == ""
    ensures forall r | r in RangesUpTo(items, k).value :: exists x :: 0 <= x < k && GoodRange(items[x], r)
  {
    hide ReadRange, GoodRange;
    if k > 0 {
      RangesFrom(items, k - 1);
      var last := ReadRange(items[k - 1]);
      RangeIff(items[k - 1], if last.Ok? && last.value.Some? then last.value.value else Range(0, 0));
    }
  }

  lemma RangelessIff(input: Input)
    ensures Cfg(input).ranges == [] <==> Rangeless(input)
  {
    hide Recovered, StaticClaims, ReadRange, GoodRange, BadRangeText;
    var value := Annotation(input.mux, PORT_RANGE_KEY);
    var items := Split(value, ',');
    if "svc-mux.nowake.ai/port-range" !in input.mux.annotations {
      assert items == [""] && ReadRange("") == Ok(None) by { NothingReads(); }
      assert RangesUpTo(items, 0) == Ok([]);
      assert RangesUpTo(items, 1) == Ok([]);
    } else {
      assert RangeItems(input.mux) == items;
      RangesRejectedIff(value);
      if RangesOf(value).Ok? {
        RangesFrom(items, |items|);
      }
    }
  }

  lemma NothingReads()
    ensures Split("", ',') == [""] && ReadRange("") == Ok(None)
  {}

  // ---- without ranges ----

  /** Some port is requested to be automatic. */
  ghost predicate AsksAutomatic(ch: Channel, m: map<string, Request>) {
    ValidRequest(ch, m) && exists j :: 0 <= j < |ch.ports| && ch.ports[j].name in m && m[ch.ports[j].name].Auto?
  }

  lemma {:induction false} ResolveRangeless(c: Config, b: Book, ch: Channel, m: map<string, Request>, k: nat)
    requires c.ranges == [] && k <= |ch.ports|
    ensures var r := ResolveUpTo(c, b, ch, m, k);
      && r.book == b
      && (r.error.Some? ==> r.error.value == NoRange)
      && (r.error.None? ==> forall j | 0 <= j < k :: ch.ports[j].name in m ==> !m[ch.ports[j].name].Auto?)
  {
    if k > 0 {
      ResolveRangeless(c, b, ch, m, k - 1);
    }
  }

  /** THEOREM (no automatic port without ranges). In a pass without ranges a channel that
      asks for an automatic port is skipped, for the limit or for the missing range, and
      nothing is claimed at its turn. */
  lemma AutoRefused(input: Input, i: nat, m: map<string, Request>)
    requires Rangeless(input) && i < |input.channels| && AsksAutomatic(input.channels[i], m)
    ensures OutcomeOf(input, i).LimitExceeded? || OutcomeOf(input, i) == InvalidMapping(NoRange)
    ensures RunUpTo(input, i + 1).book == RunUpTo(input, i).book
  {
    hide RunUpTo, OutcomeOf, Requests, Recovered, StaticClaims, Rangeless, AutoRanges;
    var ch := input.channels[i];
    RangelessIff(input);
    RequestsValid(ch, m);
    ResolveRangeless(Cfg(input), RunUpTo(input, i).book, ch, m, |ch.ports|);
    FailedTurn(input, i);
  }

  /** THEOREM (passes that cannot read the store). They never give out an automatic port:
      no channel that asks for one is accepted, and none is claimed for it. */
  lemma BlindRefusesAuto(input: Input, i: nat, m: map<string, Request>)
    requires input.stored.Unreadable? && i < |input.channels| && AsksAutomatic(input.channels[i], m)
    ensures !OutcomeOf(input, i).Accepted?
    ensures OutcomeOf(input, i).LimitExceeded? || OutcomeOf(input, i) == InvalidMapping(NoRange)
    ensures RunUpTo(input, i + 1).book == RunUpTo(input, i).book
  {
    hide RunUpTo, OutcomeOf, AsksAutomatic;
    AutoRefused(input, i, m);
  }

  // ---- with ranges ----

  /** THEOREM (where automatic numbers come from). An accepted automatic port has a number
      from a range that some item of the annotation states, that no valid channel declares
      statically, and that was recovered for nobody else; and the pass could read the store. */
  lemma AutoOutcome(input: Input, i: nat, m: map<string, Request>, j: nat)
    requires Fair(input) && i < |input.channels| && OutcomeOf(input, i).Accepted? && j < |input.channels[i].ports|
    requires ExternalPorts(input.channels[i].externalPorts) == Ok(m)
    requires input.channels[i].ports[j].name in m && m[input.channels[i].ports[j].name].Auto?
    ensures |OutcomeOf(input, i).numbers| == |input.channels[i].ports| && input.stored.Stored?
    ensures var ch, n, items := input.channels[i], OutcomeOf(input, i).numbers[j], RangeItems(input.mux);
      var pk := PortKey(n, ch.ports[j].proto);
      && (exists x, lo, hi :: 0 <= x < |items| && GoodRange(items[x], Range(lo, hi)) && lo <= n <= hi)
      && (forall k: nat, l: nat | k < |input.channels| :: !WantsStatic(input.channels[k], l, pk))
      && (pk in Recovered(input.hash, input.channels, input.livePorts) ==>
          Recovered(input.hash, input.channels, input.livePorts)[pk] == OwnerOf(input.hash, ch.RefOf(j)))
  {
    hide RunUpTo, OutcomeOf, ResolutionOf, CollisionFree, Injective, Holds, ExternalPorts, Recovered, StaticClaims,
      GoodRange,
      WantsStatic, RangeItems;
    AcceptedStep(input, i);
    ClaimsSane(input, i);
    ResolutionSane(input, i);
    var ch, n := input.channels[i], OutcomeOf(input, i).numbers[j];
    assert AutoPort(Cfg(input), ResolutionOf(input, i).book.claims, ch.RefOf(j),
      NumberKey(ch, OutcomeOf(input, i).numbers, j));
    FromSomeItem(input, n);
    ReservedIff(input.channels, PortKey(n, ch.ports[j].proto));
  }

  lemma FromSomeItem(input: Input, n: int)
    requires Contains(Cfg(input).ranges, n)
    ensures var items := RangeItems(input.mux);
      input.stored.Stored? && exists x, lo, hi ::
        0 <= x < |items| && GoodRange(items[x], Range(lo, hi)) && lo <= n <= hi
  {
    hide Recovered, StaticClaims, GoodRange;
    var y :| 0 <= y < |Cfg(input).ranges| && InRange(Cfg(input).ranges[y], n);
    var range := Cfg(input).ranges[y];
    var items := Split(Annotation(input.mux, PORT_RANGE_KEY), ',');
    RangesFrom(items, |items|);
    assert range in RangesUpTo(items, |items|).value;
    var x :| 0 <= x < |items| && GoodRange(items[x], range);
    if "svc-mux.nowake.ai/port-range" !in input.mux.annotations {
      RangelessIff(input);
    }
    assert items == RangeItems(input.mux) && range == Range(range.lo, range.hi);
  }
}
