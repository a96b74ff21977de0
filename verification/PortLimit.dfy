/** The port limit of a mux: the `max-ports` annotation and the GKE cap. */
module PortLimit {
  import opened Wrappers
  import opened Text
  import opened Model
  import opened PortRanges

  const GKE_MAX_PORTS := 100
  const GKE_CLASS_PREFIX := "networking.gke.io/"
  const MAX_PORTS_KEY := "svc-mux.nowake.ai/max-ports"
  const PORT_RANGE_KEY := "svc-mux.nowake.ai/port-range"
  const GKE_PROVIDER_KEYS: seq<string> := [
    "cloud.google.com/l4-rbs",
    "networking.gke.io/load-balancer-type",
    "networking.gke.io/load-balancer-ip-addresses"
  ]

  /** The parts of the mux Service that a pass reads, other than its ports. */
  datatype MuxService = MuxService(loadBalancerClass: string, annotations: map<string, string>)

  predicate IsGke(mux: MuxService) {
    GKE_CLASS_PREFIX <= mux.loadBalancerClass
    || exists key | key in GKE_PROVIDER_KEYS :: key in mux.annotations
  }

  function Annotation(mux: MuxService, key: string): string {
    if key in mux.annotations then mux.annotations[key] else ""
  }

  function RequestedMaxPorts(mux: MuxService): Result<Option<int>> {
    var value := Annotation(mux, MAX_PORTS_KEY);
    if value == "" then Ok(None)
    else
      match ParseNat(value)
      case None => Err(BadLimit)
      case Some(n) => if n < 1 then Err(BadLimit) else Ok(Some(n))
  }

  /** `effective_mux_max_ports`; `None` is no limit. */
  function EffectiveMaxPorts(mux: MuxService): Result<Option<int>> {
    match RequestedMaxPorts(mux)
    case Err(e) => Err(e)
    case Ok(requested) =>
      if !IsGke(mux) then Ok(requested)
      else if requested.None? || requested.value > GKE_MAX_PORTS then Ok(Some(GKE_MAX_PORTS))
      else Ok(requested)
  }

  /** The limit a pass works with: an invalid annotation admits no port at all. */
  function MaxPorts(mux: MuxService): Option<int> {
    match EffectiveMaxPorts(mux)
    case Err(_) => Some(0)
    case Ok(limit) => limit
  }

  /** A GKE mux is always limited, to at most 100 ports and never to more than asked. */
  lemma GkeIsCapped(mux: MuxService)
    requires IsGke(mux)
    ensures MaxPorts(mux).Some? && 0 <= MaxPorts(mux).value <= GKE_MAX_PORTS
    ensures RequestedMaxPorts(mux).Ok? && RequestedMaxPorts(mux).value.Some?
      ==> MaxPorts(mux).value <= RequestedMaxPorts(mux).value.value
  {}

  /** The ranges automatic allocation draws from; none if the annotation is invalid. */
  function AutoRanges(mux: MuxService): (ranges: seq<Range>)
    ensures ValidRanges(ranges)
  {
    var items := Split(Annotation(mux, PORT_RANGE_KEY), ',');
    RangesValid(items, |items|);
    match RangesOf(Annotation(mux, PORT_RANGE_KEY))
    case Err(_) => []
    case Ok(ranges) => ranges
  }

  /** `would_exceed_mux_port_limit` */
  predicate WouldExceed(count: nat, ch: Channel, limit: Option<int>) {
    limit.Some? && count + |ch.ports| > limit.value
  }
}
