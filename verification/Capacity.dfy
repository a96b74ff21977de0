/** The port limit, said of the annotation and the signs of a GKE mux. */
module Capacity {
  import opened Wrappers
  import opened Text
  import opened Reconcile
  import opened PortLimit
  import opened Pass
  import opened PassInvariant

  /** The signs that the load balancer is one of GKE's. */
  predicate GkeSigns(mux: MuxService) {
    || (|mux.loadBalancerClass| >= 18 && mux.loadBalancerClass[..18] == "networking.gke.io/")
    || "cloud.google.com/l4-rbs" in mux.annotations
    || "networking.gke.io/load-balancer-type" in mux.annotations
    || "networking.gke.io/load-balancer-ip-addresses" in mux.annotations
  }

  lemma GkeIff(mux: MuxService)
    ensures IsGke(mux) <==> GkeSigns(mux)
  {
    var prefix := mux.loadBalancerClass;
    assert GKE_CLASS_PREFIX <= prefix <==> |prefix| >= 18 && prefix[..18] == GKE_CLASS_PREFIX;
    assert GKE_PROVIDER_KEYS[0] in GKE_PROVIDER_KEYS && GKE_PROVIDER_KEYS[1] in GKE_PROVIDER_KEYS;
    assert GKE_PROVIDER_KEYS[2] in GKE_PROVIDER_KEYS;
  }

  /** The annotation sets this limit. */
  predicate Sets(mux: MuxService, n: int) {
    && "svc-mux.nowake.ai/max-ports" in mux.annotations && n >= 1
    && AllDigits(Strip(mux.annotations["svc-mux.nowake.ai/max-ports"]))
    && Digits(Strip(mux.annotations["svc-mux.nowake.ai/max-ports"])) == n
  }

  /** There is no annotation, or an empty one. */
  predicate SetsNothing(mux: MuxService) {
    "svc-mux.nowake.ai/max-ports" in mux.annotations ==> mux.annotations["svc-mux.nowake.ai/max-ports"] == ""
  }

  /** The limit that the mux's owner set, capped at 100 on GKE; an annotation that is
      neither empty nor a positive number admits nothing. */
  lemma LimitIs(mux: MuxService, n: int)
    ensures SetsNothing(mux) ==> MaxPorts(mux) == if GkeSigns(mux) then Some(100) else None
    ensures Sets(mux, n) ==> MaxPorts(mux) == Some(if GkeSigns(mux) && n > 100 then 100 else n)
    ensures !SetsNothing(mux) && (forall k :: !Sets(mux, k)) ==> MaxPorts(mux) == Some(0)
  {
    hide Digits;
    assert Strip("") == "";
    GkeIff(mux);
    if !SetsNothing(mux) && AllDigits(Strip(mux.annotations["svc-mux.nowake.ai/max-ports"])) {
      var k := Digits(Strip(mux.annotations["svc-mux.nowake.ai/max-ports"]));
      assert k >= 1 ==> Sets(mux, k);
    }
  }

  /** A printed limit sets itself. */
  lemma PrintedLimit(mux: MuxService, n: nat)
    requires "svc-mux.nowake.ai/max-ports" in mux.annotations
    requires mux.annotations["svc-mux.nowake.ai/max-ports"] == Dec(n) && n >= 1
    ensures Sets(mux, n)
  {
    ParseDec(n);
  }

  ghost predicate Skipped(input: Input, i: nat)
    requires i < |input.channels|
  {
    OutcomeOf(input, i).LimitExceeded?
  }

  /** THEOREM (the limit set). With a limit of n, no point of the loop has more than n
      accepted ports, nor more than 100 on GKE; and a channel is skipped for the limit
      exactly if its declared ports do not fit any more. */
  lemma SetLimit(input: Input, n: int, i: nat)
    requires Sets(input.mux, n) && i < |input.channels|
    ensures |RunUpTo(input, i).ports| <= n && |Final(input).ports| <= n
    ensures GkeSigns(input.mux) ==> |RunUpTo(input, i).ports| <= 100 && |Final(input).ports| <= 100
    ensures var total := |RunUpTo(input, i).ports| + |input.channels[i].ports|;
      Skipped(input, i) <==> total > n || (GkeSigns(input.mux) && total > 100)
  {
    hide RunUpTo, OutcomeOf, MaxPorts, GkeSigns, Sets, ResolutionOf, NewPorts, Compatible;
    LimitIs(input.mux, n);
    CapacityBound(input, i);
    CapacityBound(input, |input.channels|);
    AcceptedIff(input, i);
  }

  /** THEOREM (no limit set). Without the annotation a GKE mux takes 100 ports, and any
      other mux never skips a channel for the limit. */
  lemma NoLimitSet(input: Input, i: nat)
    requires SetsNothing(input.mux) && i < |input.channels|
    ensures Skipped(input, i) <==> GkeSigns(input.mux) && |RunUpTo(input, i).ports| + |input.channels[i].ports| > 100
    ensures GkeSigns(input.mux) ==> |Final(input).ports| <= 100
  {
    hide RunUpTo, OutcomeOf, MaxPorts, GkeSigns, SetsNothing, ResolutionOf, NewPorts, Compatible;
    LimitIs(input.mux, 0);
    CapacityBound(input, |input.channels|);
    AcceptedIff(input, i);
  }

  /** THEOREM (an invalid limit). An annotation that is neither empty nor a positive number
      keeps out every channel that declares a port. */
  lemma InvalidLimit(input: Input, i: nat)
    requires !SetsNothing(input.mux) && (forall n :: !Sets(input.mux, n)) && i < |input.channels|
    ensures Skipped(input, i) <==> input.channels[i].ports != []
    ensures Final(input).ports == {}
  {
    hide RunUpTo, OutcomeOf, MaxPorts, SetsNothing, Sets, ResolutionOf, NewPorts, Compatible;
    LimitIs(input.mux, 0);
    CapacityBound(input, i);
    CapacityBound(input, |input.channels|);
    AcceptedIff(input, i);
  }
}
