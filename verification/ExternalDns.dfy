/** External-dns annotations: aggregated from the channels, and applied to the mux next
    to whatever its user put there. */
module ExternalDns {
  import opened Wrappers
  import opened Text
  import opened Model
  import opened Sorting
  import opened ChannelOrder

  const HOSTNAME_KEY := "external-dns.alpha.kubernetes.io/hostname"
  const PROXIED_KEY := "external-dns.alpha.kubernetes.io/cloudflare-proxied"
  const OWNED_KEY := "svc-mux.nowake.ai/aggregated-external-dns"

  // ---- host names ----

  /** The non-blank pieces of a comma-separated list, stripped. */
  function Entries(pieces: seq<string>): seq<string> {
    if pieces == [] then []
    else
      var rest := Entries(pieces[..|pieces| - 1]);
      var entry := Strip(pieces[|pieces| - 1]);
      if entry == "" then rest else rest + [entry]
  }

  /** `parse_external_dns` */
  function HostNames(value: Option<string>): seq<string> {
    if value.None? then [] else Entries(Split(value.value, ','))
  }

  predicate Entry(s: string) {
    s != "" && Trimmed(s) && ',' !in s
  }

  lemma {:induction false} EntriesIff(pieces: seq<string>, s: string)
    ensures s in Entries(pieces) <==> s != "" && exists i :: 0 <= i < |pieces| && Strip(pieces[i]) == s
  {
    hide Strip;
    if pieces != [] {
      EntriesIff(pieces[..|pieces| - 1], s);
    }
  }

  lemma HostNamesAreEntries(value: Option<string>, s: string)
    requires s in HostNames(value)
    ensures Entry(s)
  {
    var pieces := Split(value.value, ',');
    EntriesIff(pieces, s);
    var i :| 0 <= i < |pieces| && Strip(pieces[i]) == s;
    SplitPieces(value.value, ',');
    assert pieces[i] in pieces;
    StripIsTrimmed(pieces[i]);
  }

  lemma {:induction false} EntriesOfEntries(names: seq<string>)
    requires forall s | s in names :: Entry(s)
    ensures Entries(names) == names
  {
    if names != [] {
      var front, last := names[..|names| - 1], names[|names| - 1];
      EntriesOfEntries(front);
      assert last in names;
      StripTrimmed(last);
      assert names == front + [last];
    }
  }

  /** Joining host names and parsing the text gives the same names back. */
  lemma HostNamesRoundTrip(names: seq<string>)
    requires forall s | s in names :: Entry(s)
    ensures HostNames(Some(Join(names, ","))) == names
  {
    if names == [] {
      assert Split("", ',') == [""];
      assert Entries([""]) == [] by { assert Strip("") == ""; assert [""][..0] == []; }
    } else {
      SplitJoinComma(names);
      EntriesOfEntries(names);
    }
  }

  // ---- aggregation ----

  /** Every host name in channel order, repetitions included. */
  function AllHosts(channels: seq<Channel>): seq<string> {
    if channels == [] then []
    else AllHosts(channels[..|channels| - 1]) + HostNames(channels[|channels| - 1].dnsHostname)
  }

  /** Keeps the first occurrence of every name. */
  function Dedup(names: seq<string>): seq<string> {
    if names == [] then []
    else
      var rest := Dedup(names[..|names| - 1]);
      if names[|names| - 1] in rest then rest else rest + [names[|names| - 1]]
  }

  /** The value a channel states for the proxied flag, if it is a valid one. */
  function ProxiedValue(ch: Channel): Option<bool> {
    match ch.proxied
    case None => None
    case Some(text) =>
      var value := Lower(Strip(text));
      if value == "true" then Some(true) else if value == "false" then Some(false) else None
  }

  /** The valid flags, in channel order. */
  function Flags(channels: seq<Channel>): seq<bool> {
    if channels == [] then []
    else
      var rest := Flags(channels[..|channels| - 1]);
      match ProxiedValue(channels[|channels| - 1])
      case None => rest
      case Some(b) => rest + [b]
  }

  function BoolText(b: bool): string {
    if b then "true" else "false"
  }

  /** The annotations a list of host names and a list of flags give. */
  function Published(hosts: seq<string>, flags: seq<bool>): map<string, string> {
    (if hosts == [] then map[] else map[HOSTNAME_KEY := Join(hosts, ",")])
    + (if flags == [] then map[] else map[PROXIED_KEY := BoolText(false !in flags)])
  }

  function Aggregate(channels: seq<Channel>): map<string, string> {
    var sorted := Sort(channels, ChannelLe);
    Published(Dedup(AllHosts(sorted)), Flags(sorted))
  }

  lemma {:induction false} DedupIff(names: seq<string>, s: string)
    ensures s in Dedup(names) <==> s in names
  {
    if names != [] {
      DedupIff(names[..|names| - 1], s);
      assert names == names[..|names| - 1] + [names[|names| - 1]];
    }
  }

  lemma DedupAppend(names: seq<string>, more: seq<string>)
    ensures Dedup(names + more) == if more == [] then Dedup(names) else
      var rest := Dedup(names + more[..|more| - 1]);
      if more[|more| - 1] in rest then rest else rest + [more[|more| - 1]]
  {
    if more == [] {
      assert names + more == names;
    } else {
      assert (names + more)[..|names + more| - 1] == names + more[..|more| - 1];
    }
  }

  /** The inner loop: a channel's new host names go to the end. */
  method AddHostNames(hostnames: seq<string>, seen: set<string>, names: seq<string>, ghost before: seq<string>)
    returns (more: seq<string>, known: set<string>)
    requires hostnames == Dedup(before) && forall s :: s in seen <==> s in hostnames
    ensures more == Dedup(before + names) && forall s :: s in known <==> s in more
  {
    more, known := hostnames, seen;
    assert before + names[..0] == before;
    for k := 0 to |names|
      invariant more == Dedup(before + names[..k])
      invariant forall s :: s in known <==> s in more
    {
      DedupAppend(before, names[..k + 1]);
      assert names[..k + 1][..k] == names[..k];
      if names[k] in known {
        continue;
      }
      known := known + {names[k]};
      more := more + [names[k]];
    }
    assert names[..|names|] == names;
  }

  lemma PrefixStep(channels: seq<Channel>, i: nat)
    requires i < |channels|
    ensures AllHosts(channels[..i + 1]) == AllHosts(channels[..i]) + HostNames(channels[i].dnsHostname)
    ensures Flags(channels[..i + 1])
      == Flags(channels[..i]) + (if ProxiedValue(channels[i]).Some? then [ProxiedValue(channels[i]).value] else [])
  {
    hide HostNames, ProxiedValue;
    assert channels[..i + 1][..i] == channels[..i];
  }

  method AggregateExternalDnsAnnotations(channels: seq<Channel>) returns (aggregated: map<string, string>)
    ensures aggregated == Aggregate(channels)
  {
    hide HostNames, ProxiedValue, Dedup;
    var sorted := Sort(channels, ChannelLe);
    var hostnames: seq<string> := [];
    var seen: set<string> := {};
    var sawProxied, proxied := false, true;
    assert Dedup([]) == [] by { DedupEmpty(); }
    for i := 0 to |sorted|
      invariant hostnames == Dedup(AllHosts(sorted[..i]))
      invariant forall s :: s in seen <==> s in hostnames
      invariant sawProxied <==> Flags(sorted[..i]) != []
      invariant proxied <==> false !in Flags(sorted[..i])
    {
      PrefixStep(sorted, i);
      var names := HostNames(sorted[i].dnsHostname);
      hostnames, seen := AddHostNames(hostnames, seen, names, AllHosts(sorted[..i]));
      var value := ProxiedValue(sorted[i]);
      if value.None? {
        continue;
      }
      sawProxied := true;
      proxied := proxied && value.value;
    }
    assert sorted[..|sorted|] == sorted;
    aggregated := map[];
    if hostnames != [] {
      aggregated := aggregated[HOSTNAME_KEY := Join(hostnames, ",")];
    }
    if sawProxied {
      aggregated := aggregated[PROXIED_KEY := BoolText(proxied)];
    }
  }

  lemma DedupEmpty()
    ensures Dedup([]) == []
  {}

  /** THEOREM (order does not matter). Listing the same channels differently gives the
      same annotations. */
  lemma AggregationForgetsOrder(channels: seq<Channel>, other: seq<Channel>)
    requires DistinctChannels(channels) && multiset(channels) == multiset(other)
    ensures Aggregate(channels) == Aggregate(other)
  {
    SortForgetsOrder(channels, other);
  }

  ghost predicate FirstAt(names: seq<string>, i: nat, s: string) {
    i < |names| && names[i] == s && s !in names[..i]
  }

  /** Deduplication keeps each name once, in the order of first occurrence. */
  lemma {:induction false} DedupOrder(names: seq<string>, x: nat, y: nat)
    requires x < y < |Dedup(names)|
    ensures Dedup(names)[x] != Dedup(names)[y]
    ensures exists i: nat, j: nat :: i < j && FirstAt(names, i, Dedup(names)[x]) && FirstAt(names, j, Dedup(names)[y])
  {
    var front, last := names[..|names| - 1], names[|names| - 1];
    var rest := Dedup(front);
    if y < |rest| {
      DedupOrder(front, x, y);
      var i: nat, j: nat :| i < j && FirstAt(front, i, rest[x]) && FirstAt(front, j, rest[y]);
      assert names[..i] == front[..i] && names[..j] == front[..j];
      assert FirstAt(names, i, Dedup(names)[x]) && FirstAt(names, j, Dedup(names)[y]);
    } else {
      DedupFirst(front, rest[x]);
      var i: nat :| FirstAt(front, i, rest[x]);
      assert names[..i] == front[..i] && FirstAt(names, i, Dedup(names)[x]);
      DedupIff(front, last);
      assert FirstAt(names, |front|, last);
    }
  }

  lemma {:induction false} DedupFirst(names: seq<string>, s: string)
    requires s in Dedup(names)
    ensures exists i: nat :: FirstAt(names, i, s)
  {
    var front, last := names[..|names| - 1], names[|names| - 1];
    if s in Dedup(front) {
      DedupFirst(front, s);
      var i: nat :| FirstAt(front, i, s);
      assert names[..i] == front[..i] && FirstAt(names, i, s);
    } else {
      DedupIff(front, s);
      assert FirstAt(names, |front|, s);
    }
  }

  lemma {:induction false} AllHostsIff(channels: seq<Channel>, s: string)
    ensures s in AllHosts(channels) <==> exists ch | ch in channels :: s in HostNames(ch.dnsHostname)
  {
    hide HostNames;
    if channels != [] {
      var front, last := channels[..|channels| - 1], channels[|channels| - 1];
      AllHostsIff(front, s);
      assert forall ch :: ch in channels <==> ch in front || ch == last by { assert channels == front + [last]; }
    }
  }

  lemma {:induction false} FlagsIff(channels: seq<Channel>, b: bool)
    ensures b in Flags(channels) <==> exists ch | ch in channels :: ProxiedValue(ch) == Some(b)
  {
    hide ProxiedValue;
    if channels != [] {
      var front, last := channels[..|channels| - 1], channels[|channels| - 1];
      FlagsIff(front, b);
      assert forall ch :: ch in channels <==> ch in front || ch == last by { assert channels == front + [last]; }
    }
  }

  lemma KeysDiffer()
    ensures HOSTNAME_KEY != PROXIED_KEY && HOSTNAME_KEY != OWNED_KEY && PROXIED_KEY != OWNED_KEY
  {
    assert |HOSTNAME_KEY| < |PROXIED_KEY|;
    assert HOSTNAME_KEY[0] == 'e' && OWNED_KEY[0] == 's' && PROXIED_KEY[0] == 'e';
  }

  lemma PublishedAt(hosts: seq<string>, flags: seq<bool>)
    ensures var g := Published(hosts, flags);
      && (HOSTNAME_KEY in g <==> hosts != []) && (PROXIED_KEY in g <==> flags != [])
      && (hosts != [] ==> g[HOSTNAME_KEY] == Join(hosts, ","))
      && (flags != [] ==> g[PROXIED_KEY] == BoolText(false !in flags))
  {
    KeysDiffer();
  }

  /** The host names an annotation map publishes. */
  function PublishedHosts(g: map<string, string>): seq<string> {
    HostNames(if HOSTNAME_KEY in g then Some(g[HOSTNAME_KEY]) else None)
  }

  /** THEOREM (aggregated hosts). The published list parses back to exactly the union of
      the channels' host names, each once, in order of first occurrence; it is absent
      when there is none. */
  lemma AggregatedHosts(channels: seq<Channel>)
    ensures var g := Aggregate(channels);
      && PublishedHosts(g) == Dedup(AllHosts(Sort(channels, ChannelLe)))
      && (forall s :: s in PublishedHosts(g) <==> exists ch | ch in channels :: s in HostNames(ch.dnsHostname))
      && (HOSTNAME_KEY in g <==> PublishedHosts(g) != [])
  {
    hide HostNames, ProxiedValue, ChannelLe, Entry, Published;
    var sorted := Sort(channels, ChannelLe);
    SortKeeps(channels, ChannelLe);
    var names := Dedup(AllHosts(sorted));
    forall s ensures s in names <==> exists ch | ch in channels :: s in HostNames(ch.dnsHostname) {
      DedupIff(AllHosts(sorted), s);
      AllHostsIff(sorted, s);
    }
    forall s | s in names ensures Entry(s) {
      var ch :| ch in channels && s in HostNames(ch.dnsHostname);
      HostNamesAreEntries(ch.dnsHostname, s);
    }
    HostNamesRoundTrip(names);
    NoHostNames();
    PublishedAt(names, Flags(sorted));
  }

  /** THEOREM (aggregated flag). The published flag is the conjunction of the valid
      values of the channels, and absent when no channel states a valid value. */
  lemma AggregatedFlag(channels: seq<Channel>)
    ensures var g := Aggregate(channels);
      && (PROXIED_KEY in g <==> exists ch | ch in channels :: ProxiedValue(ch).Some?)
      && (PROXIED_KEY in g ==>
        g[PROXIED_KEY] == BoolText(forall ch | ch in channels :: ProxiedValue(ch) != Some(false)))
  {
    hide HostNames, ProxiedValue, ChannelLe, Published, Dedup;
    var sorted := Sort(channels, ChannelLe);
    SortKeeps(channels, ChannelLe);
    FlagsIff(sorted, true);
    FlagsIff(sorted, false);
    var flags := Flags(sorted);
    PublishedAt(Dedup(AllHosts(sorted)), flags);
    if flags != [] {
      FlagsIff(sorted, flags[0]);
      var ch :| ch in sorted && ProxiedValue(ch) == Some(flags[0]);
      assert ch in channels;
    }
    if ch :| ch in channels && ProxiedValue(ch).Some? {
      FlagsIff(sorted, ProxiedValue(ch).value);
      assert ch in sorted && ProxiedValue(ch) == Some(ProxiedValue(ch).value);
    }
    assert false in flags <==> exists ch | ch in channels :: ProxiedValue(ch) == Some(false);
  }

  /** The channel's `cloudflare-proxied` annotation reads `word`, in any case. */
  predicate Says(ch: Channel, word: string) {
    ch.proxied.Some? && Lower(Strip(ch.proxied.value)) == word
  }

  /** The same, annotation by annotation: `false` if some channel says so, `true` if some
      channel says so and none says `false`, and absent otherwise. */
  lemma PublishedFlag(channels: seq<Channel>)
    ensures var g, key := Aggregate(channels), "external-dns.alpha.kubernetes.io/cloudflare-proxied";
      var yes, no := (exists ch | ch in channels :: Says(ch, "true")),
        (exists ch | ch in channels :: Says(ch, "false"));
      && (key in g <==> yes || no)
      && (key in g ==> g[key] == if no then "false" else "true")
  {
    hide Strip, Lower, Aggregate;
    AggregatedFlag(channels);
    forall ch ensures ProxiedValue(ch) == Some(true) <==> Says(ch, "true") {}
    forall ch ensures ProxiedValue(ch) == Some(false) <==> Says(ch, "false") {}
    forall ch ensures ProxiedValue(ch).Some? <==> Says(ch, "true") || Says(ch, "false") {}
  }

  /** Some item of the channel's `external-dns-hostname` annotation is the host name. */
  ghost predicate Names(ch: Channel, host: string) {
    ch.dnsHostname.Some? && host != "" && exists x :: NamesAt(Split(ch.dnsHostname.value, ','), x, host)
  }

  predicate NamesAt(items: seq<string>, x: int, host: string) {
    0 <= x < |items| && Strip(items[x]) == host
  }

  lemma HostNamesIff(ch: Channel, host: string)
    ensures host in HostNames(ch.dnsHostname) <==> Names(ch, host)
  {
    hide Strip;
    if ch.dnsHostname.Some? {
      var items := Split(ch.dnsHostname.value, ',');
      EntriesIff(items, host);
      if i :| 0 <= i < |items| && Strip(items[i]) == host {
        assert NamesAt(items, i, host);
      }
    }
  }

  /** And a host name is published exactly if some channel names it. */
  lemma PublishedHost(channels: seq<Channel>, host: string)
    ensures var g, key := Aggregate(channels), "external-dns.alpha.kubernetes.io/hostname";
      (key in g && host in HostNames(Some(g[key]))) <==> exists ch | ch in channels :: Names(ch, host)
  {
    hide HostNames, Names, Aggregate;
    AggregatedHosts(channels);
    NoHostNames();
    forall ch: Channel ensures host in HostNames(ch.dnsHostname) <==> Names(ch, host) {
      HostNamesIff(ch, host);
    }
  }

  lemma NoHostNames()
    ensures HostNames(None) == []
  {}

  // ---- ownership on the mux ----

  const AGGREGATED_KEYS: seq<string> := [HOSTNAME_KEY, PROXIED_KEY]

  /** The keys the controller says it owns. */
  function OwnedKeys(annotations: map<string, string>): set<string> {
    if OWNED_KEY in annotations then set s | s in Entries(Split(annotations[OWNED_KEY], ',')) else {}
  }

  function FormatOwned(keys: set<string>): string {
    Join((if HOSTNAME_KEY in keys then [HOSTNAME_KEY] else []) + (if PROXIED_KEY in keys then [PROXIED_KEY] else []),
      ",")
  }

  predicate UserOwned(annotations: map<string, string>, key: string) {
    key in annotations && key !in OwnedKeys(annotations)
  }

  /** The annotations after the keys in `done` were dealt with. */
  function ApplyKey(annotations: map<string, string>, desired: map<string, string>, g: map<string, string>,
      key: string): map<string, string> {
    if UserOwned(annotations, key) then desired
    else if key in g then desired[key := g[key]]
    else desired - {key}
  }

  function ApplyUpTo(annotations: map<string, string>, g: map<string, string>, k: nat): map<string, string>
    requires k <= |AGGREGATED_KEYS|
  {
    if k == 0 then annotations else ApplyKey(annotations, ApplyUpTo(annotations, g, k - 1), g, AGGREGATED_KEYS[k - 1])
  }

  function NextUpTo(annotations: map<string, string>, g: map<string, string>, k: nat): set<string>
    requires k <= |AGGREGATED_KEYS|
  {
    if k == 0 then {}
    else if !UserOwned(annotations, AGGREGATED_KEYS[k - 1]) && AGGREGATED_KEYS[k - 1] in g
    then NextUpTo(annotations, g, k - 1) + {AGGREGATED_KEYS[k - 1]}
    else NextUpTo(annotations, g, k - 1)
  }

  function Apply(annotations: map<string, string>, g: map<string, string>): map<string, string> {
    var desired, next := ApplyUpTo(annotations, g, 2), NextUpTo(annotations, g, 2);
    if next != {} then desired[OWNED_KEY := FormatOwned(next)] else desired - {OWNED_KEY}
  }

  method ApplyAggregatedExternalDnsAnnotations(annotations: map<string, string>, g: map<string, string>)
    returns (desired: map<string, string>)
    ensures desired == Apply(annotations, g)
  {
    hide FormatOwned, OwnedKeys;
    KeysDiffer();
    desired := annotations;
    var managed := OwnedKeys(annotations);
    var next: set<string> := {};
    for k := 0 to |AGGREGATED_KEYS|
      invariant desired == ApplyUpTo(annotations, g, k) && next == NextUpTo(annotations, g, k)
    {
      var key := AGGREGATED_KEYS[k];
      // the user's own value is still there when its turn comes
      assert key in desired <==> key in annotations;
      if key in desired && key !in managed {
        continue;
      }
      if key in g {
        desired := desired[key := g[key]];
        next := next + {key};
      } else {
        desired := desired - {key};
      }
    }
    if next != {} {
      desired := desired[OWNED_KEY := FormatOwned(next)];
    } else {
      desired := desired - {OWNED_KEY};
    }
  }

  // ---- ownership laws ----

  predicate Ours(key: string) {
    key == HOSTNAME_KEY || key == PROXIED_KEY
  }

  /** The result, key by key. */
  lemma ApplyAt(a: map<string, string>, g: map<string, string>, key: string)
    requires key != OWNED_KEY
    ensures var d := Apply(a, g);
      if !Ours(key) || UserOwned(a, key) then (key in d <==> key in a) && (key in a ==> d[key] == a[key])
      else (key in d <==> key in g) && (key in g ==> d[key] == g[key])
  {
    hide FormatOwned, OwnedKeys;
    KeysDiffer();
    assert ApplyUpTo(a, g, 1) == ApplyKey(a, a, g, HOSTNAME_KEY);
    assert ApplyUpTo(a, g, 2) == ApplyKey(a, ApplyUpTo(a, g, 1), g, PROXIED_KEY);
  }

  lemma NextOwned(a: map<string, string>, g: map<string, string>, key: string)
    ensures key in NextUpTo(a, g, 2) <==> Ours(key) && !UserOwned(a, key) && key in g
  {
    hide OwnedKeys;
    assert key in NextUpTo(a, g, 1) <==> key == HOSTNAME_KEY && !UserOwned(a, HOSTNAME_KEY) && HOSTNAME_KEY in g;
  }

  lemma KeysAreEntries()
    ensures Entry(HOSTNAME_KEY) && Entry(PROXIED_KEY)
  {
    assert ',' !in HOSTNAME_KEY && HOSTNAME_KEY[0] == 'e' && HOSTNAME_KEY[|HOSTNAME_KEY| - 1] == 'e';
    assert ',' !in PROXIED_KEY && PROXIED_KEY[0] == 'e' && PROXIED_KEY[|PROXIED_KEY| - 1] == 'd';
  }

  /** The list of owned keys reads back as the keys that were written. */
  lemma OwnedReadBack(a: map<string, string>, g: map<string, string>)
    ensures OwnedKeys(Apply(a, g)) == NextUpTo(a, g, 2)
  {
    hide Entry, Split, Entries, ApplyUpTo, NextUpTo;
    var next := NextUpTo(a, g, 2);
    var listed := (if HOSTNAME_KEY in next then [HOSTNAME_KEY] else [])
      + (if PROXIED_KEY in next then [PROXIED_KEY] else []);
    forall key ensures key in next <==> key in listed {
      NextOwned(a, g, key);
    }
    KeysAreEntries();
    if next != {} {
      HostNamesRoundTrip(listed);
      assert Entries(Split(FormatOwned(next), ',')) == listed by { ReadListed(listed); }
    }
  }

  lemma ReadListed(listed: seq<string>)
    requires HostNames(Some(Join(listed, ","))) == listed
    ensures Entries(Split(Join(listed, ","), ',')) == listed
  {}

  /** Whose a key is does not change when aggregates are applied. */
  lemma UserOwnedStays(a: map<string, string>, g: map<string, string>, key: string)
    requires Ours(key)
    ensures UserOwned(Apply(a, g), key) <==> UserOwned(a, key)
  {
    hide OwnedKeys, Apply, NextUpTo;
    KeysDiffer();
    ApplyAt(a, g, key);
    OwnedReadBack(a, g);
    NextOwned(a, g, key);
  }

  /** The ownership note, in full. */
  lemma OwnedNote(a: map<string, string>, g: map<string, string>)
    ensures var d := Apply(a, g); var next := NextUpTo(a, g, 2);
      (OWNED_KEY in d <==> next != {}) && (next != {} ==> d[OWNED_KEY] == FormatOwned(next))
  {
    hide ApplyUpTo, NextUpTo, FormatOwned;
  }

  lemma NextStays(a: map<string, string>, g1: map<string, string>, g2: map<string, string>)
    ensures NextUpTo(Apply(a, g1), g2, 2) == NextUpTo(a, g2, 2)
  {
    hide Apply, NextUpTo, UserOwned;
    forall key ensures key in NextUpTo(Apply(a, g1), g2, 2) <==> key in NextUpTo(a, g2, 2) {
      NextOwned(Apply(a, g1), g2, key);
      NextOwned(a, g2, key);
      if Ours(key) {
        UserOwnedStays(a, g1, key);
      }
    }
  }

  /** THEOREM (path independence). Applying one aggregate and then another gives what
      applying the second one alone gives; so applying is idempotent. */
  lemma PathIndependent(a: map<string, string>, g1: map<string, string>, g2: map<string, string>)
    ensures Apply(Apply(a, g1), g2) == Apply(a, g2)
  {
    hide Apply, NextUpTo, UserOwned, FormatOwned, Ours;
    var once, twice := Apply(a, g2), Apply(Apply(a, g1), g2);
    NextStays(a, g1, g2);
    OwnedNote(a, g2);
    OwnedNote(Apply(a, g1), g2);
    forall key ensures (key in once <==> key in twice) && (key in once ==> once[key] == twice[key]) {
      if key != OWNED_KEY {
        ApplyAt(a, g1, key);
        ApplyAt(a, g2, key);
        ApplyAt(Apply(a, g1), g2, key);
        if Ours(key) {
          UserOwnedStays(a, g1, key);
        }
      }
    }
  }

  /** THEOREM (the user's annotations survive). From annotations that carry no ownership
      note, applying any aggregate and then the empty one restores them exactly. */
  lemma WithdrawalRestores(a: map<string, string>, g: map<string, string>)
    requires OWNED_KEY !in a
    ensures Apply(Apply(a, g), map[]) == a
  {
    hide Apply, NextUpTo, FormatOwned;
    PathIndependent(a, g, map[]);
    OwnedNote(a, map[]);
    forall key ensures key !in NextUpTo(a, map[], 2) {
      NextOwned(a, map[], key);
    }
    var d := Apply(a, map[]);
    forall key ensures (key in d <==> key in a) && (key in a ==> d[key] == a[key]) {
      if key != OWNED_KEY {
        ApplyAt(a, map[], key);
      }
    }
    assert d == a;
  }

  /** A key of the user's is never changed, by whatever sequence of aggregates. */
  lemma {:induction false} UserKeysNeverChange(a: map<string, string>, gs: seq<map<string, string>>, key: string)
    requires key != OWNED_KEY && (!Ours(key) || UserOwned(a, key))
    ensures var d := AfterAll(a, gs);
      (key in d <==> key in a) && (key in a ==> d[key] == a[key]) && (!Ours(key) || UserOwned(d, key))
  {
    hide Apply, UserOwned, Ours;
    if gs != [] {
      var front := gs[..|gs| - 1];
      UserKeysNeverChange(a, front, key);
      ApplyAt(AfterAll(a, front), gs[|gs| - 1], key);
      if Ours(key) {
        UserOwnedStays(AfterAll(a, front), gs[|gs| - 1], key);
      }
    }
  }

  function AfterAll(a: map<string, string>, gs: seq<map<string, string>>): map<string, string> {
    if gs == [] then a else Apply(AfterAll(a, gs[..|gs| - 1]), gs[|gs| - 1])
  }

  /** THEOREM (history forgotten). After any history of aggregates the annotations are
      what the last one alone makes of the original. */
  lemma {:induction false} HistoryForgotten(a: map<string, string>, gs: seq<map<string, string>>)
    requires gs != []
    ensures AfterAll(a, gs) == Apply(a, gs[|gs| - 1])
  {
    hide Apply;
    var front := gs[..|gs| - 1];
    if front != [] {
      HistoryForgotten(a, front);
      PathIndependent(a, front[|front| - 1], gs[|gs| - 1]);
    }
  }
}
