/** `port-range` annotations and the first-fit search over them. */
module PortRanges {
  import opened Wrappers
  import opened Text
  import opened Model

  datatype Range = Range(lo: int, hi: int)

  predicate ValidRanges(ranges: seq<Range>) {
    forall i | 0 <= i < |ranges| :: 1 <= ranges[i].lo <= ranges[i].hi <= 65535
  }

  predicate InRange(range: Range, port: int) {
    range.lo <= port <= range.hi
  }

  /** `contains_port`. */
  predicate Contains(ranges: seq<Range>, port: int) {
    exists i :: 0 <= i < |ranges| && InRange(ranges[i], port)
  }

  // ---- parsing and printing ----

  function ReadRange(raw: string): Result<Option<Range>> {
    var item := Strip(raw);
    if item == "" then Ok(None)
    else
      var ends := match Cut(item, '-') case None => (item, item) case Some(halves) => halves;
      match (ParsePort(Strip(ends.0)), ParsePort(Strip(ends.1)))
      case (Some(lo), Some(hi)) => if lo > hi then Err(BadRange) else Ok(Some(Range(lo, hi)))
      case _ => Err(BadPort)
  }

  function RangesUpTo(items: seq<string>, k: nat): Result<seq<Range>>
    requires k <= |items|
  {
    if k == 0 then Ok([])
    else
      match RangesUpTo(items, k - 1)
      case Err(e) => Err(e)
      case Ok(ranges) =>
        match ReadRange(items[k - 1])
        case Err(e) => Err(e)
        case Ok(None) => Ok(ranges)
        case Ok(Some(range)) => Ok(ranges + [range])
  }

  function RangesOf(value: string): Result<seq<Range>> {
    var items := Split(value, ',');
    RangesUpTo(items, |items|)
  }

  lemma {:induction false} RangesFail(items: seq<string>, j: nat, k: nat)
    requires j <= k <= |items| && RangesUpTo(items, j).Err?
    ensures RangesUpTo(items, k) == RangesUpTo(items, j)
  {
    if j < k {
      RangesFail(items, j, k - 1);
    }
  }

  lemma {:induction false} RangesValid(items: seq<string>, k: nat)
    requires k <= |items|
    ensures RangesUpTo(items, k).Ok? ==> ValidRanges(RangesUpTo(items, k).value)
  {
    if k > 0 {
      RangesValid(items, k - 1);
    }
  }

  /** Every range the parser accepts lies in 1-65535 and is not reversed. */
  method ParsePortRanges(value: string) returns (r: Result<seq<Range>>)
    ensures r == RangesOf(value)
    ensures r.Ok? ==> ValidRanges(r.value)
  {
    if value == "" {
      return Ok([]);
    }
    var items := Split(value, ',');
    RangesValid(items, |items|);
    var ranges: seq<Range> := [];
    for k := 0 to |items|
      invariant RangesUpTo(items, k) == Ok(ranges)
    {
      match ReadRange(items[k]) {
        case Err(e) =>
          RangesFail(items, k + 1, |items|);
          return Err(e);
        case Ok(None) =>
        case Ok(Some(range)) => ranges := ranges + [range];
      }
    }
    return Ok(ranges);
  }

  /** `_format_ranges`: a singleton range prints as one number. */
  function RangeText(range: Range): string
    requires 1 <= range.lo <= range.hi
  {
    if range.lo != range.hi then Dec(range.lo) + "-" + Dec(range.hi) else Dec(range.lo)
  }

  function RangeTexts(ranges: seq<Range>): seq<string>
    requires ValidRanges(ranges)
  {
    seq(|ranges|, i requires 0 <= i < |ranges| => RangeText(ranges[i]))
  }

  function FormatRanges(ranges: seq<Range>): string
    requires ValidRanges(ranges)
  {
    Join(RangeTexts(ranges), ",")
  }

  lemma NumberReads(n: int)
    requires 1 <= n <= 65535
    ensures ParsePort(Strip(Dec(n))) == Some(n) && Strip(Dec(n)) == Dec(n)
    ensures ',' !in Dec(n) && '-' !in Dec(n)
  {
    hide Dec, ParseNat, Strip;
    ParseDec(n);
    ParsePortDec(n);
    CleanIsTrimmed(Dec(n));
    StripTrimmed(Dec(n));
  }

  lemma DashedTrimmed(lo: string, hi: string)
    requires lo != [] && hi != [] && Strip(lo) == lo && Strip(hi) == hi
    ensures Strip(lo + ['-'] + hi) == lo + ['-'] + hi
  {
    StripIsTrimmed(lo);
    StripIsTrimmed(hi);
    var text := lo + ['-'] + hi;
    assert text[0] == lo[0] && text[|text| - 1] == hi[|hi| - 1];
    StripTrimmed(text);
  }

  lemma RangeReads(range: Range)
    requires 1 <= range.lo <= range.hi <= 65535
    ensures ',' !in RangeText(range)
    ensures ReadRange(RangeText(range)) == Ok(Some(range))
  {
    hide Dec, Strip, Cut, ParsePort;
    var lo, hi := Dec(range.lo), Dec(range.hi);
    NumberReads(range.lo);
    NumberReads(range.hi);
    if range.lo != range.hi {
      assert RangeText(range) == lo + ['-'] + hi;
      DashedTrimmed(lo, hi);
      CutAt(lo, hi, '-');
    } else {
      NoCut(lo, '-');
    }
  }

  lemma {:induction false} NoCut(s: string, sep: char)
    requires sep !in s
    ensures Cut(s, sep).None?
  {
    if s != [] {
      assert s[0] in s && forall c | c in s[1..] :: c in s;
      NoCut(s[1..], sep);
    }
  }

  lemma {:induction false} RangesOfTexts(ranges: seq<Range>, k: nat)
    requires ValidRanges(ranges) && k <= |ranges|
    ensures RangesUpTo(RangeTexts(ranges), k) == Ok(ranges[..k])
  {
    hide ReadRange, RangeText;
    if k > 0 {
      RangesOfTexts(ranges, k - 1);
      RangeReads(ranges[k - 1]);
      assert ranges[..k] == ranges[..k - 1] + [ranges[k - 1]];
    }
  }

  /** Printing valid ranges and parsing the text gives the same ranges back. */
  lemma RangesRoundTrip(ranges: seq<Range>)
    requires ValidRanges(ranges)
    ensures RangesOf(FormatRanges(ranges)) == Ok(ranges)
  {
    if ranges == [] {
      assert Split("", ',') == [""];
      assert ReadRange("") == Ok(None);
      assert RangesUpTo([""], 0) == Ok([]);
      assert RangesUpTo([""], 1) == Ok([]);
    } else {
      forall piece | piece in RangeTexts(ranges) ensures ',' !in piece {
        var i :| 0 <= i < |ranges| && piece == RangeText(ranges[i]);
        RangeReads(ranges[i]);
      }
      SplitJoinComma(RangeTexts(ranges));
      RangesOfTexts(ranges, |ranges|);
      assert ranges[..|ranges|] == ranges;
    }
  }

  // ---- which texts are accepted ----

  /** The item is a port number, or two of them in order around its first dash. */
  ghost predicate GoodRange(raw: string, range: Range) {
    && Strip(raw) != "" && range.lo <= range.hi
    && (('-' !in Strip(raw) && ParsePort(raw) == Some(range.lo) && ParsePort(raw) == Some(range.hi))
        || exists d :: DashAt(Strip(raw), d, range))
  }

  ghost predicate DashAt(item: string, d: int, range: Range) {
    && 0 <= d < |item| && item[d] == '-' && '-' !in item[..d]
    && ParsePort(item[..d]) == Some(range.lo) && ParsePort(item[d + 1..]) == Some(range.hi)
  }

  lemma RangeIff(raw: string, range: Range)
    ensures ReadRange(raw) == Ok(Some(range)) <==> GoodRange(raw, range)
    ensures ReadRange(raw) == Ok(None) <==> Strip(raw) == ""
  {
    hide Strip, Cut, ParsePort;
    var item := Strip(raw);
    CutPosition(item, '-');
    ParsePortIff(raw, 0);
    ParsePortIff(item, 0);
    if Cut(item, '-').Some? {
      var d := |Cut(item, '-').value.0|;
      ParsePortIff(item[..d], 0);
      ParsePortIff(item[d + 1..], 0);
      assert item[d] == '-' && '-' in item;
      assert forall e :: DashAt(item, e, range) ==> e == d;
      assert (exists e :: DashAt(item, e, range)) <==> DashAt(item, d, range);
    } else {
      assert forall e :: !DashAt(item, e, range);
    }
  }

  /** Some item is neither blank nor a range. */
  ghost predicate SomeBadRange(items: seq<string>) {
    exists i :: 0 <= i < |items| && BadRangeText(items[i])
  }

  ghost predicate BadRangeText(raw: string) {
    Strip(raw) != "" && forall range :: !GoodRange(raw, range)
  }

  lemma BadRangeIff(raw: string)
    ensures ReadRange(raw).Err? <==> BadRangeText(raw)
  {
    hide Strip, GoodRange, ReadRange;
    RangeIff(raw, Range(0, 0));
    forall range ensures ReadRange(raw) == Ok(Some(range)) <==> GoodRange(raw, range) {
      RangeIff(raw, range);
    }
    if ReadRange(raw).Ok? && ReadRange(raw).value.Some? {
      assert GoodRange(raw, ReadRange(raw).value.value);
    }
  }

  lemma {:induction false} FirstBadRange(items: seq<string>, k: nat)
    requires k <= |items|
    ensures RangesUpTo(items, k).Err? <==> exists i | 0 <= i < k :: ReadRange(items[i]).Err?
  {
    if k > 0 {
      FirstBadRange(items, k - 1);
    }
  }

  /** THEOREM (when the ranges are invalid). The annotation is rejected exactly when one of
      its items is neither blank, nor a port number, nor two of them in order. */
  lemma RangesRejectedIff(value: string)
    ensures RangesOf(value).Err? <==> SomeBadRange(Split(value, ','))
  {
    hide ReadRange, BadRangeText;
    var items := Split(value, ',');
    FirstBadRange(items, |items|);
    if RangesOf(value).Err? {
      var i :| 0 <= i < |items| && ReadRange(items[i]).Err?;
      BadRangeIff(items[i]);
    } else if i :| 0 <= i < |items| && BadRangeText(items[i]) {
      BadRangeIff(items[i]);
      assert ReadRange(items[i]).Err?;
    }
  }

  // ---- first fit ----

  function FirstFreeIn(lo: int, hi: int, used: set<PortKey>, proto: string): Option<int>
    decreases hi - lo
  {
    if lo > hi then None
    else if PortKey(lo, proto) !in used then Some(lo)
    else FirstFreeIn(lo + 1, hi, used, proto)
  }

  function FirstFree(ranges: seq<Range>, used: set<PortKey>, proto: string): Option<int> {
    if ranges == [] then None
    else
      match FirstFreeIn(ranges[0].lo, ranges[0].hi, used, proto)
      case Some(p) => Some(p)
      case None => FirstFree(ranges[1..], used, proto)
  }

  /** `port` of range `i` comes before every other free port, in range order. */
  ghost predicate EarliestAt(ranges: seq<Range>, used: set<PortKey>, proto: string, i: nat, port: int) {
    && i < |ranges| && InRange(ranges[i], port) && PortKey(port, proto) !in used
    && (forall q | ranges[i].lo <= q < port :: PortKey(q, proto) in used)
    && (forall j, q | 0 <= j < i && InRange(ranges[j], q) :: PortKey(q, proto) in used)
  }

  lemma {:induction false} FirstFreeInExact(lo: int, hi: int, used: set<PortKey>, proto: string)
    ensures var r := FirstFreeIn(lo, hi, used, proto);
      (r.Some? ==> lo <= r.value <= hi && PortKey(r.value, proto) !in used)
      && (r.Some? ==> forall q | lo <= q < r.value :: PortKey(q, proto) in used)
      && (r.None? ==> forall q | lo <= q <= hi :: PortKey(q, proto) in used)
    decreases hi - lo
  {
    if lo <= hi && PortKey(lo, proto) in used {
      FirstFreeInExact(lo + 1, hi, used, proto);
      forall q | lo <= q <= hi && (FirstFreeIn(lo, hi, used, proto).Some? ==>
        q < FirstFreeIn(lo, hi, used, proto).value)
        ensures PortKey(q, proto) in used
      {
        if q > lo {
          assert lo + 1 <= q;
        }
      }
    }
  }

  /** The search is exact first fit: it returns the first unused port in range
      order, and fails exactly when every port of every range is used. */
  lemma {:induction false} FirstFreeExact(ranges: seq<Range>, used: set<PortKey>, proto: string)
    ensures var r := FirstFree(ranges, used, proto);
      (r.Some? ==> exists i: nat :: EarliestAt(ranges, used, proto, i, r.value))
      && (r.None? <==> forall i, q | 0 <= i < |ranges| && InRange(ranges[i], q) :: PortKey(q, proto) in used)
  {
    if ranges != [] {
      FirstFreeInExact(ranges[0].lo, ranges[0].hi, used, proto);
      var tail := ranges[1..];
      FirstFreeExact(tail, used, proto);
      var r := FirstFree(ranges, used, proto);
      if FirstFreeIn(ranges[0].lo, ranges[0].hi, used, proto).Some? {
        assert EarliestAt(ranges, used, proto, 0, r.value);
      } else if r.Some? {
        var i: nat :| EarliestAt(tail, used, proto, i, r.value);
        assert EarliestAt(ranges, used, proto, i + 1, r.value) by {
          forall j, q | 0 <= j < i + 1 && InRange(ranges[j], q) ensures PortKey(q, proto) in used {
            if j > 0 {
              assert InRange(tail[j - 1], q);
            }
          }
        }
      } else {
        forall i, q | 0 <= i < |ranges| && InRange(ranges[i], q) ensures PortKey(q, proto) in used {
          if i > 0 {
            assert InRange(tail[i - 1], q);
          }
        }
      }
    }
  }

  lemma FirstFreeSound(ranges: seq<Range>, used: set<PortKey>, proto: string)
    ensures var r := FirstFree(ranges, used, proto);
      r.Some? ==> Contains(ranges, r.value) && PortKey(r.value, proto) !in used
  {
    FirstFreeExact(ranges, used, proto);
    var r := FirstFree(ranges, used, proto);
    if r.Some? {
      var i: nat :| EarliestAt(ranges, used, proto, i, r.value);
      assert InRange(ranges[i], r.value);
    }
  }

  // ---- pigeonhole ----

  function PortsIn(lo: int, hi: int): (s: set<int>)
    ensures forall q :: q in s <==> lo <= q <= hi
    decreases hi - lo
  {
    if lo > hi then {} else {lo} + PortsIn(lo + 1, hi)
  }

  /** All the port numbers of the ranges. */
  function Covered(ranges: seq<Range>): (s: set<int>)
    ensures forall q :: q in s <==> Contains(ranges, q)
  {
    if ranges == [] then {}
    else
      var rest := Covered(ranges[1..]);
      assert forall q :: Contains(ranges, q) <==> InRange(ranges[0], q) || Contains(ranges[1..], q) by {
        forall q ensures Contains(ranges, q) <==> InRange(ranges[0], q) || Contains(ranges[1..], q) {
          if i :| 0 <= i < |ranges| && InRange(ranges[i], q) {
            if i > 0 {
              assert InRange(ranges[1..][i - 1], q);
            }
          }
          if i :| 0 <= i < |ranges[1..]| && InRange(ranges[1..][i], q) {
            assert InRange(ranges[i + 1], q);
          }
        }
      }
      PortsIn(ranges[0].lo, ranges[0].hi) + rest
  }

  lemma {:induction false} SubsetSize<T>(a: set<T>, b: set<T>)
    requires a <= b
    ensures |a| <= |b|
    decreases a
  {
    if a != {} {
      var x :| x in a;
      SubsetSize(a - {x}, b - {x});
    }
  }

  /** Pigeonhole: with fewer ports of the protocol in use than the ranges contain,
      the search cannot fail. */
  lemma FirstFreeSucceeds(ranges: seq<Range>, used: set<PortKey>, proto: string)
    requires |set k | k in used && k.proto == proto :: k.port| < |Covered(ranges)|
    ensures FirstFree(ranges, used, proto).Some?
  {
    FirstFreeExact(ranges, used, proto);
    if FirstFree(ranges, used, proto).None? {
      var taken := set k | k in used && k.proto == proto :: k.port;
      forall q | q in Covered(ranges) ensures q in taken {
        assert PortKey(q, proto) in used;
      }
      SubsetSize(Covered(ranges), taken);
    }
  }
}
