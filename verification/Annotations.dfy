/** The text annotations that port assignments travel through: the controller's
    `ports` annotation and the user's `external-ports` annotation. */
module Annotations {
  import opened Wrappers
  import opened Text

  /** One `(name, channel port, mux port)` entry of the `ports` annotation. */
  datatype PortLine = PortLine(name: string, channelPort: nat, muxPort: int)

  function LineText(line: PortLine): string {
    line.name + ":" + Dec(line.channelPort) + "->" + Int(line.muxPort)
  }

  function LineTexts(lines: seq<PortLine>): seq<string> {
    seq(|lines|, i requires 0 <= i < |lines| => LineText(lines[i]))
  }

  function FormatPorts(lines: seq<PortLine>): string {
    Join(LineTexts(lines), ", ")
  }

  /** What one comma-separated item does to the mapping being read. The third
      case is the unpacking error of an item whose only arrow stands before
      its first colon. */
  datatype Item = Skip | Pair(name: string, text: string) | Raises

  function ReadItem(raw: string): Item {
    var item := Strip(raw);
    if item == "" || Cut(item, ':').None? || CutArrow(item).None? then Skip
    else
      var halves := Cut(item, ':').value;
      match CutArrow(halves.1)
      case None => Raises
      case Some(rest) => Pair(Strip(halves.0), Strip(rest.1))
  }

  /** The mapping after the first `k` items; `None` once an item has raised. */
  function MappingsUpTo(items: seq<string>, k: nat): Option<map<string, string>>
    requires k <= |items|
  {
    if k == 0 then Some(map[])
    else
      match MappingsUpTo(items, k - 1)
      case None => None
      case Some(m) =>
        match ReadItem(items[k - 1])
        case Skip => Some(m)
        case Raises => None
        case Pair(name, text) => Some(m[name := text])
  }

  function PortMappings(value: string): Option<map<string, string>> {
    var items := Split(value, ',');
    MappingsUpTo(items, |items|)
  }

  lemma {:induction false} MappingsRaise(items: seq<string>, j: nat, k: nat)
    requires j <= k <= |items| && MappingsUpTo(items, j).None?
    ensures MappingsUpTo(items, k).None?
  {
    if j < k {
      MappingsRaise(items, j, k - 1);
    }
  }

  method ParsePortMappings(value: string) returns (mappings: Option<map<string, string>>)
    ensures mappings == PortMappings(value)
  {
    if value == "" {
      return Some(map[]);
    }
    var items := Split(value, ',');
    var found: map<string, string> := map[];
    for k := 0 to |items|
      invariant MappingsUpTo(items, k) == Some(found)
    {
      match ReadItem(items[k]) {
        case Skip =>
        case Raises =>
          MappingsRaise(items, k + 1, |items|);
          return None;
        case Pair(name, text) =>
          found := found[name := text];
      }
    }
    return Some(found);
  }

  // ---- when the read raises ----

  predicate ArrowAt(s: string, p: int) {
    0 <= p < |s| - 1 && s[p] == '-' && s[p + 1] == '>'
  }

  /** Position `c` is the first colon of `s`, and every arrow of `s` stands before it. */
  ghost predicate ArrowsBeforeColon(s: string, c: int) {
    && 0 <= c < |s| && s[c] == ':' && ':' !in s[..c]
    && (exists p :: p < c && ArrowAt(s, p))
    && (forall p | c < p :: !ArrowAt(s, p))
  }

  ghost predicate Misplaced(raw: string) {
    exists c :: ArrowsBeforeColon(Strip(raw), c)
  }

  ghost predicate SomeMisplaced(items: seq<string>) {
    exists i :: 0 <= i < |items| && Misplaced(items[i])
  }

  lemma {:induction false} CutArrowPosition(s: string)
    ensures CutArrow(s).None? <==> forall p :: !ArrowAt(s, p)
    ensures CutArrow(s).Some? ==> var n := |CutArrow(s).value.0|;
      ArrowAt(s, n) && (forall p | p < n :: !ArrowAt(s, p)) && CutArrow(s).value == (s[..n], s[n + 2..])
  {
    if |s| >= 2 && !ArrowAt(s, 0) {
      CutArrowPosition(s[1..]);
      forall p ensures ArrowAt(s, p) <==> ArrowAt(s[1..], p - 1) {}
      assert forall p :: ArrowAt(s[1..], p) ==> ArrowAt(s, p + 1);
      if CutArrow(s).Some? {
        var n := |CutArrow(s).value.0|;
        assert s[..n] == [s[0]] + s[1..][..n - 1] && s[n + 2..] == s[1..][n + 1..];
      }
    } else if |s| >= 2 {
      assert ArrowAt(s, 0);
    }
  }

  /** An item raises exactly when it has a colon, an arrow before its first colon, and
      no arrow after it. */
  lemma RaisesIff(raw: string)
    ensures ReadItem(raw).Raises? <==> Misplaced(raw)
  {
    hide Strip, Cut, CutArrow;
    var s := Strip(raw);
    CutPosition(s, ':');
    CutArrowPosition(s);
    if Cut(s, ':').Some? {
      var c := |Cut(s, ':').value.0|;
      var rest := s[c + 1..];
      CutArrowPosition(rest);
      assert forall p :: ArrowAt(rest, p) ==> ArrowAt(s, p + c + 1);
      assert forall p :: c < p && ArrowAt(s, p) ==> ArrowAt(rest, p - c - 1);
      assert !ArrowAt(s, c);
      assert forall d :: ArrowsBeforeColon(s, d) ==> d == c;
      if ReadItem(raw).Raises? {
        var p :| ArrowAt(s, p);
        assert p < c;
        assert ArrowsBeforeColon(s, c);
      }
    }
  }

  /** Position `c` is the first colon, and `p` the first arrow after it. */
  ghost predicate ReadsAt(s: string, c: int, p: int) {
    && 0 <= c < p && c < |s| && s[c] == ':' && ':' !in s[..c]
    && ArrowAt(s, p) && forall q | c < q < p :: !ArrowAt(s, q)
  }

  /** Otherwise, an item with an arrow after its first colon maps the text before the
      colon to the text after the first such arrow, both without outer blanks. */
  lemma PairIff(raw: string, c: int, p: int)
    requires ReadsAt(Strip(raw), c, p)
    ensures ReadItem(raw) == Pair(Strip(Strip(raw)[..c]), Strip(Strip(raw)[p + 2..]))
  {
    hide Strip, Cut, CutArrow;
    var s := Strip(raw);
    CutPosition(s, ':');
    CutArrowPosition(s);
    var rest := s[c + 1..];
    CutArrowPosition(rest);
    assert ArrowAt(rest, p - c - 1);
    assert forall q :: ArrowAt(rest, q) ==> ArrowAt(s, q + c + 1);
    assert |Cut(s, ':').value.0| == c;
    assert |CutArrow(rest).value.0| == p - c - 1;
    assert rest[p - c - 1 + 2..] == s[p + 2..];
  }

  /** Any item that neither raises nor has such an arrow is passed over. */
  lemma SkipIff(raw: string)
    ensures ReadItem(raw).Skip? <==> !Misplaced(raw) && forall c, p :: !ReadsAt(Strip(raw), c, p)
  {
    hide Strip, Cut, CutArrow;
    var s := Strip(raw);
    RaisesIff(raw);
    forall c, p | ReadsAt(s, c, p) ensures ReadItem(raw).Pair? {
      PairIff(raw, c, p);
    }
    if ReadItem(raw).Pair? {
      CutPosition(s, ':');
      var c := |Cut(s, ':').value.0|;
      var rest := s[c + 1..];
      CutArrowPosition(rest);
      var p := |CutArrow(rest).value.0| + c + 1;
      assert ArrowAt(s, p);
      forall q | c < q < p ensures !ArrowAt(s, q) {
        assert ArrowAt(s, q) ==> ArrowAt(rest, q - c - 1);
      }
      assert ReadsAt(s, c, p);
    }
  }

  lemma {:induction false} FirstRaise(items: seq<string>, k: nat)
    requires k <= |items|
    ensures MappingsUpTo(items, k).None? <==> exists i | 0 <= i < k :: ReadItem(items[i]).Raises?
  {
    if k > 0 {
      FirstRaise(items, k - 1);
    }
  }

  /** THEOREM (when the read raises). An annotation cannot be read exactly when, in some
      comma-separated item, every arrow (and there is one) stands before the first colon. */
  lemma MappingsRaiseIff(value: string)
    ensures PortMappings(value).None? <==> SomeMisplaced(Split(value, ','))
  {
    hide ReadItem, Misplaced;
    var items := Split(value, ',');
    FirstRaise(items, |items|);
    if PortMappings(value).None? {
      var i :| 0 <= i < |items| && ReadItem(items[i]).Raises?;
      RaisesIff(items[i]);
    } else if i :| 0 <= i < |items| && Misplaced(items[i]) {
      RaisesIff(items[i]);
      assert ReadItem(items[i]).Raises?;
    }
  }

  const ARROW_FIRST := "a->b:80"

  /** A text on which it raises. */
  lemma ArrowFirstRaises()
    ensures PortMappings(ARROW_FIRST).None?
  {
    SplitAtom(ARROW_FIRST, ',');
    StripTrimmed(ARROW_FIRST);
    assert Split(ARROW_FIRST, ',') == [ARROW_FIRST];
    var s := ARROW_FIRST;
    assert ArrowAt(s, 1) && ArrowsBeforeColon(s, 4);
    assert Misplaced(s);
    MappingsRaiseIff(s);
    assert Misplaced(Split(s, ',')[0]);
  }

  // ---- printing and reading back ----

  predicate CleanNames(lines: seq<PortLine>) {
    forall i | 0 <= i < |lines| :: Clean(lines[i].name)
  }

  predicate DistinctNames(lines: seq<PortLine>) {
    forall i, j | 0 <= i < j < |lines| :: lines[i].name != lines[j].name
  }

  function LastPorts(lines: seq<PortLine>, k: nat): map<string, string>
    requires k <= |lines|
  {
    if k == 0 then map[] else LastPorts(lines, k - 1)[lines[k - 1].name := Int(lines[k - 1].muxPort)]
  }

  lemma LineCuts(line: PortLine)
    requires Clean(line.name)
    ensures var ports := Dec(line.channelPort) + "->" + Int(line.muxPort);
      && Cut(LineText(line), ':') == Some((line.name, ports))
      && CutArrow(ports) == Some((Dec(line.channelPort), Int(line.muxPort)))
      && CutArrow(LineText(line)).Some?
  {
    hide Dec, Int, Cut, CutArrow;
    var ports := Dec(line.channelPort) + "->" + Int(line.muxPort);
    assert LineText(line) == line.name + [':'] + ports;
    ParseDec(line.channelPort);
    CutAt(line.name, ports, ':');
    CutArrowAt(Dec(line.channelPort), Int(line.muxPort));
    CutArrowBehind(line.name + [':'], ports);
  }

  lemma LineReads(line: PortLine)
    requires Clean(line.name)
    ensures ReadItem(LineText(line)) == Pair(line.name, Int(line.muxPort))
    ensures ReadItem([' '] + LineText(line)) == Pair(line.name, Int(line.muxPort))
  {
    hide Dec, Int, Cut, CutArrow, Strip, Clean, Trimmed, LineText;
    LineCuts(line);
    LineTextTrimmed(line);
    IntClean(line.muxPort);
    CleanIsTrimmed(line.name);
    CleanIsTrimmed(Int(line.muxPort));
    StripTrimmed(line.name);
    StripTrimmed(Int(line.muxPort));
    StripTrimmed(LineText(line));
    StripLeadingBlank(LineText(line));
  }

  lemma LineHasNoComma(line: PortLine)
    requires Clean(line.name)
    ensures ',' !in LineText(line)
  {
    hide Dec, Int;
    ParseDec(line.channelPort);
    IntClean(line.muxPort);
  }

  lemma LineTextTrimmed(line: PortLine)
    requires Clean(line.name)
    ensures Trimmed(LineText(line)) && LineText(line) != ""
  {
    hide Dec, Int;
    var text := LineText(line);
    IntClean(line.muxPort);
    assert text[0] == if line.name == "" then ':' else line.name[0];
    var last := Int(line.muxPort);
    assert text[|text| - 1] == last[|last| - 1] && last[|last| - 1] in last;
    if line.name != "" {
      assert line.name[0] in line.name;
    }
  }

  lemma SpacedLineReads(lines: seq<PortLine>, i: nat)
    requires CleanNames(lines) && i < |lines|
    ensures ReadItem(Spaced(LineTexts(lines))[i]) == Pair(lines[i].name, Int(lines[i].muxPort))
  {
    LineReads(lines[i]);
    assert LineTexts(lines)[i] == LineText(lines[i]);
  }

  lemma {:induction false} MappingsOfLines(lines: seq<PortLine>, k: nat)
    requires CleanNames(lines) && k <= |lines| == |Spaced(LineTexts(lines))|
    ensures MappingsUpTo(Spaced(LineTexts(lines)), k) == Some(LastPorts(lines, k))
  {
    hide ReadItem, Spaced, LineTexts, CleanNames;
    if k > 0 {
      MappingsOfLines(lines, k - 1);
      SpacedLineReads(lines, k - 1);
    }
  }

  /** Whatever list the controller prints, reading the annotation gives back the
      mux port of every name; for a repeated name, of its last entry. */
  lemma PortMappingsOfFormat(lines: seq<PortLine>)
    requires CleanNames(lines)
    ensures PortMappings(FormatPorts(lines)) == Some(LastPorts(lines, |lines|))
  {
    if lines == [] {
      assert Split("", ',') == [""];
      assert ReadItem("") == Skip;
      assert MappingsUpTo([""], 1) == Some(map[]);
    } else {
      forall piece | piece in LineTexts(lines) ensures ',' !in piece {
        var i :| 0 <= i < |lines| && piece == LineText(lines[i]);
        LineHasNoComma(lines[i]);
      }
      SplitJoin(LineTexts(lines));
      MappingsOfLines(lines, |lines|);
    }
  }

  lemma {:induction false} LastPortsAt(lines: seq<PortLine>, k: nat, i: nat)
    requires i < k <= |lines| && DistinctNames(lines)
    ensures lines[i].name in LastPorts(lines, k)
    ensures LastPorts(lines, k)[lines[i].name] == Int(lines[i].muxPort)
  {
    if i < k - 1 {
      LastPortsAt(lines, k - 1, i);
    }
  }

  /** The round trip: every printed mux port is read back as the same number. */
  lemma PrintedPortReadsBack(lines: seq<PortLine>, i: nat)
    requires CleanNames(lines) && DistinctNames(lines)
    requires i < |lines| && 1 <= lines[i].muxPort <= 65535
    ensures PortMappings(FormatPorts(lines)).Some?
    ensures lines[i].name in PortMappings(FormatPorts(lines)).value
    ensures ParsePort(PortMappings(FormatPorts(lines)).value[lines[i].name]) == Some(lines[i].muxPort)
  {
    PortMappingsOfFormat(lines);
    LastPortsAt(lines, |lines|, i);
    ParsePortDec(lines[i].muxPort);
  }

  // ---- external-ports ----

  type PortNumber = n: int | 1 <= n <= 65535 witness 1

  /** An `external-ports` request: `auto` or a fixed mux port. */
  datatype Request = Auto | Fixed(port: PortNumber)

  function ReadRequest(text: string): Result<Request> {
    if Lower(Strip(text)) == "auto" then Ok(Auto)
    else
      match ParsePort(Strip(text))
      case None => Err(BadPort)
      case Some(n) => Ok(Fixed(n))
  }

  /** A blank item asks for nothing; any other must be `name:port`. */
  function ReadExternal(raw: string): Result<Option<(string, Request)>> {
    var item := Strip(raw);
    if item == "" then Ok(None)
    else
      match Cut(item, ':')
      case None => Err(BadEntry)
      case Some(halves) =>
        if Strip(halves.0) == "" then Err(MissingName)
        else
          match ReadRequest(halves.1)
          case Err(e) => Err(e)
          case Ok(request) => Ok(Some((Strip(halves.0), request)))
  }

  function ExternalUpTo(items: seq<string>, k: nat): Result<map<string, Request>>
    requires k <= |items|
  {
    if k == 0 then Ok(map[])
    else
      match ExternalUpTo(items, k - 1)
      case Err(e) => Err(e)
      case Ok(m) =>
        match ReadExternal(items[k - 1])
        case Err(e) => Err(e)
        case Ok(None) => Ok(m)
        case Ok(Some(entry)) => Ok(m[entry.0 := entry.1])
  }

  function ExternalPorts(value: string): Result<map<string, Request>> {
    var items := Split(value, ',');
    ExternalUpTo(items, |items|)
  }

  lemma {:induction false} ExternalFails(items: seq<string>, j: nat, k: nat)
    requires j <= k <= |items| && ExternalUpTo(items, j).Err?
    ensures ExternalUpTo(items, k) == ExternalUpTo(items, j)
  {
    if j < k {
      ExternalFails(items, j, k - 1);
    }
  }

  method ParseExternalPortsAnnotation(value: string) returns (ports: Result<map<string, Request>>)
    ensures ports == ExternalPorts(value)
  {
    if value == "" {
      return Ok(map[]);
    }
    var items := Split(value, ',');
    var found: map<string, Request> := map[];
    for k := 0 to |items|
      invariant ExternalUpTo(items, k) == Ok(found)
    {
      match ReadExternal(items[k]) {
        case Err(e) =>
          ExternalFails(items, k + 1, |items|);
          return Err(e);
        case Ok(None) =>
        case Ok(Some(entry)) =>
          found := found[entry.0 := entry.1];
      }
    }
    return Ok(found);
  }

  // ---- which requests are accepted ----

  /** The word `auto`, in any case. */
  predicate SpellsAuto(s: string) {
    && |s| == 4 && (s[0] == 'a' || s[0] == 'A') && (s[1] == 'u' || s[1] == 'U')
    && (s[2] == 't' || s[2] == 'T') && (s[3] == 'o' || s[3] == 'O')
  }

  lemma AutoAnyCase(text: string)
    ensures ReadRequest(text) == Ok(Auto) <==> SpellsAuto(Strip(text))
    ensures !SpellsAuto(Strip(text)) ==>
      (ReadRequest(text).Ok? <==> ParsePort(text).Some?)
      && (ParsePort(text).Some? ==> ReadRequest(text) == Ok(Fixed(ParsePort(text).value)))
      && (ParsePort(text).None? ==> ReadRequest(text) == Err(BadPort))
  {
    ParsePortIff(text, 0);
    var s := Strip(text);
    if |s| == 4 {
      assert Lower(s) == [LowerChar(s[0]), LowerChar(s[1]), LowerChar(s[2]), LowerChar(s[3])];
    } else {
      assert |Lower(s)| == |s|;
    }
  }

  /** Position `c` is the first colon. */
  predicate FirstColon(s: string, c: int) {
    0 <= c < |s| && s[c] == ':' && ':' !in s[..c]
  }

  /** The item is `name:request` with a name, and with `auto` or a port number. */
  ghost predicate GoodEntry(raw: string, name: string, request: Request) {
    exists c :: EntryAt(Strip(raw), c, name, request)
  }

  ghost predicate EntryAt(item: string, c: int, name: string, request: Request) {
    && FirstColon(item, c) && name == Strip(item[..c]) && name != ""
    && match request
       case Auto => SpellsAuto(Strip(item[c + 1..]))
       case Fixed(n) => ParsePort(item[c + 1..]) == Some(n)
  }

  /** An item asks for a port exactly if it has that form, and is passed over exactly if
      it is blank; anything else is an error. */
  lemma EntryIff(raw: string, name: string, request: Request)
    ensures ReadExternal(raw) == Ok(Some((name, request))) <==> GoodEntry(raw, name, request)
    ensures ReadExternal(raw) == Ok(None) <==> Strip(raw) == ""
  {
    hide Strip, Cut, ReadRequest, SpellsAuto, ParsePort;
    var item := Strip(raw);
    CutPosition(item, ':');
    if Cut(item, ':').Some? {
      var c := |Cut(item, ':').value.0|;
      assert FirstColon(item, c) && forall d :: FirstColon(item, d) ==> d == c;
      AutoAnyCase(item[c + 1..]);
      NotAutoAndNumber(item[c + 1..]);
      assert GoodEntry(raw, name, request) <==> EntryAt(item, c, name, request);
    } else {
      assert forall d :: !FirstColon(item, d);
    }
  }

  lemma NotAutoAndNumber(text: string)
    ensures SpellsAuto(Strip(text)) ==> ParsePort(text).None?
  {
    if SpellsAuto(Strip(text)) {
      assert Strip(text)[0] in Strip(text);
    }
  }

  /** The kinds of error. */
  lemma EntryErrors(raw: string)
    ensures ReadExternal(raw) == Err(BadEntry) <==> Strip(raw) != "" && ':' !in Strip(raw)
    ensures forall c | FirstColon(Strip(raw), c) ::
      ReadExternal(raw) == Err(MissingName) <==> Strip(Strip(raw)[..c]) == ""
  {
    hide Strip, Cut, ReadRequest;
    var item := Strip(raw);
    CutPosition(item, ':');
    if Cut(item, ':').Some? {
      var c := |Cut(item, ':').value.0|;
      assert forall d :: FirstColon(item, d) ==> d == c;
      RequestErrors(item[c + 1..]);
    }
  }

  lemma RequestErrors(text: string)
    ensures ReadRequest(text).Err? ==> ReadRequest(text).error == BadPort
  {}

  /** Some item neither is blank nor has the form of an entry. */
  ghost predicate SomeBadEntry(items: seq<string>) {
    exists i :: 0 <= i < |items| && BadEntryText(items[i])
  }

  ghost predicate BadEntryText(raw: string) {
    Strip(raw) != "" && forall name, request :: !GoodEntry(raw, name, request)
  }

  lemma BadEntryIff(raw: string)
    ensures ReadExternal(raw).Err? <==> BadEntryText(raw)
  {
    hide Strip, GoodEntry, ReadExternal;
    EntryIff(raw, "", Auto);
    forall name, request ensures ReadExternal(raw) == Ok(Some((name, request))) <==> GoodEntry(raw, name, request) {
      EntryIff(raw, name, request);
    }
    if ReadExternal(raw).Ok? && ReadExternal(raw).value.Some? {
      var entry := ReadExternal(raw).value.value;
      assert GoodEntry(raw, entry.0, entry.1);
    }
  }

  lemma {:induction false} FirstBadEntry(items: seq<string>, k: nat)
    requires k <= |items|
    ensures ExternalUpTo(items, k).Err? <==> exists i | 0 <= i < k :: ReadExternal(items[i]).Err?
  {
    if k > 0 {
      FirstBadEntry(items, k - 1);
    }
  }

  /** THEOREM (when the requests are invalid). The annotation is rejected exactly when one
      of its items is neither blank nor an entry. */
  lemma ExternalRejectedIff(value: string)
    ensures ExternalPorts(value).Err? <==> SomeBadEntry(Split(value, ','))
  {
    hide ReadExternal, BadEntryText;
    var items := Split(value, ',');
    FirstBadEntry(items, |items|);
    if ExternalPorts(value).Err? {
      var i :| 0 <= i < |items| && ReadExternal(items[i]).Err?;
      BadEntryIff(items[i]);
    } else if i :| 0 <= i < |items| && BadEntryText(items[i]) {
      BadEntryIff(items[i]);
      assert ReadExternal(items[i]).Err?;
    }
  }

  /** Item `i` is the last entry for `name`, and asks for `request`. */
  ghost predicate LastEntry(items: seq<string>, k: nat, i: nat, name: string, request: Request) {
    && i < k <= |items| && GoodEntry(items[i], name, request)
    && forall j, other | i < j < k :: !GoodEntry(items[j], name, other)
  }

  /** The last entry for `name` asks for `request`. */
  ghost predicate Requested(items: seq<string>, name: string, request: Request) {
    exists i: nat :: LastEntry(items, |items|, i, name, request)
  }

  lemma {:induction false} LastEntryWins(items: seq<string>, k: nat, name: string, request: Request)
    requires k <= |items| && ExternalUpTo(items, k).Ok?
    ensures (name in ExternalUpTo(items, k).value && ExternalUpTo(items, k).value[name] == request)
      <==> exists i: nat :: LastEntry(items, k, i, name, request)
  {
    hide GoodEntry, ReadExternal;
    if k > 0 {
      var front: nat := k - 1;
      LastEntryWins(items, front, name, request);
      var raw := items[k - 1];
      forall other ensures ReadExternal(raw) == Ok(Some((name, other))) <==> GoodEntry(raw, name, other) {
        EntryIff(raw, name, other);
      }
      if i: nat :| LastEntry(items, k, i, name, request) {
        if i < k - 1 {
          assert LastEntry(items, k - 1, i, name, request);
        }
      }
      if GoodEntry(raw, name, request) {
        assert LastEntry(items, k, k - 1, name, request);
      } else if i: nat :| LastEntry(items, front, i, name, request) {
        if forall other :: !GoodEntry(raw, name, other) {
          assert LastEntry(items, k, i, name, request);
        }
      }
    }
  }

  /** THEOREM (what is requested). An accepted annotation requests for a name what the
      last entry for the name says, and nothing for any other name. */
  lemma RequestedIff(value: string, name: string, request: Request)
    requires ExternalPorts(value).Ok?
    ensures (name in ExternalPorts(value).value && ExternalPorts(value).value[name] == request)
      <==> Requested(Split(value, ','), name, request)
  {
    hide GoodEntry, ReadExternal, LastEntry;
    var items := Split(value, ',');
    LastEntryWins(items, |items|, name, request);
  }

  /** `_external_port_modes`: the names that some item marks `auto`. */
  function ReadMode(raw: string): Option<string> {
    var item := Strip(raw);
    if item == "" then None
    else
      match Cut(item, ':')
      case None => None
      case Some(halves) =>
        if Lower(Strip(halves.1)) == "auto" then Some(Strip(halves.0)) else None
  }

  function ModesUpTo(items: seq<string>, k: nat): set<string>
    requires k <= |items|
  {
    if k == 0 then {}
    else
      match ReadMode(items[k - 1])
      case None => ModesUpTo(items, k - 1)
      case Some(name) => ModesUpTo(items, k - 1) + {name}
  }

  function AutoNames(value: string): set<string> {
    var items := Split(value, ',');
    ModesUpTo(items, |items|)
  }

  method ExternalPortModes(value: string) returns (names: set<string>)
    ensures names == AutoNames(value)
  {
    if value == "" {
      return {};
    }
    var items := Split(value, ',');
    names := {};
    for k := 0 to |items|
      invariant names == ModesUpTo(items, k)
    {
      match ReadMode(items[k]) {
        case None =>
        case Some(name) => names := names + {name};
      }
    }
  }

  // ---- where the two readings of external-ports agree ----

  /** Item `i` of the annotation asks for a port of `name`. */
  predicate Asks(items: seq<string>, i: nat, name: string) {
    i < |items| && ReadExternal(items[i]).Ok? && ReadExternal(items[i]).value.Some?
    && ReadExternal(items[i]).value.value.0 == name
  }

  predicate AsksAuto(items: seq<string>, i: nat, name: string) {
    Asks(items, i, name) && ReadExternal(items[i]).value.value.1.Auto?
  }

  /** The last item that asks for a port of `name` asks for `auto`. */
  predicate EndsAuto(items: seq<string>, k: nat, name: string) {
    exists i | 0 <= i < k :: AsksAuto(items, i, name) && forall j | i < j < k :: !Asks(items, j, name)
  }

  lemma {:induction false} ExternalAutoIff(items: seq<string>, k: nat, name: string)
    requires k <= |items| && ExternalUpTo(items, k).Ok?
    ensures var m := ExternalUpTo(items, k).value;
      (name in m && m[name].Auto?) <==> EndsAuto(items, k, name)
  {
    if k > 0 {
      ExternalAutoIff(items, k - 1, name);
      if Asks(items, k - 1, name) {
        if AsksAuto(items, k - 1, name) {
          assert EndsAuto(items, k, name);
        }
      } else if EndsAuto(items, k - 1, name) {
        var i :| 0 <= i < k - 1 && AsksAuto(items, i, name) && forall j | i < j < k - 1 :: !Asks(items, j, name);
        assert forall j | i < j < k :: !Asks(items, j, name);
      }
    }
  }

  lemma {:induction false} ModesIff(items: seq<string>, k: nat, name: string)
    requires k <= |items| && ExternalUpTo(items, k).Ok?
    ensures name in ModesUpTo(items, k) <==> exists i | 0 <= i < k :: AsksAuto(items, i, name)
  {
    if k > 0 {
      ModesIff(items, k - 1, name);
      assert ReadMode(items[k - 1]) == Some(name) <==> AsksAuto(items, k - 1, name);
    }
  }

  /** On an annotation the controller accepts, the recorded auto/static label of a
      name agrees with the mapping actually used if and only if the name is never
      marked `auto`, or its last entry is. */
  lemma LabelsAgreeIff(value: string, name: string)
    requires ExternalPorts(value).Ok?
    ensures var m := ExternalPorts(value).value;
      var items := Split(value, ',');
      (name in AutoNames(value) <==> name in m && m[name].Auto?)
      <==> ((forall i | 0 <= i < |items| :: !AsksAuto(items, i, name)) || EndsAuto(items, |items|, name))
  {
    var items := Split(value, ',');
    ExternalAutoIff(items, |items|, name);
    ModesIff(items, |items|, name);
  }

  /** No name is asked for twice. */
  ghost predicate NamesOnce(value: string) {
    var items := Split(value, ',');
    forall i, j, name | 0 <= i < j < |items| && Asks(items, i, name) :: !Asks(items, j, name)
  }

  /** In particular the labels agree whenever no name is repeated. */
  lemma LabelsAgree(value: string, name: string)
    requires ExternalPorts(value).Ok? && NamesOnce(value)
    ensures var m := ExternalPorts(value).value;
      name in AutoNames(value) <==> name in m && m[name].Auto?
  {
    var items := Split(value, ',');
    LabelsAgreeIff(value, name);
    if i :| 0 <= i < |items| && AsksAuto(items, i, name) {
      assert EndsAuto(items, |items|, name);
    }
  }

  lemma ReadsEntry(name: string, request: string)
    requires Clean(name) && name != "" && Clean(request) && request != ""
    ensures var item := name + [':'] + request;
      ',' !in item && Strip(item) == item && item != "" && Cut(item, ':') == Some((name, request))
    ensures Strip(name) == name && Strip(request) == request
  {
    var item := name + [':'] + request;
    CutAt(name, request, ':');
    CleanIsTrimmed(name);
    CleanIsTrimmed(request);
    assert item[0] == name[0] && item[|item| - 1] == request[|request| - 1];
    StripTrimmed(item);
    StripTrimmed(name);
    StripTrimmed(request);
  }

  lemma TwoItems(items: seq<string>, name: string, port: PortNumber)
    requires |items| == 2
    requires ReadExternal(items[0]) == Ok(Some((name, Auto))) && ReadMode(items[0]) == Some(name)
    requires ReadExternal(items[1]) == Ok(Some((name, Fixed(port)))) && ReadMode(items[1]) == None
    ensures ExternalUpTo(items, 2) == Ok(map[name := Fixed(port)])
    ensures ModesUpTo(items, 2) == {name}
  {
    assert ExternalUpTo(items, 1) == Ok(map[name := Auto]);
    assert map[name := Auto][name := Fixed(port)] == map[name := Fixed(port)];
    assert ModesUpTo(items, 1) == {name};
  }

  /** The annotations on which they differ, one for every name and port: an `auto`
      entry followed by a fixed one. The port is fixed, the label says auto. */
  lemma LabelsCanDisagree(name: string, port: PortNumber)
    requires Clean(name) && name != ""
    ensures var value := name + [':'] + "auto" + [','] + (name + [':'] + Dec(port));
      ExternalPorts(value) == Ok(map[name := Fixed(port)]) && AutoNames(value) == {name}
  {
    var first, second := name + [':'] + "auto", name + [':'] + Dec(port);
    ReadsEntry(name, "auto");
    ParseDec(port);
    ReadsEntry(name, Dec(port));
    SplitAtom(second, ',');
    SplitHead(first, second, ',');
    assert Split(first + [','] + second, ',') == [first, second];
    ParsePortDec(port);
    assert Lower("auto") == "auto";
    assert Lower(Dec(port)) != "auto" by {
      assert Dec(port)[0] in Dec(port) && Lower(Dec(port))[0] == Dec(port)[0];
    }
    TwoItems([first, second], name, port);
  }
}
