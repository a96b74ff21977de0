/** The string operations the annotations go through: strip, split, partition,
    lower case and decimal integers. Blanks are ASCII, digits are decimal. */
module Text {
  import opened Wrappers

  predicate IsSpace(c: char) {
    c == ' ' || c == '\t' || c == '\n' || c == '\r'
  }

  function StripLeft(s: string): string {
    if s != [] && IsSpace(s[0]) then StripLeft(s[1..]) else s
  }

  function StripRight(s: string): string {
    if s != [] && IsSpace(s[|s| - 1]) then StripRight(s[..|s| - 1]) else s
  }

  function Strip(s: string): string {
    StripRight(StripLeft(s))
  }

  /** A text that `Strip` leaves alone. */
  predicate Trimmed(s: string) {
    s != [] ==> !IsSpace(s[0]) && !IsSpace(s[|s| - 1])
  }

  /** A text in which none of the separators `, : /` nor a blank occurs. */
  predicate Clean(s: string) {
    forall c | c in s :: c != ',' && c != ':' && c != '/' && !IsSpace(c)
  }

  /** `s.split(sep)`: always at least one piece. */
  function Split(s: string, sep: char): (pieces: seq<string>)
    ensures |pieces| >= 1
  {
    if s == [] then [[]]
    else if s[0] == sep then [[]] + Split(s[1..], sep)
    else
      var rest := Split(s[1..], sep);
      [[s[0]] + rest[0]] + rest[1..]
  }

  /** `s.split(sep, 1)` when `sep` occurs in `s`. */
  function Cut(s: string, sep: char): Option<(string, string)> {
    if s == [] then None
    else if s[0] == sep then Some(([], s[1..]))
    else
      match Cut(s[1..], sep)
      case None => None
      case Some(halves) => Some(([s[0]] + halves.0, halves.1))
  }

  /** `s.split("->", 1)` when an arrow occurs in `s`. */
  function CutArrow(s: string): Option<(string, string)> {
    if |s| < 2 then None
    else if s[0] == '-' && s[1] == '>' then Some(([], s[2..]))
    else
      match CutArrow(s[1..])
      case None => None
      case Some(halves) => Some(([s[0]] + halves.0, halves.1))
  }

  /** `sep.join(pieces)`. */
  function Join(pieces: seq<string>, sep: string): string {
    if pieces == [] then []
    else if |pieces| == 1 then pieces[0]
    else pieces[0] + sep + Join(pieces[1..], sep)
  }

  function LowerChar(c: char): char {
    if 'A' <= c <= 'Z' then (c as int - 'A' as int + 'a' as int) as char else c
  }

  function Lower(s: string): string {
    seq(|s|, i requires 0 <= i < |s| => LowerChar(s[i]))
  }

  predicate IsDigit(c: char) {
    '0' <= c <= '9'
  }

  function Digit(d: int): (c: char)
    requires 0 <= d < 10
    ensures IsDigit(c)
  {
    ('0' as int + d) as char
  }

  /** Decimal text of a number, as an f-string prints it. */
  function Dec(n: nat): (s: string)
    ensures s != [] && forall c | c in s :: IsDigit(c)
  {
    if n < 10 then [Digit(n)] else Dec(n / 10) + [Digit(n % 10)]
  }

  /** Decimal text of any integer. */
  function Int(n: int): string {
    if n < 0 then "-" + Dec(-n) else Dec(n)
  }

  predicate AllDigits(s: string) {
    s != [] && forall c | c in s :: IsDigit(c)
  }

  function Digits(s: string): nat
    requires forall c | c in s :: IsDigit(c)
  {
    if s == [] then 0
    else
      assert IsDigit(s[|s| - 1]);
      10 * Digits(s[..|s| - 1]) + (s[|s| - 1] as int - '0' as int)
  }

  /** `int(s)`, where `None` stands for ValueError. */
  function ParseNat(s: string): Option<nat> {
    var t := Strip(s);
    if AllDigits(t) then Some(Digits(t)) else None
  }

  /** `validate_port_number`. */
  function ParsePort(s: string): (r: Option<int>)
    ensures r.Some? ==> 1 <= r.value <= 65535
  {
    match ParseNat(s)
    case None => None
    case Some(n) => if 1 <= n <= 65535 then Some(n) else None
  }

  // ---- facts ----

  lemma StripTrimmed(s: string)
    requires Trimmed(s)
    ensures Strip(s) == s
  {}

  lemma StripLeadingBlank(s: string)
    ensures Strip([' '] + s) == Strip(s)
  {
    assert ([' '] + s)[1..] == s;
  }

  lemma {:induction false} StripLeftTail(s: string)
    ensures |StripLeft(s)| <= |s| && StripLeft(s) == s[|s| - |StripLeft(s)|..]
  {
    if s != [] && IsSpace(s[0]) {
      StripLeftTail(s[1..]);
    }
  }

  lemma {:induction false} StripRightHead(s: string)
    ensures |StripRight(s)| <= |s| && StripRight(s) == s[..|StripRight(s)|]
    ensures StripRight(s) != [] ==> !IsSpace(StripRight(s)[|StripRight(s)| - 1])
  {
    if s != [] && IsSpace(s[|s| - 1]) {
      StripRightHead(s[..|s| - 1]);
    }
  }

  lemma {:induction false} StripLeftStops(s: string)
    ensures StripLeft(s) != [] ==> !IsSpace(StripLeft(s)[0])
  {
    if s != [] && IsSpace(s[0]) {
      StripLeftStops(s[1..]);
    }
  }

  /** Stripping keeps only characters of the text, and never leaves a blank at an end. */
  lemma StripIsTrimmed(s: string)
    ensures Trimmed(Strip(s))
    ensures forall c | c in Strip(s) :: c in s
  {
    StripLeftTail(s);
    StripLeftStops(s);
    StripRightHead(StripLeft(s));
  }

  lemma StripOnce(s: string)
    ensures Strip(Strip(s)) == Strip(s)
  {
    StripIsTrimmed(s);
    StripTrimmed(Strip(s));
  }

  lemma {:induction false} StripLeftBefore(s: string, b: char)
    requires IsSpace(b)
    ensures StripLeft(s + [b]) == if StripLeft(s) == [] then [] else StripLeft(s) + [b]
  {
    if s == [] {
      assert s + [b] == [b];
    } else {
      assert (s + [b])[1..] == s[1..] + [b];
      if IsSpace(s[0]) {
        StripLeftBefore(s[1..], b);
      }
    }
  }

  /** Spaces, tabs and line ends around a text do not count. */
  lemma StripBlanks(s: string, b: char)
    requires b == ' ' || b == '\t' || b == '\n' || b == '\r'
    ensures Strip([b] + s) == Strip(s) && Strip(s + [b]) == Strip(s)
  {
    assert ([b] + s)[1..] == s;
    StripLeftBefore(s, b);
    var t := StripLeft(s);
    assert (t + [b])[..|t|] == t;
  }

  /** Which texts are port numbers. */
  lemma ParsePortIff(s: string, n: int)
    ensures ParsePort(s) == Some(n) <==> AllDigits(Strip(s)) && Digits(Strip(s)) == n && 1 <= n <= 65535
    ensures ParsePort(Strip(s)) == ParsePort(s)
  {
    StripOnce(s);
  }

  lemma CleanIsTrimmed(s: string)
    requires Clean(s)
    ensures Trimmed(s)
  {
    if s != [] {
      assert s[0] in s && s[|s| - 1] in s;
    }
  }

  lemma {:induction false} SplitHead(a: string, rest: string, sep: char)
    requires sep !in a
    ensures Split(a + [sep] + rest, sep) == [a] + Split(rest, sep)
  {
    var s := a + [sep] + rest;
    if a == [] {
      assert s[1..] == rest;
    } else {
      assert a[0] in a && forall c | c in a[1..] :: c in a;
      assert s[1..] == a[1..] + [sep] + rest;
      SplitHead(a[1..], rest, sep);
      assert [a[0]] + a[1..] == a;
    }
  }

  lemma {:induction false} SplitAtom(a: string, sep: char)
    requires sep !in a
    ensures Split(a, sep) == [a]
  {
    if a != [] {
      assert a[0] in a && forall c | c in a[1..] :: c in a;
      SplitAtom(a[1..], sep);
      assert [a[0]] + a[1..] == a;
    }
  }

  /** No piece of a split holds the separator or a foreign character. */
  lemma {:induction false} SplitPieces(s: string, sep: char)
    ensures forall piece | piece in Split(s, sep) :: sep !in piece && forall c | c in piece :: c in s
  {
    if s != [] {
      SplitPieces(s[1..], sep);
      assert forall c | c in s[1..] :: c in s;
      assert s[0] in s;
      var rest := Split(s[1..], sep);
      assert rest[0] in rest;
      assert forall piece | piece in rest[1..] :: piece in rest;
    }
  }

  lemma {:induction false} CutPosition(s: string, sep: char)
    ensures Cut(s, sep).None? <==> sep !in s
    ensures Cut(s, sep).Some? ==> var n := |Cut(s, sep).value.0|;
      n < |s| && s[n] == sep && sep !in s[..n] && Cut(s, sep).value == (s[..n], s[n + 1..])
  {
    if s != [] && s[0] != sep {
      CutPosition(s[1..], sep);
      assert s == [s[0]] + s[1..];
      if Cut(s, sep).Some? {
        var n := |Cut(s, sep).value.0|;
        assert s[..n] == [s[0]] + s[1..][..n - 1] && s[n + 1..] == s[1..][n..];
      }
    }
  }

  lemma {:induction false} CutAt(a: string, rest: string, sep: char)
    requires sep !in a
    ensures Cut(a + [sep] + rest, sep) == Some((a, rest))
  {
    var s := a + [sep] + rest;
    if a == [] {
      assert s[1..] == rest;
    } else {
      assert a[0] in a && forall c | c in a[1..] :: c in a;
      assert s[1..] == a[1..] + [sep] + rest;
      CutAt(a[1..], rest, sep);
      assert [a[0]] + a[1..] == a;
    }
  }

  lemma {:induction false} CutArrowAt(a: string, rest: string)
    requires '-' !in a
    ensures CutArrow(a + "->" + rest) == Some((a, rest))
  {
    var s := a + "->" + rest;
    if a == [] {
      assert s[2..] == rest;
    } else {
      assert a[0] in a && forall c | c in a[1..] :: c in a;
      assert s[1..] == a[1..] + "->" + rest;
      CutArrowAt(a[1..], rest);
      assert [a[0]] + a[1..] == a;
    }
  }

  /** An arrow stays findable behind any prefix. */
  lemma {:induction false} CutArrowBehind(prefix: string, s: string)
    requires CutArrow(s).Some?
    ensures CutArrow(prefix + s).Some?
  {
    if prefix == [] {
      assert prefix + s == s;
    } else {
      CutArrowBehind(prefix[1..], s);
      assert (prefix + s)[1..] == prefix[1..] + s;
    }
  }

  lemma {:induction false} DigitsOfDec(n: nat)
    ensures AllDigits(Dec(n)) && Digits(Dec(n)) == n
  {
    if n >= 10 {
      DigitsOfDec(n / 10);
      assert Dec(n)[..|Dec(n)| - 1] == Dec(n / 10);
    }
  }

  /** Reading a printed number back, whatever single blank precedes it. */
  lemma ParseDec(n: nat)
    ensures ParseNat(Dec(n)) == Some(n)
    ensures Clean(Dec(n)) && '-' !in Dec(n)
  {
    DigitsOfDec(n);
    var s := Dec(n);
    assert s[0] in s && s[|s| - 1] in s;
    StripTrimmed(s);
  }

  lemma ParsePortDec(n: int)
    requires 1 <= n <= 65535
    ensures ParsePort(Dec(n)) == Some(n) && Int(n) == Dec(n)
  {
    ParseDec(n);
  }

  lemma IntClean(n: int)
    ensures Clean(Int(n)) && Int(n) != ""
  {
    ParseDec(if n < 0 then -n else n);
  }

  /** The pieces `Split` finds in a `", "`-joined text: the first as it was,
      the others with the leading blank of the joiner. */
  function Spaced(pieces: seq<string>): seq<string> {
    seq(|pieces|, i requires 0 <= i < |pieces| => if i == 0 then pieces[0] else [' '] + pieces[i])
  }

  lemma {:induction false} SplitJoinFrom(lead: string, pieces: seq<string>)
    requires pieces != [] && ',' !in lead
    requires forall piece | piece in pieces :: ',' !in piece
    ensures Split(lead + Join(pieces, ", "), ',') == Spaced(pieces)[0 := lead + pieces[0]]
    decreases |pieces|
  {
    var first := lead + pieces[0];
    assert pieces[0] in pieces;
    if |pieces| == 1 {
      SplitAtom(first, ',');
    } else {
      var tail := pieces[1..];
      assert forall piece | piece in tail :: piece in pieces;
      SplitJoinFrom(" ", tail);
      assert lead + Join(pieces, ", ") == first + [','] + ([' '] + Join(tail, ", "));
      SplitHead(first, [' '] + Join(tail, ", "), ',');
    }
  }

  lemma SplitJoin(pieces: seq<string>)
    requires pieces != []
    requires forall piece | piece in pieces :: ',' !in piece
    ensures Split(Join(pieces, ", "), ',') == Spaced(pieces)
  {
    SplitJoinFrom([], pieces);
    assert [] + Join(pieces, ", ") == Join(pieces, ", ");
    assert [] + pieces[0] == pieces[0];
  }

  /** The same for a join with a bare comma, which adds no blank. */
  lemma {:induction false} SplitJoinComma(pieces: seq<string>)
    requires pieces != []
    requires forall piece | piece in pieces :: ',' !in piece
    ensures Split(Join(pieces, ","), ',') == pieces
  {
    assert pieces[0] in pieces;
    if |pieces| == 1 {
      SplitAtom(pieces[0], ',');
    } else {
      var tail := pieces[1..];
      assert forall piece | piece in tail :: piece in pieces;
      SplitJoinComma(tail);
      assert Join(pieces, ",") == pieces[0] + [','] + Join(tail, ",");
      SplitHead(pieces[0], Join(tail, ","), ',');
    }
  }
}
