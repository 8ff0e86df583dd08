/** Messages in the format of RFC 5424, framed by their length as in section 4.3
    of RFC 5425. Texts are C strings, given without their NUL byte. */
module Framing {
  import opened Wrappers
  import Managers

  // ---- Decimal numbers ----

  predicate IsDigit(c: char) {
    '0' <= c <= '9'
  }

  function Digit(n: nat): (c: char)
    requires n < 10
    ensures IsDigit(c) && DigitValue(c) == n
  {
    '0' + n as char
  }

  function DigitValue(c: char): (n: nat)
    requires IsDigit(c)
    ensures n < 10
  {
    (c - '0') as nat
  }

  /** A number as printf writes it. */
  function Decimal(n: nat): (s: string)
    ensures s != [] && Canonical(s)
  {
    if n < 10 then [Digit(n)] else Decimal(n / 10) + [Digit(n % 10)]
  }

  predicate Digits(s: string) {
    forall i :: 0 <= i < |s| ==> IsDigit(s[i])
  }

  /** Digits without leading zeros. */
  predicate Canonical(s: string) {
    s != [] && Digits(s) && (|s| > 1 ==> s[0] != '0')
  }

  function NumberValue(s: string): nat
    requires Digits(s)
  {
    if s == [] then 0 else 10 * NumberValue(s[..|s| - 1]) + DigitValue(s[|s| - 1])
  }

  lemma {:induction false} DecimalReadsBack(n: nat)
    ensures NumberValue(Decimal(n)) == n
  {
    var s := Decimal(n);
    if n < 10 {
      assert NumberValue(s[..0]) == 0;
    } else {
      DecimalReadsBack(n / 10);
      assert s[..|s| - 1] == Decimal(n / 10);
    }
  }

  lemma {:induction false} DigitOfValue(c: char)
    requires IsDigit(c)
    ensures Digit(DigitValue(c)) == c
  {
  }

  lemma {:induction false} CanonicalIsPositive(s: string)
    requires Canonical(s) && |s| > 1
    ensures NumberValue(s) >= 10
  {
    var t := s[..|s| - 1];
    if |t| > 1 {
      CanonicalIsPositive(t);
    } else {
      assert t == [s[0]];
      assert NumberValue(t) == 10 * NumberValue(t[..0]) + DigitValue(t[0]);
      assert s[0] > '0';
    }
  }

  lemma {:induction false} CanonicalIsDecimal(s: string)
    requires Canonical(s)
    ensures Decimal(NumberValue(s)) == s
  {
    var t, c := s[..|s| - 1], s[|s| - 1];
    DigitOfValue(c);
    assert s == t + [c];
    if t == [] {
      assert NumberValue(t) == 0;
    } else {
      CanonicalIsPositive(s);
      CanonicalIsDecimal(t);
      assert NumberValue(s) / 10 == NumberValue(t) && NumberValue(s) % 10 == DigitValue(c);
    }
  }

  function Power10(k: nat): (p: nat)
    ensures p > 0
  {
    if k == 0 then 1 else 10 * Power10(k - 1)
  }

  lemma {:induction false} DecimalLength(n: nat, k: nat)
    requires k > 0
    ensures |Decimal(n)| <= k <==> n < Power10(k)
    decreases k
  {
    if k == 1 {
      assert Power10(1) == 10 * Power10(0);
      assert n >= 10 ==> |Decimal(n)| == |Decimal(n / 10)| + 1;
    } else if n < 10 {
      assert Power10(k) == 10 * Power10(k - 1);
    } else {
      DecimalLength(n / 10, k - 1);
    }
  }

  // ---- One message ----

  datatype Format = Rfc5424 | Rfc5425

  datatype Settings = Settings(
    format: Format,
    protocol: Managers.Protocol,
    structuredData: Option<string>,
    takeStructuredData: bool)

  datatype Record = Record(
    severity: int,
    facility: int,
    timestamp: string,
    hostname: Option<string>,
    identifier: Option<string>,
    pid: Option<string>,
    structuredData: Option<string>,
    msgid: Option<string>,
    message: string)

  /** The two fields are packed into one byte. */
  function Priority(r: Record): (s: string)
    ensures 0 < |s| < 8
  {
    var makepri := (r.facility * 8 + r.severity) % 256;
    DecimalLength(makepri, 3);
    assert Power10(3) == 1000 by { assert Power10(1) == 10 * Power10(0); assert Power10(2) == 10 * Power10(1); }
    "<" + Decimal(makepri) + ">1 "
  }

  function OrNil(value: Option<string>): string {
    if value.Some? then value.value else "-"
  }

  function StructuredData(s: Settings, r: Record): string {
    if s.structuredData.Some? then s.structuredData.value
    else OrNil(if s.takeStructuredData then r.structuredData else None)
  }

  function Newline(s: Settings): string {
    if s.format.Rfc5424? && (s.protocol.Tcp? || s.protocol.Tls?) then "\n" else ""
  }

  /** The message of RFC 5424, section 6. */
  function Message(s: Settings, r: Record): string {
    Priority(r) + r.timestamp +
    OrNil(r.hostname) + " " + OrNil(r.identifier) + " " + OrNil(r.pid) + " " + OrNil(r.msgid) + " " +
    StructuredData(s, r) + " " + r.message + Newline(s)
  }

  function Flatten(iov: seq<string>): string {
    if iov == [] then [] else Flatten(iov[..|iov| - 1]) + iov[|iov| - 1]
  }

  lemma {:induction false} FlattenAppends(iov: seq<string>, s: string)
    ensures Flatten(iov + [s]) == Flatten(iov) + s
  {
    assert (iov + [s])[..|iov|] == iov;
  }

  method SetString(iov: array<string>, n: nat, s: string) returns (next: nat)
    requires n < iov.Length
    modifies iov
    ensures next == n + 1 && iov[..next] == old(iov[..n]) + [s]
    ensures Flatten(iov[..next]) == Flatten(old(iov[..n])) + s
  {
    iov[n] := s;
    FlattenAppends(iov[..n], s);
    assert iov[..n + 1] == iov[..n] + [s];
    return n + 1;
  }

  method SetStringFieldWithSeparator(iov: array<string>, n: nat, value: Option<string>) returns (next: nat)
    requires n + 1 < iov.Length
    modifies iov
    ensures next == n + 2 && iov[..next] == old(iov[..n]) + [OrNil(value), " "]
    ensures Flatten(iov[..next]) == Flatten(old(iov[..n])) + OrNil(value) + " "
  {
    if value.Some? {
      next := SetString(iov, n, value.value);
    } else {
      next := SetString(iov, n, "-");
    }
    next := SetString(iov, next, " ");
  }

  method SetStructuredDataField(s: Settings, r: Record, iov: array<string>, n: nat) returns (next: nat)
    requires n + 1 < iov.Length
    modifies iov
    ensures next == n + 2 && iov[..next] == old(iov[..n]) + [StructuredData(s, r), " "]
    ensures Flatten(iov[..next]) == Flatten(old(iov[..n])) + StructuredData(s, r) + " "
  {
    if s.structuredData.Some? {
      next := SetString(iov, n, s.structuredData.value);
    } else if s.takeStructuredData && r.structuredData.Some? {
      next := SetString(iov, n, r.structuredData.value);
    } else {
      next := SetString(iov, n, "-");
    }
    next := SetString(iov, next, " ");
  }

  method TotalSize(iov: array<string>, n: nat) returns (total: nat)
    requires n <= iov.Length
    ensures total == |Flatten(iov[..n])|
  {
    total := 0;
    for j := 0 to n
      invariant total == |Flatten(iov[..j])|
    {
      FlattenAppends(iov[..j], iov[j]);
      assert iov[..j + 1] == iov[..j] + [iov[j]];
      total := total + |iov[j]|;
    }
  }

  const MSGLEN_SIZE: nat := 8  // room for six digits, a blank and a NUL byte

  function Header(length: nat): string {
    Decimal(length) + " "
  }

  /** The buffer holds the length exactly if it has at most six digits. */
  lemma {:induction false} HeaderFits(length: nat)
    ensures |Header(length)| < MSGLEN_SIZE <==> length <= 999_999
  {
    DecimalLength(length, 6);
    assert Power10(3) == 10 * (10 * (10 * Power10(0)));
    assert Power10(6) == 10 * (10 * (10 * Power10(3)));
  }

  lemma {:induction false} FlattenCons(s: string, iov: seq<string>)
    ensures Flatten([s] + iov) == s + Flatten(iov)
    decreases |iov|
  {
    if iov == [] {
      assert [s] + iov == [] + [s];
      FlattenAppends([], s);
    } else {
      var init, last := iov[..|iov| - 1], iov[|iov| - 1];
      FlattenCons(s, init);
      assert [s] + iov == ([s] + init) + [last];
      FlattenAppends([s] + init, last);
    }
  }

  /** The frame of a message, unless it is too long for one. */
  function Frame(s: Settings, r: Record): Option<string> {
    var m := Message(s, r);
    if s.format.Rfc5424? then Some(m)
    else if |m| <= 999_999 then Some(Header(|m|) + m)
    else None
  }

  method SetMessageLengthField(s: Settings, iov: array<string>, n: nat) returns (ok: bool)
    requires 0 < n <= iov.Length && (s.format.Rfc5425? ==> iov[0] == "")
    modifies iov
    ensures var m := Flatten(old(iov[..n]));
            ok == (s.format.Rfc5424? || |m| <= 999_999) &&
            (ok ==> Flatten(iov[..n]) == if s.format.Rfc5424? then m else Header(|m|) + m)
  {
    if s.format.Rfc5424? { return true; }
    var total := TotalSize(iov, n);
    var header := Header(total);
    HeaderFits(total);
    if |header| >= MSGLEN_SIZE { return false; }
    ghost var rest := iov[1..n];
    FlattenCons("", rest);
    FlattenCons(header, rest);
    assert iov[..n] == [""] + rest;
    iov[0] := header;
    assert iov[..n] == [header] + rest;
    return true;
  }

  method SetPriorityAndTime(r: Record, iov: array<string>, n: nat) returns (next: nat)
    requires n + 1 < iov.Length
    modifies iov
    ensures next == n + 2 && iov[..n] == old(iov[..n])
    ensures Flatten(iov[..next]) == Flatten(old(iov[..n])) + Priority(r) + r.timestamp
  {
    var header := Priority(r);
    assert 0 < |header| < 8;
    next := SetString(iov, n, header);
    next := SetString(iov, next, r.timestamp);
  }

  method SetFields(r: Record, iov: array<string>, n: nat) returns (next: nat)
    requires n + 7 < iov.Length
    modifies iov
    ensures next == n + 8 && iov[..n] == old(iov[..n])
    ensures Flatten(iov[..next]) == Flatten(old(iov[..n])) +
      OrNil(r.hostname) + " " + OrNil(r.identifier) + " " + OrNil(r.pid) + " " + OrNil(r.msgid) + " "
  {
    hide Flatten, OrNil;
    next := SetStringFieldWithSeparator(iov, n, r.hostname);
    next := SetStringFieldWithSeparator(iov, next, r.identifier);
    next := SetStringFieldWithSeparator(iov, next, r.pid);
    next := SetStringFieldWithSeparator(iov, next, r.msgid);
  }

  method SetText(s: Settings, r: Record, iov: array<string>, n: nat) returns (next: nat)
    requires n + 3 < iov.Length
    modifies iov
    ensures n + 3 <= next <= (if s.format.Rfc5425? then n + 3 else n + 4) && iov[..n] == old(iov[..n])
    ensures Flatten(iov[..next]) == Flatten(old(iov[..n])) + StructuredData(s, r) + " " + r.message + Newline(s)
  {
    hide Flatten, StructuredData;
    next := SetStructuredDataField(s, r, iov, n);
    next := SetString(iov, next, r.message);
    if s.format.Rfc5424? && (s.protocol.Tcp? || s.protocol.Tls?) {
      next := SetString(iov, next, "\n");
    }
  }

  method SetMessage(s: Settings, r: Record, iov: array<string>, n: nat) returns (next: nat)
    requires iov.Length == 15 && n == (if s.format.Rfc5425? then 1 else 0) && Flatten(iov[..n]) == ""
    modifies iov
    ensures n < next <= 14 && iov[..n] == old(iov[..n])
    ensures Flatten(iov[..next]) == Message(s, r)
  {
    hide Flatten, Priority, StructuredData, OrNil, Newline;
    var at := SetPriorityAndTime(r, iov, n);
    assert "" + Priority(r) == Priority(r);
    ghost var start := iov[..at];
    var mid := SetFields(r, iov, at);
    assert start[..n] == iov[..n] by { assert iov[..at] == start; }
    ghost var middle := iov[..mid];
    next := SetText(s, r, iov, mid);
    assert middle[..n] == iov[..n] by { assert iov[..mid] == middle; }
  }

  /** What is handed to `protocol_send`: at most 14 of the 15 slots, which make up
      the frame; or -EMSGSIZE. */
  method FormatRfc5424(s: Settings, r: Record) returns (sent: Option<seq<string>>)
    ensures sent.Some? == Frame(s, r).Some?
    ensures sent.Some? ==> |sent.value| <= 14 && Flatten(sent.value) == Frame(s, r).value != []
  {
    hide Message, Header;
    MessageIsNotEmpty(s, r);
    var iov := new string[15];
    var n := 0;
    assert Flatten(iov[..0]) == "";
    if s.format.Rfc5425? {
      n := SetString(iov, n, "");
    }
    assert s.format.Rfc5425? ==> iov[..n] == [""];
    n := SetMessage(s, r, iov, n);
    assert s.format.Rfc5425? ==> iov[..1][0] == "";
    hide Flatten;
    var ok := SetMessageLengthField(s, iov, n);
    sent := if ok then Some(iov[..n]) else None;
  }

  /** One buffer for all slots. */
  method SslWritev(iov: array<string>) returns (buf: array<char>)
    requires Flatten(iov[..]) != []  // asserted by the source
    ensures fresh(buf) && buf[..] == Flatten(iov[..])
  {
    hide Flatten;
    assert iov[..iov.Length] == iov[..];
    var count := TotalSize(iov, iov.Length);
    buf := new char[count](i => '\0');
    var pos := 0;
    assert Flatten(iov[..0]) == [] by { FlattenNothing(); }
    for i := 0 to iov.Length
      invariant pos == |Flatten(iov[..i])| <= count && buf[..pos] == Flatten(iov[..i])
    {
      FlattenGrows(iov[..], i);
      FlattenAppends(iov[..i], iov[i]);
      assert iov[..][..i] == iov[..i] && iov[..i + 1] == iov[..i] + [iov[i]];
      CopyTo(buf, pos, iov[i]);
      pos := pos + |iov[i]|;
    }
  }

  lemma {:induction false} FlattenGrows(iov: seq<string>, i: nat)
    requires i < |iov|
    ensures |Flatten(iov[..i])| + |iov[i]| <= |Flatten(iov)|
    decreases |iov|
  {
    var init := iov[..|iov| - 1];
    if i == |init| {
    } else {
      FlattenGrows(init, i);
      assert init[..i] == iov[..i];
    }
  }

  method CopyTo(buf: array<char>, pos: nat, s: string)
    requires pos + |s| <= buf.Length
    modifies buf
    ensures buf[..pos + |s|] == old(buf[..pos]) + s
  {
    for k := 0 to |s|
      invariant buf[..pos] == old(buf[..pos])
      invariant buf[pos..pos + k] == s[..k]
    {
      buf[pos + k] := s[k];
    }
  }

  // ---- The receiver, section 4.3 of RFC 5425 ----

  /** The digits at the start of a text. */
  function LeadingDigits(t: string): (d: string)
    ensures d <= t && Digits(d) && (|d| < |t| ==> !IsDigit(t[|d|]))
  {
    if t == [] || !IsDigit(t[0]) then [] else [t[0]] + LeadingDigits(t[1..])
  }

  /** A length without leading zeros, a blank, and that many octets. */
  function ReadFrame(t: string): (r: Option<(string, string)>)
    ensures r.Some? ==> |r.value.1| < |t|
  {
    var d := LeadingDigits(t);
    var k := |d| + 1;
    if d == [] || d[0] == '0' || |d| == |t| || t[|d|] != ' ' || k + NumberValue(d) > |t| then None
    else Some((t[k..k + NumberValue(d)], t[k + NumberValue(d)..]))
  }

  function ReadFrames(t: string): Option<seq<string>> {
    if t == [] then Some([])
    else
      match ReadFrame(t)
      case None => None
      case Some((m, rest)) =>
        match ReadFrames(rest)
        case None => None
        case Some(ms) => Some([m] + ms)
  }

  lemma {:induction false} LeadingDigitsStop(d: string, t: string)
    requires Digits(d) && (t == [] || !IsDigit(t[0]))
    ensures LeadingDigits(d + t) == d
  {
    if d == [] {
      assert d + t == t;
    } else {
      assert (d + t)[1..] == d[1..] + t;
      LeadingDigitsStop(d[1..], t);
    }
  }

  lemma {:induction false} FrameReads(m: string, rest: string)
    requires m != []
    ensures ReadFrame(Header(|m|) + m + rest) == Some((m, rest))
  {
    var d, t := Decimal(|m|), Header(|m|) + m + rest;
    var u := [' '] + (m + rest);
    assert t == d + u;
    LeadingDigitsStop(d, u);
    DecimalReadsBack(|m|);
    PositiveDecimal(|m|);
    hide Decimal, LeadingDigits, NumberValue;
    var k := |d| + 1;
    assert t[|d|] == ' ';
    assert t[k..k + |m|] == m;
    assert t[k + |m|..] == rest;
  }

  lemma {:induction false} PositiveDecimal(n: nat)
    requires n > 0
    ensures Decimal(n)[0] != '0'
  {
    if n < 10 { assert DigitValue('0') == 0; }
  }

  /** Frames of non-empty messages, one after the other. */
  function WriteFrames(ms: seq<string>): string {
    if ms == [] then [] else Header(|ms[0]|) + ms[0] + WriteFrames(ms[1..])
  }

  lemma {:induction false} FramesReadBack(ms: seq<string>)
    requires forall i :: 0 <= i < |ms| ==> ms[i] != []
    ensures ReadFrames(WriteFrames(ms)) == Some(ms)
  {
    hide ReadFrame, Header;
    if ms != [] {
      FramesReadBack(ms[1..]);
      FrameReads(ms[0], WriteFrames(ms[1..]));
      assert [ms[0]] + ms[1..] == ms;
      assert WriteFrames(ms) != [];
    }
  }

  /** Nothing else is read: a stream is understood only as the frames that make it up. */
  lemma {:induction false} ReadFramesAreWritten(t: string)
    requires ReadFrames(t).Some?
    ensures WriteFrames(ReadFrames(t).value) == t
    ensures forall i :: 0 <= i < |ReadFrames(t).value| ==> ReadFrames(t).value[i] != []
    decreases |t|
  {
    hide ReadFrame, Header;
    if t != [] {
      var (m, rest) := ReadFrame(t).value;
      ReadFrameIsWritten(t);
      ReadFramesAreWritten(rest);
      var ms := ReadFrames(rest).value;
      assert ReadFrames(t).value == [m] + ms && ([m] + ms)[1..] == ms;
    }
  }

  lemma {:induction false} ReadFrameIsWritten(t: string)
    requires ReadFrame(t).Some?
    ensures var (m, rest) := ReadFrame(t).value; m != [] && t == Header(|m|) + m + rest
  {
    var d := LeadingDigits(t);
    var k, n := |d| + 1, NumberValue(d);
    CanonicalIsDecimal(d);
    PositiveValue(d);
    hide LeadingDigits, NumberValue, Decimal;
    assert t == t[..|d|] + [t[|d|]] + t[k..k + n] + t[k + n..];
  }

  lemma {:induction false} PositiveValue(d: string)
    requires Canonical(d) && d[0] != '0'
    ensures NumberValue(d) > 0
  {
    if |d| > 1 { CanonicalIsPositive(d); } else { assert d[..0] == []; }
  }

  // ---- A receiver of messages, section 6 of RFC 5424 ----

  /** `<`, a number without leading zeros, `>`, version 1 and a blank. */
  function ReadPriority(t: string): Option<(nat, string)> {
    if t == [] || t[0] != '<' then None
    else
      var d := LeadingDigits(t[1..]);
      var u := t[1 + |d|..];
      if !Canonical(d) || |u| < 3 || u[..3] != ">1 " then None else Some((NumberValue(d), u[3..]))
  }

  /** Some characters up to a blank. */
  function ReadToken(t: string): Option<(string, string)> {
    var n := TokenLength(t);
    if n == 0 || n == |t| then None else Some((t[..n], t[n + 1..]))
  }

  function TokenLength(t: string): (n: nat)
    ensures n <= |t|
  {
    if t == [] || t[0] == ' ' then 0 else 1 + TokenLength(t[1..])
  }

  datatype Place = Outside | Element | Value | Escaped

  /** The length of the elements in brackets at the start of a text; brackets count
      only outside quotes, and quotes only if they are not behind a backslash. */
  function ElementsLength(t: string, at: Place): (n: Option<nat>)
    ensures n.Some? ==> n.value <= |t|
  {
    if at == Outside && (t == [] || t[0] != '[') then Some(0)
    else if t == [] then None
    else
      var next := match at
        case Outside => Element
        case Element => if t[0] == ']' then Outside else if t[0] == '"' then Value else Element
        case Value => if t[0] == '"' then Element else if t[0] == '\\' then Escaped else Value
        case Escaped => Value;
      match ElementsLength(t[1..], next)
      case None => None
      case Some(n) => Some(n + 1)
  }

  /** `-` or elements in brackets, and a blank. */
  function ReadStructuredData(t: string): Option<(string, string)> {
    var n := if t != [] && t[0] == '-' then Some(1) else ElementsLength(t, Outside);
    if n.None? || n.value == 0 || n.value >= |t| || t[n.value] != ' ' then None
    else Some((t[..n.value], t[n.value + 1..]))
  }

  /** The fields in their order. */
  datatype Parsed = Parsed(
    facility: nat,
    severity: nat,
    timestamp: string,
    hostname: string,
    appName: string,
    procid: string,
    msgid: string,
    structuredData: string,
    msg: string)

  function ReadMessage(t: string): Option<Parsed> {
    match ReadPriority(t)
    case None => None
    case Some((pri, t1)) =>
      match ReadToken(t1)
      case None => None
      case Some((timestamp, t2)) =>
        match ReadToken(t2)
        case None => None
        case Some((hostname, t3)) =>
          match ReadToken(t3)
          case None => None
          case Some((appName, t4)) =>
            match ReadToken(t4)
            case None => None
            case Some((procid, t5)) =>
              match ReadToken(t5)
              case None => None
              case Some((msgid, t6)) =>
                match ReadStructuredData(t6)
                case None => None
                case Some((data, msg)) =>
                  Some(Parsed(pri / 8, pri % 8, timestamp, hostname, appName, procid, msgid, data, msg))
  }

  predicate IsToken(t: string) {
    t != [] && forall i :: 0 <= i < |t| ==> t[i] != ' '
  }

  predicate MaybeToken(value: Option<string>) {
    value.Some? ==> IsToken(value.value)
  }

  predicate IsStructuredData(t: string) {
    t == "-" || (t != [] && ElementsLength(t, Outside) == Some(|t|))
  }

  lemma {:induction false} TokenEnds(t: string, rest: string)
    requires forall i :: 0 <= i < |t| ==> t[i] != ' '
    ensures TokenLength(t + ([' '] + rest)) == |t|
  {
    if t == [] {
      assert t + ([' '] + rest) == [' '] + rest;
    } else {
      assert (t + ([' '] + rest))[1..] == t[1..] + ([' '] + rest);
      TokenEnds(t[1..], rest);
    }
  }

  lemma {:induction false} TokenReads(t: string, rest: string)
    requires IsToken(t)
    ensures ReadToken(t + " " + rest) == Some((t, rest))
  {
    TokenEnds(t, rest);
    var u := t + " " + rest;
    assert u == t + ([' '] + rest);
    assert u[..|t|] == t && u[|t| + 1..] == rest;
  }

  lemma {:induction false} ElementsEnd(t: string, at: Place, rest: string)
    requires ElementsLength(t, at) == Some(|t|) && (rest == [] || rest[0] != '[')
    ensures ElementsLength(t + rest, at) == Some(|t|)
  {
    if t == [] {
      assert t + rest == rest;
    } else {
      assert (t + rest)[1..] == t[1..] + rest;
      var next := match at
        case Outside => Element
        case Element => if t[0] == ']' then Outside else if t[0] == '"' then Value else Element
        case Value => if t[0] == '"' then Element else if t[0] == '\\' then Escaped else Value
        case Escaped => Value;
      ElementsEnd(t[1..], next, rest);
    }
  }

  lemma {:induction false} StructuredDataReads(t: string, rest: string)
    requires IsStructuredData(t)
    ensures ReadStructuredData(t + " " + rest) == Some((t, rest))
  {
    var u := t + " " + rest;
    assert u == t + (" " + rest);
    if t != "-" {
      ElementsEnd(t, Outside, " " + rest);
      assert t[0] == '[';
    }
    hide ElementsLength;
    assert u[..|t|] == t && u[|t| + 1..] == rest;
  }

  /** Facility and severity, packed and read back. */
  lemma {:induction false} PriorityReads(r: Record, rest: string)
    requires 0 <= r.severity < 8 && 0 <= r.facility < 24
    ensures ReadPriority(Priority(r) + rest) == Some((r.facility * 8 + r.severity, rest))
  {
    var n := r.facility * 8 + r.severity;
    var d, u := Decimal(n), ">1 " + rest;
    var t := Priority(r) + rest;
    assert t == "<" + (d + u);
    assert t[1..] == d + u;
    LeadingDigitsStop(d, u);
    DecimalReadsBack(n);
    hide Decimal, LeadingDigits, NumberValue;
    assert t[1 + |d|..] == u && u[..3] == ">1 " && u[3..] == rest;
  }

  /** The tokens behind the priority, one after the other. */
  lemma {:induction false} TokensRead(a: string, b: string, c: string, d: string, e: string, rest: string)
    requires IsToken(a) && IsToken(b) && IsToken(c) && IsToken(d) && IsToken(e)
    ensures ReadToken(a + " " + (b + " " + (c + " " + (d + " " + (e + " " + rest))))) ==
            Some((a, b + " " + (c + " " + (d + " " + (e + " " + rest)))))
    ensures ReadToken(b + " " + (c + " " + (d + " " + (e + " " + rest)))) == Some((b, c + " " + (d + " " + (e + " " + rest))))
    ensures ReadToken(c + " " + (d + " " + (e + " " + rest))) == Some((c, d + " " + (e + " " + rest)))
    ensures ReadToken(d + " " + (e + " " + rest)) == Some((d, e + " " + rest))
    ensures ReadToken(e + " " + rest) == Some((e, rest))
  {
    hide ReadToken;
    TokenReads(e, rest);
    TokenReads(d, e + " " + rest);
    TokenReads(c, d + " " + (e + " " + rest));
    TokenReads(b, c + " " + (d + " " + (e + " " + rest)));
    TokenReads(a, b + " " + (c + " " + (d + " " + (e + " " + rest))));
  }

  lemma {:induction false} MessageInOrder(s: Settings, r: Record, timestamp: string)
    requires r.timestamp == timestamp + " "
    ensures Message(s, r) ==
      Priority(r) + (timestamp + " " + (OrNil(r.hostname) + " " + (OrNil(r.identifier) + " " + (OrNil(r.pid) + " " +
        (OrNil(r.msgid) + " " + (StructuredData(s, r) + " " + (r.message + Newline(s))))))))
  {
    hide Priority, OrNil, StructuredData, Newline;
  }

  /** A receiver reads back facility and severity, the fields in the order of RFC 5424
      and the message, if the fields are without blanks and the data is in brackets. */
  lemma {:induction false} MessageReadsBack(s: Settings, r: Record, timestamp: string)
    requires 0 <= r.severity < 8 && 0 <= r.facility < 24 && r.timestamp == timestamp + " " && IsToken(timestamp)
    requires MaybeToken(r.hostname) && MaybeToken(r.identifier) && MaybeToken(r.pid) && MaybeToken(r.msgid)
    requires s.structuredData.Some? ==> IsStructuredData(s.structuredData.value)
    requires s.takeStructuredData && r.structuredData.Some? ==> IsStructuredData(r.structuredData.value)
    ensures ReadMessage(Message(s, r)) == Some(Parsed(
      r.facility, r.severity, timestamp,
      if r.hostname.Some? then r.hostname.value else "-",
      if r.identifier.Some? then r.identifier.value else "-",
      if r.pid.Some? then r.pid.value else "-",
      if r.msgid.Some? then r.msgid.value else "-",
      if s.structuredData.Some? then s.structuredData.value
      else if s.takeStructuredData && r.structuredData.Some? then r.structuredData.value else "-",
      if s.format == Rfc5424 && (s.protocol == Managers.Tcp || s.protocol == Managers.Tls) then r.message + "\n" else r.message))
  {
    hide ReadPriority, ReadToken, ReadStructuredData, Priority, IsStructuredData, IsToken, Message;
    var msg := r.message + Newline(s);
    var tail := StructuredData(s, r) + " " + msg;
    assert r.message + "" == r.message;
    MessageInOrder(s, r, timestamp);
    NilIsRead();
    TokensRead(timestamp, OrNil(r.hostname), OrNil(r.identifier), OrNil(r.pid), OrNil(r.msgid), tail);
    StructuredDataReads(StructuredData(s, r), msg);
    PriorityReads(r, timestamp + " " + (OrNil(r.hostname) + " " + (OrNil(r.identifier) + " " + (OrNil(r.pid) + " " +
        (OrNil(r.msgid) + " " + tail)))));
  }

  lemma {:induction false} NilIsRead()
    ensures IsToken("-") && IsStructuredData("-")
  {
  }

  // ---- Messages of the daemon ----

  function Frames(s: Settings, rs: seq<Record>): string {
    if rs == [] then []
    else
      var rest := Frames(s, rs[1..]);
      if Frame(s, rs[0]).Some? then Frame(s, rs[0]).value + rest else rest
  }

  function Messages(s: Settings, rs: seq<Record>): seq<string> {
    if rs == [] then []
    else
      var rest := Messages(s, rs[1..]);
      if Frame(s, rs[0]).Some? then [Message(s, rs[0])] + rest else rest
  }

  lemma {:induction false} MessageIsNotEmpty(s: Settings, r: Record)
    ensures Message(s, r) != []
  {
    hide OrNil, StructuredData;
  }

  /** The stream of the frames that were sent is read as exactly their messages. */
  lemma {:induction false} StreamReadsBack(s: Settings, rs: seq<Record>)
    requires s.format.Rfc5425?
    ensures ReadFrames(Frames(s, rs)) == Some(Messages(s, rs))
  {
    hide Message, Header, ReadFrame;
    if rs != [] {
      StreamReadsBack(s, rs[1..]);
      if Frame(s, rs[0]).Some? {
        MessageIsNotEmpty(s, rs[0]);
        FrameReads(Message(s, rs[0]), Frames(s, rs[1..]));
      }
    }
  }

  // ---- Skipping what has been sent ----

  /** The slots after `k` bytes, and what `iovec_increment` returns. */
  function Increment(iov: seq<string>, k: nat): (seq<string>, bool) {
    if iov == [] then ([], true)
    else if iov[0] == [] then var (rest, done) := Increment(iov[1..], k); ([[]] + rest, done)
    else if k == 0 then (iov, false)
    else
      var sub := if |iov[0]| <= k then |iov[0]| else k;
      var (rest, done) := Increment(iov[1..], k - sub);
      ([iov[0][sub..]] + rest, done)
  }

  lemma {:induction false} FlattenHead(iov: seq<string>)
    requires iov != []
    ensures Flatten(iov) == iov[0] + Flatten(iov[1..])
  {
    FlattenCons(iov[0], iov[1..]);
    assert iov == [iov[0]] + iov[1..];
  }

  /** Exactly the first `k` bytes are gone. */
  lemma {:induction false} IncrementSkips(iov: seq<string>, k: nat)
    requires k <= |Flatten(iov)|
    ensures Flatten(Increment(iov, k).0) == Flatten(iov)[k..]
    decreases |iov|
  {
    hide Flatten;
    if iov == [] {
      assert Flatten(iov) == [] by { FlattenNothing(); }
    } else {
      FlattenHead(iov);
      var sub := if |iov[0]| <= k then |iov[0]| else k;
      IncrementSkips(iov[1..], k - sub);
      FlattenCons(iov[0][sub..], Increment(iov[1..], k - sub).0);
      assert Flatten(iov)[k..] == iov[0][sub..] + Flatten(iov[1..])[k - sub..];
    }
  }

  lemma {:induction false} FlattenNothing()
    ensures Flatten([]) == []
  {
  }

  /** The bytes before the last slot that is not empty. */
  function BeforeLast(iov: seq<string>): nat {
    if iov == [] || Flatten(iov[1..]) == [] then 0 else |iov[0]| + BeforeLast(iov[1..])
  }

  /** The result says whether the last non-empty slot has been reached. */
  lemma {:induction false} IncrementReturns(iov: seq<string>, k: nat)
    requires k <= |Flatten(iov)|
    ensures Increment(iov, k).1 <==> (Flatten(iov) == [] || k > BeforeLast(iov))
    decreases |iov|
  {
    hide Flatten;
    FlattenNothing();
    if iov != [] {
      FlattenHead(iov);
      var sub := if |iov[0]| <= k then |iov[0]| else k;
      IncrementReturns(iov[1..], k - sub);
      if Flatten(iov[1..]) != [] { BeforeLastFits(iov[1..]); }
    }
  }

  lemma {:induction false} BeforeLastFits(iov: seq<string>)
    requires Flatten(iov) != []
    ensures BeforeLast(iov) < |Flatten(iov)|
  {
    hide Flatten;
    FlattenNothing();
    if iov != [] {
      FlattenHead(iov);
      if Flatten(iov[1..]) != [] { BeforeLastFits(iov[1..]); }
    }
  }

  /** The result means "nothing is left to send", as documented, exactly if the
      sent bytes do not end inside the last non-empty slot. */
  lemma {:induction false} DocumentedResultIff(iov: seq<string>, k: nat)
    requires k <= |Flatten(iov)|
    ensures (Increment(iov, k).1 <==> Flatten(Increment(iov, k).0) == [])
            <==> !(BeforeLast(iov) < k < |Flatten(iov)|)
  {
    hide Flatten, Increment, BeforeLast;
    IncrementSkips(iov, k);
    IncrementReturns(iov, k);
    if Flatten(iov) != [] { BeforeLastFits(iov); }
  }

  lemma {:induction false} DocumentedResultFails()
    ensures Increment(["ab"], 1).1 && Increment(["ab"], 1).0 == ["b"]
  {
    var rest := Increment([], 0).0;
    assert ["ab"][1..] == [] && "ab"[1..] == "b" && ["b"] + rest == ["b"];
  }

  lemma {:induction false} IncrementStep(iov: seq<string>, k: nat)
    requires iov != [] && (iov[0] == [] || k > 0)
    ensures var sub := if |iov[0]| <= k then |iov[0]| else k;
            Increment(iov, k).0 == [iov[0][sub..]] + Increment(iov[1..], k - sub).0 &&
            Increment(iov, k).1 == Increment(iov[1..], k - sub).1
  {
    if iov[0] == [] { assert iov[0][0..] == []; }
  }

  /** The first `j` slots are done and `left` bytes are to be skipped in the others. */
  ghost predicate Skipping(was: seq<string>, k: nat, now: seq<string>, j: nat, left: nat) {
    |now| == |was| && j <= |was| && now[j..] == was[j..] && left <= |Flatten(was[j..])| &&
    Increment(was, k).0 == now[..j] + Increment(was[j..], left).0 &&
    Increment(was, k).1 == Increment(was[j..], left).1
  }

  lemma {:induction false} SkippingStarts(was: seq<string>, k: nat)
    requires k <= |Flatten(was)|
    ensures Skipping(was, k, was, 0, k)
  {
    assert was[0..] == was;
  }

  lemma {:induction false} SkippingAdvances(was: seq<string>, k: nat, now: seq<string>, j: nat, left: nat, sub: nat)
    requires Skipping(was, k, now, j, left) && j < |was| && (now[j] == [] || left > 0)
    requires sub == if |now[j]| <= left then |now[j]| else left
    ensures Skipping(was, k, now[j := now[j][sub..]], j + 1, left - sub)
  {
    hide Increment, Flatten;
    var tail, slot := was[j..], now[j][sub..];
    assert tail[0] == now[j..][0] == now[j];
    assert tail[1..] == was[j + 1..];
    IncrementStep(tail, left);
    FlattenHead(tail);
    NextSlot(now, j, slot);
    var done := now[..j];
    var rest := Increment(tail[1..], left - sub).0;
    assert done + ([slot] + rest) == done + [slot] + rest;
  }

  lemma {:induction false} NextSlot(now: seq<string>, j: nat, slot: string)
    requires j < |now|
    ensures now[j := slot][..j + 1] == now[..j] + [slot] && now[j := slot][j + 1..] == now[j..][1..]
  {
  }

  lemma {:induction false} SkippingStops(was: seq<string>, k: nat, now: seq<string>, j: nat)
    requires Skipping(was, k, now, j, 0) && j < |was| && now[j] != []
    ensures Increment(was, k).0 == now && !Increment(was, k).1
  {
    assert was[j..][0] == now[j..][0] == now[j];
    assert now == now[..j] + now[j..];
  }

  lemma {:induction false} SkippingEnds(was: seq<string>, k: nat, now: seq<string>, left: nat)
    requires Skipping(was, k, now, |was|, left)
    ensures Increment(was, k).0 == now && Increment(was, k).1 && left == 0
  {
    assert was[|was|..] == [] && now[..|was|] == now && now + [] == now;
  }

  /** Like the source, this may only be called with bytes that there are. */
  method IovecIncrement(iov: array<string>, k: nat) returns (done: bool)
    requires k <= |Flatten(iov[..])|
    modifies iov
    ensures iov[..] == Increment(old(iov[..]), k).0 && done == Increment(old(iov[..]), k).1
  {
    ghost var was := iov[..];
    var left: nat := k;
    SkippingStarts(was, k);
    hide Skipping, Increment, Flatten;
    for j := 0 to iov.Length
      invariant |was| == iov.Length && Skipping(was, k, iov[..], j, left)
    {
      if |iov[j]| == 0 {
        SkippingAdvances(was, k, iov[..], j, left, 0);
        assert iov[..][j := iov[j][0..]] == iov[..];
        continue;
      }
      if left == 0 {
        SkippingStops(was, k, iov[..], j);
        return false;
      }
      var sub: nat := if |iov[j]| <= left then |iov[j]| else left;
      SkippingAdvances(was, k, iov[..], j, left, sub);
      ghost var next := iov[..][j := iov[j][sub..]];
      iov[j] := iov[j][sub..];
      assert iov[..] == next;
      left := left - sub;
    }
    SkippingEnds(was, k, iov[..], left);
    assert left == 0;  // asserted by the source
    return true;
  }
}
