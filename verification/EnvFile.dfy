/** The state file: what `state_update_cursor` writes, read back by the env-file
    automaton of `parse_env_file`. */
module EnvFile {
  import opened Wrappers
  import Utf8

  type Byte = Utf8.Byte

  datatype Mode =
    | PreKey | Key | PreValue | Value | ValueEscape
    | SingleQuoteValue | SingleQuoteValueEscape | DoubleQuoteValue | DoubleQuoteValueEscape
    | Comment | CommentEscape

  const NEWLINE: Byte := 10
  const CARRIAGE_RETURN: Byte := 13
  const BACKSLASH: Byte := 92
  const SINGLE_QUOTE: Byte := 39
  const DOUBLE_QUOTE: Byte := 34
  const EQUALS: Byte := 61

  predicate IsNewline(c: Byte) {
    c == NEWLINE || c == CARRIAGE_RETURN
  }

  predicate IsWhitespace(c: Byte) {
    c == 32 || c == 9 || IsNewline(c)
  }

  predicate IsComment(c: Byte) {
    c == 35 || c == 59
  }

  /** The automaton: the two buffers, where trailing white space begins in them,
      and the cursor that has been pushed. */
  datatype Parser = Parser(
    mode: Mode,
    key: seq<Byte>,
    value: Option<seq<Byte>>,
    keyBlank: Option<nat>,
    valueBlank: Option<nat>,
    cursor: Option<seq<Byte>>,
    failed: bool)

  predicate InValue(m: Mode) {
    m.PreValue? || m.Value? || m.ValueEscape? || Quoted(m)
  }

  predicate Quoted(m: Mode) {
    m.SingleQuoteValue? || m.SingleQuoteValueEscape? || m.DoubleQuoteValue? || m.DoubleQuoteValueEscape?
  }

  /** The recorded places lie inside the buffers, a pair that can be pushed has a
      key, and between pairs there is no value. */
  predicate InBounds(p: Parser) {
    (p.keyBlank.Some? && (p.mode.Key? || InValue(p.mode)) ==> p.keyBlank.value <= |p.key|) &&
    (p.valueBlank.Some? && InValue(p.mode) ==> p.value.Some? && p.valueBlank.value <= |p.value.value|) &&
    (InValue(p.mode) || p.mode.Key? ==> p.key != []) &&
    (InValue(p.mode) || p.value == None)
  }

  const START := Parser(PreKey, [], None, None, None, None, false)

  const CURSOR_KEY: seq<Byte> := [76, 65, 83, 84, 95, 67, 85, 82, 83, 79, 82]

  function Length(v: Option<seq<Byte>>): nat {
    if v.Some? then |v.value| else 0
  }

  function AddValue(p: Parser, c: Byte): Parser {
    p.(value := Some((if p.value.Some? then p.value.value else []) + [c]))
  }

  predicate ValidText(s: seq<Byte>) {
    Utf8.DecodeAll(s).Some?
  }

  /** `parse_env_file_push` for the one key that is looked for. */
  function Push(p: Parser, key: seq<Byte>, value: Option<seq<Byte>>): Parser {
    if !ValidText(key) || (value.Some? && !ValidText(value.value)) then p.(failed := true)
    else if key == CURSOR_KEY then p.(cursor := value)
    else p
  }

  /** The buffers are closed, trailing white space cut off, and the pair pushed. */
  function PushPair(p: Parser, chomp: bool): Parser
    requires InBounds(p) && InValue(p.mode)
  {
    var value := if chomp && p.valueBlank.Some? then Some(p.value.value[..p.valueBlank.value]) else p.value;
    var key := if p.keyBlank.Some? then p.key[..p.keyBlank.value] else p.key;
    Push(p, key, value)
  }

  function EndLine(p: Parser, chomp: bool): Parser
    requires InBounds(p) && InValue(p.mode)
  {
    PushPair(p, chomp).(mode := PreKey, key := [], value := None)
  }

  /** One character outside a value. */
  function StepKey(p: Parser, c: Byte): (q: Parser)
    requires InBounds(p) && !InValue(p.mode)
    ensures InBounds(q)
  {
    match p.mode
    case PreKey =>
      if IsComment(c) then p.(mode := Comment)
      else if !IsWhitespace(c) then p.(mode := Key, keyBlank := None, key := p.key + [c])
      else p
    case Key =>
      if IsNewline(c) then p.(mode := PreKey, key := [])
      else if c == EQUALS then p.(mode := PreValue, valueBlank := None)
      else
        p.(keyBlank := if !IsWhitespace(c) then None else if p.keyBlank == None then Some(|p.key|) else p.keyBlank,
           key := p.key + [c])
    case Comment => if c == BACKSLASH then p.(mode := CommentEscape) else if IsNewline(c) then p.(mode := PreKey) else p
    case CommentEscape => p.(mode := Comment)
  }

  /** One character between quotes. */
  function StepQuoted(p: Parser, c: Byte): (q: Parser)
    requires InBounds(p) && Quoted(p.mode)
    ensures InBounds(q)
  {
    match p.mode
    case SingleQuoteValue =>
      if c == SINGLE_QUOTE then p.(mode := PreValue)
      else if c == BACKSLASH then p.(mode := SingleQuoteValueEscape)
      else AddValue(p, c)
    case SingleQuoteValueEscape =>
      if IsNewline(c) then p.(mode := SingleQuoteValue) else AddValue(p, c).(mode := SingleQuoteValue)
    case DoubleQuoteValue =>
      if c == DOUBLE_QUOTE then p.(mode := PreValue)
      else if c == BACKSLASH then p.(mode := DoubleQuoteValueEscape)
      else AddValue(p, c)
    case DoubleQuoteValueEscape =>
      if IsNewline(c) then p.(mode := DoubleQuoteValue) else AddValue(p, c).(mode := DoubleQuoteValue)
  }

  /** One character of a value, outside quotes. */
  function StepValue(p: Parser, c: Byte): (q: Parser)
    requires InBounds(p) && (p.mode.PreValue? || p.mode.Value? || p.mode.ValueEscape?)
    ensures InBounds(q)
  {
    match p.mode
    case PreValue =>
      if IsNewline(c) then EndLine(p, false)
      else if c == SINGLE_QUOTE then p.(mode := SingleQuoteValue)
      else if c == DOUBLE_QUOTE then p.(mode := DoubleQuoteValue)
      else if c == BACKSLASH then p.(mode := ValueEscape)
      else if !IsWhitespace(c) then AddValue(p, c).(mode := Value)
      else p
    case Value =>
      if IsNewline(c) then EndLine(p, true)
      else if c == BACKSLASH then p.(mode := ValueEscape, valueBlank := None)
      else
        AddValue(p, c).(valueBlank :=
          if !IsWhitespace(c) then None else if p.valueBlank == None then Some(Length(p.value)) else p.valueBlank)
    case ValueEscape => if IsNewline(c) then p.(mode := Value) else AddValue(p, c).(mode := Value)
  }

  /** One character. */
  function Step(p: Parser, c: Byte): (q: Parser)
    requires InBounds(p)
    ensures InBounds(q)
  {
    if Quoted(p.mode) then StepQuoted(p, c) else if InValue(p.mode) then StepValue(p, c) else StepKey(p, c)
  }

  /** All characters, up to the first push that fails. */
  function Run(p: Parser, s: seq<Byte>): (q: Parser)
    requires InBounds(p)
    ensures InBounds(q)
    decreases |s|
  {
    if s == [] || p.failed then p else Run(Step(p, s[0]), s[1..])
  }

  /** The end of the file ends an unfinished pair. */
  function Finish(p: Parser): Parser
    requires InBounds(p)
  {
    if !p.failed && InValue(p.mode) then PushPair(p, p.mode.Value?) else p
  }

  datatype Loaded = Failed | Cursor(cursor: Option<seq<Byte>>)

  /** The cursor in a text. */
  function Load(text: seq<Byte>): Loaded {
    Outcome(Run(START, text))
  }

  function Outcome(p: Parser): Loaded
    requires InBounds(p)
  {
    var q := Finish(p);
    if q.failed then Failed else Cursor(q.cursor)
  }

  /** The automaton reads a file up to its first NUL byte. */
  function UpToNul(file: seq<Byte>): (text: seq<Byte>)
    ensures text <= file && Utf8.CString(text)
    ensures Utf8.CString(file) ==> text == file
  {
    if file == [] || file[0] == 0 then [] else [file[0]] + UpToNul(file[1..])
  }

  const LINE_MAX: nat := 2048
  const SIZE_LIMIT: nat := 4 * 1024 * 1024

  /** `read_full_stream` on a regular file: after the first read the buffer is
      doubled, and must not exceed 4 MiB. */
  method ReadFullStream(file: seq<Byte>) returns (contents: Option<seq<Byte>>)
    ensures contents == if |file| <= SIZE_LIMIT / 2 then Some(file) else None
  {
    if |file| > SIZE_LIMIT { return None; }
    var n, l := if |file| > 0 then |file| else LINE_MAX, 0;
    while true
      invariant l <= |file| <= n && (l == 0 || (l == |file| <= SIZE_LIMIT / 2))
      invariant l == 0 && |file| > 0 ==> n == |file|
      decreases |file| - l
    {
      var k := if n - l < |file| - l then n - l else |file| - l;  // fread
      if k <= 0 { break; }
      l := l + k;
      n := n * 2;
      if n > SIZE_LIMIT { return None; }
    }
    assert file[..l] == file;
    return Some(file[..l]);
  }

  /** What the bytes of a state file amount to. */
  function LoadFile(file: seq<Byte>): Loaded {
    if |file| > SIZE_LIMIT / 2 then Failed else Load(UpToNul(file))
  }

  /** `state_load_cursor` on the bytes of the state file. */
  method StateLoadCursor(file: seq<Byte>) returns (r: Loaded)
    ensures r == LoadFile(file)
  {
    var contents := ReadFullStream(file);
    if contents.None? { return Failed; }
    r := ParseEnvFile(contents.value);
  }

  /** `parse_env_file_internal` on the contents. */
  method ParseEnvFile(file: seq<Byte>) returns (r: Loaded)
    ensures r == Load(UpToNul(file))
  {
    hide Step, Finish;
    var p, i := START, 0;
    assert file[0..] == file;
    while i < |file| && file[i] != 0 && !p.failed
      invariant i <= |file| && InBounds(p) && Run(p, UpToNul(file[i..])) == Run(START, UpToNul(file))
    {
      ghost var rest := UpToNul(file[i..]);
      p := Step(p, file[i]);
      assert file[i..][1..] == file[i + 1..];
      assert rest[1..] == UpToNul(file[i + 1..]);
      i := i + 1;
    }
    p := Finish(p);
    r := if p.failed then Failed else Cursor(p.cursor);
  }

  // "# This is private data. Do not parse." in ASCII
  const HEADER_1: seq<Byte> := [35, 32, 84, 104, 105, 115, 32, 105, 115, 32]
  const HEADER_2: seq<Byte> := [112, 114, 105, 118, 97, 116, 101, 32, 100, 97]
  const HEADER_3: seq<Byte> := [116, 97, 46, 32, 68, 111, 32, 110, 111, 116]
  const HEADER_4: seq<Byte> := [32, 112, 97, 114, 115, 101, 46]
  const HEADER: seq<Byte> := HEADER_1 + HEADER_2 + HEADER_3 + HEADER_4

  /** What `state_update_cursor` writes. */
  function Save(cursor: seq<Byte>): seq<Byte> {
    HEADER + [NEWLINE] + CURSOR_KEY + [EQUALS] + cursor + [NEWLINE]
  }

  /** The cursors that come back. */
  predicate Plain(c: seq<Byte>) {
    c != [] && ValidText(c) &&
    Ordinary(c) &&
    !IsWhitespace(c[0]) && c[0] != SINGLE_QUOTE && c[0] != DOUBLE_QUOTE && !IsWhitespace(c[|c| - 1])
  }

  // ---- Runs in two parts ----

  lemma {:induction false} RunAppends(p: Parser, a: seq<Byte>, b: seq<Byte>)
    requires InBounds(p)
    ensures Run(p, a + b) == Run(Run(p, a), b)
    decreases |a|
  {
    if a == [] {
      assert a + b == b;
    } else if !p.failed {
      assert (a + b)[1..] == a[1..] + b;
      RunAppends(Step(p, a[0]), a[1..], b);
    }
  }

  /** A comment without a backslash is skipped to its end. */
  lemma {:induction false} CommentRuns(p: Parser, s: seq<Byte>)
    requires InBounds(p) && p.mode.Comment? && !p.failed
    requires Ordinary(s)
    ensures Run(p, s + [NEWLINE]) == p.(mode := PreKey)
    decreases |s|
  {
    if s == [] {
      assert s + [NEWLINE] == [NEWLINE];
    } else {
      assert (s + [NEWLINE])[1..] == s[1..] + [NEWLINE];
      CommentRuns(p, s[1..]);
    }
  }

  /** A key without blanks is collected. */
  lemma {:induction false} KeyRuns(p: Parser, s: seq<Byte>)
    requires InBounds(p) && p.mode.Key? && !p.failed && p.keyBlank == None
    requires forall i :: 0 <= i < |s| ==> !IsWhitespace(s[i]) && s[i] != EQUALS
    ensures Run(p, s + [EQUALS]) == p.(mode := PreValue, key := p.key + s, valueBlank := None)
    decreases |s|
  {
    if s == [] {
      assert s + [EQUALS] == [EQUALS] && p.key + s == p.key;
    } else {
      assert (s + [EQUALS])[1..] == s[1..] + [EQUALS];
      KeyRuns(p.(key := p.key + [s[0]]), s[1..]);
      assert p.key + [s[0]] + s[1..] == p.key + s;
    }
  }

  const AT_VALUE := Parser(PreValue, CURSOR_KEY, None, None, None, None, false)

  predicate Ordinary(s: seq<Byte>) {
    forall i :: 0 <= i < |s| ==> !IsNewline(s[i]) && s[i] != BACKSLASH
  }

  lemma {:induction false} HeaderIsOrdinary()
    ensures Ordinary(HEADER) && HEADER[0] == 35
  {
    assert Ordinary(HEADER_1);
    assert Ordinary(HEADER_2);
    assert Ordinary(HEADER_3);
    assert Ordinary(HEADER_4);
  }

  lemma {:induction false} HeaderRuns()
    ensures Run(START, HEADER + [NEWLINE]) == START
  {
    HeaderIsOrdinary();
    OrdinaryCommentRuns(START, HEADER);
  }

  /** A comment line leaves the automaton as it was. */
  lemma {:induction false} OrdinaryCommentRuns(p: Parser, s: seq<Byte>)
    requires InBounds(p) && p.mode.PreKey? && !p.failed
    requires s != [] && IsComment(s[0]) && Ordinary(s)
    ensures Run(p, s + [NEWLINE]) == p
  {
    var rest := s[1..];
    CommentRuns(p.(mode := Comment), rest);
    assert s + [NEWLINE] == [s[0]] + (rest + [NEWLINE]);
  }

  lemma {:induction false} WholeKeyRuns(p: Parser, s: seq<Byte>)
    requires InBounds(p) && p.mode.PreKey? && !p.failed && p.key == []
    requires s != [] && !IsComment(s[0])
    requires forall i :: 0 <= i < |s| ==> !IsWhitespace(s[i]) && s[i] != EQUALS
    ensures Run(p, s + [EQUALS]) == p.(mode := PreValue, key := s, keyBlank := None, valueBlank := None)
  {
    var rest := s[1..];
    KeyRuns(p.(mode := Key, key := [s[0]], keyBlank := None), rest);
    assert p.key + [s[0]] == [s[0]] && [s[0]] + rest == s;
    assert s + [EQUALS] == [s[0]] + (rest + [EQUALS]);
  }

  lemma {:induction false} PrefixRuns()
    ensures Run(START, HEADER + [NEWLINE] + CURSOR_KEY + [EQUALS]) == AT_VALUE
  {
    HeaderRuns();
    WholeKeyRuns(START, CURSOR_KEY);
    RunAppends(START, HEADER + [NEWLINE], CURSOR_KEY + [EQUALS]);
    assert HEADER + [NEWLINE] + CURSOR_KEY + [EQUALS] == HEADER + [NEWLINE] + (CURSOR_KEY + [EQUALS]);
  }

  lemma {:induction false} SavedStartsAtValue(c: seq<Byte>)
    ensures Load(Save(c)) == Outcome(Run(AT_VALUE, c + [NEWLINE]))
  {
    PrefixRuns();
    RunAppends(START, HEADER + [NEWLINE] + CURSOR_KEY + [EQUALS], c + [NEWLINE]);
    assert Save(c) == HEADER + [NEWLINE] + CURSOR_KEY + [EQUALS] + (c + [NEWLINE]);
  }

  // ---- Unquoted text ----

  /** How much is left when trailing white space is cut off. */
  function Chomped(v: seq<Byte>): (n: nat)
    ensures n <= |v|
  {
    if v == [] || !IsWhitespace(v[|v| - 1]) then |v| else Chomped(v[..|v| - 1])
  }

  /** The state in the middle of an unquoted cursor. */
  function InText(v: seq<Byte>): (p: Parser)
    requires v != []
    ensures InBounds(p)
  {
    Parser(Value, CURSOR_KEY, Some(v), None, if Chomped(v) == |v| then None else Some(Chomped(v)), None, false)
  }

  lemma {:induction false} TextRuns(v: seq<Byte>, s: seq<Byte>)
    requires v != [] && Ordinary(s)
    ensures Run(InText(v), s) == InText(v + s)
    decreases |s|
  {
    if s == [] {
      assert v + s == v;
    } else {
      var w := v + [s[0]];
      assert w[..|w| - 1] == v;
      assert Step(InText(v), s[0]) == InText(w);
      TextRuns(w, s[1..]);
      assert w + s[1..] == v + s;
    }
  }

  predicate StartsPlain(c: seq<Byte>) {
    c != [] && !IsWhitespace(c[0]) && c[0] != SINGLE_QUOTE && c[0] != DOUBLE_QUOTE && c[0] != BACKSLASH
  }

  lemma {:induction false} TextBegins(c: seq<Byte>)
    requires StartsPlain(c) && Ordinary(c)
    ensures Run(AT_VALUE, c) == InText(c)
  {
    var s := c[1..];
    TextRuns([c[0]], s);
    assert [] + [c[0]] == [c[0]];
    assert Step(AT_VALUE, c[0]) == InText([c[0]]);
    assert [c[0]] + s == c;
  }

  lemma {:induction false} KeyIsValid()
    ensures ValidText(CURSOR_KEY)
  {
    hide Utf8.DecodeAll;
    Utf8.AsciiIsValid(CURSOR_KEY);
  }

  /** An unquoted cursor comes back without its trailing white space, or the load
      fails on its encoding. */
  lemma {:induction false} TextEnds(c: seq<Byte>)
    requires StartsPlain(c) && Ordinary(c)
    ensures var kept := c[..Chomped(c)];
            Load(Save(c)) == if ValidText(kept) then Cursor(Some(kept)) else Failed
  {
    hide ValidText, Chomped;
    SavedStartsAtValue(c);
    TextBegins(c);
    RunAppends(AT_VALUE, c, [NEWLINE]);
    KeyIsValid();
    var p := InText(c);
    assert Run(p, [NEWLINE]) == Step(p, NEWLINE);
    assert c[..|c|] == c;
  }

  // ---- What is lost is never made up for ----

  /** The number of bytes of a string, or of those that are not line feeds. */
  function Weight(all: bool, s: seq<Byte>): (n: nat)
    ensures n <= |s| && (all ==> n == |s|)
  {
    if s == [] then 0 else (if all || s[0] != NEWLINE then 1 else 0) + Weight(all, s[1..])
  }

  lemma {:induction false} WeightAppends(all: bool, a: seq<Byte>, b: seq<Byte>)
    ensures Weight(all, a + b) == Weight(all, a) + Weight(all, b)
  {
    if a == [] {
      assert a + b == b;
    } else {
      assert (a + b)[1..] == a[1..] + b;
      WeightAppends(all, a[1..], b);
    }
  }

  function OptionWeight(all: bool, v: Option<seq<Byte>>): nat {
    if v.Some? then Weight(all, v.value) else 0
  }

  function Max(a: nat, b: nat): nat {
    if a >= b then a else b
  }

  /** A bound on the cursor that reading bytes of weight `w` can still end with. */
  function Potential(all: bool, p: Parser, w: nat): nat {
    Max(OptionWeight(all, p.cursor),
        if InValue(p.mode) then OptionWeight(all, p.value) + w else if w == 0 then 0 else w - 1)
  }

  lemma {:induction false} AddValueWeight(all: bool, p: Parser, c: Byte)
    ensures OptionWeight(all, AddValue(p, c).value) == OptionWeight(all, p.value) + Weight(all, [c])
  {
    WeightAppends(all, if p.value.Some? then p.value.value else [], [c]);
  }

  lemma {:induction false} PushPairWeight(all: bool, p: Parser, chomp: bool)
    requires InBounds(p) && InValue(p.mode)
    ensures OptionWeight(all, PushPair(p, chomp).cursor) <= Max(OptionWeight(all, p.cursor), OptionWeight(all, p.value))
  {
    hide ValidText, Weight;
    if chomp && p.valueBlank.Some? {
      var v, k := p.value.value, p.valueBlank.value;
      WeightAppends(all, v[..k], v[k..]);
      assert v == v[..k] + v[k..];
    }
  }

  lemma {:induction false} StepKeyPotential(all: bool, p: Parser, c: Byte, w: nat)
    requires InBounds(p) && !InValue(p.mode)
    ensures Potential(all, StepKey(p, c), w) <= Potential(all, p, Weight(all, [c]) + w)
  {
  }

  lemma {:induction false} StepQuotedPotential(all: bool, p: Parser, c: Byte, w: nat)
    requires InBounds(p) && Quoted(p.mode)
    ensures Potential(all, StepQuoted(p, c), w) <= Potential(all, p, Weight(all, [c]) + w)
  {
    AddValueWeight(all, p, c);
    hide OptionWeight, Weight;
  }

  lemma {:induction false} StepValuePotential(all: bool, p: Parser, c: Byte, w: nat)
    requires InBounds(p) && InValue(p.mode) && !Quoted(p.mode)
    ensures Potential(all, StepValue(p, c), w) <= Potential(all, p, Weight(all, [c]) + w)
  {
    hide ValidText, PushPair;
    AddValueWeight(all, p, c);
    PushPairWeight(all, p, p.mode.Value?);
    hide Weight;
  }

  lemma {:induction false} StepPotential(all: bool, p: Parser, c: Byte, w: nat)
    requires InBounds(p)
    ensures Potential(all, Step(p, c), w) <= Potential(all, p, Weight(all, [c]) + w)
  {
    hide Potential, StepKey, StepQuoted, StepValue;
    if Quoted(p.mode) {
      StepQuotedPotential(all, p, c, w);
    } else if InValue(p.mode) {
      StepValuePotential(all, p, c, w);
    } else {
      StepKeyPotential(all, p, c, w);
    }
  }

  lemma {:induction false} RunPotential(all: bool, p: Parser, r: seq<Byte>)
    requires InBounds(p)
    ensures OptionWeight(all, Finish(Run(p, r)).cursor) <= Potential(all, p, Weight(all, r))
    decreases |r|
  {
    hide Step, PushPair, OptionWeight, ValidText;
    if r == [] || p.failed {
      if InValue(p.mode) { PushPairWeight(all, p, p.mode.Value?); }
    } else {
      StepPotential(all, p, r[0], Weight(all, r[1..]));
      assert Weight(all, r) == Weight(all, [r[0]]) + Weight(all, r[1..]);
      RunPotential(all, Step(p, r[0]), r[1..]);
    }
  }

  /** If the potential falls below the weight of a cursor, that cursor does not come back. */
  lemma {:induction false} TooLight(all: bool, p: Parser, r: seq<Byte>, c: seq<Byte>)
    requires InBounds(p) && Potential(all, p, Weight(all, r)) < Weight(all, c)
    ensures Outcome(Run(p, r)) != Cursor(Some(c))
  {
    hide Run, Potential, Finish;
    RunPotential(all, p, r);
  }

  // ---- Each way not to be plain ----

  /** A first byte that is skipped or opens quotes, or an escape, is lost. */
  lemma {:induction false} OddStartIsLost(c: seq<Byte>)
    requires c != [] && !StartsPlain(c) && !IsNewline(c[0])
    ensures Load(Save(c)) != Cursor(Some(c))
  {
    SavedStartsAtValue(c);
    var p := Step(AT_VALUE, c[0]);
    var r := c[1..] + [NEWLINE];
    WeightAppends(false, c[1..], [NEWLINE]);
    assert (c + [NEWLINE])[1..] == r;
    TooLight(false, p, r, c);
  }

  /** Reading up to a byte behind unquoted text. */
  lemma {:induction false} ReadsUpTo(c: seq<Byte>, i: nat)
    requires 0 < i < |c| && StartsPlain(c) && Ordinary(c[..i])
    ensures Load(Save(c)) == Outcome(Run(Step(InText(c[..i]), c[i]), c[i + 1..] + [NEWLINE]))
  {
    hide Step, Outcome, InText;
    var a, r := c[..i], c[i + 1..] + [NEWLINE];
    var s := [c[i]] + r;
    SavedStartsAtValue(c);
    TextBegins(a);
    assert a[0] == c[0];
    RunAppends(AT_VALUE, a, s);
    assert c + [NEWLINE] == a + s;
    assert s[1..] == r;
    InTextRuns(a, s);
  }

  lemma {:induction false} InTextRuns(a: seq<Byte>, s: seq<Byte>)
    requires a != [] && s != []
    ensures Run(InText(a), s) == Run(Step(InText(a), s[0]), s[1..])
  {
    hide Step;
  }

  lemma {:induction false} WeightSplits(all: bool, c: seq<Byte>, i: nat)
    requires i < |c|
    ensures Weight(all, c) == Weight(all, c[..i]) + Weight(all, [c[i]]) + Weight(all, c[i + 1..])
  {
    var a, b := c[..i], c[i + 1..];
    WeightAppends(all, a, [c[i]]);
    WeightAppends(all, a + [c[i]], b);
    assert c == a + [c[i]] + b;
  }

  /** So is a backslash further on. */
  lemma {:induction false} BackslashIsLost(c: seq<Byte>, i: nat)
    requires 0 < i < |c| && c[i] == BACKSLASH && StartsPlain(c) && Ordinary(c[..i])
    ensures Load(Save(c)) != Cursor(Some(c))
  {
    ReadsUpTo(c, i);
    WeightSplits(false, c, i);
    WeightAppends(false, c[i + 1..], [NEWLINE]);
    TooLight(false, Step(InText(c[..i]), BACKSLASH), c[i + 1..] + [NEWLINE], c);
  }

  /** A new line ends the pair, and what follows cannot be as long again. */
  lemma {:induction false} NewlineIsLost(c: seq<Byte>, i: nat)
    requires 0 < i < |c| && IsNewline(c[i]) && StartsPlain(c) && Ordinary(c[..i])
    ensures Load(Save(c)) != Cursor(Some(c))
  {
    var p := InText(c[..i]);
    ReadsUpTo(c, i);
    PushPairWeight(true, p, true);
    hide PushPair;
    TooLight(true, Step(p, c[i]), c[i + 1..] + [NEWLINE], c);
  }

  lemma {:induction false} NewlineFirstIsLost(c: seq<Byte>)
    requires c != [] && IsNewline(c[0])
    ensures Load(Save(c)) != Cursor(Some(c))
  {
    SavedStartsAtValue(c);
    KeyIsValid();
    hide ValidText;
    var r := c[1..] + [NEWLINE];
    assert (c + [NEWLINE])[1..] == r;
    TooLight(true, Step(AT_VALUE, c[0]), r, c);
  }

  lemma {:induction false} EmptyIsLost()
    ensures Load(Save([])) == Cursor(None)
  {
    SavedStartsAtValue([]);
    KeyIsValid();
    hide ValidText;
    assert [] + [NEWLINE] == [NEWLINE];
    assert Run(AT_VALUE, [NEWLINE]) == Step(AT_VALUE, NEWLINE);
  }

  /** The first byte that is special in unquoted text. */
  lemma {:induction false} FirstSpecial(c: seq<Byte>) returns (i: nat)
    requires !Ordinary(c)
    ensures i < |c| && Ordinary(c[..i]) && (IsNewline(c[i]) || c[i] == BACKSLASH)
  {
    i := 0;
    while !IsNewline(c[i]) && c[i] != BACKSLASH
      invariant i < |c| && Ordinary(c[..i]) && !Ordinary(c)
      decreases |c| - i
    {
      i := i + 1;
    }
  }

  lemma {:induction false} OddIsLost(c: seq<Byte>)
    requires !StartsPlain(c) || !Ordinary(c)
    ensures Load(Save(c)) != Cursor(Some(c))
  {
    hide Load, Save;
    if c == [] {
      EmptyIsLost();
    } else if IsNewline(c[0]) {
      NewlineFirstIsLost(c);
    } else if !StartsPlain(c) {
      OddStartIsLost(c);
    } else {
      var i := FirstSpecial(c);
      if c[i] == BACKSLASH { BackslashIsLost(c, i); } else { NewlineIsLost(c, i); }
    }
  }

  lemma {:induction false} HeaderIsCString()
    ensures Utf8.CString(HEADER)
  {
    assert Utf8.CString(HEADER_1);
    assert Utf8.CString(HEADER_2);
    assert Utf8.CString(HEADER_3);
    assert Utf8.CString(HEADER_4);
  }

  lemma {:induction false} SavedIsCString(c: seq<Byte>)
    requires Utf8.CString(c)
    ensures Utf8.CString(Save(c))
  {
    HeaderIsCString();
    assert Utf8.CString(CURSOR_KEY);
  }

  /** Without regard to size: the cursor that was saved is found exactly if it is plain. */
  lemma {:induction false} PlainIsFound(c: seq<Byte>)
    requires Utf8.CString(c)
    ensures Load(UpToNul(Save(c))) == Cursor(Some(c)) <==> Plain(c)
  {
    hide Load, Save, ValidText;
    SavedIsCString(c);
    if StartsPlain(c) && Ordinary(c) {
      TextEnds(c);
      assert c[..|c|] == c;
    } else {
      OddIsLost(c);
    }
  }

  /** The length of the longest cursor that comes back. */
  const CURSOR_MAX: nat := 2_097_101

  lemma {:induction false} SavedLength(c: seq<Byte>)
    ensures |Save(c)| == |c| + 51 && (|Save(c)| <= SIZE_LIMIT / 2 <==> |c| <= CURSOR_MAX)
  {
  }

  /** The cursor that was saved is the cursor that is loaded, exactly if it is plain
      and the file is not above 2 MiB. */
  lemma {:induction false} CursorRoundTrip(c: seq<Byte>)
    requires Utf8.CString(c)
    ensures LoadFile(Save(c)) == Cursor(Some(c)) <==> Plain(c) && |c| <= CURSOR_MAX
  {
    hide Load, Save, UpToNul, Plain;
    SavedLength(c);
    PlainIsFound(c);
  }

  function LetterAs(n: nat): (c: seq<Byte>)
    ensures |c| == n && forall i :: 0 <= i < n ==> c[i] == 97
  {
    seq(n, _ => 97)
  }

  /** A plain cursor that is one byte too long: loading fails. */
  lemma {:induction false} LongCursorIsLost()
    ensures var c := LetterAs(CURSOR_MAX + 1); Utf8.CString(c) && Plain(c) && LoadFile(Save(c)) == Failed
  {
    hide LetterAs, Load, Save, Utf8.DecodeAll;
    var c := LetterAs(CURSOR_MAX + 1);
    SavedLength(c);
    Utf8.AsciiIsValid(c);
  }

  // ---- Values with quotes and backslashes ----

  datatype Item = Raw(c: Byte) | Escaped(c: Byte)

  /** A string between quotes, behind some blanks. */
  datatype Quoting = Quoting(blanks: seq<Byte>, quote: Byte, body: seq<Item>)

  predicate Blanks(s: seq<Byte>) {
    forall i :: 0 <= i < |s| ==> IsWhitespace(s[i]) && !IsNewline(s[i])
  }

  predicate QuotingOk(s: Quoting) {
    Blanks(s.blanks) && (s.quote == SINGLE_QUOTE || s.quote == DOUBLE_QUOTE) &&
    forall i :: 0 <= i < |s.body| ==> s.body[i].Raw? ==> s.body[i].c != s.quote && s.body[i].c != BACKSLASH
  }

  /** Text outside quotes: it does not begin with a blank or a quote. */
  predicate TailOk(items: seq<Item>) {
    (forall i :: 0 <= i < |items| ==> items[i].Raw? ==> !IsNewline(items[i].c) && items[i].c != BACKSLASH) &&
    (items != [] && items[0].Raw? ==>
       !IsWhitespace(items[0].c) && items[0].c != SINGLE_QUOTE && items[0].c != DOUBLE_QUOTE)
  }

  function ItemText(item: Item): seq<Byte> {
    if item.Raw? then [item.c] else [BACKSLASH, item.c]
  }

  /** A backslash before a new line makes both disappear. */
  function ItemMeaning(item: Item): seq<Byte> {
    if item.Escaped? && IsNewline(item.c) then [] else [item.c]
  }

  function ItemsText(items: seq<Item>): seq<Byte> {
    if items == [] then [] else ItemText(items[0]) + ItemsText(items[1..])
  }

  function ItemsMeaning(items: seq<Item>): seq<Byte> {
    if items == [] then [] else ItemMeaning(items[0]) + ItemsMeaning(items[1..])
  }

  function QuotingText(s: Quoting): seq<Byte> {
    s.blanks + ([s.quote] + (ItemsText(s.body) + [s.quote]))
  }

  function StringsText(strings: seq<Quoting>): seq<Byte> {
    if strings == [] then [] else QuotingText(strings[0]) + StringsText(strings[1..])
  }

  function StringsMeaning(strings: seq<Quoting>): seq<Byte> {
    if strings == [] then [] else ItemsMeaning(strings[0].body) + StringsMeaning(strings[1..])
  }

  /** The buffer is only there once it holds a byte. */
  function Extend(v: Option<seq<Byte>>, more: seq<Byte>): Option<seq<Byte>> {
    if more == [] then v else Some((if v.Some? then v.value else []) + more)
  }

  lemma {:induction false} ExtendTwice(v: Option<seq<Byte>>, a: seq<Byte>, b: seq<Byte>)
    ensures Extend(Extend(v, a), b) == Extend(v, a + b)
  {
    if a == [] { assert a + b == b; }
    if b == [] { assert a + b == a; }
    var w := if v.Some? then v.value else [];
    assert w + a + b == w + (a + b);
  }

  /** Before a value, or between two of its strings. */
  function Between(v: Option<seq<Byte>>): (p: Parser)
    ensures InBounds(p)
  {
    Parser(PreValue, CURSOR_KEY, v, None, None, None, false)
  }

  function QuoteMode(q: Byte): Mode {
    if q == SINGLE_QUOTE then SingleQuoteValue else DoubleQuoteValue
  }

  function InQuotes(q: Byte, v: Option<seq<Byte>>): (p: Parser)
    ensures InBounds(p)
  {
    Parser(QuoteMode(q), CURSOR_KEY, v, None, None, None, false)
  }

  lemma {:induction false} RunCons(p: Parser, c: Byte, s: seq<Byte>)
    requires InBounds(p) && !p.failed
    ensures Run(p, [c] + s) == Run(Step(p, c), s)
  {
    assert ([c] + s)[1..] == s;
    hide Step;
  }

  lemma {:induction false} BlanksRun(v: Option<seq<Byte>>, s: seq<Byte>, rest: seq<Byte>)
    requires Blanks(s)
    ensures Run(Between(v), s + rest) == Run(Between(v), rest)
  {
    if s == [] {
      assert s + rest == rest;
    } else {
      assert s + rest == [s[0]] + (s[1..] + rest);
      RunCons(Between(v), s[0], s[1..] + rest);
      assert Step(Between(v), s[0]) == Between(v);
      BlanksRun(v, s[1..], rest);
    }
  }

  /** One item between quotes. */
  lemma {:induction false} ItemRuns(q: Byte, v: Option<seq<Byte>>, item: Item, rest: seq<Byte>)
    requires (q == SINGLE_QUOTE || q == DOUBLE_QUOTE) && (item.Raw? ==> item.c != q && item.c != BACKSLASH)
    ensures Run(InQuotes(q, v), ItemText(item) + rest) == Run(InQuotes(q, Extend(v, ItemMeaning(item))), rest)
  {
    hide Run;
    var p, c := InQuotes(q, v), item.c;
    if item.Raw? {
      RunCons(p, c, rest);
    } else {
      assert ItemText(item) + rest == [BACKSLASH] + ([c] + rest);
      RunCons(p, BACKSLASH, [c] + rest);
      RunCons(Step(p, BACKSLASH), c, rest);
    }
  }

  lemma {:induction false} BodyRuns(q: Byte, v: Option<seq<Byte>>, body: seq<Item>, rest: seq<Byte>)
    requires q == SINGLE_QUOTE || q == DOUBLE_QUOTE
    requires forall i :: 0 <= i < |body| ==> body[i].Raw? ==> body[i].c != q && body[i].c != BACKSLASH
    ensures Run(InQuotes(q, v), ItemsText(body) + rest) == Run(InQuotes(q, Extend(v, ItemsMeaning(body))), rest)
    decreases |body|
  {
    hide Run, ItemText, ItemMeaning, InQuotes, Extend;
    if body == [] {
      assert ItemsText(body) + rest == rest;
      assert Extend(v, []) == v by { NothingMore(v); }
    } else {
      ItemRuns(q, v, body[0], ItemsText(body[1..]) + rest);
      assert ItemsText(body) + rest == ItemText(body[0]) + (ItemsText(body[1..]) + rest);
      BodyRuns(q, Extend(v, ItemMeaning(body[0])), body[1..], rest);
      ExtendTwice(v, ItemMeaning(body[0]), ItemsMeaning(body[1..]));
    }
  }

  lemma {:induction false} NothingMore(v: Option<seq<Byte>>)
    ensures Extend(v, []) == v
  {
  }

  lemma {:induction false} QuotingRuns(v: Option<seq<Byte>>, s: Quoting, rest: seq<Byte>)
    requires QuotingOk(s)
    ensures Run(Between(v), QuotingText(s) + rest) == Run(Between(Extend(v, ItemsMeaning(s.body))), rest)
  {
    var q := s.quote;
    var u := ItemsText(s.body) + ([q] + rest);
    assert QuotingText(s) + rest == s.blanks + ([q] + u);
    BlanksRun(v, s.blanks, [q] + u);
    RunCons(Between(v), q, u);
    BodyRuns(q, v, s.body, [q] + rest);
    RunCons(InQuotes(q, Extend(v, ItemsMeaning(s.body))), q, rest);
    hide Run, Extend;
  }

  lemma {:induction false} StringsRun(v: Option<seq<Byte>>, strings: seq<Quoting>, rest: seq<Byte>)
    requires forall i :: 0 <= i < |strings| ==> QuotingOk(strings[i])
    ensures Run(Between(v), StringsText(strings) + rest) == Run(Between(Extend(v, StringsMeaning(strings))), rest)
    decreases |strings|
  {
    hide Run, QuotingText, ItemsMeaning, Between, Extend, QuotingOk;
    if strings == [] {
      assert StringsText(strings) + rest == rest;
      NothingMore(v);
    } else {
      QuotingRuns(v, strings[0], StringsText(strings[1..]) + rest);
      assert StringsText(strings) + rest == QuotingText(strings[0]) + (StringsText(strings[1..]) + rest);
      StringsRun(Extend(v, ItemsMeaning(strings[0].body)), strings[1..], rest);
      ExtendTwice(v, ItemsMeaning(strings[0].body), StringsMeaning(strings[1..]));
    }
  }

  // ---- The tail outside quotes ----

  /** Where the blanks at the end begin that are written as such, counted from the
      start of the buffer, which holds `n` bytes already. */
  function TailBlank(n: nat, items: seq<Item>): (k: Option<nat>)
    ensures k.Some? ==> n <= k.value < n + |ItemsMeaning(items)|
    decreases |items|
  {
    if items == [] then None
    else
      var front, last := items[..|items| - 1], items[|items| - 1];
      MeaningSnoc(items);
      if last.Escaped? || !IsWhitespace(last.c) then None
      else if TailBlank(n, front).Some? then TailBlank(n, front)
      else Some(n + |ItemsMeaning(front)|)
  }

  lemma {:induction false} MeaningSnoc(items: seq<Item>)
    requires items != []
    ensures var front, last := items[..|items| - 1], items[|items| - 1];
      ItemsMeaning(items) == ItemsMeaning(front) + ItemMeaning(last) && ItemsText(items) == ItemsText(front) + ItemText(last)
  {
    hide ItemMeaning, ItemText;
    var last := items[|items| - 1];
    if |items| == 1 {
      assert items[..0] == [] && items[1..] == [];
      assert ItemMeaning(last) + [] == [] + ItemMeaning(last) && ItemText(last) + [] == [] + ItemText(last);
    } else {
      var middle := items[1..|items| - 1];
      MeaningSnoc(items[1..]);
      assert items[1..][..|items| - 2] == middle && items[..|items| - 1][1..] == middle;
      Associates(ItemMeaning(items[0]), ItemsMeaning(middle), ItemMeaning(last));
      Associates(ItemText(items[0]), ItemsText(middle), ItemText(last));
    }
  }

  lemma {:induction false} Associates(a: seq<Byte>, b: seq<Byte>, c: seq<Byte>)
    ensures a + (b + c) == a + b + c
  {
  }

  function InTail(v: Option<seq<Byte>>, items: seq<Item>): (p: Parser)
    ensures InBounds(p)
  {
    var k := TailBlank(Length(v), items);
    Parser(Value, CURSOR_KEY, Extend(v, ItemsMeaning(items)), None, k, None, false)
  }

  /** Outside quotes, with the value and the place where its blanks begin. */
  function Unquoted(w: Option<seq<Byte>>, k: Option<nat>): (p: Parser)
    requires k.Some? ==> w.Some? && k.value <= |w.value|
    ensures InBounds(p)
  {
    Parser(Value, CURSOR_KEY, w, None, k, None, false)
  }

  lemma {:induction false} StartsRaw(v: Option<seq<Byte>>, c: Byte)
    requires !IsWhitespace(c) && c != BACKSLASH && c != SINGLE_QUOTE && c != DOUBLE_QUOTE
    ensures Run(Between(v), [c]) == Unquoted(Extend(v, [c]), None)
  {
    assert [c] + [] == [c];
    RunCons(Between(v), c, []);
  }

  lemma {:induction false} GoesOnRaw(w: Option<seq<Byte>>, k: Option<nat>, c: Byte)
    requires (k.Some? ==> w.Some? && k.value <= |w.value|) && !IsNewline(c) && c != BACKSLASH
    ensures Run(Unquoted(w, k), [c]) ==
      Unquoted(Extend(w, [c]), if !IsWhitespace(c) then None else if k == None then Some(Length(w)) else k)
  {
    assert [c] + [] == [c];
    RunCons(Unquoted(w, k), c, []);
  }

  lemma {:induction false} AfterBackslash(w: Option<seq<Byte>>, c: Byte)
    ensures InBounds(Parser(ValueEscape, CURSOR_KEY, w, None, None, None, false))
    ensures Run(Parser(ValueEscape, CURSOR_KEY, w, None, None, None, false), [c]) ==
            Unquoted(Extend(w, ItemMeaning(Escaped(c))), None)
  {
    assert [c] + [] == [c];
    RunCons(Parser(ValueEscape, CURSOR_KEY, w, None, None, None, false), c, []);
  }

  lemma {:induction false} RunsEscaped(v: Option<seq<Byte>>, k: Option<nat>, c: Byte)
    requires k.Some? ==> v.Some? && k.value <= |v.value|
    ensures Run(Between(v), [BACKSLASH, c]) == Unquoted(Extend(v, ItemMeaning(Escaped(c))), None)
    ensures Run(Unquoted(v, k), [BACKSLASH, c]) == Unquoted(Extend(v, ItemMeaning(Escaped(c))), None)
  {
    assert [BACKSLASH] + [c] == [BACKSLASH, c];
    RunCons(Between(v), BACKSLASH, [c]);
    RunCons(Unquoted(v, k), BACKSLASH, [c]);
    AfterBackslash(v, c);
    hide Run, Extend;
  }

  lemma {:induction false} ExtendLength(v: Option<seq<Byte>>, m: seq<Byte>)
    ensures Length(Extend(v, m)) == Length(v) + |m|
  {
  }

  /** One more item outside quotes. */
  lemma {:induction false} TailStep(v: Option<seq<Byte>>, items: seq<Item>)
    requires items != [] && TailOk(items)
    ensures var front, last := items[..|items| - 1], items[|items| - 1];
      Run(if front == [] then Between(v) else InTail(v, front), ItemText(last)) == InTail(v, items)
  {
    hide Run, Between, Extend;
    var front, last := items[..|items| - 1], items[|items| - 1];
    var w, k := Extend(v, ItemsMeaning(front)), TailBlank(Length(v), front);
    MeaningSnoc(items);
    ExtendTwice(v, ItemsMeaning(front), ItemMeaning(last));
    ExtendLength(v, ItemsMeaning(front));
    assert front != [] ==> InTail(v, front) == Unquoted(w, k);
    assert front == [] ==> w == v && k == None by { NothingMore(v); }
    if last.Escaped? {
      RunsEscaped(w, k, last.c);
    } else if front == [] {
      StartsRaw(v, last.c);
    } else {
      GoesOnRaw(w, k, last.c);
    }
  }

  lemma {:induction false} TailRuns(v: Option<seq<Byte>>, items: seq<Item>)
    requires items != [] && TailOk(items)
    ensures Run(Between(v), ItemsText(items)) == InTail(v, items)
    decreases |items|
  {
    hide Run, InTail, Between;
    var front, last := items[..|items| - 1], items[|items| - 1];
    MeaningSnoc(items);
    TailStep(v, items);
    if front == [] {
      assert ItemsText(items) == ItemText(last);
    } else {
      TailRuns(v, front);
      RunAppends(Between(v), ItemsText(front), ItemText(last));
    }
  }

  // ---- What is loaded ----

  /** The bytes of a value that has been read. */
  function Kept(strings: seq<Quoting>, tail: seq<Item>): Option<seq<Byte>> {
    var m := StringsMeaning(strings);
    var k := TailBlank(|m|, tail);
    var all := m + ItemsMeaning(tail);
    if all == [] then None else if k.Some? then Some(all[..k.value]) else Some(all)
  }

  function LoadedAs(value: Option<seq<Byte>>): Loaded {
    if value.None? then Cursor(None) else if ValidText(value.value) then Cursor(value) else Failed
  }

  lemma {:induction false} ValueEnds(p: Parser)
    requires InBounds(p) && InValue(p.mode) && !p.failed && p.key == CURSOR_KEY && p.keyBlank == None && p.cursor == None
    requires p.mode.PreValue? || p.mode.Value?
    ensures var v := if p.mode.Value? && p.valueBlank.Some? then Some(p.value.value[..p.valueBlank.value]) else p.value;
      Outcome(Run(p, [NEWLINE])) == LoadedAs(v)
  {
    KeyIsValid();
    hide ValidText;
    assert [NEWLINE] + [] == [NEWLINE];
    RunCons(p, NEWLINE, []);
  }

  /** Strings in quotes with blanks before each, then blanks and a tail with
      backslashes: what is loaded is what they mean, without the blanks at the end that
      are written as such. */
  lemma {:induction false} SpelledIsLoaded(strings: seq<Quoting>, blanks: seq<Byte>, tail: seq<Item>)
    requires (forall i :: 0 <= i < |strings| ==> QuotingOk(strings[i])) && Blanks(blanks) && TailOk(tail)
    ensures Load(Save(StringsText(strings) + (blanks + ItemsText(tail)))) == LoadedAs(Kept(strings, tail))
  {
    var m := StringsMeaning(strings);
    var v := Extend(None, m);
    var t := ItemsText(tail);
    var text := StringsText(strings) + (blanks + t);
    SavedStartsAtValue(text);
    assert text + [NEWLINE] == StringsText(strings) + (blanks + (t + [NEWLINE]));
    StringsRun(None, strings, blanks + (t + [NEWLINE]));
    BlanksRun(v, blanks, t + [NEWLINE]);
    assert [] + m == m;
    if tail == [] {
      assert t + [NEWLINE] == [NEWLINE];
      ValueEnds(Between(v));
      assert m + ItemsMeaning(tail) == m;
    } else {
      TailRuns(v, tail);
      RunAppends(Between(v), t, [NEWLINE]);
      ValueEnds(InTail(v, tail));
      ExtendTwice(None, m, ItemsMeaning(tail));
      assert [] + (m + ItemsMeaning(tail)) == m + ItemsMeaning(tail);
    }
    hide Run, Save, Load;
  }

  // ---- Comments, and blanks around the key ----

  /** A comment behind some white space; a backslash in it takes the next byte along,
      a new line included. */
  datatype Remark = Remark(blanks: seq<Byte>, mark: Byte, items: seq<Item>)

  predicate RemarkOk(m: Remark) {
    (forall i :: 0 <= i < |m.blanks| ==> IsWhitespace(m.blanks[i])) && IsComment(m.mark) &&
    forall i :: 0 <= i < |m.items| ==> m.items[i].Raw? ==> !IsNewline(m.items[i].c) && m.items[i].c != BACKSLASH
  }

  function RemarksText(remarks: seq<Remark>): seq<Byte> {
    if remarks == [] then []
    else
      var m := remarks[0];
      m.blanks + ([m.mark] + (ItemsText(m.items) + ([NEWLINE] + RemarksText(remarks[1..]))))
  }

  lemma {:induction false} WhiteRuns(p: Parser, s: seq<Byte>, rest: seq<Byte>)
    requires InBounds(p) && p.mode.PreKey? && !p.failed && forall i :: 0 <= i < |s| ==> IsWhitespace(s[i])
    ensures Run(p, s + rest) == Run(p, rest)
  {
    if s == [] {
      assert s + rest == rest;
    } else {
      assert s + rest == [s[0]] + (s[1..] + rest);
      RunCons(p, s[0], s[1..] + rest);
      WhiteRuns(p, s[1..], rest);
    }
  }

  lemma {:induction false} RemarkRuns(p: Parser, items: seq<Item>, rest: seq<Byte>)
    requires InBounds(p) && p.mode.Comment? && !p.failed
    requires forall i :: 0 <= i < |items| ==> items[i].Raw? ==> !IsNewline(items[i].c) && items[i].c != BACKSLASH
    ensures Run(p, ItemsText(items) + ([NEWLINE] + rest)) == Run(p.(mode := PreKey), rest)
    decreases |items|
  {
    hide Run;
    var end := [NEWLINE] + rest;
    if items == [] {
      assert ItemsText(items) + end == end;
      RunCons(p, NEWLINE, rest);
    } else {
      var c, u := items[0].c, ItemsText(items[1..]) + end;
      RemarkRuns(p, items[1..], rest);
      if items[0].Raw? {
        assert ItemsText(items) + end == [c] + u;
        RunCons(p, c, u);
      } else {
        assert ItemsText(items) + end == [BACKSLASH] + ([c] + u);
        RunCons(p, BACKSLASH, [c] + u);
        RunCons(Step(p, BACKSLASH), c, u);
      }
    }
  }

  /** Comments are skipped. */
  lemma {:induction false} RemarksAreSkipped(p: Parser, remarks: seq<Remark>, rest: seq<Byte>)
    requires InBounds(p) && p.mode.PreKey? && !p.failed && forall i :: 0 <= i < |remarks| ==> RemarkOk(remarks[i])
    ensures Run(p, RemarksText(remarks) + rest) == Run(p, rest)
    decreases |remarks|
  {
    hide Run;
    if remarks == [] {
      assert RemarksText(remarks) + rest == rest;
    } else {
      var m := remarks[0];
      var more := RemarksText(remarks[1..]) + rest;
      var u := ItemsText(m.items) + ([NEWLINE] + more);
      assert RemarksText(remarks) + rest == m.blanks + ([m.mark] + u);
      assert RemarkOk(m);
      WhiteRuns(p, m.blanks, [m.mark] + u);
      RunCons(p, m.mark, u);
      RemarkRuns(p.(mode := Comment), m.items, more);
      RemarksAreSkipped(p, remarks[1..], rest);
    }
  }

  /** Comments and white space before the line of the cursor change nothing. */
  lemma {:induction false} RemarksBefore(remarks: seq<Remark>, white: seq<Byte>, c: seq<Byte>)
    requires (forall i :: 0 <= i < |remarks| ==> RemarkOk(remarks[i])) && forall i :: 0 <= i < |white| ==> IsWhitespace(white[i])
    ensures Load(RemarksText(remarks) + (white + (CURSOR_KEY + [EQUALS] + (c + [NEWLINE])))) == Load(Save(c))
  {
    hide Run, RemarksText, RemarkOk;
    var line := CURSOR_KEY + [EQUALS] + (c + [NEWLINE]);
    RemarksAreSkipped(START, remarks, white + line);
    WhiteRuns(START, white, line);
    WholeKeyRuns(START, CURSOR_KEY);
    RunAppends(START, CURSOR_KEY + [EQUALS], c + [NEWLINE]);
    SavedStartsAtValue(c);
  }

  /** Blanks behind the key are marked to be cut off. */
  lemma {:induction false} KeyBlanksRun(p: Parser, s: seq<Byte>)
    requires InBounds(p) && p.mode.Key? && !p.failed && Blanks(s)
    ensures Run(p, s + [EQUALS]) ==
      p.(mode := PreValue, key := p.key + s, valueBlank := None,
         keyBlank := if s == [] || p.keyBlank.Some? then p.keyBlank else Some(|p.key|))
    decreases |s|
  {
    if s == [] {
      assert s + [EQUALS] == [EQUALS] && p.key + s == p.key;
      assert [EQUALS] + [] == [EQUALS];
      RunCons(p, EQUALS, []);
    } else {
      assert s + [EQUALS] == [s[0]] + (s[1..] + [EQUALS]);
      RunCons(p, s[0], s[1..] + [EQUALS]);
      KeyBlanksRun(Step(p, s[0]), s[1..]);
      assert p.key + [s[0]] + s[1..] == p.key + s;
    }
  }
}
