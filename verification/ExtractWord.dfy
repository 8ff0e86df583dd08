/** Splitting a text into words with quotes and backslashes. Strings are C
    strings, given without their NUL byte. */
module ExtractWord {
  import opened Wrappers

  /** Without the flags that interpret C escapes. */
  datatype Flags = Flags(relax: bool, quotes: bool, dontCoalesceSeparators: bool, retainEscape: bool)

  const WHITESPACE: string := " \t\n\r"
  const AS_IN_DAEMON := Flags(true, true, false, false)

  /** The outcome of a call: a word and the new position, the end, or -EINVAL. */
  datatype Extracted = Word(word: string, rest: Option<string>) | Nothing | Invalid

  predicate IsQuote(c: char) {
    c == '\'' || c == '"'
  }

  function SkipSeparators(seps: string, t: string): (rest: string)
    ensures |rest| <= |t| && (rest != [] ==> rest[0] !in seps)
  {
    if t == [] || t[0] !in seps then t else SkipSeparators(seps, t[1..])
  }

  function AtEnd(open: bool, f: Flags, acc: string): Extracted {
    if open && !f.relax then Invalid else Word(acc, None)
  }

  function AfterWord(seps: string, f: Flags, t: string, acc: string): Extracted
    requires t != []
  {
    if f.dontCoalesceSeparators then Word(acc, Some(t[1..]))
    else if SkipSeparators(seps, t) == [] then Word(acc, None)
    else Word(acc, Some(SkipSeparators(seps, t)))
  }

  /** The rest of a word. */
  function Scan(seps: string, f: Flags, t: string, quote: Option<char>, backslash: bool, acc: string): (r: Extracted)
    ensures !r.Nothing? && (f.relax ==> !r.Invalid?)
    ensures r.Word? && r.rest.Some? ==> |r.rest.value| <= |t|
    ensures r.Word? && r.rest.Some? && t != [] && (t[0] !in seps || f.dontCoalesceSeparators || backslash || quote.Some?) ==>
              |r.rest.value| < |t|
  {
    if t == [] then AtEnd(backslash || quote.Some?, f, acc)
    else
      var c, u := t[0], t[1..];
      if backslash then Scan(seps, f, u, quote, false, acc + [c])
      else if quote.Some? && c == quote.value then Scan(seps, f, u, None, false, acc)
      else if quote.None? && f.quotes && IsQuote(c) then Scan(seps, f, u, Some(c), false, acc)
      else if c == '\\' && !f.retainEscape then Scan(seps, f, u, quote, true, acc)
      else if quote.None? && c in seps then AfterWord(seps, f, t, acc)
      else Scan(seps, f, u, quote, false, acc + [c])
  }

  function Measure(p: Option<string>): nat {
    if p.Some? then |p.value| + 1 else 0
  }

  /** One call. Without a failure, each word uses up some of the text. */
  function Extract(seps: string, f: Flags, p: Option<string>): (r: Extracted)
    ensures f.relax ==> !r.Invalid?
    ensures r.Word? ==> Measure(r.rest) < Measure(p)
  {
    if p.None? then Nothing
    else if f.dontCoalesceSeparators then
      if p.value == [] then Word([], None)
      else if p.value[0] in seps then Word([], Some(p.value[1..]))
      else Scan(seps, f, p.value, None, false, [])
    else
      var t := SkipSeparators(seps, p.value);
      if t == [] then Nothing else Scan(seps, f, t, None, false, [])
  }

  /** All words; none if a call fails. */
  function Split(seps: string, f: Flags, p: Option<string>): (r: Option<seq<string>>)
    ensures f.relax ==> r.Some?
    decreases Measure(p)
  {
    match Extract(seps, f, p)
    case Invalid => None
    case Nothing => Some([])
    case Word(word, rest) =>
      match Split(seps, f, rest)
      case None => None
      case Some(words) => Some([word] + words)
  }

  // ---- The loops ----

  method SkipLoop(seps: string, text: string, from: nat) returns (pos: nat)
    requires from <= |text|
    ensures from <= pos <= |text| && text[pos..] == SkipSeparators(seps, text[from..])
  {
    pos := from;
    while pos < |text| && text[pos] in seps
      invariant from <= pos <= |text|
      invariant SkipSeparators(seps, text[pos..]) == SkipSeparators(seps, text[from..])
    {
      assert text[pos..][1..] == text[pos + 1..];
      pos := pos + 1;
    }
  }

  /** Inside quotes, up to the closing quote, a backslash or the end. `room` is
      the size of the word's buffer, which always has a byte left for the NUL. */
  method QuotedLoop(seps: string, f: Flags, text: string, from: nat, quote: char, s: string, room: nat)
    returns (pos: nat, word: string, size: nat)
    requires from <= |text| && |s| < room
    ensures from <= pos <= |text| && |word| < size
    ensures pos < |text| ==> text[pos] == quote || (text[pos] == '\\' && !f.retainEscape)
    ensures Scan(seps, f, text[pos..], Some(quote), false, word) == Scan(seps, f, text[from..], Some(quote), false, s)
  {
    pos, word, size := from, s, room;
    while pos < |text| && text[pos] != quote && (text[pos] != '\\' || f.retainEscape)
      invariant from <= pos <= |text| && |word| < size
      invariant Scan(seps, f, text[pos..], Some(quote), false, word) == Scan(seps, f, text[from..], Some(quote), false, s)
    {
      assert text[pos..][1..] == text[pos + 1..];
      size := if size < |word| + 2 then |word| + 2 else size;
      word := word + [text[pos]];
      pos := pos + 1;
    }
  }

  /** Outside quotes, up to a quote, a backslash, a separator or the end. */
  method BareLoop(seps: string, f: Flags, text: string, from: nat, s: string, room: nat)
    returns (pos: nat, word: string, size: nat)
    requires from <= |text| && |s| < room
    ensures from <= pos <= |text| && |word| < size
    ensures pos < |text| ==> (f.quotes && IsQuote(text[pos])) || (text[pos] == '\\' && !f.retainEscape) || text[pos] in seps
    ensures Scan(seps, f, text[pos..], None, false, word) == Scan(seps, f, text[from..], None, false, s)
  {
    pos, word, size := from, s, room;
    while pos < |text| && !(f.quotes && IsQuote(text[pos])) && (text[pos] != '\\' || f.retainEscape) && text[pos] !in seps
      invariant from <= pos <= |text| && |word| < size
      invariant Scan(seps, f, text[pos..], None, false, word) == Scan(seps, f, text[from..], None, false, s)
    {
      assert text[pos..][1..] == text[pos + 1..];
      size := if size < |word| + 2 then |word| + 2 else size;
      word := word + [text[pos]];
      pos := pos + 1;
    }
  }

  /** A word from its first character on. */
  method WordLoop(seps: string, f: Flags, text: string, from: nat) returns (r: Extracted)
    requires from < |text|
    ensures r == Scan(seps, f, text[from..], None, false, [])
  {
    var pos, s, room := from, "", 1;
    var quote: Option<char>, backslash := None, false;
    while true
      invariant from <= pos <= |text| && |s| < room
      invariant Scan(seps, f, text[pos..], quote, backslash, s) == Scan(seps, f, text[from..], None, false, [])
      decreases |text| - pos
    {
      if backslash {
        room := if room < |s| + 7 then |s| + 7 else room;
        if pos == |text| { return AtEnd(true, f, s); }
        s := s + [text[pos]];
        backslash := false;
      } else if quote.Some? {
        pos, s, room := QuotedLoop(seps, f, text, pos, quote.value, s, room);
        if pos == |text| { return AtEnd(true, f, s); }
        if text[pos] == quote.value { quote := None; } else { backslash := true; }
      } else {
        pos, s, room := BareLoop(seps, f, text, pos, s, room);
        if pos == |text| { return Word(s, None); }
        if f.quotes && IsQuote(text[pos]) {
          quote := Some(text[pos]);
        } else if text[pos] == '\\' && !f.retainEscape {
          backslash := true;
        } else if f.dontCoalesceSeparators {
          assert text[pos..][1..] == text[pos + 1..];
          return Word(s, Some(text[pos + 1..]));
        } else {
          var next := SkipLoop(seps, text, pos);
          return Word(s, if next == |text| then None else Some(text[next..]));
        }
      }
      assert text[pos..][1..] == text[pos + 1..];
      pos := pos + 1;
    }
  }

  method ExtractFirstWord(seps: string, f: Flags, p: Option<string>) returns (r: Extracted)
    ensures r == Extract(seps, f, p)
  {
    if p.None? { return Nothing; }
    var text := p.value;
    assert text[0..] == text;
    if f.dontCoalesceSeparators {
      if text == [] { return Word([], None); }
      if text[0] in seps { return Word([], Some(text[1..])); }
      r := WordLoop(seps, f, text, 0);
    } else {
      var start := SkipLoop(seps, text, 0);
      if start == |text| { return Nothing; }
      r := WordLoop(seps, f, text, start);
    }
  }

  /** The loop of `config_parse_syslog_facility`, which gives EXTRACT_QUOTES and
      EXTRACT_RELAX, and of the reading of interface indexes, which gives no flags. */
  method SplitWords(text: string, f: Flags) returns (words: Option<seq<string>>)
    ensures words == Split(WHITESPACE, f, Some(text))
  {
    var found: seq<string> := [];
    var p := Some(text);
    while true
      invariant Split(WHITESPACE, f, p).None? <==> Split(WHITESPACE, f, Some(text)).None?
      invariant Split(WHITESPACE, f, p).Some? ==>
        found + Split(WHITESPACE, f, p).value == Split(WHITESPACE, f, Some(text)).value
      decreases Measure(p)
    {
      var r := ExtractFirstWord(WHITESPACE, f, p);
      if r.Invalid? { return None; }
      if r.Nothing? {
        assert found + [] == found;
        return Some(found);
      }
      found := found + [r.word];
      p := r.rest;
    }
  }

  // ---- The ways to write a word ----

  datatype Item = Raw(c: char) | Escaped(c: char)

  /** A word is written in pieces: characters as such, characters behind a
      backslash, and strings in quotes, in which there are also such items. */
  datatype Piece = Plain(c: char) | Escape(c: char) | Quoted(q: char, body: seq<Item>)

  /** Characters that do not stand for themselves under these flags. */
  predicate Special(f: Flags, c: char) {
    (f.quotes && IsQuote(c)) || (c == '\\' && !f.retainEscape)
  }

  predicate ItemOk(f: Flags, q: char, item: Item) {
    if item.Raw? then item.c != q && (item.c != '\\' || f.retainEscape) else !f.retainEscape
  }

  predicate ItemsOk(f: Flags, q: char, body: seq<Item>) {
    forall i :: 0 <= i < |body| ==> ItemOk(f, q, body[i])
  }

  predicate PieceOk(f: Flags, seps: string, p: Piece) {
    match p
    case Plain(c) => !Special(f, c) && c !in seps
    case Escape(_) => !f.retainEscape
    case Quoted(q, body) => f.quotes && IsQuote(q) && ItemsOk(f, q, body)
  }

  predicate PiecesOk(f: Flags, seps: string, ps: seq<Piece>) {
    forall i :: 0 <= i < |ps| ==> PieceOk(f, seps, ps[i])
  }

  predicate SeparatorsOk(f: Flags, seps: string) {
    forall i :: 0 <= i < |seps| ==> !Special(f, seps[i])
  }

  function ItemsText(body: seq<Item>): string {
    if body == [] then []
    else (if body[0].Raw? then [body[0].c] else ['\\', body[0].c]) + ItemsText(body[1..])
  }

  function ItemsMeaning(body: seq<Item>): string {
    if body == [] then [] else [body[0].c] + ItemsMeaning(body[1..])
  }

  function PieceText(p: Piece): string {
    match p
    case Plain(c) => [c]
    case Escape(c) => ['\\', c]
    case Quoted(q, body) => [q] + (ItemsText(body) + [q])
  }

  function PieceMeaning(p: Piece): string {
    match p
    case Plain(c) => [c]
    case Escape(c) => [c]
    case Quoted(_, body) => ItemsMeaning(body)
  }

  function Text(ps: seq<Piece>): string {
    if ps == [] then [] else PieceText(ps[0]) + Text(ps[1..])
  }

  function Meaning(ps: seq<Piece>): string {
    if ps == [] then [] else PieceMeaning(ps[0]) + Meaning(ps[1..])
  }

  // ---- Each way is understood ----

  lemma {:induction false} ScanCons(seps: string, f: Flags, c: char, u: string, quote: Option<char>, backslash: bool, acc: string)
    ensures Scan(seps, f, [c] + u, quote, backslash, acc) ==
      if backslash then Scan(seps, f, u, quote, false, acc + [c])
      else if quote == Some(c) then Scan(seps, f, u, None, false, acc)
      else if quote.None? && f.quotes && IsQuote(c) then Scan(seps, f, u, Some(c), false, acc)
      else if c == '\\' && !f.retainEscape then Scan(seps, f, u, quote, true, acc)
      else if quote.None? && c in seps then AfterWord(seps, f, [c] + u, acc)
      else Scan(seps, f, u, quote, false, acc + [c])
  {
    hide AfterWord;
    var t := [c] + u;
    assert t[1..] == u;
  }

  lemma {:induction false} ItemsScan(seps: string, f: Flags, q: char, body: seq<Item>, tail: string, acc: string)
    requires f.quotes && IsQuote(q) && ItemsOk(f, q, body)
    ensures Scan(seps, f, ItemsText(body) + ([q] + tail), Some(q), false, acc) ==
            Scan(seps, f, tail, None, false, acc + ItemsMeaning(body))
  {
    hide Scan, AfterWord;
    var end := [q] + tail;
    var t := ItemsText(body) + end;
    if body == [] {
      assert t == end && acc + [] == acc;
      ScanCons(seps, f, q, tail, Some(q), false, acc);
    } else {
      var c := body[0].c;
      var u := ItemsText(body[1..]) + end;
      ItemsScan(seps, f, q, body[1..], tail, acc + [c]);
      assert acc + [c] + ItemsMeaning(body[1..]) == acc + ItemsMeaning(body);
      if body[0].Raw? {
        assert t == [c] + u;
        ScanCons(seps, f, c, u, Some(q), false, acc);
      } else {
        assert t == ['\\'] + ([c] + u);
        ScanCons(seps, f, '\\', [c] + u, Some(q), false, acc);
        ScanCons(seps, f, c, u, Some(q), true, acc);
      }
    }
  }

  lemma {:induction false} PieceScan(seps: string, f: Flags, p: Piece, tail: string, acc: string)
    requires PieceOk(f, seps, p)
    ensures Scan(seps, f, PieceText(p) + tail, None, false, acc) == Scan(seps, f, tail, None, false, acc + PieceMeaning(p))
  {
    hide Scan, AfterWord;
    match p
    case Plain(c) => ScanCons(seps, f, c, tail, None, false, acc);
    case Escape(c) =>
      ScanCons(seps, f, '\\', [c] + tail, None, false, acc);
      ScanCons(seps, f, c, tail, None, true, acc);
      assert PieceText(p) + tail == ['\\'] + ([c] + tail);
    case Quoted(q, body) =>
      var u := ItemsText(body) + ([q] + tail);
      ItemsScan(seps, f, q, body, tail, acc);
      ScanCons(seps, f, q, u, None, false, acc);
      assert PieceText(p) + tail == [q] + u;
  }

  lemma {:induction false} PiecesScan(seps: string, f: Flags, ps: seq<Piece>, tail: string, acc: string)
    requires PiecesOk(f, seps, ps)
    ensures Scan(seps, f, Text(ps) + tail, None, false, acc) == Scan(seps, f, tail, None, false, acc + Meaning(ps))
  {
    hide PieceOk, PieceText, PieceMeaning, Scan;
    if ps == [] {
      assert Text(ps) + tail == tail && acc + Meaning(ps) == acc;
    } else {
      PieceScan(seps, f, ps[0], Text(ps[1..]) + tail, acc);
      assert Text(ps) + tail == PieceText(ps[0]) + (Text(ps[1..]) + tail);
      PiecesScan(seps, f, ps[1..], tail, acc + PieceMeaning(ps[0]));
      assert acc + Meaning(ps) == acc + PieceMeaning(ps[0]) + Meaning(ps[1..]);
    }
  }

  /** A text that spells a word at its start. */
  ghost predicate Spells(f: Flags, seps: string, t: string, ps: seq<Piece>, tail: string) {
    PiecesOk(f, seps, ps) && t == Text(ps) + tail && (tail == [] || tail[0] in seps)
  }

  lemma {:induction false} SpelledIsFound(seps: string, f: Flags, t: string, ps: seq<Piece>, tail: string)
    requires SeparatorsOk(f, seps) && Spells(f, seps, t, ps, tail)
    ensures Scan(seps, f, t, None, false, []) == if tail == [] then Word(Meaning(ps), None) else AfterWord(seps, f, tail, Meaning(ps))
  {
    PiecesScan(seps, f, ps, tail, []);
    assert [] + Meaning(ps) == Meaning(ps);
    hide AfterWord;
  }

  // ---- There are no other ways ----

  lemma {:induction false} ItemCons(f: Flags, q: char, item: Item, body: seq<Item>, t: string, u: string, end: string)
    requires ItemsOk(f, q, body) && ItemOk(f, q, item) && u == ItemsText(body) + end
    requires t == (if item.Raw? then [item.c] else ['\\', item.c]) + u
    ensures ItemsOk(f, q, [item] + body) && t == ItemsText([item] + body) + end
  {
    assert ([item] + body)[1..] == body;
  }

  lemma {:induction false} QuotedIsSpelled(seps: string, f: Flags, t: string, q: char, acc: string)
    returns (body: seq<Item>, tail: string)
    requires f.quotes && !f.relax && IsQuote(q)
    requires Scan(seps, f, t, Some(q), false, acc).Word?
    ensures ItemsOk(f, q, body) && t == ItemsText(body) + ([q] + tail)
    ensures Scan(seps, f, t, Some(q), false, acc) == Scan(seps, f, tail, None, false, acc + ItemsMeaning(body))
    decreases |t|
  {
    var c := t[0];
    if c == q {
      body, tail := [], t[1..];
    } else if c == '\\' && !f.retainEscape {
      assert t[1..][1..] == t[2..];
      var b;
      b, tail := QuotedIsSpelled(seps, f, t[2..], q, acc + [t[1]]);
      ItemCons(f, q, Escaped(t[1]), b, t, t[2..], [q] + tail);
      body := [Escaped(t[1])] + b;
    } else {
      var b;
      b, tail := QuotedIsSpelled(seps, f, t[1..], q, acc + [c]);
      ItemCons(f, q, Raw(c), b, t, t[1..], [q] + tail);
      body := [Raw(c)] + b;
    }
    hide Scan;
    ItemsScan(seps, f, q, body, tail, acc);
  }

  lemma {:induction false} FoundIsSpelled(seps: string, f: Flags, t: string, acc: string) returns (ps: seq<Piece>, tail: string)
    requires !f.relax && SeparatorsOk(f, seps)
    requires Scan(seps, f, t, None, false, acc).Word?
    ensures Spells(f, seps, t, ps, tail) && Scan(seps, f, t, None, false, acc).word == acc + Meaning(ps)
    decreases |t|
  {
    hide PieceOk, PieceText, PieceMeaning;
    if t == [] || t[0] in seps {
      ps, tail := [], t;
    } else {
      hide Scan;
      var p, u := FirstPiece(seps, f, t, acc);
      PieceScan(seps, f, p, u, acc);
      ps, tail := FoundIsSpelled(seps, f, u, acc + PieceMeaning(p));
      SpellsCons(f, seps, p, u, ps, tail);
      assert acc + PieceMeaning(p) + Meaning(ps) == acc + (PieceMeaning(p) + Meaning(ps));
      ps := [p] + ps;
    }
  }

  lemma {:induction false} SpellsCons(f: Flags, seps: string, p: Piece, u: string, ps: seq<Piece>, tail: string)
    requires PieceOk(f, seps, p) && Spells(f, seps, u, ps, tail)
    ensures Spells(f, seps, PieceText(p) + u, [p] + ps, tail)
    ensures Meaning([p] + ps) == PieceMeaning(p) + Meaning(ps)
  {
    hide PieceOk, PieceText, PieceMeaning;
    var qs := [p] + ps;
    assert qs[1..] == ps;
    assert Text(qs) + tail == PieceText(p) + (Text(ps) + tail);
  }

  lemma {:induction false} FirstPiece(seps: string, f: Flags, t: string, acc: string) returns (p: Piece, u: string)
    requires !f.relax && SeparatorsOk(f, seps)
    requires Scan(seps, f, t, None, false, acc).Word? && t != [] && t[0] !in seps
    ensures PieceOk(f, seps, p) && t == PieceText(p) + u && |u| < |t|
  {
    var c := t[0];
    assert t == [c] + t[1..];
    if f.quotes && IsQuote(c) {
      var body, tail := QuotedIsSpelled(seps, f, t[1..], c, acc);
      p, u := Quoted(c, body), tail;
    } else if c == '\\' && !f.retainEscape {
      p, u := Escape(t[1]), t[2..];
    } else {
      p, u := Plain(c), t[1..];
    }
  }

  /** Some spelling of the word `w` starts the text. */
  ghost predicate SpelledAt(f: Flags, seps: string, u: string, w: string) {
    exists ps, tail :: Spells(f, seps, u, ps, tail) && Meaning(ps) == w
  }

  lemma {:induction false} ScanIffSpelled(seps: string, f: Flags, u: string, w: string)
    requires !f.relax && SeparatorsOk(f, seps)
    ensures Scan(seps, f, u, None, false, []).Word? && Scan(seps, f, u, None, false, []).word == w <==> SpelledAt(f, seps, u, w)
  {
    hide Scan, Spells, SeparatorsOk, Meaning;
    if ps, tail :| Spells(f, seps, u, ps, tail) && Meaning(ps) == w {
      SpelledIsFound(seps, f, u, ps, tail);
    }
    if Scan(seps, f, u, None, false, []).Word? {
      var ps, tail := FoundIsSpelled(seps, f, u, []);
      assert [] + Meaning(ps) == Meaning(ps);
      assert Spells(f, seps, u, ps, tail) && Meaning(ps) == Scan(seps, f, u, None, false, []).word;
    }
  }

  /** Where the first word begins: behind the separators, unless each of them ends
      a word. */
  function Start(seps: string, f: Flags, t: string): string {
    if f.dontCoalesceSeparators then t else SkipSeparators(seps, t)
  }

  lemma {:induction false} ExtractIsScan(seps: string, f: Flags, t: string)
    requires SeparatorsOk(f, seps) && (f.dontCoalesceSeparators || Start(seps, f, t) != [])
    ensures Extract(seps, f, Some(t)) == Scan(seps, f, Start(seps, f, t), None, false, [])
  {
    if t != [] && t[0] in seps { assert !Special(f, t[0]); }
  }

  /** Under all flags, without EXTRACT_RELAX, a word is found exactly if the text
      spells it at its start. */
  lemma {:induction false} FoundIffSpelled(seps: string, f: Flags, t: string, w: string)
    requires !f.relax && SeparatorsOk(f, seps)
    ensures Extract(seps, f, Some(t)).Word? && Extract(seps, f, Some(t)).word == w
            <==> ((f.dontCoalesceSeparators || Start(seps, f, t) != []) && SpelledAt(f, seps, Start(seps, f, t), w))
  {
    hide Scan, SpelledAt;
    if f.dontCoalesceSeparators || Start(seps, f, t) != [] {
      ExtractIsScan(seps, f, t);
      ScanIffSpelled(seps, f, Start(seps, f, t), w);
    }
  }

  /** Without EXTRACT_RELAX, a call fails exactly if the text spells no word at its start. */
  lemma {:induction false} FailsIffUnspelled(seps: string, f: Flags, t: string)
    requires !f.relax && SeparatorsOk(f, seps)
    ensures Extract(seps, f, Some(t)).Invalid?
            <==> ((f.dontCoalesceSeparators || Start(seps, f, t) != []) && forall w :: !SpelledAt(f, seps, Start(seps, f, t), w))
  {
    hide Scan, SpelledAt;
    var u := Start(seps, f, t);
    if f.dontCoalesceSeparators || u != [] {
      ExtractIsScan(seps, f, t);
      var r := Scan(seps, f, u, None, false, []);
      if r.Word? { ScanIffSpelled(seps, f, u, r.word); }
      forall w | SpelledAt(f, seps, u, w) ensures r.Word? { ScanIffSpelled(seps, f, u, w); }
    }
  }

  /** EXTRACT_RELAX changes nothing but the failures. */
  lemma {:induction false} RelaxOnlyForgives(seps: string, f: Flags, t: string, quote: Option<char>, backslash: bool, acc: string)
    requires !f.relax && !Scan(seps, f, t, quote, backslash, acc).Invalid?
    ensures Scan(seps, f.(relax := true), t, quote, backslash, acc) == Scan(seps, f, t, quote, backslash, acc)
  {
    if t != [] {
      var c, u := t[0], t[1..];
      if backslash { RelaxOnlyForgives(seps, f, u, quote, false, acc + [c]); }
      else if quote.Some? && c == quote.value { RelaxOnlyForgives(seps, f, u, None, false, acc); }
      else if quote.None? && f.quotes && IsQuote(c) { RelaxOnlyForgives(seps, f, u, Some(c), false, acc); }
      else if c == '\\' && !f.retainEscape { RelaxOnlyForgives(seps, f, u, quote, true, acc); }
      else if !(quote.None? && c in seps) { RelaxOnlyForgives(seps, f, u, quote, false, acc + [c]); }
    }
  }

  /** What EXTRACT_RELAX makes of a text that fails without: the result of the text
      with the missing quote at its end, and without a backslash that has nothing behind it. */
  lemma {:induction false} RelaxCompletes(seps: string, f: Flags, t: string, quote: Option<char>, backslash: bool, acc: string)
    returns (cut: nat, missing: string)
    requires !f.relax && Scan(seps, f, t, quote, backslash, acc).Invalid? && (quote.Some? ==> f.quotes && IsQuote(quote.value))
    requires t != [] || !backslash
    ensures cut <= |t| <= cut + 1 && (cut < |t| ==> t[cut] == '\\')
    ensures missing == [] || (|missing| == 1 && IsQuote(missing[0]))
    ensures Scan(seps, f, t[..cut] + missing, quote, backslash, acc) == Scan(seps, f.(relax := true), t, quote, backslash, acc)
    decreases |t|
  {
    if t == [] {
      cut, missing := 0, [quote.value];
      assert t[..cut] + missing == missing;
      assert missing[1..] == [];
    } else {
      var c, u := t[0], t[1..];
      var quote' := if backslash then quote else if quote == Some(c) then None
                    else if quote.None? && f.quotes && IsQuote(c) then Some(c) else quote;
      var backslash' := !backslash && quote' == quote && c == '\\' && !f.retainEscape;
      if backslash' && u == [] {
        cut, missing := 0, if quote.Some? then [quote.value] else [];
        assert t[..cut] + missing == missing;
        assert missing != [] ==> missing[1..] == [];
      } else {
        var acc' := if backslash || (quote' == quote && !backslash') then acc + [c] else acc;
        var k;
        k, missing := RelaxCompletes(seps, f, u, quote', backslash', acc');
        cut := k + 1;
        assert t[..cut] == [c] + u[..k];
        var s := t[..cut] + missing;
        assert s[0] == c && s[1..] == u[..k] + missing;
      }
    }
  }

  /** A call with EXTRACT_RELAX returns what the completed text does without. */
  lemma {:induction false} RelaxedIsCompleted(seps: string, f: Flags, t: string) returns (cut: nat, missing: string)
    requires !f.relax && Extract(seps, f, Some(t)).Invalid?
    ensures var u := Start(seps, f, t);
      && cut <= |u| <= cut + 1 && (cut < |u| ==> u[cut] == '\\') && (missing == [] || (|missing| == 1 && IsQuote(missing[0])))
      && Extract(seps, f.(relax := true), Some(t)) == Scan(seps, f, u[..cut] + missing, None, false, [])
  {
    hide Scan;
    var u := Start(seps, f, t);
    cut, missing := RelaxCompletes(seps, f, u, None, false, []);
  }

  // ---- Lists of words ----

  /** A gap before a word: separators only, and at least one between two words. */
  predicate Gap(seps: string, g: string) {
    forall i :: 0 <= i < |g| ==> g[i] in seps
  }

  datatype Spaced = Spaced(gap: string, pieces: seq<Piece>)

  predicate LineOk(f: Flags, seps: string, line: seq<Spaced>, first: bool) {
    forall i :: 0 <= i < |line| ==>
      Gap(seps, line[i].gap) && PiecesOk(f, seps, line[i].pieces) && line[i].pieces != [] &&
      (line[i].gap == [] ==> i == 0 && first)
  }

  function LineText(line: seq<Spaced>, last: string): string {
    if line == [] then last else line[0].gap + (Text(line[0].pieces) + LineText(line[1..], last))
  }

  function LineMeaning(line: seq<Spaced>): seq<string> {
    if line == [] then [] else [Meaning(line[0].pieces)] + LineMeaning(line[1..])
  }

  lemma {:induction false} SkipGap(seps: string, g: string, t: string)
    requires Gap(seps, g)
    ensures SkipSeparators(seps, g + t) == SkipSeparators(seps, t)
  {
    if g == [] {
      assert g + t == t;
    } else {
      assert (g + t)[1..] == g[1..] + t;
      SkipGap(seps, g[1..], t);
    }
  }

  lemma {:induction false} TextStarts(f: Flags, seps: string, ps: seq<Piece>, t: string)
    requires SeparatorsOk(f, seps) && PiecesOk(f, seps, ps) && ps != []
    ensures Text(ps) != [] && SkipSeparators(seps, Text(ps) + t) == Text(ps) + t
  {
    assert PieceOk(f, seps, ps[0]);
  }

  lemma {:induction false} SkipTwice(seps: string, t: string)
    ensures SkipSeparators(seps, SkipSeparators(seps, t)) == SkipSeparators(seps, t)
  {
  }

  /** What follows a word is split as if its separators were still there. */
  lemma {:induction false} SplitAfterWord(seps: string, f: Flags, t: string, w: string)
    requires !f.dontCoalesceSeparators && t != []
    ensures AfterWord(seps, f, t, w).Word? && AfterWord(seps, f, t, w).word == w
    ensures Split(seps, f, AfterWord(seps, f, t, w).rest) == Split(seps, f, Some(t))
  {
    hide Scan;
    SkipTwice(seps, t);
  }

  /** What follows a word starts with a separator or is the end. */
  lemma {:induction false} LineContinues(f: Flags, seps: string, line: seq<Spaced>, last: string)
    requires LineOk(f, seps, line, false) && Gap(seps, last)
    ensures LineText(line, last) == [] || LineText(line, last)[0] in seps
  {
  }

  /** Any list of words, written in any way with any separators between and
      around them, comes back. */
  lemma {:induction false} SplitLine(seps: string, f: Flags, line: seq<Spaced>, last: string, first: bool)
    requires !f.dontCoalesceSeparators && SeparatorsOk(f, seps) && LineOk(f, seps, line, first) && Gap(seps, last)
    ensures Split(seps, f, Some(LineText(line, last))) == Some(LineMeaning(line))
    decreases |line|
  {
    hide Scan, PiecesOk, SeparatorsOk;
    var t := LineText(line, last);
    if line == [] {
      SkipGap(seps, last, []);
      assert last + [] == last;
    } else {
      var ps, rest := line[0].pieces, LineText(line[1..], last);
      SplitLine(seps, f, line[1..], last, false);
      SkipGap(seps, line[0].gap, Text(ps) + rest);
      TextStarts(f, seps, ps, rest);
      LineContinues(f, seps, line[1..], last);
      SpelledIsFound(seps, f, Text(ps) + rest, ps, rest);
      if rest == [] {
        EmptySplit(seps, f);
      } else {
        SplitAfterWord(seps, f, rest, Meaning(ps));
      }
      hide SkipSeparators, Gap, AfterWord, Meaning;
    }
  }

  lemma {:induction false} EmptySplit(seps: string, f: Flags)
    requires !f.dontCoalesceSeparators
    ensures Split(seps, f, Some([])) == Some([]) && Split(seps, f, None) == Some([])
  {
  }

  // ---- Words that are each ended by a separator ----

  function JoinedText(words: seq<seq<Piece>>, marks: string): string
    requires |words| == |marks| + 1
  {
    if marks == [] then Text(words[0]) else Text(words[0]) + ([marks[0]] + JoinedText(words[1..], marks[1..]))
  }

  function Meanings(words: seq<seq<Piece>>): seq<string> {
    if words == [] then [] else [Meaning(words[0])] + Meanings(words[1..])
  }

  /** With EXTRACT_DONT_COALESCE_SEPARATORS any words, empty ones included, with one
      separator between two of them come back. */
  lemma {:induction false} SplitJoined(seps: string, f: Flags, words: seq<seq<Piece>>, marks: string)
    requires f.dontCoalesceSeparators && SeparatorsOk(f, seps) && Gap(seps, marks) && |words| == |marks| + 1
    requires forall i :: 0 <= i < |words| ==> PiecesOk(f, seps, words[i])
    ensures Split(seps, f, Some(JoinedText(words, marks))) == Some(Meanings(words))
    decreases |marks|
  {
    hide Scan, PiecesOk, SeparatorsOk, Extract;
    var t := JoinedText(words, marks);
    if marks == [] {
      assert t == Text(words[0]) + [];
      ExtractIsScan(seps, f, t);
      SpelledIsFound(seps, f, t, words[0], []);
      NothingLeft(seps, f);
      assert words[1..] == [];
    } else {
      var rest := JoinedText(words[1..], marks[1..]);
      ExtractIsScan(seps, f, t);
      SpelledIsFound(seps, f, t, words[0], [marks[0]] + rest);
      assert ([marks[0]] + rest)[1..] == rest;
      SplitJoined(seps, f, words[1..], marks[1..]);
    }
  }

  lemma {:induction false} NothingLeft(seps: string, f: Flags)
    ensures Split(seps, f, None) == Some([])
  {
  }

  // ---- Words written as such ----

  function AsPieces(w: string): (ps: seq<Piece>)
    ensures |ps| == |w| && forall i :: 0 <= i < |w| ==> ps[i] == Plain(w[i])
  {
    seq(|w|, i requires 0 <= i < |w| => Plain(w[i]))
  }

  lemma {:induction false} PlainMeans(w: string)
    ensures Text(AsPieces(w)) == w && Meaning(AsPieces(w)) == w
  {
    if w != [] {
      PlainMeans(w[1..]);
      assert AsPieces(w)[1..] == AsPieces(w[1..]);
    }
  }

  lemma {:induction false} PlainOk(w: string, f: Flags)
    requires !f.quotes && forall c :: c in w ==> c !in WHITESPACE && c != '\\'
    ensures PiecesOk(f, WHITESPACE, AsPieces(w))
  {
    forall i | 0 <= i < |w| ensures PieceOk(f, WHITESPACE, AsPieces(w)[i]) {
      assert w[i] in w;
    }
  }

  function JoinedWords(words: seq<string>): string {
    if words == [] then [] else " " + (words[0] + JoinedWords(words[1..]))
  }

  function AsLine(words: seq<string>): (line: seq<Spaced>)
    ensures |line| == |words| && forall i :: 0 <= i < |words| ==> line[i] == Spaced(" ", AsPieces(words[i]))
  {
    if words == [] then [] else [Spaced(" ", AsPieces(words[0]))] + AsLine(words[1..])
  }

  lemma {:induction false} AsLineMeans(words: seq<string>)
    ensures LineText(AsLine(words), "") == JoinedWords(words) && LineMeaning(AsLine(words)) == words
  {
    if words != [] {
      PlainMeans(words[0]);
      AsLineMeans(words[1..]);
      hide AsPieces;
    }
  }

  /** Without EXTRACT_QUOTES, words of any characters but white space and backslashes,
      quotes included, are the words of the text in which blanks separate them. */
  lemma {:induction false} PlainRoundTrip(words: seq<string>, f: Flags)
    requires !f.quotes && !f.dontCoalesceSeparators
    requires forall i :: 0 <= i < |words| ==> words[i] != [] && forall c :: c in words[i] ==> c !in WHITESPACE && c != '\\'
    ensures Split(WHITESPACE, f, Some(JoinedWords(words))) == Some(words)
  {
    hide AsPieces, Split, LineText, PiecesOk;
    AsLineMeans(words);
    forall i | 0 <= i < |words| ensures PiecesOk(f, WHITESPACE, AsPieces(words[i])) && AsPieces(words[i]) != [] {
      PlainOk(words[i], f);
    }
    assert Gap(WHITESPACE, " ");
    SplitLine(WHITESPACE, f, AsLine(words), "", true);
  }

  // ---- Words in double quotes ----

  /** Double quotes around a word, with backslashes before quotes and backslashes. */
  function DoubleQuoted(w: string): (ps: seq<Piece>)
    ensures |ps| == 1 && PiecesOk(AS_IN_DAEMON, WHITESPACE, ps)
  {
    [Quoted('"', seq(|w|, i requires 0 <= i < |w| => if w[i] == '"' || w[i] == '\\' then Escaped(w[i]) else Raw(w[i])))]
  }

  lemma {:induction false} ItemsMean(body: seq<Item>, w: string)
    requires |body| == |w| && forall i :: 0 <= i < |w| ==> body[i].c == w[i]
    ensures ItemsMeaning(body) == w
  {
    if w != [] { ItemsMean(body[1..], w[1..]); }
  }

  lemma {:induction false} DoubleQuotedMeans(w: string)
    ensures Meaning(DoubleQuoted(w)) == w
  {
    var ps := DoubleQuoted(w);
    ItemsMean(ps[0].body, w);
    assert Meaning(ps) == PieceMeaning(ps[0]) + Meaning(ps[1..]);
  }

  /** Words in double quotes, one blank before each. */
  function QuotedLine(words: seq<string>): (line: seq<Spaced>)
    ensures |line| == |words|
    ensures forall i :: 0 <= i < |words| ==> line[i] == Spaced(" ", DoubleQuoted(words[i]))
  {
    if words == [] then [] else [Spaced(" ", DoubleQuoted(words[0]))] + QuotedLine(words[1..])
  }

  lemma {:induction false} QuotedLineMeans(words: seq<string>)
    ensures LineMeaning(QuotedLine(words)) == words
  {
    if words != [] {
      DoubleQuotedMeans(words[0]);
      QuotedLineMeans(words[1..]);
      hide DoubleQuoted;
    }
  }

  /** As the daemon splits its settings: every list of words can be written. */
  lemma {:induction false} QuotedRoundTrip(words: seq<string>)
    ensures Split(WHITESPACE, AS_IN_DAEMON, Some(LineText(QuotedLine(words), ""))) == Some(words)
  {
    hide DoubleQuoted, Split, LineText;
    QuotedLineMeans(words);
    assert Gap(WHITESPACE, " ");
    SplitLine(WHITESPACE, AS_IN_DAEMON, QuotedLine(words), "", true);
  }
}
