/** DNS labels with escapes, and names as lists of labels (section 5.1 and
    section 2.3.4 of RFC 1035). */
module Dns {
  import opened Wrappers

  type Byte = b: int | 0 <= b < 256

  const DNS_LABEL_MAX: nat := 63
  const DNS_LABEL_ESCAPED_MAX: nat := 253
  const DNS_HOSTNAME_MAX: nat := 253
  const EINVAL := -22
  const ENOBUFS := -105

  const DOT: Byte := 46
  const BACKSLASH: Byte := 92
  const DASH: Byte := 45
  const UNDERSCORE: Byte := 95
  const ZERO: Byte := 48

  datatype Flags = Flags(ldh: bool, noEscapes: bool, leaveTrailingDot: bool)

  const NO_FLAGS := Flags(false, false, false)

  predicate IsDigit(c: Byte) {
    48 <= c <= 57
  }

  predicate IsAlpha(c: Byte) {
    97 <= c <= 122 || 65 <= c <= 90
  }

  predicate ValidLdhChar(c: Byte) {
    IsAlpha(c) || IsDigit(c) || c == DASH
  }

  datatype Unescaped = Bad(errno: int) | Label(octets: seq<Byte>, rest: seq<Byte>)

  /** One character of a label: its byte and what follows, or an error. */
  datatype Piece = Wrong | Piece(byte: Byte, rest: seq<Byte>)

  function ReadPiece(n: seq<Byte>, first: bool, flags: Flags): (p: Piece)
    requires n != []
    ensures p.Piece? ==> |p.rest| < |n|
  {
    if n[0] == BACKSLASH then
      if flags.noEscapes || |n| < 2 then Wrong
      else if n[1] == BACKSLASH || n[1] == DOT then
        if flags.ldh then Wrong else Piece(n[1], n[2..])
      else if IsDigit(n[1]) then
        if |n| < 4 || !IsDigit(n[2]) || !IsDigit(n[3]) then Wrong
        else
          var k := (n[1] - ZERO) * 100 + (n[2] - ZERO) * 10 + (n[3] - ZERO);
          if k > 255 || (flags.ldh && !ValidLdhChar(k)) then Wrong else Piece(k, n[4..])
      else Wrong
    else if n[0] >= 32 && n[0] != 127 then
      if flags.ldh && (!ValidLdhChar(n[0]) || (first && n[0] == DASH)) then Wrong else Piece(n[0], n[1..])
    else Wrong
  }

  function Finish(octets: seq<Byte>, n: seq<Byte>, flags: Flags): Unescaped {
    if flags.ldh && octets != [] && octets[|octets| - 1] == DASH then Bad(EINVAL)
    else
      var rest := if n != [] && n[0] == DOT && (|n| > 1 || !flags.leaveTrailingDot) then n[1..] else n;
      if octets == [] && rest != [] then Bad(EINVAL)
      else if rest != [] && rest[0] == DOT && !flags.leaveTrailingDot then Bad(EINVAL)
      else Label(octets, rest)
  }

  /** The loop of `dns_label_unescape`, with `label` read so far and `sz` bytes
      left in the buffer. */
  function Walk(n: seq<Byte>, octets: seq<Byte>, sz: nat, flags: Flags): (u: Unescaped)
    ensures u.Label? ==> |u.rest| <= |n| && |octets| <= |u.octets|
    ensures u.Label? && |octets| <= DNS_LABEL_MAX ==> |u.octets| <= DNS_LABEL_MAX
    ensures u.Label? && |u.octets| > |octets| ==> |u.rest| < |n|
    decreases |n|
  {
    if n == [] || n[0] == DOT then Finish(octets, n, flags)
    else if |octets| >= DNS_LABEL_MAX then Bad(EINVAL)
    else if sz == 0 then Bad(ENOBUFS)
    else
      match ReadPiece(n, octets == [], flags)
      case Wrong => Bad(EINVAL)
      case Piece(c, rest) => Walk(rest, octets + [c], sz - 1, flags)
  }

  function Unescape(name: seq<Byte>, sz: nat, flags: Flags): Unescaped {
    Walk(name, [], sz, flags)
  }

  /** `dns_label_unescape`. */
  method UnescapeLabel(name: seq<Byte>, size: nat, flags: Flags) returns (u: Unescaped)
    ensures u == Unescape(name, size, flags)
  {
    var n, octets, sz := name, [], size;
    while n != [] && n[0] != DOT
      invariant Walk(n, octets, sz, flags) == Unescape(name, size, flags)
      decreases |n|
    {
      if |octets| >= DNS_LABEL_MAX {
        return Bad(EINVAL);
      }
      if sz == 0 {
        return Bad(ENOBUFS);
      }
      var p := ReadPiece(n, octets == [], flags);
      if p == Wrong {
        return Bad(EINVAL);
      }
      n, octets, sz := p.rest, octets + [p.byte], sz - 1;
    }
    return Finish(octets, n, flags);
  }

  // ----- escaping -----

  function EscapeByte(c: Byte): (e: seq<Byte>)
    ensures 1 <= |e| <= 4
  {
    if c == DOT || c == BACKSLASH then [BACKSLASH, c]
    else if c == UNDERSCORE || c == DASH || IsDigit(c) || IsAlpha(c) then [c]
    else [BACKSLASH, ZERO + c / 100, ZERO + (c / 10) % 10, ZERO + c % 10]
  }

  function Escape(octets: seq<Byte>): (e: seq<Byte>)
    ensures |octets| <= |e| <= 4 * |octets|
  {
    if octets == [] then [] else Escape(octets[..|octets| - 1]) + EscapeByte(octets[|octets| - 1])
  }

  predicate ValidLabel(octets: seq<Byte>) {
    0 < |octets| <= DNS_LABEL_MAX
  }

  lemma {:induction false} EscapeFront(octets: seq<Byte>, i: nat)
    requires i <= |octets|
    ensures |Escape(octets[..i])| <= |Escape(octets)|
    decreases |octets|
  {
    if i < |octets| {
      EscapeFront(octets[..|octets| - 1], i);
      assert octets[..|octets| - 1][..i] == octets[..i];
    } else {
      assert octets[..i] == octets;
    }
  }

  /** `dns_label_escape`: it succeeds exactly on labels of 1 to 63 bytes for which
      the buffer holds the escaped text and a NUL byte. */
  method EscapeLabel(octets: seq<Byte>, size: nat) returns (r: int, dest: seq<Byte>)
    ensures !ValidLabel(octets) ==> r == EINVAL
    ensures ValidLabel(octets) && |Escape(octets)| + 1 > size ==> r == ENOBUFS
    ensures ValidLabel(octets) && |Escape(octets)| + 1 <= size ==> r == |dest| && dest == Escape(octets)
  {
    hide EscapeByte;
    dest := [];
    if |octets| == 0 || |octets| > DNS_LABEL_MAX {
      return EINVAL, dest;
    }
    if size < 1 {
      return ENOBUFS, dest;
    }
    var sz := size;
    for i := 0 to |octets|
      invariant dest == Escape(octets[..i]) && sz == size - |dest| && sz >= 1
    {
      assert octets[..i + 1][..i] == octets[..i];
      var e := EscapeByte(octets[i]);
      EscapeFront(octets, i + 1);
      if sz < |e| + 1 {
        return ENOBUFS, dest;
      }
      dest := dest + e;
      sz := sz - |e|;
    }
    assert octets[..|octets|] == octets;
    r := |dest|;
  }

  /** A buffer of 253 bytes is enough for every label. */
  lemma {:induction false} EscapeFits(octets: seq<Byte>)
    requires ValidLabel(octets)
    ensures |Escape(octets)| + 1 <= DNS_LABEL_ESCAPED_MAX
  {
  }

  /** Reading one escaped byte gives it back. */
  lemma {:induction false} PieceRoundTrip(c: Byte, n: seq<Byte>, first: bool)
    ensures ReadPiece(EscapeByte(c) + n, first, NO_FLAGS) == Piece(c, n) && EscapeByte(c)[0] != DOT
  {
    var e := EscapeByte(c);
    assert (e + n)[|e|..] == n;
    if |e| == 4 { assert (c / 100) * 100 + (c / 10) % 10 * 10 + c % 10 == c; }
  }

  lemma {:induction false} WalkEscaped(octets: seq<Byte>, n: seq<Byte>, before: seq<Byte>, sz: nat)
    requires |before| + |octets| <= DNS_LABEL_MAX && |octets| <= sz
    ensures Walk(Escape(octets) + n, before, sz, NO_FLAGS) == Walk(n, before + octets, sz - |octets|, NO_FLAGS)
  {
    hide ReadPiece, EscapeByte, Finish;
    if octets == [] {
      assert Escape(octets) + n == n && before + octets == before;
    } else {
      var front, c := octets[..|octets| - 1], octets[|octets| - 1];
      WalkEscaped(front, EscapeByte(c) + n, before, sz);
      PieceRoundTrip(c, n, before + front == []);
      assert Escape(octets) + n == Escape(front) + (EscapeByte(c) + n);
      assert before + front + [c] == before + octets;
    }
  }

  /** Unescaping undoes escaping, for every label of 1 to 63 arbitrary bytes, at
      the end of a name and before a further label. */
  lemma {:induction false} LabelRoundTrip(octets: seq<Byte>, rest: seq<Byte>)
    requires ValidLabel(octets) && (rest == [] || (rest[0] == DOT && |rest| > 1 && rest[1] != DOT))
    ensures Unescape(Escape(octets) + rest, DNS_LABEL_MAX + 1, NO_FLAGS) == Label(octets, if rest == [] then [] else rest[1..])
  {
    WalkEscaped(octets, rest, [], DNS_LABEL_MAX + 1);
    assert [] + octets == octets;
  }

  // ----- names -----

  datatype Names = BadName(errno: int) | Labels(labels: seq<seq<Byte>>)

  predicate AllValid(labels: seq<seq<Byte>>) {
    forall i :: 0 <= i < |labels| ==> ValidLabel(labels[i])
  }

  function Prepend(labels: seq<seq<Byte>>, n: Names): Names {
    match n
    case BadName(e) => BadName(e)
    case Labels(more) => Labels(labels + more)
  }

  /** The labels of a name. */
  function LabelsOf(name: seq<Byte>, flags: Flags): (n: Names)
    ensures n.Labels? ==> AllValid(n.labels)
    decreases |name|
  {
    match Unescape(name, DNS_LABEL_MAX + 1, flags)
    case Bad(e) => BadName(e)
    case Label(octets, rest) =>
      if octets == [] then if rest != [] then BadName(EINVAL) else Labels([])
      else Prepend([octets], LabelsOf(rest, flags))
  }

  function LabelsOfMaybe(name: Option<seq<Byte>>, flags: Flags): Names {
    match name
    case None => Labels([])
    case Some(s) => LabelsOf(s, flags)
  }

  function Append(a: Names, b: Names): Names {
    if a.BadName? then a else Prepend(a.labels, b)
  }

  function Join(labels: seq<seq<Byte>>): seq<Byte> {
    if labels == [] then []
    else if |labels| == 1 then Escape(labels[0])
    else Join(labels[..|labels| - 1]) + [DOT] + Escape(labels[|labels| - 1])
  }

  datatype Name = Invalid(errno: int) | Name(name: seq<Byte>)

  /** A list of labels as a normalised name; no labels are the root. */
  function Print(n: Names): Name {
    match n
    case BadName(e) => Invalid(e)
    case Labels(labels) =>
      if |Join(labels)| > DNS_HOSTNAME_MAX then Invalid(EINVAL)
      else Name(if labels == [] then [DOT] else Join(labels))
  }

  /** What `dns_name_concat` computes: the labels of both names, printed. */
  function ConcatNames(a: Option<seq<Byte>>, b: Option<seq<Byte>>, flags: Flags): Name {
    Print(Append(LabelsOfMaybe(a, flags), LabelsOfMaybe(b, flags)))
  }

  lemma {:induction false} PrependTwice(a: seq<seq<Byte>>, b: seq<seq<Byte>>, n: Names)
    ensures Prepend(a, Prepend(b, n)) == Prepend(a + b, n)
  {
    if n.Labels? { assert a + (b + n.labels) == a + b + n.labels; }
  }

  lemma {:induction false} JoinMore(labels: seq<seq<Byte>>, more: seq<Byte>)
    ensures Join(labels + [more]) == (if labels == [] then [] else Join(labels) + [DOT]) + Escape(more)
  {
    assert (labels + [more])[..|labels|] == labels;
  }

  lemma {:induction false} JoinEmpty(labels: seq<seq<Byte>>)
    requires AllValid(labels)
    ensures Join(labels) == [] <==> labels == []
  {
    if labels != [] {
      assert ValidLabel(labels[|labels| - 1]);
      assert |Escape(labels[|labels| - 1])| >= 1;
    }
  }

  lemma {:induction false} AppendStep(octets: seq<Byte>, p: Names, b: Names)
    ensures Append(Prepend([octets], p), b) == Prepend([octets], Append(p, b))
  {
    if p.Labels? && b.Labels? { assert [octets] + p.labels + b.labels == [octets] + (p.labels + b.labels); }
  }

  /** `dns_name_concat`, with or without an output pointer. */
  method Concat(a: Option<seq<Byte>>, b: Option<seq<Byte>>, flags: Flags, wanted: bool)
    returns (r: int, ret: Option<seq<Byte>>)
    ensures match ConcatNames(a, b, flags)
      case Invalid(e) => r == e && ret == None
      case Name(s) => r == 0 && ret == if wanted then Some(s) else None
  {
    hide Unescape, Escape, Join, LabelsOf, AllValid;
    ghost var labels: seq<seq<Byte>>;
    var n, buf;
    r, n, buf, labels := ReadAndEscape(a, b, flags, wanted);
    if r < 0 {
      return r, None;
    }
    JoinEmpty(labels);
    if n > DNS_HOSTNAME_MAX {
      return EINVAL, None;
    }
    if !wanted {
      return 0, None;
    }
    return 0, if n == 0 then Some([DOT]) else Some(buf[..n]);
  }

  /** What has been written: `n` bytes, which are in the buffer if there is one. */
  ghost predicate Written(labels: seq<seq<Byte>>, first: bool, n: nat, buf: seq<Byte>, wanted: bool) {
    AllValid(labels) && n == |Join(labels)| && (first <==> labels == []) &&
    (wanted ==> n <= |buf| && buf[..n] == Join(labels))
  }

  /** The loop: unescapes the labels of the first and then of the second name, and
      escapes each again. */
  method ReadAndEscape(a: Option<seq<Byte>>, b: Option<seq<Byte>>, flags: Flags, wanted: bool)
    returns (r: int, n: nat, buf: seq<Byte>, ghost labels: seq<seq<Byte>>)
    ensures AllValid(labels)
    ensures match Append(LabelsOfMaybe(a, flags), LabelsOfMaybe(b, flags))
      case BadName(e) => r == e && r < 0
      case Labels(all) =>
        r == 0 && labels == all && n == |Join(all)| && (wanted ==> n <= |buf| && buf[..n] == Join(all))
  {
    hide Unescape, Escape, Join, Written;
    r, n, buf, labels := 0, 0, [], [];
    var first := true;
    NothingWritten(wanted);
    var p, left := [], b;
    if a.Some? {
      p := a.value;
    } else if b.Some? {
      p, left := b.value, None;
    } else {
      WrittenMeans(labels, first, n, buf, wanted);
      return;
    }
    var done := false;
    NoneLeft(LabelsOf(p, flags));
    while !done
      invariant r == 0 && Written(labels, first, n, buf, wanted)
      invariant Append(LabelsOfMaybe(a, flags), LabelsOfMaybe(b, flags)) ==
        if done then Labels(labels) else Prepend(labels, Append(LabelsOf(p, flags), LabelsOfMaybe(left, flags)))
      decreases !done, |p| + (if left.Some? then |left.value| + 1 else 0)
    {
      WrittenMeans(labels, first, n, buf, wanted);
      var u := UnescapeLabel(p, DNS_LABEL_MAX + 1, flags);
      UnescapeFacts(p, flags);
      if u.Bad? {
        return u.errno, n, buf, labels;
      }
      if u.octets == [] {
        if u.rest != [] {
          return EINVAL, n, buf, labels;
        }
        if left.Some? {
          NoneLeft(LabelsOf(left.value, flags));
          p, left := left.value, None;
        } else {
          done := true;
        }
      } else {
        AppendStep(u.octets, LabelsOf(u.rest, flags), LabelsOfMaybe(left, flags));
        PrependTwice(labels, [u.octets], Append(LabelsOf(u.rest, flags), LabelsOfMaybe(left, flags)));
        if wanted {
          n, buf := EscapeInBuffer(u.octets, first, n, buf, labels);
        } else {
          n := EscapeAside(u.octets, first, n, buf, labels);
        }
        first := false;
        labels := labels + [u.octets];
        p := u.rest;
      }
    }
    WrittenMeans(labels, first, n, buf, wanted);
  }

  /** With an output pointer: the label goes into the growing buffer, behind the
      place of the dot, which is filled in afterwards. */
  method EscapeInBuffer(octets: seq<Byte>, first: bool, n: nat, buf: seq<Byte>, ghost labels: seq<seq<Byte>>)
    returns (n': nat, buf': seq<Byte>)
    requires ValidLabel(octets) && Written(labels, first, n, buf, true)
    ensures Written(labels + [octets], false, n', buf', true)
  {
    hide Escape, Join;
    JoinMore(labels, octets);
    EscapeFits(octets);
    EmptyJoin();
    var at := if first then n else n + 1;
    var room := at + DNS_LABEL_ESCAPED_MAX;
    buf' := if |buf| < room then buf + seq(room - |buf|, _ => 0) else buf;
    assert buf'[..n] == buf[..n];
    var r, e := EscapeLabel(octets, DNS_LABEL_ESCAPED_MAX);
    buf' := buf'[..at] + e + buf'[at + |e|..];
    if !first {
      buf' := buf'[n := DOT];
    }
    n' := at + r;
    assert buf'[..n'] == (if first then [] else buf[..n] + [DOT]) + e;
  }

  /** Without: the label is escaped only to be counted. */
  method EscapeAside(octets: seq<Byte>, first: bool, n: nat, ghost buf: seq<Byte>, ghost labels: seq<seq<Byte>>)
    returns (n': nat)
    requires ValidLabel(octets) && Written(labels, first, n, buf, false)
    ensures Written(labels + [octets], false, n', buf, false)
  {
    hide Escape, Join;
    JoinMore(labels, octets);
    EscapeFits(octets);
    var r, _ := EscapeLabel(octets, DNS_LABEL_ESCAPED_MAX);
    n' := n + r + if first then 0 else 1;
    if first { EmptyJoin(); }
  }

  lemma {:induction false} NothingWritten(wanted: bool)
    ensures Written([], true, 0, [], wanted)
  {
  }

  lemma {:induction false} WrittenMeans(labels: seq<seq<Byte>>, first: bool, n: nat, buf: seq<Byte>, wanted: bool)
    requires Written(labels, first, n, buf, wanted)
    ensures AllValid(labels) && n == |Join(labels)| && (wanted ==> n <= |buf| && buf[..n] == Join(labels))
  {
  }

  lemma {:induction false} EmptyJoin()
    ensures Join([]) == []
  {
  }

  lemma {:induction false} NoneLeft(n: Names)
    ensures Append(n, Labels([])) == n && Prepend([], n) == n
  {
    if n.Labels? { assert n.labels + [] == n.labels && [] + n.labels == n.labels; }
  }

  lemma {:induction false} UnescapeFacts(p: seq<Byte>, flags: Flags)
    ensures Unescape(p, DNS_LABEL_MAX + 1, flags).Bad? ==> Unescape(p, DNS_LABEL_MAX + 1, flags).errno < 0
    ensures Unescape(p, DNS_LABEL_MAX + 1, flags).Label? ==> |Unescape(p, DNS_LABEL_MAX + 1, flags).octets| <= DNS_LABEL_MAX
    ensures Unescape(p, DNS_LABEL_MAX + 1, flags).Label? && Unescape(p, DNS_LABEL_MAX + 1, flags).octets != [] ==>
      |Unescape(p, DNS_LABEL_MAX + 1, flags).rest| < |p|
  {
    WalkErrno(p, [], DNS_LABEL_MAX + 1, flags);
  }

  lemma {:induction false} WalkErrno(n: seq<Byte>, octets: seq<Byte>, sz: nat, flags: Flags)
    ensures Walk(n, octets, sz, flags).Bad? ==> Walk(n, octets, sz, flags).errno < 0
    decreases |n|
  {
    hide ReadPiece;
    if n != [] && n[0] != DOT && ReadPiece(n, octets == [], flags).Piece? && sz > 0 {
      var p := ReadPiece(n, octets == [], flags);
      WalkErrno(p.rest, octets + [p.byte], sz - 1, flags);
    }
  }

  // ----- normalising -----

  lemma {:induction false} EscapeStart(octets: seq<Byte>)
    requires octets != []
    ensures Escape(octets) != [] && Escape(octets)[0] != DOT
  {
    if |octets| > 1 { EscapeStart(octets[..|octets| - 1]); }
  }

  lemma {:induction false} JoinCons(labels: seq<seq<Byte>>)
    requires |labels| > 1
    ensures Join(labels) == Escape(labels[0]) + [DOT] + Join(labels[1..])
  {
    hide Escape;
    var front, last := labels[..|labels| - 1], labels[|labels| - 1];
    if |labels| > 2 {
      JoinCons(front);
      assert labels[1..][..|labels| - 2] == front[1..];
    }
  }

  /** Reading the labels of a printed list gives the list back. */
  lemma {:induction false} JoinRoundTrip(labels: seq<seq<Byte>>)
    requires labels != [] && AllValid(labels)
    ensures LabelsOf(Join(labels), NO_FLAGS) == Labels(labels)
  {
    hide Escape, Unescape, Join;
    if |labels| == 1 {
      JoinOne(labels[0]);
      assert labels == [labels[0]];
      LabelRoundTrip(labels[0], []);
      assert Escape(labels[0]) + [] == Escape(labels[0]);
      RootIsEmpty();
    } else {
      var rest := Join(labels[1..]);
      JoinCons(labels);
      JoinStart(labels[1..]);
      LabelRoundTrip(labels[0], [DOT] + rest);
      assert Escape(labels[0]) + [DOT] + rest == Escape(labels[0]) + ([DOT] + rest);
      assert ([DOT] + rest)[1..] == rest;
      JoinRoundTrip(labels[1..]);
      assert [labels[0]] + labels[1..] == labels;
    }
  }

  lemma {:induction false} JoinOne(octets: seq<Byte>)
    ensures Join([octets]) == Escape(octets)
  {
  }

  lemma {:induction false} JoinStart(labels: seq<seq<Byte>>)
    requires labels != [] && AllValid(labels)
    ensures Join(labels) != [] && Join(labels)[0] != DOT
  {
    EscapeStart(labels[0]);
    if |labels| > 1 { JoinCons(labels); }
  }

  lemma {:induction false} RootIsEmpty()
    ensures LabelsOf([], NO_FLAGS) == Labels([]) && LabelsOf([DOT], NO_FLAGS) == Labels([])
  {
  }

  /** A printed name spells out exactly the labels it was printed from. */
  lemma {:induction false} PrintRoundTrip(labels: seq<seq<Byte>>)
    requires AllValid(labels) && |Join(labels)| <= DNS_HOSTNAME_MAX
    ensures LabelsOf(Print(Labels(labels)).name, NO_FLAGS) == Labels(labels)
  {
    if labels == [] { RootIsEmpty(); } else { JoinRoundTrip(labels); }
  }

  /** Normalising is idempotent. */
  lemma {:induction false} NormalizeIsIdempotent(name: seq<Byte>)
    requires ConcatNames(Some(name), None, NO_FLAGS).Name?
    ensures var s := ConcatNames(Some(name), None, NO_FLAGS).name;
      ConcatNames(Some(s), None, NO_FLAGS) == Name(s)
  {
    hide LabelsOf, Join;
    var n := LabelsOf(name, NO_FLAGS);
    NoneLeft(n);
    PrintRoundTrip(n.labels);
    NoneLeft(LabelsOf(Print(n).name, NO_FLAGS));
  }

  /** The label list of a concatenation is the two label lists, one after the other. */
  lemma {:induction false} ConcatAppends(a: seq<Byte>, b: seq<Byte>)
    requires ConcatNames(Some(a), Some(b), NO_FLAGS).Name?
    ensures LabelsOf(a, NO_FLAGS).Labels? && LabelsOf(b, NO_FLAGS).Labels?
    ensures LabelsOf(ConcatNames(Some(a), Some(b), NO_FLAGS).name, NO_FLAGS) ==
      Labels(LabelsOf(a, NO_FLAGS).labels + LabelsOf(b, NO_FLAGS).labels)
  {
    hide Join;
    PrintRoundTrip(LabelsOf(a, NO_FLAGS).labels + LabelsOf(b, NO_FLAGS).labels);
  }

  // ----- what escaping writes -----

  /** Letters, digits, dashes and underscores. */
  predicate Common(c: Byte) {
    IsAlpha(c) || IsDigit(c) || c == DASH || c == UNDERSCORE
  }

  /** Labels of common characters are written as they are. */
  lemma {:induction false} CommonIsItself(octets: seq<Byte>)
    requires forall i :: 0 <= i < |octets| ==> Common(octets[i])
    ensures Escape(octets) == octets
  {
    if octets != [] {
      CommonIsItself(octets[..|octets| - 1]);
      assert octets == octets[..|octets| - 1] + [octets[|octets| - 1]];
    }
  }

  predicate CleanAt(e: seq<Byte>, i: nat)
    requires i < |e|
  {
    Common(e[i]) || e[i] == BACKSLASH || (e[i] == DOT && i > 0 && e[i - 1] == BACKSLASH)
  }

  /** Only common characters, backslashes, and dots behind a backslash. */
  predicate Clean(e: seq<Byte>) {
    forall i: nat :: i < |e| ==> CleanAt(e, i)
  }

  lemma {:induction false} CleanAppends(a: seq<Byte>, b: seq<Byte>)
    requires Clean(a) && Clean(b)
    ensures Clean(a + b)
  {
    var e := a + b;
    forall i: nat | i < |e| ensures CleanAt(e, i) {
      if i < |a| { assert CleanAt(a, i); } else { assert CleanAt(b, i - |a|); }
    }
  }

  lemma {:induction false} ByteIsClean(c: Byte)
    ensures Clean(EscapeByte(c))
  {
    var e := EscapeByte(c);
    forall i: nat | i < |e| ensures CleanAt(e, i) {
      if |e| == 4 && i > 0 { assert IsDigit(e[i]); }
    }
  }

  /** Nothing else is ever written. */
  lemma {:induction false} EscapeIsClean(octets: seq<Byte>)
    ensures Clean(Escape(octets))
  {
    hide Clean, EscapeByte;
    if octets == [] {
      assert Clean([]) by { NothingIsClean(); }
    } else {
      EscapeIsClean(octets[..|octets| - 1]);
      ByteIsClean(octets[|octets| - 1]);
      CleanAppends(Escape(octets[..|octets| - 1]), EscapeByte(octets[|octets| - 1]));
    }
  }

  lemma {:induction false} NothingIsClean()
    ensures Clean([])
  {
  }

  // ----- the flag LEAVE_TRAILING_DOT -----

  /** The text ends in a dot that is not behind a backslash of its own: a backslash
      and the byte behind it go together. */
  predicate EndsInDot(name: seq<Byte>) {
    if name == [] then false
    else if name[0] == BACKSLASH then |name| > 1 && EndsInDot(name[2..])
    else name == [DOT] || EndsInDot(name[1..])
  }

  lemma {:induction false} PieceKeepsEnd(n: seq<Byte>, first: bool, flags: Flags)
    requires n != [] && n[0] != DOT && ReadPiece(n, first, flags).Piece?
    ensures EndsInDot(n) == EndsInDot(ReadPiece(n, first, flags).rest)
  {
    if n[0] == BACKSLASH && IsDigit(n[1]) {
      assert n[2..][1..] == n[3..] && n[3..][1..] == n[4..];
      assert EndsInDot(n[2..]) == EndsInDot(n[3..]) && EndsInDot(n[3..]) == EndsInDot(n[4..]);
    }
  }

  /** One label read with the flag and without. */
  datatype Pair = Pair(plain: Unescaped, leaving: Unescaped)

  /** Both fail; or both read the same; or the dot at the end is left over, or two
      dots in a row are. */
  predicate Related(n: seq<Byte>, p: Pair) {
    || p == Pair(Bad(EINVAL), Bad(EINVAL))
    || (p.plain.Label? && p.leaving == p.plain && EndsInDot(p.plain.rest) == EndsInDot(n))
    || (p.plain.Label? && p.plain.rest == [] && EndsInDot(n) &&
        (p.leaving == Bad(EINVAL) || (p.plain.octets != [] && p.leaving == Label(p.plain.octets, [DOT]))))
    || (p.plain == Bad(EINVAL) && p.leaving.Label? && p.leaving.octets != [] && p.leaving.rest != [] && p.leaving.rest[0] == DOT)
  }

  lemma {:induction false} WalkRelated(n: seq<Byte>, octets: seq<Byte>, sz: nat, flags: Flags)
    requires !flags.leaveTrailingDot && |octets| + sz == DNS_LABEL_MAX + 1
    ensures Related(n, Pair(Walk(n, octets, sz, flags), Walk(n, octets, sz, flags.(leaveTrailingDot := true))))
    decreases |n|
  {
    var leaving := flags.(leaveTrailingDot := true);
    if n == [] || n[0] == DOT {
      if |n| > 1 { assert n != [DOT]; }
    } else if |octets| < DNS_LABEL_MAX {
      var p := ReadPiece(n, octets == [], flags);
      assert p == ReadPiece(n, octets == [], leaving);
      if p.Piece? {
        PieceKeepsEnd(n, octets == [], flags);
        WalkRelated(p.rest, octets + [p.byte], sz - 1, flags);
      }
      hide ReadPiece, EndsInDot;
    }
  }

  lemma {:induction false} DotFirst(n: seq<Byte>, flags: Flags)
    requires flags.leaveTrailingDot && n != [] && n[0] == DOT
    ensures LabelsOf(n, flags) == BadName(EINVAL)
  {
  }

  /** With LEAVE_TRAILING_DOT a name has the labels it has without, exactly if it
      does not end in an unescaped dot; a name that does is refused. */
  lemma {:induction false} LeaveTrailingDot(name: seq<Byte>, flags: Flags)
    requires !flags.leaveTrailingDot
    ensures LabelsOf(name, flags.(leaveTrailingDot := true)) ==
            if EndsInDot(name) then BadName(EINVAL) else LabelsOf(name, flags)
    decreases |name|
  {
    hide Walk, EndsInDot;
    var leaving := flags.(leaveTrailingDot := true);
    WalkRelated(name, [], DNS_LABEL_MAX + 1, flags);
    var u, v := Unescape(name, DNS_LABEL_MAX + 1, flags), Unescape(name, DNS_LABEL_MAX + 1, leaving);
    assert LabelsOf([DOT], leaving) == BadName(EINVAL) by { DotFirst([DOT], leaving); }
    assert !EndsInDot([]) by { NoEnd(); }
    if u.Label? && v == u && u.octets != [] {
      LeaveTrailingDot(u.rest, flags);
    } else if u.Bad? && v.Label? {
      DotFirst(v.rest, leaving);
    }
  }

  lemma {:induction false} NoEnd()
    ensures !EndsInDot([])
  {
  }

  /** The name "a." is refused, and "a\\." is not. */
  lemma {:induction false} TrailingDotIsRefused(flags: Flags)
    requires flags.leaveTrailingDot
    ensures ConcatNames(Some([97, DOT]), None, flags) == Invalid(EINVAL)
    ensures !EndsInDot([97, BACKSLASH, DOT])
  {
    var name: seq<Byte> := [97, DOT];
    assert name[1..] == [DOT] && EndsInDot(name);
    LeaveTrailingDot(name, flags.(leaveTrailingDot := false));
    var escaped: seq<Byte> := [97, BACKSLASH, DOT];
    assert escaped[1..][2..] == [];
    assert !EndsInDot(escaped[1..]);
  }

  // ----- the flag NO_ESCAPES, and bytes that are always refused -----

  lemma {:induction false} WalkNoEscapes(n: seq<Byte>, octets: seq<Byte>, sz: nat, flags: Flags)
    requires !flags.noEscapes && |octets| + sz == DNS_LABEL_MAX + 1
    ensures var a, b := Walk(n, octets, sz, flags), Walk(n, octets, sz, flags.(noEscapes := true));
      if BACKSLASH in n then b == Bad(EINVAL) || (b.Label? && BACKSLASH in b.rest)
      else b == a && (a.Label? ==> BACKSLASH !in a.rest)
    decreases |n|
  {
    if n != [] && n[0] != DOT && |octets| < DNS_LABEL_MAX {
      assert n == [n[0]] + n[1..];
      var p := ReadPiece(n, octets == [], flags);
      assert n[0] != BACKSLASH ==> p == ReadPiece(n, octets == [], flags.(noEscapes := true));
      if n[0] != BACKSLASH && p.Piece? { WalkNoEscapes(p.rest, octets + [p.byte], sz - 1, flags); }
    } else if n != [] {
      assert n == [n[0]] + n[1..];
    }
  }

  /** With NO_ESCAPES exactly the names with a backslash are refused, besides those
      that are refused without it. */
  lemma {:induction false} NoEscapesIs(name: seq<Byte>, flags: Flags)
    requires !flags.noEscapes
    ensures LabelsOf(name, flags.(noEscapes := true)) == if BACKSLASH in name then BadName(EINVAL) else LabelsOf(name, flags)
    decreases |name|
  {
    hide Walk;
    WalkNoEscapes(name, [], DNS_LABEL_MAX + 1, flags);
    var v := Unescape(name, DNS_LABEL_MAX + 1, flags.(noEscapes := true));
    if v.Label? && v.octets != [] { NoEscapesIs(v.rest, flags); }
  }

  predicate IsControl(c: Byte) {
    c < 32 || c == 127
  }

  predicate HasControl(n: seq<Byte>) {
    exists i :: 0 <= i < |n| && IsControl(n[i])
  }

  lemma {:induction false} ControlIsAhead(n: seq<Byte>, k: nat)
    requires k <= |n| && HasControl(n) && forall i :: 0 <= i < k ==> !IsControl(n[i])
    ensures HasControl(n[k..])
  {
    var i :| 0 <= i < |n| && IsControl(n[i]);
    assert n[k..][i - k] == n[i];
  }

  lemma {:induction false} WalkControl(n: seq<Byte>, octets: seq<Byte>, sz: nat, flags: Flags)
    requires HasControl(n) && |octets| + sz == DNS_LABEL_MAX + 1
    ensures var u := Walk(n, octets, sz, flags); u == Bad(EINVAL) || (u.Label? && HasControl(u.rest))
    decreases |n|
  {
    if n[0] == DOT {
      ControlIsAhead(n, 1);
    } else if |octets| < DNS_LABEL_MAX {
      var p := ReadPiece(n, octets == [], flags);
      if p.Piece? {
        ControlIsAhead(n, |n| - |p.rest|);
        WalkControl(p.rest, octets + [p.byte], sz - 1, flags);
      }
    }
  }

  /** Names with a control byte are refused under all flags. */
  lemma {:induction false} ControlIsRefused(name: seq<Byte>, flags: Flags)
    requires HasControl(name)
    ensures LabelsOf(name, flags) == BadName(EINVAL)
    decreases |name|
  {
    hide Walk;
    WalkControl(name, [], DNS_LABEL_MAX + 1, flags);
    var u := Unescape(name, DNS_LABEL_MAX + 1, flags);
    if u.Label? && u.octets != [] { ControlIsRefused(u.rest, flags); }
  }

  lemma {:induction false} PlainWalks(n: seq<Byte>, octets: seq<Byte>, sz: nat)
    requires |octets| + sz == DNS_LABEL_MAX + 1 && (n == [] ==> octets != [])
    requires forall i :: 0 <= i < |n| ==> !IsControl(n[i]) && n[i] != DOT && n[i] != BACKSLASH
    requires |octets| <= 63
    ensures Walk(n, octets, sz, NO_FLAGS) == if |octets| + |n| <= 63 then Label(octets + n, []) else Bad(EINVAL)
  {
    if n == [] {
      assert octets + n == octets;
    } else if |octets| < 63 {
      PlainWalks(n[1..], octets + [n[0]], sz - 1);
      assert octets + [n[0]] + n[1..] == octets + n;
    }
  }

  /** All other bytes but dots and backslashes stand for themselves, up to 63 in a label. */
  lemma {:induction false} PlainIsItself(name: seq<Byte>)
    requires name != [] && forall i :: 0 <= i < |name| ==> !IsControl(name[i]) && name[i] != DOT && name[i] != BACKSLASH
    ensures LabelsOf(name, NO_FLAGS) == if |name| <= 63 then Labels([name]) else BadName(EINVAL)
  {
    PlainWalks(name, [], DNS_LABEL_MAX + 1);
    assert [] + name == name;
    RootIsEmpty();
    hide Walk;
  }

  /** Three digits behind a backslash are the number of a byte, if there is one. */
  lemma {:induction false} NumberIsByte(k: nat)
    requires k < 1000
    ensures LabelsOf([BACKSLASH, ZERO + k / 100, ZERO + k / 10 % 10, ZERO + k % 10], NO_FLAGS) ==
            if k <= 255 then Labels([[k]]) else BadName(EINVAL)
  {
    var name: seq<Byte> := [BACKSLASH, ZERO + k / 100, ZERO + k / 10 % 10, ZERO + k % 10];
    assert (k / 100) * 100 + (k / 10 % 10) * 10 + k % 10 == k;
    assert name[4..] == [];
    if k <= 255 {
      var octets: seq<Byte> := [k];
      assert ReadPiece(name, true, NO_FLAGS) == Piece(k, []);
      assert [] + octets == octets;
      assert Walk([], octets, DNS_LABEL_MAX, NO_FLAGS) == Label(octets, []);
    }
    RootIsEmpty();
  }

  // ----- the flag LDH -----

  predicate AllLdh(octets: seq<Byte>) {
    forall i :: 0 <= i < |octets| ==> ValidLdhChar(octets[i])
  }

  /** Letters, digits and dashes, the last of them no dash. */
  predicate LdhLabel(octets: seq<Byte>) {
    AllLdh(octets) && (octets != [] ==> octets[|octets| - 1] != DASH)
  }

  predicate LdhLabels(labels: seq<seq<Byte>>) {
    forall i :: 0 <= i < |labels| ==> LdhLabel(labels[i])
  }

  /** Some label of the text begins with a dash that is written as such. */
  predicate DashStarts(n: seq<Byte>, first: bool) {
    if n == [] then false
    else if n[0] == DASH && first then true
    else if n[0] == BACKSLASH then |n| > 1 && DashStarts(n[2..], false)
    else DashStarts(n[1..], n[0] == DOT)
  }

  lemma {:induction false} WalkExtends(n: seq<Byte>, octets: seq<Byte>, sz: nat, flags: Flags)
    ensures Walk(n, octets, sz, flags).Label? ==> octets <= Walk(n, octets, sz, flags).octets
    decreases |n|
  {
    hide ReadPiece;
    if n != [] && n[0] != DOT && |octets| < DNS_LABEL_MAX && sz > 0 {
      var p := ReadPiece(n, octets == [], flags);
      if p.Piece? { WalkExtends(p.rest, octets + [p.byte], sz - 1, flags); }
    }
  }

  lemma {:induction false} PieceDash(n: seq<Byte>, first: bool, flags: Flags)
    requires n != [] && n[0] != DOT && ReadPiece(n, first, flags).Piece?
    ensures DashStarts(n, first) <==> (first && n[0] == DASH) || DashStarts(ReadPiece(n, first, flags).rest, false)
  {
    if n[0] == BACKSLASH && IsDigit(n[1]) {
      assert n[2..][1..] == n[3..] && n[3..][1..] == n[4..];
      assert DashStarts(n[2..], false) == DashStarts(n[3..], false) && DashStarts(n[3..], false) == DashStarts(n[4..], false);
    }
  }

  lemma {:induction false} PieceLdh(n: seq<Byte>, first: bool, flags: Flags)
    requires n != [] && n[0] != DOT && !flags.ldh
    ensures var p := ReadPiece(n, first, flags);
      ReadPiece(n, first, flags.(ldh := true)) ==
      if p.Piece? && ValidLdhChar(p.byte) && !(first && n[0] == DASH) then p else Wrong
  {
  }

  lemma {:induction false} WalkLdh(n: seq<Byte>, octets: seq<Byte>, sz: nat, flags: Flags)
    requires !flags.ldh && AllLdh(octets) && |octets| + sz == DNS_LABEL_MAX + 1
    ensures var a, b := Walk(n, octets, sz, flags), Walk(n, octets, sz, flags.(ldh := true));
      && (a.Bad? ==> a == Bad(EINVAL))
      && b == (if a.Label? && LdhLabel(a.octets) && !(octets == [] && n != [] && n[0] == DASH) then a else Bad(EINVAL))
      && (a.Label? ==> (DashStarts(n, octets == []) <==> (octets == [] && n != [] && n[0] == DASH) || DashStarts(a.rest, true)))
    decreases |n|
  {
    if n != [] && n[0] != DOT && |octets| < DNS_LABEL_MAX {
      var p := ReadPiece(n, octets == [], flags);
      PieceLdh(n, octets == [], flags);
      if p.Piece? {
        var more := octets + [p.byte];
        PieceDash(n, octets == [], flags);
        WalkExtends(p.rest, more, sz - 1, flags);
        hide ReadPiece, DashStarts, ValidLdhChar;
        if ValidLdhChar(p.byte) {
          WalkLdh(p.rest, more, sz - 1, flags);
        } else {
          WalkFacts(p.rest, more, sz - 1, flags);
          assert !AllLdh(more) by { assert more[|octets|] == p.byte; }
        }
      }
    }
  }

  /** What holds whatever the octets are. */
  lemma {:induction false} WalkFacts(n: seq<Byte>, octets: seq<Byte>, sz: nat, flags: Flags)
    requires octets != [] && |octets| + sz == DNS_LABEL_MAX + 1
    ensures var a := Walk(n, octets, sz, flags);
      && (a.Bad? ==> a == Bad(EINVAL))
      && (a.Label? ==> (DashStarts(n, false) <==> DashStarts(a.rest, true)))
    decreases |n|
  {
    if n != [] && n[0] != DOT && |octets| < DNS_LABEL_MAX {
      var p := ReadPiece(n, false, flags);
      if p.Piece? {
        PieceDash(n, false, flags);
        hide ReadPiece, DashStarts;
        WalkFacts(p.rest, octets + [p.byte], sz - 1, flags);
      }
    }
  }

  /** With LDH a name is refused, besides where it is without, exactly if a label has
      an octet that is no letter, digit or dash, or ends in a dash, or begins with a
      dash that is written as such. */
  lemma {:induction false} LdhIs(name: seq<Byte>, flags: Flags)
    requires !flags.ldh
    ensures var n := LabelsOf(name, flags);
      LabelsOf(name, flags.(ldh := true)) ==
      if n.Labels? && LdhLabels(n.labels) && !DashStarts(name, true) then n else BadName(EINVAL)
    decreases |name|
  {
    hide Walk, DashStarts, LdhLabel;
    WalkLdh(name, [], DNS_LABEL_MAX + 1, flags);
    var u := Unescape(name, DNS_LABEL_MAX + 1, flags);
    if u.Label? && u.octets != [] {
      LdhIs(u.rest, flags);
      var more := LabelsOf(u.rest, flags);
      if more.Labels? { LdhCons(u.octets, more.labels); }
    } else if u.Label? {
      assert !DashStarts([], true) && LdhLabel([]) by { NoDash(); }
    }
  }

  lemma {:induction false} LdhCons(octets: seq<Byte>, labels: seq<seq<Byte>>)
    ensures LdhLabels([octets] + labels) <==> LdhLabel(octets) && LdhLabels(labels)
  {
    var all := [octets] + labels;
    assert forall i :: 0 <= i < |labels| ==> labels[i] == all[i + 1];
    assert all[0] == octets;
  }

  lemma {:induction false} NoDash()
    ensures !DashStarts([], true) && LdhLabel([])
  {
  }
}
