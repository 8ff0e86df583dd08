/** The address lists that workers send to the main thread. */
module AddrInfo {
  import opened Wrappers

  type Byte = b: int | 0 <= b < 256

  const BUFSIZE: nat := 10240
  const RECORD_HEADER: nat := 32  // sizeof(AddrInfoSerialization)
  const RESPONSE_HEADER: nat := 32  // sizeof(AddrInfoResponse)
  const SIZE_RANGE: nat := 0x1_0000_0000_0000_0000  // size_t is 64 bits wide

  /** One `struct addrinfo`. The canonical name includes its NUL byte. */
  datatype Info = Info(flags: int, family: int, socktype: int, protocol: int, addr: seq<Byte>, canonname: Option<seq<Byte>>)

  // ----- integers in memory, least significant byte first -----

  function Pow256(k: nat): (r: nat)
    ensures r > 0
  {
    if k == 0 then 1 else 256 * Pow256(k - 1)
  }

  function ToBytes(n: nat, k: nat): (b: seq<Byte>)
    ensures |b| == k
  {
    if k == 0 then [] else [n % 256] + ToBytes(n / 256, k - 1)
  }

  function FromBytes(b: seq<Byte>): nat {
    if b == [] then 0 else b[0] + 256 * FromBytes(b[1..])
  }

  lemma {:induction false} BytesRoundTrip(n: nat, k: nat)
    requires n < Pow256(k)
    ensures FromBytes(ToBytes(n, k)) == n
  {
    if k > 0 {
      BytesRoundTrip(n / 256, k - 1);
      assert ToBytes(n, k)[1..] == ToBytes(n / 256, k - 1);
    }
  }

  predicate IsInt(x: int) {
    -0x8000_0000 <= x < 0x8000_0000
  }

  /** A 32-bit signed integer in two's complement. */
  function IntToBytes(x: int): (b: seq<Byte>)
    requires IsInt(x)
    ensures |b| == 4
  {
    ToBytes(if x >= 0 then x else x + 0x1_0000_0000, 4)
  }

  function IntFromBytes(b: seq<Byte>): int {
    var n := FromBytes(b);
    if n < 0x8000_0000 then n else n - 0x1_0000_0000
  }

  lemma {:induction false} IntRoundTrip(x: int)
    requires IsInt(x)
    ensures IntFromBytes(IntToBytes(x)) == x
  {
    assert Pow256(4) == 0x1_0000_0000 by { assert Pow256(2) == 65536; }
    BytesRoundTrip(if x >= 0 then x else x + 0x1_0000_0000, 4);
  }

  lemma {:induction false} SizeRoundTrip(n: nat)
    requires n < SIZE_RANGE
    ensures FromBytes(ToBytes(n, 8)) == n
  {
    assert Pow256(8) == SIZE_RANGE by { assert Pow256(4) == 0x1_0000_0000 by { assert Pow256(2) == 65536; } assert Pow256(6) == 0x1_0000_0000_0000; }
    BytesRoundTrip(n, 8);
  }

  // ----- writing -----

  function NameBytes(ai: Info): seq<Byte> {
    match ai.canonname case None => [] case Some(c) => c
  }

  /** What C guarantees of the structure: int fields, and a NUL-terminated name. */
  predicate WellFormed(ai: Info) {
    IsInt(ai.flags) && IsInt(ai.family) && IsInt(ai.socktype) && IsInt(ai.protocol) && |ai.addr| < 0x1_0000_0000 &&
    match ai.canonname
    case None => true
    case Some(c) => 0 < |c| < SIZE_RANGE && c[|c| - 1] == 0 && forall i :: 0 <= i < |c| - 1 ==> c[i] != 0
  }

  function Header(ai: Info): (b: seq<Byte>)
    requires WellFormed(ai)
    ensures |b| == RECORD_HEADER
  {
    IntToBytes(ai.flags) + IntToBytes(ai.family) + IntToBytes(ai.socktype) + IntToBytes(ai.protocol) +
    ToBytes(|ai.addr|, 8) + ToBytes(|NameBytes(ai)|, 8)
  }

  function Record(ai: Info): (b: seq<Byte>)
    requires WellFormed(ai)
    ensures |b| == RecordLength(ai)
  {
    Header(ai) + ai.addr + NameBytes(ai)
  }

  function RecordLength(ai: Info): nat {
    RECORD_HEADER + |ai.addr| + |NameBytes(ai)|
  }

  predicate AllWellFormed(list: seq<Info>) {
    forall i :: 0 <= i < |list| ==> WellFormed(list[i])
  }

  function Flatten(list: seq<Info>): (b: seq<Byte>)
    requires AllWellFormed(list)
    ensures |b| == TotalLength(list)
  {
    if list == [] then [] else Flatten(list[..|list| - 1]) + Record(list[|list| - 1])
  }

  function TotalLength(list: seq<Info>): nat {
    if list == [] then 0 else TotalLength(list[..|list| - 1]) + RecordLength(list[|list| - 1])
  }

  datatype Reply = Sent(payload: seq<Byte>) | NoBuffers | AssertionFails

  /** Room as the code counts it: what is written counts against the buffer and
      again in the message length. */
  predicate RoomFor(list: seq<Info>, i: nat)
    requires i < |list|
  {
    RESPONSE_HEADER + TotalLength(list[..i]) + TotalLength(list[..i + 1]) <= BUFSIZE
  }

  /** The assertion at the head of `serialize_addrinfo`, at record `i`. */
  predicate AssertionHolds(list: seq<Info>, i: nat)
    requires i < |list|
  {
    RESPONSE_HEADER + 2 * TotalLength(list[..i]) <= BUFSIZE
  }

  lemma {:induction false} OneMore(list: seq<Info>, i: nat)
    requires i < |list|
    ensures TotalLength(list[..i + 1]) == TotalLength(list[..i]) + RecordLength(list[i])
    ensures AllWellFormed(list) ==> Flatten(list[..i + 1]) == Flatten(list[..i]) + Record(list[i])
  {
    assert list[..i + 1][..i] == list[..i];
  }

  /** The loop of `send_addrinfo_reply`: the list is sent in full exactly when
      there is room for every record; otherwise the first record without room
      ends it, with an error if the assertion holds there. */
  method SerializeList(list: seq<Info>) returns (r: Reply)
    requires AllWellFormed(list)
    ensures r.Sent? <==> forall i :: 0 <= i < |list| ==> RoomFor(list, i)
    ensures r.Sent? ==> r.payload == Flatten(list) && |r.payload| <= BUFSIZE
    ensures r.AssertionFails? <==> exists i :: 0 <= i < |list| && !AssertionHolds(list, i) && AllRoom(list, i)
  {
    hide Flatten, TotalLength, Record, RecordLength;
    var length, buffer: seq<Byte> := RESPONSE_HEADER, [];
    assert list[..0] == [] && Flatten([]) == [] by { EmptyList(); }
    for i := 0 to |list|
      invariant forall j :: 0 <= j < i ==> RoomFor(list, j) && AssertionHolds(list, j)
      invariant buffer == Flatten(list[..i]) && length == RESPONSE_HEADER + |buffer| && |buffer| <= BUFSIZE
    {
      var k := list[i];
      var maxLength := BUFSIZE - |buffer|;
      OneMore(list, i);
      if length > maxLength {
        assert !AssertionHolds(list, i) && !RoomFor(list, i) && AllRoom(list, i);
        return AssertionFails;
      }
      assert AssertionHolds(list, i);
      if length + RecordLength(k) > maxLength {
        assert !RoomFor(list, i);
        return NoBuffers;
      }
      buffer := buffer + Record(k);
      length := length + RecordLength(k);
    }
    assert list[..|list|] == list;
    return Sent(buffer);
  }

  predicate AllRoom(list: seq<Info>, i: nat)
    requires i <= |list|
  {
    forall j :: 0 <= j < i ==> RoomFor(list, j)
  }

  lemma {:induction false} EmptyList()
    ensures Flatten([]) == []
  {
  }

  /** The assertion does fail: on a large record followed by any other. */
  lemma {:induction false} AssertionCanFail(big: Info, other: Info)
    requires 5105 <= RecordLength(big) <= 10208
    ensures RoomFor([big, other], 0) && !AssertionHolds([big, other], 1)
  {
    OneMore([big, other], 0);
  }

  /** Records of IPv6 addresses: 60 bytes each, the first with a name. */
  predicate ManyAddresses(list: seq<Info>, name: nat) {
    |list| == 86 && RecordLength(list[0]) == 60 + name && forall i :: 0 < i < 86 ==> RecordLength(list[i]) == 60
  }

  lemma {:induction false} ManyLength(list: seq<Info>, name: nat, i: nat)
    requires ManyAddresses(list, name) && 0 < i <= 86
    ensures TotalLength(list[..i]) == 60 * i + name
    decreases i
  {
    hide RecordLength;
    OneMore(list, i - 1);
    if i > 1 {
      ManyLength(list, name, i - 1);
    } else {
      assert list[..0] == [];
    }
  }

  /** So does it on 86 IPv6 addresses, the first with a canonical name of 5 to 34 bytes. */
  lemma {:induction false} AssertionFailsOnMany(list: seq<Info>, name: nat)
    requires ManyAddresses(list, name) && 5 <= name <= 34
    ensures AllRoom(list, 85) && !AssertionHolds(list, 85)
  {
    hide RecordLength, TotalLength;
    forall j | 0 <= j < 85 ensures RoomFor(list, j) {
      ManyLength(list, name, j + 1);
      if j > 0 { ManyLength(list, name, j); } else { assert list[..0] == [] && TotalLength([]) == 0 by { NoLength(); } }
    }
    ManyLength(list, name, 85);
  }

  lemma {:induction false} NoLength()
    ensures TotalLength([]) == 0
  {
  }

  // ----- reading -----

  datatype Parsed = Parsed(info: Info, rest: seq<Byte>) | BadMessage | NoMemory

  function Cut(b: seq<Byte>, from: nat, to: nat): (r: seq<Byte>)
    requires from <= to <= |b|
    ensures |r| == to - from
  {
    b[from..to]
  }

  /** `unserialize_addrinfo`, with 64-bit sizes that wrap around. No more than
      `memory` bytes can be allocated at once. */
  function Unserialize(b: seq<Byte>, memory: nat): (r: Parsed)
    requires memory < 0x4000_0000_0000_0000
    ensures r.Parsed? ==> |r.rest| + RECORD_HEADER <= |b|
  {
    if |b| < RECORD_HEADER then BadMessage
    else
      var addrLen, nameLen := FromBytes(Cut(b, 16, 24)), FromBytes(Cut(b, 24, 32));
      var l := (RECORD_HEADER + addrLen + nameLen) % SIZE_RANGE;
      if |b| < l then BadMessage
      else if addrLen > memory || nameLen > memory then NoMemory
      else
        Parsed(Info(IntFromBytes(Cut(b, 0, 4)), IntFromBytes(Cut(b, 4, 8)), IntFromBytes(Cut(b, 8, 12)), IntFromBytes(Cut(b, 12, 16)),
                    Cut(b, 32, 32 + addrLen),
                    if nameLen > 0 then Some(Cut(b, 32 + addrLen, 32 + addrLen + nameLen)) else None),
               b[l..])
  }

  datatype ParsedList = Complete(list: seq<Info>) | Broken

  function Prepend(list: seq<Info>, p: ParsedList): ParsedList {
    match p
    case Complete(l) => Complete(list + l)
    case Broken => Broken
  }

  /** The list a response spells out, or `Broken` if some record does not parse. */
  function ParseList(b: seq<Byte>, memory: nat): ParsedList
    requires memory < 0x4000_0000_0000_0000
    decreases |b|
  {
    if b == [] then Complete([])
    else
      match Unserialize(b, memory)
      case Parsed(ai, rest) =>
        Prepend([ai], ParseList(rest, memory))
      case BadMessage => Broken
      case NoMemory => Broken
  }

  /** The loop of `handle_response`; it ends on every input. */
  method UnserializeList(b: seq<Byte>, memory: nat) returns (r: ParsedList)
    requires memory < 0x4000_0000_0000_0000
    ensures r == ParseList(b, memory)
  {
    var list, rest := [], b;
    while rest != []
      invariant ParseList(b, memory) == Prepend(list, ParseList(rest, memory))
      decreases |rest|
    {
      var p := Unserialize(rest, memory);
      if !p.Parsed? {
        return Broken;
      }
      PrependTwice(list, [p.info], ParseList(p.rest, memory));
      list := list + [p.info];
      rest := p.rest;
    }
    assert list + [] == list;
    return Complete(list);
  }

  lemma {:induction false} HeaderFields(ai: Info, tail: seq<Byte>)
    requires WellFormed(ai)
    ensures var b := Header(ai) + tail;
      && Cut(b, 0, 4) == IntToBytes(ai.flags) && Cut(b, 4, 8) == IntToBytes(ai.family)
      && Cut(b, 8, 12) == IntToBytes(ai.socktype) && Cut(b, 12, 16) == IntToBytes(ai.protocol)
      && Cut(b, 16, 24) == ToBytes(|ai.addr|, 8) && Cut(b, 24, 32) == ToBytes(|NameBytes(ai)|, 8)
  {
    hide ToBytes, IntToBytes;
  }

  lemma {:induction false} RecordParts(ai: Info, tail: seq<Byte>)
    requires WellFormed(ai)
    ensures var b, k := Record(ai) + tail, 32 + |ai.addr|;
      && b == Header(ai) + (ai.addr + NameBytes(ai) + tail) && |b| == k + |NameBytes(ai)| + |tail|
      && Cut(b, 32, k) == ai.addr && Cut(b, k, k + |NameBytes(ai)|) == NameBytes(ai) && b[k + |NameBytes(ai)|..] == tail
  {
    hide Header, WellFormed;
  }

  /** Reading undoes writing, record by record. */
  lemma {:induction false} RecordRoundTrip(ai: Info, tail: seq<Byte>, memory: nat)
    requires WellFormed(ai) && |ai.addr| <= memory && |NameBytes(ai)| <= memory < 0x4000_0000_0000_0000
    ensures Unserialize(Record(ai) + tail, memory) == Parsed(ai, tail)
  {
    hide Header, Record, IntToBytes, IntFromBytes, FromBytes, ToBytes, Cut;
    RecordParts(ai, tail);
    HeaderFields(ai, ai.addr + NameBytes(ai) + tail);
    IntRoundTrip(ai.flags);
    IntRoundTrip(ai.family);
    IntRoundTrip(ai.socktype);
    IntRoundTrip(ai.protocol);
    SizeRoundTrip(|ai.addr|);
    SizeRoundTrip(|NameBytes(ai)|);
  }

  lemma {:induction false} PrependTwice(a: seq<Info>, b: seq<Info>, p: ParsedList)
    ensures Prepend(a, Prepend(b, p)) == Prepend(a + b, p)
  {
    if p.Complete? { assert a + (b + p.list) == a + b + p.list; }
  }

  lemma {:induction false} ParseRecord(ai: Info, tail: seq<Byte>, memory: nat)
    requires WellFormed(ai) && |ai.addr| <= memory && |NameBytes(ai)| <= memory < 0x4000_0000_0000_0000
    ensures ParseList(Record(ai) + tail, memory) == Prepend([ai], ParseList(tail, memory))
  {
    RecordRoundTrip(ai, tail, memory);
    assert |Record(ai) + tail| > 0;
    hide Unserialize, Record;
  }

  lemma {:induction false} LastFits(list: seq<Info>)
    requires AllWellFormed(list) && list != []
    ensures var front, last := list[..|list| - 1], list[|list| - 1];
      && AllWellFormed(front) && WellFormed(last) && Flatten(list) == Flatten(front) + Record(last)
      && TotalLength(front) <= TotalLength(list) && |last.addr| <= TotalLength(list) && |NameBytes(last)| <= TotalLength(list)
  {
    hide WellFormed, Record, NameBytes;
  }

  lemma {:induction false} FlattenRoundTrip(list: seq<Info>, tail: seq<Byte>, memory: nat)
    requires AllWellFormed(list) && TotalLength(list) <= memory < 0x4000_0000_0000_0000
    ensures ParseList(Flatten(list) + tail, memory) == Prepend(list, ParseList(tail, memory))
  {
    hide ParseList, Unserialize, Record, WellFormed, TotalLength, NameBytes, AllWellFormed;
    if list == [] {
      assert Flatten(list) + tail == tail;
      var p := ParseList(tail, memory);
      if p.Complete? { assert [] + p.list == p.list; }
    } else {
      LastFits(list);
      hide Flatten;
      var front, last := list[..|list| - 1], list[|list| - 1];
      FlattenRoundTrip(front, Record(last) + tail, memory);
      ParseRecord(last, tail, memory);
      PrependTwice(front, [last], ParseList(tail, memory));
      assert Flatten(list) + tail == Flatten(front) + (Record(last) + tail);
      assert front + [last] == list;
    }
  }

  /** A list that the worker sends in full is rebuilt field for field, in order. */
  lemma {:induction false} ListRoundTrip(list: seq<Info>, memory: nat)
    requires AllWellFormed(list) && (forall i :: 0 <= i < |list| ==> RoomFor(list, i)) && BUFSIZE <= memory < 0x4000_0000_0000_0000
    ensures ParseList(Flatten(list), memory) == Complete(list)
  {
    if list != [] {
      assert RoomFor(list, |list| - 1);
      assert list[..|list|] == list;
    }
    FlattenRoundTrip(list, [], memory);
    assert Flatten(list) + [] == Flatten(list);
    assert list + [] == list;
  }
}
