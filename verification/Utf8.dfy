/** UTF-8: encoding, decoding, validation and escaping of NUL-terminated strings. */
module Utf8 {
  import opened Wrappers

  type Byte = bv8
  type Unichar = bv32

  /** A C string, given without its NUL byte. */
  predicate CString(s: seq<Byte>) {
    forall i :: 0 <= i < |s| ==> s[i] != 0
  }

  /** Reading a C string: the byte behind the last one is NUL. */
  function At(s: seq<Byte>, i: nat): Byte
    requires i <= |s|
  {
    if i < |s| then s[i] else 0
  }

  predicate UnicharIsValid(ch: Unichar) {
    !(ch >= 0x110000) && !(ch & 0xFFFFF800 == 0xD800) && !(ch >= 0xFDD0 && ch <= 0xFDEF) && !(ch & 0xFFFE == 0xFFFE)
  }

  /** The length the first byte announces, 0 if it announces none. */
  function ExpectedLen(c: Byte): (len: nat)
    ensures len <= 6
  {
    if c < 0x80 then 1
    else if c & 0xe0 == 0xc0 then 2
    else if c & 0xf0 == 0xe0 then 3
    else if c & 0xf8 == 0xf0 then 4
    else if c & 0xfc == 0xf8 then 5
    else if c & 0xfe == 0xfc then 6
    else 0
  }

  function FirstBits(c: Byte, len: nat): Unichar {
    var u := c as Unichar;
    if len == 1 then u
    else if len == 2 then u & 0x1f
    else if len == 3 then u & 0x0f
    else if len == 4 then u & 0x07
    else if len == 5 then u & 0x03
    else u & 0x01
  }

  predicate IsContinuation(c: Byte) {
    c & 0xc0 == 0x80
  }

  function Push(u: Unichar, c: Byte): Unichar {
    (u << 6) | ((c as Unichar) & 0x3f)
  }

  /** The continuation bytes from `i` up to `end`, pushed onto `u`. */
  function PushAll(s: seq<Byte>, i: nat, end: nat, u: Unichar): (r: Option<Unichar>)
    requires i <= |s|
    ensures r.Some? && i <= end ==> end <= |s|
    decreases end - i
  {
    if i >= end then Some(u)
    else if !IsContinuation(At(s, i)) then None
    else PushAll(s, i + 1, end, Push(u, At(s, i)))
  }

  /** The character at the start of a string. */
  function Decode(s: seq<Byte>): (r: Option<Unichar>)
    requires s != []
    ensures r.Some? ==> 0 < ExpectedLen(s[0]) <= |s|
  {
    var len := ExpectedLen(s[0]);
    if len == 0 then None else PushAll(s, 1, len, FirstBits(s[0], len))
  }

  function EncodedLen(u: Unichar): nat {
    if u < 0x80 then 1
    else if u < 0x800 then 2
    else if u < 0x10000 then 3
    else if u < 0x200000 then 4
    else if u < 0x4000000 then 5
    else 6
  }

  /** The length of the valid character at the start of a string, 0 if none. */
  function ValidLen(s: seq<Byte>): (len: nat)
    requires s != []
    ensures len <= |s|
  {
    var len := ExpectedLen(s[0]);
    if len == 0 then 0
    else if len == 1 then 1
    else
      match Decode(s)
      case None => 0
      case Some(u) => if EncodedLen(u) == len && UnicharIsValid(u) then len else 0
  }

  function Encode(g: Unichar): (b: seq<Byte>)
    ensures |b| <= 4
  {
    if g < 0x80 then [(g & 0x7f) as Byte]
    else if g < 0x800 then [(0xc0 | ((g >> 6) & 0x1f)) as Byte, (0x80 | (g & 0x3f)) as Byte]
    else if g < 0x10000 then
      [(0xe0 | ((g >> 12) & 0x0f)) as Byte, (0x80 | ((g >> 6) & 0x3f)) as Byte, (0x80 | (g & 0x3f)) as Byte]
    else if g < 0x200000 then
      [(0xf0 | ((g >> 18) & 0x07)) as Byte, (0x80 | ((g >> 12) & 0x3f)) as Byte,
       (0x80 | ((g >> 6) & 0x3f)) as Byte, (0x80 | (g & 0x3f)) as Byte]
    else []
  }

  // ----- one character, on bits -----

  lemma {:induction false} TwoBits(g: Unichar, b0: Byte, b1: Byte)
    requires 0x80 <= g < 0x800
    requires b0 == (0xc0 | ((g >> 6) & 0x1f)) as Byte && b1 == (0x80 | (g & 0x3f)) as Byte
    ensures ExpectedLen(b0) == 2 && IsContinuation(b1) && Push(FirstBits(b0, 2), b1) == g
  {
  }

  lemma {:induction false} ThreeBits(g: Unichar, b0: Byte, b1: Byte, b2: Byte)
    requires 0x800 <= g < 0x10000
    requires b0 == (0xe0 | ((g >> 12) & 0x0f)) as Byte && b1 == (0x80 | ((g >> 6) & 0x3f)) as Byte && b2 == (0x80 | (g & 0x3f)) as Byte
    ensures ExpectedLen(b0) == 3 && IsContinuation(b1) && IsContinuation(b2)
    ensures Push(Push(FirstBits(b0, 3), b1), b2) == g
  {
  }

  lemma {:induction false} FourBits(g: Unichar, b0: Byte, b1: Byte, b2: Byte, b3: Byte)
    requires 0x10000 <= g < 0x200000
    requires b0 == (0xf0 | ((g >> 18) & 0x07)) as Byte && b1 == (0x80 | ((g >> 12) & 0x3f)) as Byte
    requires b2 == (0x80 | ((g >> 6) & 0x3f)) as Byte && b3 == (0x80 | (g & 0x3f)) as Byte
    ensures ExpectedLen(b0) == 4 && IsContinuation(b1) && IsContinuation(b2) && IsContinuation(b3)
    ensures Push(Push(Push(FirstBits(b0, 4), b1), b2), b3) == g
  {
  }

  lemma {:induction false} TwoBack(b0: Byte, b1: Byte)
    requires ExpectedLen(b0) == 2 && IsContinuation(b1) && EncodedLen(Push(FirstBits(b0, 2), b1)) == 2
    ensures Encode(Push(FirstBits(b0, 2), b1)) == [b0, b1]
  {
  }

  lemma {:induction false} ThreeBack(b0: Byte, b1: Byte, b2: Byte)
    requires ExpectedLen(b0) == 3 && IsContinuation(b1) && IsContinuation(b2)
    requires EncodedLen(Push(Push(FirstBits(b0, 3), b1), b2)) == 3
    ensures Encode(Push(Push(FirstBits(b0, 3), b1), b2)) == [b0, b1, b2]
  {
  }

  lemma {:induction false} FourBack(b0: Byte, b1: Byte, b2: Byte, b3: Byte)
    requires ExpectedLen(b0) == 4 && IsContinuation(b1) && IsContinuation(b2) && IsContinuation(b3)
    requires EncodedLen(Push(Push(Push(FirstBits(b0, 4), b1), b2), b3)) == 4
    ensures Encode(Push(Push(Push(FirstBits(b0, 4), b1), b2), b3)) == [b0, b1, b2, b3]
  {
  }

  lemma {:induction false} OneBit(g: Unichar, b: Byte)
    requires g < 0x80 && b == (g & 0x7f) as Byte
    ensures ExpectedLen(b) == 1 && FirstBits(b, 1) == g && EncodedLen(g) == 1
  {
  }

  lemma {:induction false} OneBack(b: Byte)
    requires ExpectedLen(b) == 1
    ensures Encode(FirstBits(b, 1)) == [b] && UnicharIsValid(FirstBits(b, 1)) && (b != 0 ==> FirstBits(b, 1) != 0)
  {
  }

  lemma {:induction false} LongIsInvalid(u: Unichar)
    requires EncodedLen(u) >= 5
    ensures !UnicharIsValid(u)
  {
  }

  lemma {:induction false} EncodedLenIs(g: Unichar)
    requires UnicharIsValid(g)
    ensures |Encode(g)| == EncodedLen(g) && 1 <= |Encode(g)| <= 4
  {
  }

  // ----- one character, in a string -----

  /** Decoding recovers the character, whatever follows. */
  lemma {:induction false} EncodeDecodes(g: Unichar, rest: seq<Byte>)
    requires UnicharIsValid(g)
    ensures Encode(g) != []
    ensures Decode(Encode(g) + rest) == Some(g) && ValidLen(Encode(g) + rest) == |Encode(g)|
  {
    EncodedLenIs(g);
    var b := Encode(g);
    var s := b + rest;
    if g < 0x80 {
      OneBit(g, b[0]);
    } else if g < 0x800 {
      TwoBits(g, b[0], b[1]);
    } else if g < 0x10000 {
      ThreeBits(g, b[0], b[1], b[2]);
    } else {
      FourBits(g, b[0], b[1], b[2], b[3]);
    }
    hide Encode, ExpectedLen, FirstBits, IsContinuation, Push, UnicharIsValid, EncodedLen;
    assert s[0] == b[0];
    Unroll(s, 1, |b|, FirstBits(s[0], |b|));
  }

  lemma {:induction false} PushAllStep(s: seq<Byte>, i: nat, end: nat, u: Unichar)
    requires i < end <= |s|
    ensures PushAll(s, i, end, u) == if IsContinuation(s[i]) then PushAll(s, i + 1, end, Push(u, s[i])) else None
  {
    hide IsContinuation, Push;
  }

  /** The loop over up to three continuation bytes. */
  lemma {:induction false} Unroll(s: seq<Byte>, i: nat, end: nat, u: Unichar)
    requires 1 == i <= end <= |s| && end <= 4
    ensures end >= 2 && !IsContinuation(s[1]) ==> PushAll(s, i, end, u) == None
    ensures end == 1 ==> PushAll(s, i, end, u) == Some(u)
    ensures end == 2 && IsContinuation(s[1]) ==> PushAll(s, i, end, u) == Some(Push(u, s[1]))
    ensures end == 3 && IsContinuation(s[1]) ==>
      PushAll(s, i, end, u) == if IsContinuation(s[2]) then Some(Push(Push(u, s[1]), s[2])) else None
    ensures end == 4 && IsContinuation(s[1]) && IsContinuation(s[2]) ==>
      PushAll(s, i, end, u) == if IsContinuation(s[3]) then Some(Push(Push(Push(u, s[1]), s[2]), s[3])) else None
    ensures end == 4 && IsContinuation(s[1]) && !IsContinuation(s[2]) ==> PushAll(s, i, end, u) == None
  {
    hide IsContinuation, Push;
    if end >= 3 && IsContinuation(s[1]) {
      PushAllStep(s, 2, end, Push(u, s[1]));
      if end == 4 && IsContinuation(s[2]) { PushAllStep(s, 3, end, Push(Push(u, s[1]), s[2])); }
    }
  }

  /** What validates is the encoding of the decoded character. */
  lemma {:induction false} ValidIsEncoded(s: seq<Byte>)
    requires s != [] && ValidLen(s) > 0
    ensures Decode(s).Some?
    ensures var g := Decode(s).value;
      UnicharIsValid(g) && Encode(g) == s[..ValidLen(s)] && (s[0] != 0 ==> g != 0)
  {
    var len := ExpectedLen(s[0]);
    if len == 1 {
      OneBack(s[0]);
      hide Encode, ExpectedLen, FirstBits, IsContinuation, Push, UnicharIsValid, EncodedLen;
      assert s[..1] == [s[0]];
    } else {
      var u := Decode(s).value;
      if len >= 5 { LongIsInvalid(u); }
      NotZero(u);
      hide Encode, ExpectedLen, FirstBits, IsContinuation, Push, UnicharIsValid, EncodedLen;
      if len == 2 { TwoInString(s); } else if len == 3 { ThreeInString(s); } else { FourInString(s); }
    }
  }

  lemma {:induction false} TwoInString(s: seq<Byte>)
    requires s != [] && ExpectedLen(s[0]) == 2 && Decode(s).Some? && EncodedLen(Decode(s).value) == 2
    ensures Encode(Decode(s).value) == s[..2]
  {
    hide Encode, ExpectedLen, FirstBits, IsContinuation, Push, UnicharIsValid, EncodedLen, PushAll;
    Unroll(s, 1, 2, FirstBits(s[0], 2));
    assert IsContinuation(s[1]);
    TwoBack(s[0], s[1]);
    assert s[..2] == [s[0], s[1]];
  }

  lemma {:induction false} ThreeInString(s: seq<Byte>)
    requires s != [] && ExpectedLen(s[0]) == 3 && Decode(s).Some? && EncodedLen(Decode(s).value) == 3
    ensures Encode(Decode(s).value) == s[..3]
  {
    hide Encode, ExpectedLen, FirstBits, IsContinuation, Push, UnicharIsValid, EncodedLen, PushAll;
    Unroll(s, 1, 3, FirstBits(s[0], 3));
    assert IsContinuation(s[1]) && IsContinuation(s[2]);
    ThreeBack(s[0], s[1], s[2]);
    assert s[..3] == [s[0], s[1], s[2]];
  }

  lemma {:induction false} FourInString(s: seq<Byte>)
    requires s != [] && ExpectedLen(s[0]) == 4 && Decode(s).Some? && EncodedLen(Decode(s).value) == 4
    ensures Encode(Decode(s).value) == s[..4]
  {
    hide Encode, ExpectedLen, FirstBits, IsContinuation, Push, UnicharIsValid, EncodedLen, PushAll;
    Unroll(s, 1, 4, FirstBits(s[0], 4));
    assert IsContinuation(s[1]) && IsContinuation(s[2]) && IsContinuation(s[3]);
    FourBack(s[0], s[1], s[2], s[3]);
    assert s[..4] == [s[0], s[1], s[2], s[3]];
  }

  lemma {:induction false} NotZero(u: Unichar)
    requires EncodedLen(u) >= 2
    ensures u != 0
  {
  }

  // ----- the syntax of section 4 of RFC 3629 -----

  predicate Tail(b: Byte) {
    0x80 <= b <= 0xBF
  }

  predicate StartsTwo(s: seq<Byte>) {
    |s| >= 2 && 0xC2 <= s[0] <= 0xDF && Tail(s[1])
  }

  predicate StartsThree(s: seq<Byte>) {
    |s| >= 3 && Tail(s[2]) &&
    (|| (s[0] == 0xE0 && 0xA0 <= s[1] <= 0xBF)
     || (0xE1 <= s[0] <= 0xEC && Tail(s[1]))
     || (s[0] == 0xED && 0x80 <= s[1] <= 0x9F)
     || (0xEE <= s[0] <= 0xEF && Tail(s[1])))
  }

  predicate StartsFour(s: seq<Byte>) {
    |s| >= 4 && Tail(s[2]) && Tail(s[3]) &&
    (|| (s[0] == 0xF0 && 0x90 <= s[1] <= 0xBF)
     || (0xF1 <= s[0] <= 0xF3 && Tail(s[1]))
     || (s[0] == 0xF4 && 0x80 <= s[1] <= 0x8F))
  }

  /** U+FDD0 to U+FDEF, U+FFFE and U+FFFF. */
  predicate NoCharacterOfThree(s: seq<Byte>)
    requires |s| >= 3
  {
    s[0] == 0xEF && ((s[1] == 0xB7 && 0x90 <= s[2] <= 0xAF) || (s[1] == 0xBF && 0xBE <= s[2]))
  }

  /** The last two code points of the planes above the first: the second byte ends
      in the bits 1111. */
  predicate NoCharacterOfFour(s: seq<Byte>)
    requires |s| >= 4
  {
    s[1] in [0x8F, 0x9F, 0xAF, 0xBF] && s[2] == 0xBF && 0xBE <= s[3]
  }

  /** The length of the character of RFC 3629 at the start, 0 if there is none or it
      is one of those that are no characters. */
  function RfcLen(s: seq<Byte>): nat
    requires s != []
  {
    if s[0] <= 0x7F then 1
    else if StartsTwo(s) then 2
    else if StartsThree(s) && !NoCharacterOfThree(s) then 3
    else if StartsFour(s) && !NoCharacterOfFour(s) then 4
    else 0
  }

  lemma {:induction false} LeadBytes(b: Byte)
    ensures ExpectedLen(b) == 1 <==> b <= 0x7F
    ensures ExpectedLen(b) == 2 <==> 0xC0 <= b <= 0xDF
    ensures ExpectedLen(b) == 3 <==> 0xE0 <= b <= 0xEF
    ensures ExpectedLen(b) == 4 <==> 0xF0 <= b <= 0xF7
    ensures IsContinuation(b) <==> Tail(b)
  {
  }

  lemma {:induction false} TwoIsRfc(b0: Byte, b1: Byte)
    requires 0xC0 <= b0 <= 0xDF && Tail(b1)
    ensures var u := Push(FirstBits(b0, 2), b1); EncodedLen(u) == 2 && UnicharIsValid(u) <==> 0xC2 <= b0
  {
  }

  lemma {:induction false} ThreeIsRfc(b0: Byte, b1: Byte, b2: Byte)
    requires 0xE0 <= b0 <= 0xEF && Tail(b1) && Tail(b2)
    ensures var u := Push(Push(FirstBits(b0, 3), b1), b2);
      EncodedLen(u) == 3 && UnicharIsValid(u) <==> StartsThree([b0, b1, b2]) && !NoCharacterOfThree([b0, b1, b2])
  {
  }

  lemma {:induction false} FourIsRfc(b0: Byte, b1: Byte, b2: Byte, b3: Byte)
    requires 0xF0 <= b0 <= 0xF7 && Tail(b1) && Tail(b2) && Tail(b3)
    ensures var u := Push(Push(Push(FirstBits(b0, 4), b1), b2), b3);
      EncodedLen(u) == 4 && UnicharIsValid(u) <==> StartsFour([b0, b1, b2, b3]) && !NoCharacterOfFour([b0, b1, b2, b3])
  {
  }

  lemma {:induction false} LongIsNotValid(s: seq<Byte>)
    requires s != [] && (ExpectedLen(s[0]) == 0 || ExpectedLen(s[0]) >= 5)
    ensures ValidLen(s) == 0
  {
    hide PushAll, FirstBits, UnicharIsValid, Decode;
    if Decode(s).Some? && EncodedLen(Decode(s).value) >= 5 { LongIsInvalid(Decode(s).value); }
  }

  lemma {:induction false} TwoValid(s: seq<Byte>)
    requires s != [] && ExpectedLen(s[0]) == 2
    ensures ValidLen(s) == if StartsTwo(s) then 2 else 0
  {
    hide ExpectedLen, FirstBits, IsContinuation, Push, UnicharIsValid, EncodedLen, PushAll;
    LeadBytes(s[0]);
    if |s| >= 2 {
      LeadBytes(s[1]);
      Unroll(s, 1, 2, FirstBits(s[0], 2));
      if Tail(s[1]) { TwoIsRfc(s[0], s[1]); }
    }
  }

  lemma {:induction false} ThreeValid(s: seq<Byte>)
    requires s != [] && ExpectedLen(s[0]) == 3
    ensures ValidLen(s) == if StartsThree(s) && !NoCharacterOfThree(s) then 3 else 0
  {
    hide ExpectedLen, FirstBits, IsContinuation, Push, UnicharIsValid, EncodedLen, PushAll;
    LeadBytes(s[0]);
    if |s| >= 3 {
      LeadBytes(s[1]);
      LeadBytes(s[2]);
      Unroll(s, 1, 3, FirstBits(s[0], 3));
      if Tail(s[1]) && Tail(s[2]) { ThreeIsRfc(s[0], s[1], s[2]); }
    }
  }

  lemma {:induction false} FourValid(s: seq<Byte>)
    requires s != [] && ExpectedLen(s[0]) == 4
    ensures ValidLen(s) == if StartsFour(s) && !NoCharacterOfFour(s) then 4 else 0
  {
    hide ExpectedLen, FirstBits, IsContinuation, Push, UnicharIsValid, EncodedLen, PushAll;
    LeadBytes(s[0]);
    if |s| >= 4 {
      LeadBytes(s[1]);
      LeadBytes(s[2]);
      LeadBytes(s[3]);
      Unroll(s, 1, 4, FirstBits(s[0], 4));
      if Tail(s[1]) && Tail(s[2]) && Tail(s[3]) { FourIsRfc(s[0], s[1], s[2], s[3]); }
    }
  }

  /** A string starts with a valid character exactly if it starts with one of RFC
      3629 that is not one of the code points which are no characters. */
  lemma {:induction false} ValidIsRfc(s: seq<Byte>)
    requires s != []
    ensures ValidLen(s) == RfcLen(s)
  {
    LeadBytes(s[0]);
    if ExpectedLen(s[0]) == 2 { TwoValid(s); }
    else if ExpectedLen(s[0]) == 3 { ThreeValid(s); }
    else if ExpectedLen(s[0]) == 4 { FourValid(s); }
    else if ExpectedLen(s[0]) != 1 { LongIsNotValid(s); }
    hide ExpectedLen, Decode, StartsTwo, StartsThree, StartsFour, NoCharacterOfThree, NoCharacterOfFour;
  }

  /** The number that section 3 of RFC 3629 reads off the bytes of a character. */
  function RfcValue(s: seq<Byte>): Unichar
    requires s != [] && RfcLen(s) > 0
  {
    if RfcLen(s) == 1 then s[0] as Unichar
    else if RfcLen(s) == 2 then (s[0] as Unichar - 0xC0) * 0x40 + (s[1] as Unichar - 0x80)
    else if RfcLen(s) == 3 then
      (s[0] as Unichar - 0xE0) * 0x1000 + (s[1] as Unichar - 0x80) * 0x40 + (s[2] as Unichar - 0x80)
    else
      (s[0] as Unichar - 0xF0) * 0x40000 + (s[1] as Unichar - 0x80) * 0x1000 +
      (s[2] as Unichar - 0x80) * 0x40 + (s[3] as Unichar - 0x80)
  }

  lemma {:induction false} TwoValue(b0: Byte, b1: Byte)
    requires 0xC0 <= b0 <= 0xDF && Tail(b1)
    ensures Push(FirstBits(b0, 2), b1) == (b0 as Unichar - 0xC0) * 0x40 + (b1 as Unichar - 0x80)
  {
  }

  lemma {:induction false} ThreeValue(b0: Byte, b1: Byte, b2: Byte)
    requires 0xE0 <= b0 <= 0xEF && Tail(b1) && Tail(b2)
    ensures Push(Push(FirstBits(b0, 3), b1), b2) ==
            (b0 as Unichar - 0xE0) * 0x1000 + (b1 as Unichar - 0x80) * 0x40 + (b2 as Unichar - 0x80)
  {
  }

  lemma {:induction false} FourValue(b0: Byte, b1: Byte, b2: Byte, b3: Byte)
    requires 0xF0 <= b0 <= 0xF7 && Tail(b1) && Tail(b2) && Tail(b3)
    ensures Push(Push(Push(FirstBits(b0, 4), b1), b2), b3) ==
            (b0 as Unichar - 0xF0) * 0x40000 + (b1 as Unichar - 0x80) * 0x1000 +
            (b2 as Unichar - 0x80) * 0x40 + (b3 as Unichar - 0x80)
  {
  }

  /** A valid character decodes to that number. */
  lemma {:induction false} DecodeIsRfc(s: seq<Byte>)
    requires s != [] && ValidLen(s) > 0
    ensures RfcLen(s) > 0 && Decode(s) == Some(RfcValue(s))
  {
    hide ExpectedLen, FirstBits, IsContinuation, Push, PushAll, NoCharacterOfThree, NoCharacterOfFour, ValidLen;
    ValidIsRfc(s);
    LeadBytes(s[0]);
    var n := RfcLen(s);
    if n == 1 {
      OneValue(s);
    } else {
      LeadBytes(s[1]);
      if n >= 3 { LeadBytes(s[2]); }
      if n == 4 { LeadBytes(s[3]); }
      Unroll(s, 1, n, FirstBits(s[0], n));
      if n == 2 { TwoValue(s[0], s[1]); }
      else if n == 3 { ThreeValue(s[0], s[1], s[2]); }
      else { FourValue(s[0], s[1], s[2], s[3]); }
    }
  }

  lemma {:induction false} OneValue(s: seq<Byte>)
    requires s != [] && s[0] <= 0x7F
    ensures Decode(s) == Some(s[0] as Unichar)
  {
  }

  // ----- whole strings -----

  /** Characters of a text: valid, and not NUL. */
  ghost predicate Text(chars: seq<Unichar>) {
    forall i :: 0 <= i < |chars| ==> UnicharIsValid(chars[i]) && chars[i] != 0
  }

  function EncodeAll(chars: seq<Unichar>): seq<Byte> {
    if chars == [] then [] else Encode(chars[0]) + EncodeAll(chars[1..])
  }

  function DecodeAll(s: seq<Byte>): Option<seq<Unichar>> {
    if s == [] then Some([])
    else if ValidLen(s) == 0 then None
    else
      match (Decode(s), DecodeAll(s[ValidLen(s)..]))
      case (Some(g), Some(chars)) => Some([g] + chars)
      case (_, _) => None
  }

  lemma {:induction false} EncodeAllRoundTrip(chars: seq<Unichar>)
    requires Text(chars)
    ensures DecodeAll(EncodeAll(chars)) == Some(chars)
  {
    hide Encode, Decode, ValidLen, UnicharIsValid;
    if chars != [] {
      var rest := EncodeAll(chars[1..]);
      EncodeDecodes(chars[0], rest);
      EncodeAllRoundTrip(chars[1..]);
      assert (Encode(chars[0]) + rest)[|Encode(chars[0])|..] == rest;
      assert [chars[0]] + chars[1..] == chars;
    }
  }

  lemma {:induction false} DecodeAllRoundTrip(s: seq<Byte>)
    requires CString(s) && DecodeAll(s).Some?
    ensures Text(DecodeAll(s).value) && EncodeAll(DecodeAll(s).value) == s
  {
    hide Encode, Decode, ValidLen, UnicharIsValid;
    if s != [] {
      var len := ValidLen(s);
      ValidIsEncoded(s);
      DecodeAllRoundTrip(s[len..]);
      assert DecodeAll(s).value[1..] == DecodeAll(s[len..]).value;
      assert s == s[..len] + s[len..];
    }
  }

  /** A C string decodes exactly if it is the encoding of a text. */
  lemma {:induction false} ValidIffEncoded(s: seq<Byte>)
    requires CString(s)
    ensures DecodeAll(s).Some? <==> exists chars :: Text(chars) && EncodeAll(chars) == s
  {
    if DecodeAll(s).Some? { DecodeAllRoundTrip(s); }
    if chars :| Text(chars) && EncodeAll(chars) == s { EncodeAllRoundTrip(chars); }
  }

  lemma {:induction false} AsciiIsValid(s: seq<Byte>)
    requires forall i :: 0 <= i < |s| ==> s[i] < 0x80
    ensures DecodeAll(s).Some?
  {
    if s != [] {
      AsciiIsValid(s[1..]);
    }
  }

  // ----- escaping -----

  const REPLACEMENT_CHARACTER: seq<Byte> := [0xef, 0xbf, 0xbd]

  function Escape(s: seq<Byte>): (r: seq<Byte>)
    ensures |r| <= 3 * |s|
  {
    if s == [] then []
    else if ValidLen(s) > 0 then s[..ValidLen(s)] + Escape(s[ValidLen(s)..])
    else REPLACEMENT_CHARACTER + Escape(s[1..])
  }

  lemma {:induction false} ReplacementIsEncoded()
    ensures Encode(0xfffd) == REPLACEMENT_CHARACTER && UnicharIsValid(0xfffd)
  {
  }

  /** One more character in front. */
  lemma {:induction false} DecodeAllCons(g: Unichar, rest: seq<Byte>)
    requires UnicharIsValid(g) && DecodeAll(rest).Some?
    ensures DecodeAll(Encode(g) + rest) == Some([g] + DecodeAll(rest).value)
  {
    hide Encode, Decode, ValidLen, UnicharIsValid;
    EncodeDecodes(g, rest);
    assert (Encode(g) + rest)[|Encode(g)|..] == rest;
  }

  /** The escaped string is valid text. */
  lemma {:induction false} EscapeIsValid(s: seq<Byte>)
    requires CString(s)
    ensures DecodeAll(Escape(s)).Some? && CString(Escape(s))
  {
    hide Encode, Decode, ValidLen, UnicharIsValid;
    if s != [] {
      if ValidLen(s) > 0 {
        ValidIsEncoded(s);
        EscapeIsValid(s[ValidLen(s)..]);
        DecodeAllCons(Decode(s).value, Escape(s[ValidLen(s)..]));
      } else {
        ReplacementIsEncoded();
        EscapeIsValid(s[1..]);
        DecodeAllCons(0xfffd, Escape(s[1..]));
      }
    }
  }

  /** Valid text is left alone. */
  lemma {:induction false} EscapeKeepsValid(s: seq<Byte>)
    requires DecodeAll(s).Some?
    ensures Escape(s) == s
  {
    hide Decode, ValidLen;
    if s != [] {
      EscapeKeepsValid(s[ValidLen(s)..]);
      assert s == s[..ValidLen(s)] + s[ValidLen(s)..];
    }
  }

  /** A byte at which no valid character starts is replaced by U+FFFD, and what
      comes after it is escaped from the next byte on. */
  lemma {:induction false} EscapeReplaces(a: seq<Byte>, b: seq<Byte>)
    requires DecodeAll(a).Some? && b != [] && ValidLen(b) == 0
    ensures Escape(a + b) == a + ([0xef, 0xbf, 0xbd] + Escape(b[1..]))
    decreases |a|
  {
    hide Decode, ValidLen;
    if a == [] {
      assert a + b == b;
    } else {
      var n := ValidLen(a);
      LocalValid(a, b);
      assert (a + b)[..n] == a[..n] && (a + b)[n..] == a[n..] + b;
      EscapeReplaces(a[n..], b);
      assert a == a[..n] + a[n..];
      assert a[..n] + (a[n..] + ([0xef, 0xbf, 0xbd] + Escape(b[1..]))) == a + ([0xef, 0xbf, 0xbd] + Escape(b[1..]));
    }
  }

  /** Whether a character is valid does not depend on what follows it. */
  lemma {:induction false} LocalValid(a: seq<Byte>, b: seq<Byte>)
    requires a != [] && ValidLen(a) > 0
    ensures ValidLen(a + b) == ValidLen(a)
  {
    hide ValidLen, Decode;
    ValidIsRfc(a);
    ValidIsRfc(a + b);
  }

  lemma {:induction false} EscapeIsIdempotent(s: seq<Byte>)
    requires CString(s)
    ensures Escape(Escape(s)) == Escape(s)
  {
    EscapeIsValid(s);
    EscapeKeepsValid(Escape(s));
  }

  // ----- the loops -----

  method EncodedToUnichar(s: seq<Byte>) returns (r: Option<Unichar>)
    requires s != []
    ensures r == Decode(s)
  {
    hide ExpectedLen, FirstBits, IsContinuation, Push;
    var len := ExpectedLen(s[0]);
    if len == 0 {
      return None;
    }
    var unichar := FirstBits(s[0], len);
    var i := 1;
    while i < len
      invariant 1 <= i <= len && i <= |s| && PushAll(s, i, len, unichar) == Decode(s)
    {
      if !IsContinuation(At(s, i)) {
        return None;
      }
      HighBits(At(s, i));
      unichar := Push(unichar, At(s, i));
      i := i + 1;
    }
    return Some(unichar);
  }

  lemma {:induction false} HighBits(c: Byte)
    ensures IsContinuation(c) ==> c & 0x80 == 0x80
    ensures ExpectedLen(c) >= 2 ==> c & 0x80 == 0x80
    ensures c == 0 ==> c & 0x80 != 0x80
  {
  }

  lemma {:induction false} LowByteEndsDecoding(s: seq<Byte>, i: nat, k: nat, end: nat, u: Unichar)
    requires i <= k < end && k <= |s| && !IsContinuation(At(s, k))
    ensures PushAll(s, i, end, u) == None
    decreases k - i
  {
    hide IsContinuation, Push;
    if i < k && IsContinuation(At(s, i)) { LowByteEndsDecoding(s, i + 1, k, end, Push(u, At(s, i))); }
  }

  method EncodedValidUnichar(s: seq<Byte>) returns (len: nat)
    requires s != []
    ensures len == ValidLen(s)
  {
    hide ExpectedLen, FirstBits, IsContinuation, Push, UnicharIsValid, EncodedLen;
    var expected := ExpectedLen(s[0]);
    if expected == 0 {
      return 0;
    }
    if expected == 1 {
      return 1;
    }
    HighBits(s[0]);
    // check that the expected bytes are available; NUL ends the check
    var i := 0;
    while i < expected
      invariant i <= expected && i <= |s|
    {
      HighBits(At(s, i));
      if At(s, i) & 0x80 != 0x80 {
        LowByteEndsDecoding(s, 1, i, expected, FirstBits(s[0], expected));
        return 0;
      }
      i := i + 1;
    }
    var u := EncodedToUnichar(s);
    if u == None || EncodedLen(u.value) != expected || !UnicharIsValid(u.value) {
      return 0;
    }
    return expected;
  }

  method IsValid(s: seq<Byte>) returns (valid: bool)
    requires CString(s)
    ensures valid <==> exists chars :: Text(chars) && EncodeAll(chars) == s
  {
    hide Decode, ValidLen;
    var p := 0;
    assert s[0..] == s;
    while p < |s|
      invariant p <= |s| && (DecodeAll(s).Some? <==> DecodeAll(s[p..]).Some?)
    {
      var len := EncodedValidUnichar(s[p..]);
      if len == 0 {
        ValidIffEncoded(s);
        return false;
      }
      ValidIsEncoded(s[p..]);
      assert s[p..][len..] == s[p + len..];
      p := p + len;
    }
    ValidIffEncoded(s);
    return true;
  }

  method EscapeInvalid(s: seq<Byte>) returns (r: seq<Byte>)
    requires CString(s)
    ensures r == Escape(s) && |r| + 1 <= 4 * |s| + 1
  {
    hide ValidLen;
    r := [];
    var p := 0;
    assert s[0..] == s;
    while p < |s|
      invariant p <= |s| && Escape(s) == r + Escape(s[p..])
    {
      var len := EncodedValidUnichar(s[p..]);
      if len > 0 {
        r := r + s[p..][..len];
        assert s[p..][len..] == s[p + len..];
        p := p + len;
      } else {
        r := r + REPLACEMENT_CHARACTER;
        assert s[p..][1..] == s[p + 1..];
        p := p + 1;
      }
    }
  }
}
