/** Streaming SipHash-2-4: a state that is fed byte strings in any chunks. */
module SipHash {
  type Byte = bv8
  type Word = bv64

  const SIZE_RANGE: nat := 0x1_0000_0000_0000_0000

  /** The four internal words. */
  datatype V = V(v0: Word, v1: Word, v2: Word, v3: Word)

  /** The state as a value. */
  datatype Sip = Sip(v: V, padding: Word, inlen: nat)

  function Add(x: Word, y: Word): Word {
    x + y
  }

  function Xor(x: Word, y: Word): Word {
    x ^ y
  }

  function Or(x: Word, y: Word): Word {
    x | y
  }

  function RotateLeft(x: Word, b: nat): Word
    requires b < 64
  {
    (x << b) | (x >> (64 - b))
  }

  function Round(v: V): V {
    var v0 := Add(v.v0, v.v1);
    var v1 := Xor(RotateLeft(v.v1, 13), v0);
    var v0 := RotateLeft(v0, 32);
    var v2 := Add(v.v2, v.v3);
    var v3 := Xor(RotateLeft(v.v3, 16), v2);
    var v0 := Add(v0, v3);
    var v3 := Xor(RotateLeft(v3, 21), v0);
    var v2 := Add(v2, v1);
    var v1 := Xor(RotateLeft(v1, 17), v2);
    V(v0, v1, RotateLeft(v2, 32), v3)
  }

  /** One eight-byte block. */
  function Block(v: V, m: Word): V {
    var w := Round(Round(v.(v3 := Xor(v.v3, m))));
    w.(v0 := Xor(w.v0, m))
  }

  function Shifted(x: Word, k: nat): Word
    requires k < 64
  {
    x << k
  }

  /** A byte at its place in a word. */
  function Placed(b: Byte, i: nat): Word
    requires i < 8
  {
    Shifted(b as Word, 8 * i)
  }

  /** Up to eight bytes as a word, least significant byte first. */
  function LeWord(b: seq<Byte>): Word
    requires |b| <= 8
  {
    if b == [] then 0 else Or(LeWord(b[..|b| - 1]), Placed(b[|b| - 1], |b| - 1))
  }

  function Init(k0: Word, k1: Word): V {
    V(Xor(0x736f6d6570736575, k0), Xor(0x646f72616e646f6d, k1), Xor(0x6c7967656e657261, k0), Xor(0x7465646279746573, k1))
  }

  /** All blocks of a string of whole blocks. */
  function Blocks(v: V, m: seq<Byte>): V
    requires |m| % 8 == 0
  {
    if m == [] then v else Block(Blocks(v, m[..|m| - 8]), LeWord(m[|m| - 8..]))
  }

  /** How many bytes of `m` make up whole blocks. */
  function Whole(m: seq<Byte>): (n: nat)
    ensures n <= |m| < n + 8 && n % 8 == 0
  {
    |m| - |m| % 8
  }

  /** The state of a hash that has been fed `m`: its whole blocks are compressed,
      and the padding holds exactly the last |m| mod 8 bytes. */
  function Absorb(v: V, m: seq<Byte>): Sip {
    Sip(Blocks(v, m[..Whole(m)]), LeWord(m[Whole(m)..]), |m| % SIZE_RANGE)
  }

  function Digest(s: Sip): Word {
    var w := Block(s.v, Or(s.padding, LengthByte(s.inlen)));
    var x := Round(Round(Round(Round(w.(v2 := Xor(w.v2, 0xff))))));
    Xor(Xor(Xor(x.v0, x.v1), x.v2), x.v3)
  }

  /** The length shifted left by 56 bits: only its low byte is left. */
  function LengthByte(n: nat): Word {
    Placed(LowByte(n), 7)
  }

  function LowByte(n: nat): Byte {
    (n % 256) as Byte
  }

  class State {
    var v0: Word
    var v1: Word
    var v2: Word
    var v3: Word
    var padding: Word
    var inlen: nat

    function Words(): V
      reads this
    {
      V(v0, v1, v2, v3)
    }

    function Value(): Sip
      reads this
    {
      Sip(Words(), padding, inlen)
    }

    constructor (k0: Word, k1: Word)
      ensures Value() == Absorb(Init(k0, k1), [])
    {
      v0, v1, v2, v3 := Xor(0x736f6d6570736575, k0), Xor(0x646f72616e646f6d, k1), Xor(0x6c7967656e657261, k0), Xor(0x7465646279746573, k1);
      padding, inlen := 0, 0;
    }

    method SipRound()
      modifies this`v0, this`v1, this`v2, this`v3
      ensures Words() == Round(old(Words()))
    {
      hide Add, Xor, RotateLeft;
      v0 := Add(v0, v1);
      v1 := RotateLeft(v1, 13);
      v1 := Xor(v1, v0);
      v0 := RotateLeft(v0, 32);
      v2 := Add(v2, v3);
      v3 := RotateLeft(v3, 16);
      v3 := Xor(v3, v2);
      v0 := Add(v0, v3);
      v3 := RotateLeft(v3, 21);
      v3 := Xor(v3, v0);
      v2 := Add(v2, v1);
      v1 := RotateLeft(v1, 17);
      v1 := Xor(v1, v2);
      v2 := RotateLeft(v2, 32);
    }

    method CompressBlock(m: Word)
      modifies this`v0, this`v1, this`v2, this`v3
      ensures Words() == Block(old(Words()), m)
    {
      hide Round, Xor;
      v3 := Xor(v3, m);
      SipRound();
      SipRound();
      v0 := Xor(v0, m);
    }

    /** Fills the padding up from the start of the input; tells how many bytes
        it took. `tail` is what the padding held. */
    method FillPadding(input: seq<Byte>, filled: nat, ghost tail: seq<Byte>) returns (i: nat)
      requires |tail| == filled < 8 && padding == LeWord(tail)
      modifies this`padding
      ensures i <= |input| && |tail| + i <= 8 && (i < |input| ==> |tail| + i == 8)
      ensures padding == LeWord(tail + input[..i])
    {
      hide LeWord, Or, Placed;
      var left := filled;
      i := 0;
      assert tail + input[..0] == tail;
      while i < |input| && left < 8
        invariant i <= |input| && left == |tail| + i <= 8
        invariant padding == LeWord(tail + input[..i])
      {
        assert tail + input[..i + 1] == tail + input[..i] + [input[i]];
        LeWordAppend(tail + input[..i], input[i]);
        padding := Or(padding, Placed(input[i], left));
        i := i + 1;
        left := left + 1;
      }
    }

    /** The whole blocks of the input from `i` up to `end`. */
    method CompressWords(input: seq<Byte>, i: nat, end: nat, ghost v: V, ghost m: seq<Byte>)
      requires i <= end <= |input| && (end - i) % 8 == 0 && |m| % 8 == 0 && Words() == Blocks(v, m)
      modifies this`v0, this`v1, this`v2, this`v3
      ensures |m + input[i..end]| % 8 == 0 && Words() == Blocks(v, m + input[i..end])
    {
      hide Block, LeWord, Blocks;
      var j := i;
      ghost var t, words := 0, (end - i) / 8;
      assert m + input[i..i] == m;
      while j < end
        invariant t <= words && j == i + 8 * t
        invariant |m + input[i..j]| % 8 == 0 && Words() == Blocks(v, m + input[i..j])
        decreases end - j
      {
        ghost var b := input[j..j + 8];
        BlocksStep(v, m + input[i..j], b);
        assert m + input[i..j] + b == m + input[i..j + 8];
        CompressBlock(LeWord(input[j..j + 8]));
        j, t := j + 8, t + 1;
      }
    }

    /** Puts the last bytes of the input into the empty padding, from the highest
        place down. */
    method KeepTail(tail: seq<Byte>)
      requires |tail| < 8 && padding == 0
      modifies this`padding
      ensures padding == LeWord(tail)
    {
      hide LeWord, Or, Placed;
      var left := |tail|;
      assert tail[..left] == tail && tail[..0] == [];
      EmptyWord();
      OrZero(LeWord(tail));
      while left > 0
        invariant left <= |tail| && Or(LeWord(tail[..left]), padding) == LeWord(tail)
      {
        left := left - 1;
        assert tail[..left + 1] == tail[..left] + [tail[left]];
        LeWordAppend(tail[..left], tail[left]);
        OrAssociates(LeWord(tail[..left]), Placed(tail[left], left), padding);
        padding := Or(Placed(tail[left], left), padding);
      }
      OrZero(padding);
    }

    /** The input from `i` on, when the padding is empty. */
    method CompressRest(input: seq<Byte>, i: nat, ghost v: V, ghost m: seq<Byte>)
      requires i <= |input| && |m + input[..i]| % 8 == 0 && Words() == Blocks(v, m + input[..i])
      requires padding == 0 && inlen == (|m| + |input|) % SIZE_RANGE
      modifies this
      ensures Value() == Absorb(v, m + input)
    {
      hide Blocks, LeWord;
      LengthMod(|m| + |input|);
      var end := |input| - inlen % 8;
      RestLength(|m|, |input|, i);
      CompressWords(input, i, end, v, m + input[..i]);
      assert m + input[..i] + input[i..end] == m + input[..end];
      assert Whole(m + input) == |m| + end;
      assert (m + input)[..Whole(m + input)] == m + input[..end];
      assert (m + input)[Whole(m + input)..] == input[end..];
      KeepTail(input[end..]);
    }

    /** Feeds the state the bytes of `input`; `m` is what it was fed before. */
    method Compress(input: seq<Byte>, ghost v: V, ghost m: seq<Byte>)
      requires Value() == Absorb(v, m)
      modifies this
      ensures Value() == Absorb(v, m + input)
    {
      hide Blocks, LeWord, Block;
      LengthMod(|m|);
      LengthAdds(|m|, |input|);
      var left := inlen % 8;
      var i := 0;
      inlen := (inlen + |input|) % SIZE_RANGE;
      if left > 0 {
        i := FillPadding(input, left, m[Whole(m)..]);
        if i == |input| && left + i < 8 {
          assert input[..i] == input;
          StaysShort(v, m, input);
          return;
        }
        CompressBlock(padding);
        BlockFilled(v, m, input[..i]);
        padding := 0;
      } else {
        assert m[..Whole(m)] == m && m[Whole(m)..] == [];
        assert m + input[..0] == m;
        EmptyWord();
      }
      CompressRest(input, i, v, m);
    }

    method Finalize() returns (h: Word)
      modifies this`v0, this`v1, this`v2, this`v3
      ensures h == Digest(old(Value()))
    {
      hide Round, Xor, Or, Block, LengthByte;
      CompressBlock(Or(padding, LengthByte(inlen)));
      v2 := Xor(v2, 0xff);
      SipRound();
      SipRound();
      SipRound();
      SipRound();
      h := Xor(Xor(Xor(v0, v1), v2), v3);
    }
  }

  // ----- the whole hash -----

  function Zeros(k: nat): (z: seq<Byte>)
    ensures |z| == k
  {
    seq(k, _ => 0 as Byte)
  }

  /** The message of the SipHash definition: zero bytes up to seven in the last
      block, then the length modulo 256. */
  function Padded(m: seq<Byte>): (p: seq<Byte>)
    ensures |p| % 8 == 0
  {
    m + Zeros(7 - (|m| - Whole(m))) + [LowByte(|m|)]
  }

  /** SipHash-2-4 by its definition: all blocks of the padded message, then the
      finalisation. */
  function Reference(k0: Word, k1: Word, m: seq<Byte>): Word {
    var w := Blocks(Init(k0, k1), Padded(m));
    var x := Round(Round(Round(Round(w.(v2 := Xor(w.v2, 0xff))))));
    Xor(Xor(Xor(x.v0, x.v1), x.v2), x.v3)
  }

  function Concat(chunks: seq<seq<Byte>>): seq<Byte> {
    if chunks == [] then [] else Concat(chunks[..|chunks| - 1]) + chunks[|chunks| - 1]
  }

  lemma {:induction false} LeWordAppend(b: seq<Byte>, x: Byte)
    requires |b| < 8
    ensures LeWord(b + [x]) == Or(LeWord(b), Placed(x, |b|))
  {
    hide Or, Placed;
    assert (b + [x])[..|b|] == b;
  }

  lemma {:induction false} ZeroPlaced(x: Word, i: nat)
    requires i < 8
    ensures Or(x, Placed(0, i)) == x
  {
    assert 0 as Word << (8 * i) == 0;
  }

  lemma {:induction false} ZerosChangeNothing(b: seq<Byte>, k: nat)
    requires |b| + k <= 8
    ensures LeWord(b + Zeros(k)) == LeWord(b)
  {
    hide LeWord, Or, Placed;
    if k == 0 {
      assert b + Zeros(k) == b;
    } else {
      ZerosChangeNothing(b, k - 1);
      assert b + Zeros(k) == b + Zeros(k - 1) + [0];
      LeWordAppend(b + Zeros(k - 1), 0);
      ZeroPlaced(LeWord(b), |b| + k - 1);
    }
  }

  lemma {:induction false} LengthMod256(n: nat)
    ensures (n % SIZE_RANGE) % 256 == n % 256
  {
    assert SIZE_RANGE == 256 * 0x100_0000_0000_0000;
    assert n == (n / SIZE_RANGE) * SIZE_RANGE + n % SIZE_RANGE;
  }

  /** Streaming computes the defined function. */
  lemma {:induction false} DigestIsReference(k0: Word, k1: Word, m: seq<Byte>)
    ensures Digest(Absorb(Init(k0, k1), m)) == Reference(k0, k1, m)
  {
    hide Blocks, Block, Round, LeWord, Or, Xor, Placed, Whole;
    var whole, tail := m[..Whole(m)], m[Whole(m)..];
    var last := tail + Zeros(7 - |tail|) + [LowByte(|m|)];
    assert Padded(m) == whole + last;
    BlocksStep(Init(k0, k1), whole, last);
    LengthMod256(|m|);
    assert LowByte(|m| % SIZE_RANGE) == LowByte(|m|);
    ZerosChangeNothing(tail, 7 - |tail|);
    LeWordAppend(tail + Zeros(7 - |tail|), LowByte(|m|));
    hide LowByte;
  }

  /** Any split of a byte string into chunks, empty ones included, hashes to the
      same digest as the string in one piece. */
  method HashChunks(k0: Word, k1: Word, chunks: seq<seq<Byte>>) returns (h: Word)
    ensures h == Reference(k0, k1, Concat(chunks))
  {
    hide Reference, Digest, Absorb, Init;
    var s := new State(k0, k1);
    ghost var v := Init(k0, k1);
    for i := 0 to |chunks|
      invariant fresh(s) && s.Value() == Absorb(v, Concat(chunks[..i]))
    {
      assert chunks[..i + 1][..i] == chunks[..i];
      s.Compress(chunks[i], v, Concat(chunks[..i]));
    }
    assert chunks[..|chunks|] == chunks;
    DigestIsReference(k0, k1, Concat(chunks));
    h := s.Finalize();
  }

  /** The one-shot function. */
  method Hash(k0: Word, k1: Word, input: seq<Byte>) returns (h: Word)
    ensures h == Reference(k0, k1, input)
  {
    hide Reference, Digest, Absorb, Init;
    var s := new State(k0, k1);
    s.Compress(input, Init(k0, k1), []);
    assert [] + input == input;
    DigestIsReference(k0, k1, input);
    h := s.Finalize();
  }

  lemma {:induction false} RestLength(m: nat, n: nat, i: nat)
    requires i <= n && (m + i) % 8 == 0
    ensures i <= n - (m + n) % 8 && (n - (m + n) % 8 - i) % 8 == 0
    ensures (m + n) - (m + n) % 8 == m + (n - (m + n) % 8)
  {
  }

  lemma {:induction false} LengthAdds(m: nat, n: nat)
    ensures (m % SIZE_RANGE + n) % SIZE_RANGE == (m + n) % SIZE_RANGE
  {
    assert m + n == (m / SIZE_RANGE) * SIZE_RANGE + (m % SIZE_RANGE + n);
  }

  lemma {:induction false} EmptyWord()
    ensures LeWord([]) == 0
  {
  }

  lemma {:induction false} OrZero(x: Word)
    ensures Or(x, 0) == x && Or(0, x) == x
  {
  }

  lemma {:induction false} OrAssociates(x: Word, y: Word, z: Word)
    ensures Or(Or(x, y), z) == Or(x, Or(y, z))
  {
  }

  lemma {:induction false} LengthMod(n: nat)
    ensures (n % SIZE_RANGE) % 8 == n % 8
  {
    assert SIZE_RANGE == 8 * 0x2000_0000_0000_0000;
    assert n == (n / SIZE_RANGE) * SIZE_RANGE + n % SIZE_RANGE;
  }

  lemma {:induction false} BlocksStep(v: V, m: seq<Byte>, b: seq<Byte>)
    requires |m| % 8 == 0 && |b| == 8
    ensures (|m| + |b|) % 8 == 0 && Blocks(v, m + b) == Block(Blocks(v, m), LeWord(b))
  {
    hide Block, LeWord;
    assert (m + b)[..|m|] == m && (m + b)[|m|..] == b;
  }

  lemma {:induction false} StaysShort(v: V, m: seq<Byte>, input: seq<Byte>)
    requires |m| % 8 + |input| < 8
    ensures Whole(m + input) == Whole(m)
    ensures (m + input)[..Whole(m)] == m[..Whole(m)] && (m + input)[Whole(m)..] == m[Whole(m)..] + input
  {
  }

  lemma {:induction false} BlockFilled(v: V, m: seq<Byte>, b: seq<Byte>)
    requires |m| - Whole(m) + |b| == 8
    ensures |m + b| % 8 == 0
    ensures Blocks(v, m + b) == Block(Blocks(v, m[..Whole(m)]), LeWord(m[Whole(m)..] + b))
  {
    hide Block, LeWord, Whole, Blocks;
    var w, t := m[..Whole(m)], m[Whole(m)..];
    BlocksStep(v, w, t + b);
    assert w + (t + b) == m + b;
  }

  // ----- the published answer -----

  /** The distances of the rotations as bits. */
  lemma {:induction false} Distances()
    ensures (13 as bv7) == 13 && ((64 - 13) as bv7) == 51 && (16 as bv7) == 16 && ((64 - 16) as bv7) == 48
    ensures (17 as bv7) == 17 && ((64 - 17) as bv7) == 47 && (21 as bv7) == 21 && ((64 - 21) as bv7) == 43
    ensures (32 as bv7) == 32 && ((64 - 32) as bv7) == 32
  {
  }

  lemma {:induction false} Turn(x: Word)
    ensures RotateLeft(x, 13) == (x << 13) | (x >> 51) && RotateLeft(x, 16) == (x << 16) | (x >> 48)
    ensures RotateLeft(x, 17) == (x << 17) | (x >> 47) && RotateLeft(x, 21) == (x << 21) | (x >> 43)
    ensures RotateLeft(x, 32) == (x << 32) | (x >> 32)
  {
    Distances();
  }

  lemma {:induction false} PaperTurns1()
    ensures RotateLeft(0x6b617f6d656e6665, 13) == 0x2fedacadccccad6c
    ensures RotateLeft(0x7c6d6c6a717c6d7b, 16) == 0x6c6a717c6d7b7c6d
    ensures RotateLeft(0xdfcae7ced8dfcada, 32) == 0xd8dfcadadfcae7ce
    ensures RotateLeft(0x8b86bfb7b3989cb1, 21) == 0xf6f67313963170d7
    ensures RotateLeft(0xf0274b63141367b6, 17) == 0x96c62826cf6de04e
    ensures RotateLeft(0xd8141a2ef2f74892, 32) == 0xf2f74892d8141a2e
  {
    Turn(0x6b617f6d656e6665);
    Turn(0x7c6d6c6a717c6d7b);
    Turn(0xdfcae7ced8dfcada);
    Turn(0x8b86bfb7b3989cb1);
    Turn(0xf0274b63141367b6);
    Turn(0xd8141a2ef2f74892);
    hide RotateLeft;
  }

  lemma {:induction false} PaperRound1()
    ensures Round(V(0x7469686173716475, 0x6b617f6d656e6665, 0x6b7f62616d677361, 0x7c6d6c6a717c6d7b)) ==
            V(0x64668a929363847f, 0x4ed232083d9aa8dc, 0xf2f74892d8141a2e, 0x9290f9810552f4a8)
  {
    hide RotateLeft;
    PaperTurns1();
  }

  lemma {:induction false} PaperTurns2()
    ensures RotateLeft(0x4ed232083d9aa8dc, 13) == 0x464107b3551b89da
    ensures RotateLeft(0x9290f9810552f4a8, 16) == 0xf9810552f4a89290
    ensures RotateLeft(0xb338bc9ad0fe2d5b, 32) == 0xd0fe2d5bb338bc9a
    ensures RotateLeft(0x7c09474129cf9c46, 21) == 0xe82539f388cf8128
    ensures RotateLeft(0xf579bb2985e5a481, 17) == 0x76530bcb4903eaf3
    ensures RotateLeft(0x7b01fd3d634cb357, 32) == 0x634cb3577b01fd3d
  {
    Turn(0x4ed232083d9aa8dc);
    Turn(0x9290f9810552f4a8);
    Turn(0xb338bc9ad0fe2d5b);
    Turn(0x7c09474129cf9c46);
    Turn(0xf579bb2985e5a481);
    Turn(0x7b01fd3d634cb357);
    hide RotateLeft;
  }

  lemma {:induction false} PaperRound2()
    ensures Round(V(0x64668a929363847f, 0x4ed232083d9aa8dc, 0xf2f74892d8141a2e, 0x9290f9810552f4a8)) ==
            V(0x4d07749cdd0858e0, 0x0d52f6f62a4f59a4, 0x634cb3577b01fd3d, 0xa5224d6f55c7d9c8)
  {
    hide RotateLeft;
    PaperTurns2();
  }

  lemma {:induction false} PaperTurns3()
    ensures RotateLeft(0x0d52f6f62a4f59a4, 13) == 0x5edec549eb3481aa
    ensures RotateLeft(0xaa2c40635ecdd0c0, 16) == 0x40635ecdd0c0aa2c
    ensures RotateLeft(0x5754688f0859b384, 32) == 0x0859b3845754688f
    ensures RotateLeft(0x4d1bad77090f67d1, 21) == 0xaee121ecfa29a375
    ensures RotateLeft(0x098aadc6e36d322e, 17) == 0x5b8dc6da645c1315
    ensures RotateLeft(0x1703a181bd3d002b, 32) == 0xbd3d002b1703a181
  {
    Turn(0x0d52f6f62a4f59a4);
    Turn(0xaa2c40635ecdd0c0);
    Turn(0x5754688f0859b384);
    Turn(0x4d1bad77090f67d1);
    Turn(0x098aadc6e36d322e);
    Turn(0x1703a181bd3d002b);
    hide RotateLeft;
  }

  lemma {:induction false} PaperRound3()
    ensures Round(V(0x4a017198de0a59e0, 0x0d52f6f62a4f59a4, 0x634cb3577b01fd3d, 0xaa2c40635ecdd0c0)) ==
            V(0x557560fb6063d060, 0x4c8e675bd961133e, 0xbd3d002b1703a181, 0xfb9441179a4a7315)
  {
    hide RotateLeft;
    PaperTurns3();
  }

  lemma {:induction false} PaperTurns4()
    ensures RotateLeft(0x4c8e675bd961133e, 13) == 0xcceb7b2c2267c991
    ensures RotateLeft(0xfb9441179a4a7315, 16) == 0x41179a4a7315fb94
    ensures RotateLeft(0xa203c85739c4e39e, 32) == 0x39c4e39ea203c857
    ensures RotateLeft(0xf9c6db08c25bef02, 21) == 0x61184b7de05f38db
    ensures RotateLeft(0x6ee8b37b1ba32a0f, 17) == 0x66f63746541eddd1
    ensures RotateLeft(0x27b9f4bdccf13ea5, 32) == 0xccf13ea527b9f4bd
  {
    Turn(0x4c8e675bd961133e);
    Turn(0xfb9441179a4a7315);
    Turn(0xa203c85739c4e39e);
    Turn(0xf9c6db08c25bef02);
    Turn(0x6ee8b37b1ba32a0f);
    Turn(0x27b9f4bdccf13ea5);
    hide RotateLeft;
  }

  lemma {:induction false} PaperRound4()
    ensures Round(V(0x557560fb6063d060, 0x4c8e675bd961133e, 0xbd3d002b1703a181, 0xfb9441179a4a7315)) ==
            V(0x338bbea7645fb759, 0x414fc3fb98efe374, 0xccf13ea527b9f4bd, 0x5293f5da84008f82)
  {
    hide RotateLeft;
    PaperTurns4();
  }

  lemma {:induction false} PaperTurns5()
    ensures RotateLeft(0x414fc3fb98efe374, 13) == 0xf87f731dfc6e8829
    ensures RotateLeft(0x5293f5da84008f82, 16) == 0xf5da84008f825293
    ensures RotateLeft(0x7dd577a70845a1c5, 32) == 0x0845a1c57dd577a7
    ensures RotateLeft(0xea5fb07f2438d157, 21) == 0x0fe4871a2afd4bf6
    ensures RotateLeft(0x85aa04baf42b29ec, 17) == 0x0975e85653d90b54
    ensures RotateLeft(0xa52f393a9fe5adb0, 32) == 0x9fe5adb0a52f393a
  {
    Turn(0x414fc3fb98efe374);
    Turn(0x5293f5da84008f82);
    Turn(0x7dd577a70845a1c5);
    Turn(0xea5fb07f2438d157);
    Turn(0x85aa04baf42b29ec);
    Turn(0xa52f393a9fe5adb0);
    hide RotateLeft;
  }

  lemma {:induction false} PaperRound5()
    ensures Round(V(0x3c85b3ab6f55be51, 0x414fc3fb98efe374, 0xccf13ea527b9f442, 0x5293f5da84008f82)) ==
            V(0xf2a55244a20e48fe, 0xac5ad16ccc3ca6e4, 0x9fe5adb0a52f393a, 0xfd41d55e88f30308)
  {
    hide RotateLeft;
    PaperTurns5();
  }

  lemma {:induction false} PaperTurns6()
    ensures RotateLeft(0xac5ad16ccc3ca6e4, 13) == 0x5a2d998794dc958b
    ensures RotateLeft(0xfd41d55e88f30308, 16) == 0xd55e88f30308fd41
    ensures RotateLeft(0x9f0023b16e4aefe2, 32) == 0x6e4aefe29f0023b1
    ensures RotateLeft(0x48790bfc2d2ac103, 21) == 0x7f85a55820690f21
    ensures RotateLeft(0xc52dba36fa967a69, 17) == 0x746df52cf4d38a5b
    ensures RotateLeft(0x62553d4628b8b6ab, 32) == 0x28b8b6ab62553d46
  {
    Turn(0xac5ad16ccc3ca6e4);
    Turn(0xfd41d55e88f30308);
    Turn(0x9f0023b16e4aefe2);
    Turn(0x48790bfc2d2ac103);
    Turn(0xc52dba36fa967a69);
    Turn(0x62553d4628b8b6ab);
    hide RotateLeft;
  }

  lemma {:induction false} PaperRound6()
    ensures Round(V(0xf2a55244a20e48fe, 0xac5ad16ccc3ca6e4, 0x9fe5adb0a52f393a, 0xfd41d55e88f30308)) ==
            V(0xb6c3fbdecc2ae4b4, 0x1638c86adc6b3cf0, 0x28b8b6ab62553d46, 0xc9465e86ec43eb95)
  {
    hide RotateLeft;
    PaperTurns6();
  }

  lemma {:induction false} PaperTurns7()
    ensures RotateLeft(0x1638c86adc6b3cf0, 13) == 0x190d5b8d679e02c7
    ensures RotateLeft(0xc9465e86ec43eb95, 16) == 0x5e86ec43eb95c946
    ensures RotateLeft(0xccfcc449a89621a4, 32) == 0xa89621a4ccfcc449
    ensures RotateLeft(0xaf79f971a50ce19d, 21) == 0x2e34a19c33b5ef3f
    ensures RotateLeft(0xd5f19fc4cf082363, 17) == 0x3f899e1046c7abe3
    ensures RotateLeft(0xc7f0b4f71da14c3e, 32) == 0x1da14c3ec7f0b4f7
  {
    Turn(0x1638c86adc6b3cf0);
    Turn(0xc9465e86ec43eb95);
    Turn(0xccfcc449a89621a4);
    Turn(0xaf79f971a50ce19d);
    Turn(0xd5f19fc4cf082363);
    Turn(0xc7f0b4f71da14c3e);
    hide RotateLeft;
  }

  lemma {:induction false} PaperRound7()
    ensures Round(V(0xb6c3fbdecc2ae4b4, 0x1638c86adc6b3cf0, 0x28b8b6ab62553d46, 0xc9465e86ec43eb95)) ==
            V(0x58101b167209a5e6, 0xf8792ae75b66e7dd, 0x1da14c3ec7f0b4f7, 0x7624ba8a41bc4ad9)
  {
    hide RotateLeft;
    PaperTurns7();
  }

  lemma {:induction false} PaperTurns8()
    ensures RotateLeft(0xf8792ae75b66e7dd, 13) == 0x255ceb6cdcfbbf0f
    ensures RotateLeft(0x7624ba8a41bc4ad9, 16) == 0xba8a41bc4ad97624
    ensures RotateLeft(0x508945fdcd708dc3, 32) == 0xcd708dc3508945fd
    ensures RotateLeft(0x294c4775437589f4, 21) == 0xeea86eb13e852988
    ensures RotateLeft(0x75d5ae91118b32cc, 17) == 0x5d2223166598ebab
    ensures RotateLeft(0x099bb55a1b38329c, 32) == 0x1b38329c099bb55a
  {
    Turn(0xf8792ae75b66e7dd);
    Turn(0x7624ba8a41bc4ad9);
    Turn(0x508945fdcd708dc3);
    Turn(0x294c4775437589f4);
    Turn(0x75d5ae91118b32cc);
    Turn(0x099bb55a1b38329c);
    hide RotateLeft;
  }

  lemma {:induction false} PaperRound8()
    ensures Round(V(0x58101b167209a5e6, 0xf8792ae75b66e7dd, 0x1da14c3ec7f0b4f7, 0x7624ba8a41bc4ad9)) ==
            V(0xf6bcd53893fecff1, 0x54b9964c7ea0d937, 0x1b38329c099bb55a, 0x1814bb89ad7be679)
  {
    hide RotateLeft;
    PaperTurns8();
  }

  lemma {:induction false} ByteDistances()
    ensures ((8 * 0) as bv7) == 0 && ((8 * 1) as bv7) == 8 && ((8 * 2) as bv7) == 16 && ((8 * 3) as bv7) == 24
    ensures ((8 * 4) as bv7) == 32 && ((8 * 5) as bv7) == 40 && ((8 * 6) as bv7) == 48 && ((8 * 7) as bv7) == 56
  {
  }

  lemma {:induction false} Shifts(x: Word)
    ensures Shifted(x, 0) == x && Shifted(x, 8) == x << 8 && Shifted(x, 16) == x << 16 && Shifted(x, 24) == x << 24
    ensures Shifted(x, 32) == x << 32 && Shifted(x, 40) == x << 40 && Shifted(x, 48) == x << 48 && Shifted(x, 56) == x << 56
  {
    ByteDistances();
  }

  lemma {:induction false} Places(b: Byte)
    ensures Placed(b, 0) == b as Word && Placed(b, 1) == (b as Word) << 8
    ensures Placed(b, 2) == (b as Word) << 16 && Placed(b, 3) == (b as Word) << 24
    ensures Placed(b, 4) == (b as Word) << 32 && Placed(b, 5) == (b as Word) << 40
    ensures Placed(b, 6) == (b as Word) << 48 && Placed(b, 7) == (b as Word) << 56
  {
    hide Shifted;
    Shifts(b as Word);
  }

  /** The bytes up to place `k` put together. */
  lemma {:induction false} Prefix(b: seq<Byte>, k: nat)
    requires k < |b| <= 8
    ensures LeWord(b[..k + 1]) == Or(LeWord(b[..k]), Placed(b[k], k))
  {
    hide Or, Placed;
    LeWordAppend(b[..k], b[k]);
    assert b[..k + 1] == b[..k] + [b[k]];
  }

  function Joined(b0: Byte, b1: Byte, b2: Byte, b3: Byte, b4: Byte, b5: Byte, b6: Byte, b7: Byte): Word {
    var w1 := 0 | (b0 as Word);
    var w2 := w1 | ((b1 as Word) << 8);
    var w3 := w2 | ((b2 as Word) << 16);
    var w4 := w3 | ((b3 as Word) << 24);
    var w5 := w4 | ((b4 as Word) << 32);
    var w6 := w5 | ((b5 as Word) << 40);
    var w7 := w6 | ((b6 as Word) << 48);
    w7 | ((b7 as Word) << 56)
  }

  /** Eight bytes make a word, the first one being the least significant. */
  lemma {:induction false} EightBytes(b: seq<Byte>)
    requires |b| == 8
    ensures LeWord(b) == Joined(b[0], b[1], b[2], b[3], b[4], b[5], b[6], b[7])
  {
    hide Placed, LeWord;
    forall k: nat | k < 8 ensures LeWord(b[..k + 1]) == Or(LeWord(b[..k]), Placed(b[k], k)) {
      Prefix(b, k);
    }
    assert LeWord(b[..0]) == 0 by { EmptyWord(); }
    Places(b[0]);
    Places(b[1]);
    Places(b[2]);
    Places(b[3]);
    Places(b[4]);
    Places(b[5]);
    Places(b[6]);
    Places(b[7]);
    assert b[..8] == b;
  }

  /** The bytes 0, 1, 2 and so on. */
  function Counting(n: nat): (b: seq<Byte>)
    requires n <= 256
    ensures |b| == n
  {
    seq(n, i requires 0 <= i < n => LowByte(i))
  }

  lemma {:induction false} LowBytes()
    ensures LowByte(0) == 0 && LowByte(1) == 1 && LowByte(2) == 2 && LowByte(3) == 3 && LowByte(4) == 4 && LowByte(5) == 5
    ensures LowByte(6) == 6 && LowByte(7) == 7 && LowByte(8) == 8 && LowByte(9) == 9 && LowByte(10) == 10 && LowByte(11) == 11
    ensures LowByte(12) == 12 && LowByte(13) == 13 && LowByte(14) == 14 && LowByte(15) == 15
  {
  }

  lemma {:induction false} PaperWords()
    ensures LeWord(Counting(16)[..8]) == 0x0706050403020100
    ensures LeWord(Counting(16)[8..]) == 0x0f0e0d0c0b0a0908
  {
    hide LeWord, LowByte;
    LowBytes();
    EightBytes(Counting(16)[..8]);
    EightBytes(Counting(16)[8..]);
  }

  /** The two blocks of the padded message. */
  lemma {:induction false} PaperPadded()
    ensures Padded(Counting(15)) == Counting(16) && Counting(16)[..8] + Counting(16)[8..] == Counting(16)
  {
    hide LowByte;
    assert Zeros(0) == [];
  }

  lemma {:induction false} PaperBlocks()
    ensures Block(V(0x7469686173716475, 0x6b617f6d656e6665, 0x6b7f62616d677361, 0x7b6b696e727e6c7b), 0x0706050403020100) ==
            V(0x4a017198de0a59e0, 0x0d52f6f62a4f59a4, 0x634cb3577b01fd3d, 0xa5224d6f55c7d9c8)
    ensures Block(V(0x4a017198de0a59e0, 0x0d52f6f62a4f59a4, 0x634cb3577b01fd3d, 0xa5224d6f55c7d9c8), 0x0f0e0d0c0b0a0908) ==
            V(0x3c85b3ab6f55be51, 0x414fc3fb98efe374, 0xccf13ea527b9f4bd, 0x5293f5da84008f82)
  {
    hide Round;
    PaperRound1();
    PaperRound2();
    PaperRound3();
    PaperRound4();
  }

  lemma {:induction false} PaperFinish()
    ensures var x := Round(Round(Round(Round(V(0x3c85b3ab6f55be51, 0x414fc3fb98efe374, 0xccf13ea527b9f442, 0x5293f5da84008f82)))));
      Xor(Xor(Xor(x.v0, x.v1), x.v2), x.v3) == 0xa129ca6149be45e5
  {
    hide Round;
    PaperRound5();
    PaperRound6();
    PaperRound7();
    PaperRound8();
  }

  /** The answer that the authors of SipHash publish for the key 00 01 .. 0f and the
      message 00 01 .. 0e. */
  lemma {:induction false} PublishedAnswer()
    ensures Reference(LeWord(Counting(16)[..8]), LeWord(Counting(16)[8..]), Counting(15)) == 0xa129ca6149be45e5
  {
    hide LeWord, Counting, Padded, Block, Round, Blocks;
    PaperWords();
    PaperPadded();
    PaperBlocks();
    PaperFinish();
    var v := Init(0x0706050403020100, 0x0f0e0d0c0b0a0908);
    assert v == V(0x7469686173716475, 0x6b617f6d656e6665, 0x6b7f62616d677361, 0x7b6b696e727e6c7b);
    var b0, b1 := Counting(16)[..8], Counting(16)[8..];
    assert Blocks(v, []) == v by { NoBlocks(v); }
    assert [] + b0 == b0;
    BlocksStep(v, [], b0);
    BlocksStep(v, b0, b1);
    assert LeWord(b0) == 0x0706050403020100;
  }

  lemma {:induction false} NoBlocks(v: V)
    ensures Blocks(v, []) == v
  {
  }
}
