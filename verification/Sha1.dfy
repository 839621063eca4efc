/**
 The Secure Hash Algorithm (sha1.c), against FIPS PUB 180-1: the code keeps sixteen words of the message schedule in a
 circle and renames the five registers instead of moving them; the standard has eighty words and moves the registers.
 */
module Sha1 {
  type Octet = bv8
  type Word = bv32

  // ----- FIPS PUB 180-1, sections 3 to 7

  function Rol1(w: Word): Word { (w << 1) | (w >> 31) }
  function Rol5(w: Word): Word { (w << 5) | (w >> 27) }
  function Rol30(w: Word): Word { (w << 30) | (w >> 2) }
  function Rol8(w: Word): Word { (w << 8) | (w >> 24) }
  function Rol24(w: Word): Word { (w << 24) | (w >> 8) }

  function Choice(b: Word, c: Word, d: Word): Word { (b & c) | (!b & d) }
  function Parity(b: Word, c: Word, d: Word): Word { b ^ c ^ d }
  function Majority(b: Word, c: Word, d: Word): Word { (b & c) | (b & d) | (c & d) }

  /** The functions f(t; B, C, D) of section 5. */
  function F(t: nat, b: Word, c: Word, d: Word): Word {
    if t < 20 then Choice(b, c, d)
    else if t < 40 then Parity(b, c, d)
    else if t < 60 then Majority(b, c, d)
    else Parity(b, c, d)
  }

  /** The constants of section 6. */
  function K(t: nat): Word {
    if t < 20 then 0x5A827999 else if t < 40 then 0x6ED9EBA1 else if t < 60 then 0x8F1BBCDC else 0xCA62C1D6
  }

  function Xor4(a: Word, b: Word, c: Word, d: Word): Word { a ^ b ^ c ^ d }

  /** Section 7, steps a and b: the eighty words of the schedule. */
  function W(block: seq<Word>, t: nat): Word
    requires |block| == 16
  {
    if t < 16 then block[t] else Rol1(Xor4(W(block, t - 3), W(block, t - 8), W(block, t - 14), W(block, t - 16)))
  }

  datatype Registers = Registers(a: Word, b: Word, c: Word, d: Word, e: Word)

  function Sum5(a: Word, b: Word, c: Word, d: Word, e: Word): Word { a + b + c + d + e }

  /** Section 7, step d, for one t. */
  function Step(r: Registers, t: nat, w: Word): Registers {
    Registers(Sum5(Rol5(r.a), F(t, r.b, r.c, r.d), r.e, w, K(t)), r.a, Rol30(r.b), r.c, r.d)
  }

  function Rounds(r: Registers, block: seq<Word>, t: nat): Registers
    requires |block| == 16
  {
    if t == 0 then r else Step(Rounds(r, block, t - 1), t - 1, W(block, t - 1))
  }

  function Plus(h: Registers, r: Registers): Registers {
    Registers(h.a + r.a, h.b + r.b, h.c + r.c, h.d + r.d, h.e + r.e)
  }

  function Compress(h: Registers, block: seq<Word>): Registers
    requires |block| == 16
  {
    Plus(h, Rounds(h, block, 80))
  }

  /** A word from its four octets, the most significant first (section 2). */
  function BigEndian(b0: Octet, b1: Octet, b2: Octet, b3: Octet): Word {
    ((b0 as Word) << 24) | ((b1 as Word) << 16) | ((b2 as Word) << 8) | (b3 as Word)
  }

  function Words(s: seq<Octet>): (r: seq<Word>)
    requires |s| == 64
    ensures |r| == 16
  {
    seq(16, i requires 0 <= i < 16 => BigEndian(s[4 * i], s[4 * i + 1], s[4 * i + 2], s[4 * i + 3]))
  }

  const H0 := Registers(0x67452301, 0xEFCDAB89, 0x98BADCFE, 0x10325476, 0xC3D2E1F0)

  /** The registers after whole blocks. */
  function Absorb(s: seq<Octet>): Registers
    requires |s| % 64 == 0
  {
    if s == [] then H0 else Compress(Absorb(s[..|s| - 64]), Words(s[|s| - 64..]))
  }

  function Zeros(n: nat): (s: seq<Octet>)
    ensures |s| == n && forall i :: 0 <= i < n ==> s[i] == 0
  {
    seq(n, _ => 0)
  }

  const TWO32: nat := 0x1_0000_0000
  const TWO64: nat := 0x1_0000_0000_0000_0000

  function OctetOf(n: nat): Octet { (n % 256) as bv8 }

  /** Eight octets of a number, the most significant first. */
  function Long(n: nat): (s: seq<Octet>)
    ensures |s| == 8
  {
    [OctetOf(n / 0x100_0000_0000_0000), OctetOf(n / 0x1_0000_0000_0000), OctetOf(n / 0x100_0000_0000), OctetOf(n / 0x1_0000_0000),
     OctetOf(n / 0x100_0000), OctetOf(n / 0x1_0000), OctetOf(n / 0x100), OctetOf(n)]
  }

  lemma PadLength(n: nat)
    ensures (n + 1 + (119 - n % 64) % 64 + 8) % 64 == 0
  {}

  /** Section 4: the message padded to whole blocks. */
  function Padded(m: seq<Octet>): (s: seq<Octet>)
    ensures |s| % 64 == 0
  {
    PadLength(|m|);
    m + [0x80] + Zeros((119 - |m| % 64) % 64) + Long(8 * |m| % TWO64)
  }

  function Octets(w: Word): (s: seq<Octet>)
    ensures |s| == 4
  {
    [((w >> 24) & 255) as Octet, ((w >> 16) & 255) as Octet, ((w >> 8) & 255) as Octet, (w & 255) as Octet]
  }

  /** The message digest. */
  function Digest(m: seq<Octet>): (s: seq<Octet>)
    ensures |s| == 20
  {
    var h := Absorb(Padded(m));
    Octets(h.a) + Octets(h.b) + Octets(h.c) + Octets(h.d) + Octets(h.e)
  }

  // ----- The macros

  /** A word as a little-endian machine loads it. */
  function LittleEndian(b0: Octet, b1: Octet, b2: Octet, b3: Octet): Word {
    ((b3 as Word) << 24) | ((b2 as Word) << 16) | ((b1 as Word) << 8) | (b0 as Word)
  }

  function Swap(w: Word): Word {
    (Rol24(w) & 0xFF00FF00) | (Rol8(w) & 0x00FF00FF)
  }

  lemma SwapReverses(b0: Octet, b1: Octet, b2: Octet, b3: Octet)
    ensures Swap(LittleEndian(b0, b1, b2, b3)) == BigEndian(b0, b1, b2, b3)
  {}

  function MacroChoice(w: Word, x: Word, y: Word): Word { (w & (x ^ y)) ^ y }
  function MacroMajority(w: Word, x: Word, y: Word): Word { ((w | x) & y) | (w & x) }

  /** The logical functions as the macros R0 to R4 write them. */
  function MacroF(t: nat, w: Word, x: Word, y: Word): Word {
    if t < 20 then MacroChoice(w, x, y)
    else if t < 40 then Parity(w, x, y)
    else if t < 60 then MacroMajority(w, x, y)
    else Parity(w, x, y)
  }

  lemma ChoiceBits(w: Word, x: Word, y: Word)
    ensures (w & (x ^ y)) ^ y == (w & x) | (!w & y)
  {}

  lemma MajorityBits(w: Word, x: Word, y: Word)
    ensures ((w | x) & y) | (w & x) == (w & x) | (w & y) | (x & y)
  {}

  lemma ChoiceSame(w: Word, x: Word, y: Word)
    ensures MacroChoice(w, x, y) == Choice(w, x, y)
  {
    ChoiceBits(w, x, y);
  }

  lemma MajoritySame(w: Word, x: Word, y: Word)
    ensures MacroMajority(w, x, y) == Majority(w, x, y)
  {
    MajorityBits(w, x, y);
  }

  lemma MacroFIsF(t: nat, w: Word, x: Word, y: Word)
    ensures MacroF(t, w, x, y) == F(t, w, x, y)
  {
    hide Choice, Majority, MacroChoice, MacroMajority, Parity;
    ChoiceSame(w, x, y);
    MajoritySame(w, x, y);
  }

  lemma SumOrder(z: Word, f: Word, w: Word, k: Word, v: Word)
    ensures z + (f + w + k + v) == Sum5(v, f, z, w, k)
  {}

  // ----- SHA1Transform

  /**
   The sixteen words of the block before round i: the last words of the schedule, each in the place its number gives
   modulo 16, and the words of the message not yet used as the machine loaded them.
   */
  ghost predicate Circle(s: seq<Word>, ws: seq<Word>, i: nat)
    requires |ws| == 16
  {
    && |s| == 16
    && (forall j {:trigger W(ws, j)} :: 0 <= j < i && i - 16 <= j ==> s[j % 16] == W(ws, j))
    && (forall k :: i <= k < 16 ==> Swap(s[k]) == ws[k])
  }

  lemma CircleFront(s: seq<Word>, ws: seq<Word>, i: nat)
    requires |ws| == 16 && Circle(s, ws, i) && i < 16
    ensures |s| == 16 && W(ws, i) == Swap(s[i])
  {}

  lemma CircleBack(s: seq<Word>, ws: seq<Word>, i: nat)
    requires |ws| == 16 && Circle(s, ws, i) && i >= 16
    ensures |s| == 16 && W(ws, i) == Rol1(Xor4(s[(i + 13) % 16], s[(i + 8) % 16], s[(i + 2) % 16], s[i % 16]))
  {
    hide Rol1, Xor4, Swap;
    assert s[(i - 3) % 16] == W(ws, i - 3);
    assert s[(i - 8) % 16] == W(ws, i - 8);
    assert s[(i - 14) % 16] == W(ws, i - 14);
    assert s[(i - 16) % 16] == W(ws, i - 16);
    assert (i - 3) % 16 == (i + 13) % 16 && (i - 8) % 16 == (i + 8) % 16 && (i - 14) % 16 == (i + 2) % 16 && (i - 16) % 16 == i % 16;
  }

  lemma CircleNext(s: seq<Word>, ws: seq<Word>, i: nat)
    requires |ws| == 16 && Circle(s, ws, i)
    ensures |s| == 16 && Circle(s[i % 16 := W(ws, i)], ws, i + 1)
  {
    hide W, Swap;
    var r := s[i % 16 := W(ws, i)];
    forall j | 0 <= j < i + 1 && i + 1 - 16 <= j ensures r[j % 16] == W(ws, j) {
      if j < i {
        assert j % 16 != i % 16;
        assert s[j % 16] == W(ws, j);
      }
    }
  }

  /** One of the macros R0 to R4; what they do to the registers is a step of the standard with the registers renamed. */
  method Round(block: array<Word>, i: nat, v: Word, w: Word, x: Word, y: Word, z: Word, ghost ws: seq<Word>)
    returns (z': Word, w': Word)
    requires block.Length == 16 && |ws| == 16 && Circle(block[..], ws, i)
    modifies block
    ensures Step(Registers(v, w, x, y, z), i, W(ws, i)) == Registers(z', v, w', x, y)
    ensures Circle(block[..], ws, i + 1)
  {
    hide *;
    CircleNext(block[..], ws, i);
    if i < 16 {
      CircleFront(block[..], ws, i);
      block[i] := Swap(block[i]);
      assert i % 16 == i;
    } else {
      CircleBack(block[..], ws, i);
      block[i % 16] := Rol1(Xor4(block[(i + 13) % 16], block[(i + 8) % 16], block[(i + 2) % 16], block[i % 16]));
    }
    z' := Mixed(z, MacroF(i, w, x, y), block[i % 16], K(i), Rol5(v));
    w' := Rol30(w);
    StepIs(i, v, w, x, y, z, block[i % 16]);
  }

  function Mixed(z: Word, f: Word, w: Word, k: Word, v: Word): Word { z + (f + w + k + v) }

  lemma StepIs(i: nat, v: Word, w: Word, x: Word, y: Word, z: Word, word: Word)
    ensures Step(Registers(v, w, x, y, z), i, word) == Registers(Mixed(z, MacroF(i, w, x, y), word, K(i), Rol5(v)), v, Rol30(w), x, y)
  {
    hide MacroF, F, K, Rol5, Rol30, Sum5, Mixed;
    MacroFIsF(i, w, x, y);
    MixedIsSum(z, MacroF(i, w, x, y), word, K(i), Rol5(v));
  }

  lemma MixedIsSum(z: Word, f: Word, w: Word, k: Word, v: Word)
    ensures Mixed(z, f, w, k, v) == Sum5(v, f, z, w, k)
  {
    SumOrder(z, f, w, k, v);
  }

  lemma NextRound(r: Registers, ws: seq<Word>, t: nat)
    requires |ws| == 16
    ensures Rounds(r, ws, t + 1) == Step(Rounds(r, ws, t), t, W(ws, t))
  {}

  lemma StartCircle(s: seq<Word>, ws: seq<Word>)
    requires |s| == |ws| == 16 && forall k :: 0 <= k < 16 ==> Swap(s[k]) == ws[k]
    ensures Circle(s, ws, 0)
  {}

  /** SHA1Transform; the code has the macros of the loop below written out one after the other. */
  method SHA1Transform(state: Registers, buffer: seq<Octet>) returns (out: Registers)
    requires |buffer| == 64
    ensures out == Compress(state, Words(buffer))
  {
    hide *;
    var block := LoadBlock(buffer);
    ghost var ws := Words(buffer);
    var a, b, c, d, e := state.a, state.b, state.c, state.d, state.e;
    var i := 0;
    NoRounds(state, ws);
    while i < 80
      invariant 0 <= i <= 80 && i % 5 == 0 && Circle(block[..], ws, i)
      invariant Rounds(state, ws, i) == Registers(a, b, c, d, e)
    {
      NextRound(state, ws, i);
      e, b := Round(block, i, a, b, c, d, e, ws);
      NextRound(state, ws, i + 1);
      d, a := Round(block, i + 1, e, a, b, c, d, ws);
      NextRound(state, ws, i + 2);
      c, e := Round(block, i + 2, d, e, a, b, c, ws);
      NextRound(state, ws, i + 3);
      b, d := Round(block, i + 3, c, d, e, a, b, ws);
      NextRound(state, ws, i + 4);
      a, c := Round(block, i + 4, b, c, d, e, a, ws);
      i := i + 5;
    }
    out := Plus(state, Registers(a, b, c, d, e));
    CompressIs(state, ws);
  }

  lemma NoRounds(r: Registers, ws: seq<Word>)
    requires |ws| == 16
    ensures Rounds(r, ws, 0) == r
  {}

  lemma CompressIs(r: Registers, ws: seq<Word>)
    requires |ws| == 16
    ensures Compress(r, ws) == Plus(r, Rounds(r, ws, 80))
  {}

  /** The copy of the buffer, read as words by a little-endian machine. */
  method LoadBlock(buffer: seq<Octet>) returns (block: array<Word>)
    requires |buffer| == 64
    ensures fresh(block) && block.Length == 16 && Circle(block[..], Words(buffer), 0)
  {
    hide LittleEndian, BigEndian, Swap;
    block := new Word[16](i requires 0 <= i < 16 => LittleEndian(buffer[4 * i], buffer[4 * i + 1], buffer[4 * i + 2], buffer[4 * i + 3]));
    forall k | 0 <= k < 16 ensures Swap(block[..][k]) == Words(buffer)[k] {
      SwapReverses(buffer[4 * k], buffer[4 * k + 1], buffer[4 * k + 2], buffer[4 * k + 3]);
    }
    StartCircle(block[..], Words(buffer));
  }

  // ----- Contexts

  /** The bit count of a message, kept in two words. */
  ghost predicate Counts(count0: nat, count1: nat, n: nat) {
    count0 < TWO32 && count1 < TWO32 && count0 + TWO32 * count1 == 8 * n % TWO64
  }

  lemma ModIs(a: nat, q: nat, r: nat)
    requires a == q * 0x1_0000_0000_0000_0000 + r && r < 0x1_0000_0000_0000_0000
    ensures a % 0x1_0000_0000_0000_0000 == r
  {}

  lemma CountsIs(count0: nat, count1: nat, n: nat)
    ensures Counts(count0, count1, n) <==>
              && count0 < 0x1_0000_0000 && count1 < 0x1_0000_0000
              && count0 + 0x1_0000_0000 * count1 == 8 * n % 0x1_0000_0000_0000_0000
  {}

  /** Adding `len` octets to the count: a smaller low word tells of a carry. */
  lemma CountCarries(count0: nat, count1: nat, n: nat, len: nat)
    requires Counts(count0, count1, n) && len < TWO32
    ensures var low := (count0 + len * 8 % TWO32) % TWO32;
            var high := if low < count0 then (count1 + 1) % TWO32 else count1;
            Counts(low, (high + len / 0x2000_0000) % TWO32, n + len)
  {
    CountsIs(count0, count1, n);
    hide Counts;
    var up, x := len / 0x2000_0000, len * 8 % 0x1_0000_0000;
    var low := (count0 + x) % 0x1_0000_0000;
    LowWord(count0, len);
    var high := count1 + (if low < count0 then 1 else 0) + up;
    var q := 8 * n / 0x1_0000_0000_0000_0000;
    assert 8 * (n + len) == q * 0x1_0000_0000_0000_0000 + (low + 0x1_0000_0000 * high);
    HighWord(q, low, high, 8 * (n + len));
    HighCarry(count1, if low < count0 then 1 else 0, up);
    CountsIs(low, high % 0x1_0000_0000, n + len);
  }

  lemma LowWord(count0: nat, len: nat)
    requires count0 < 0x1_0000_0000 && len < 0x1_0000_0000
    ensures var low := (count0 + len * 8 % 0x1_0000_0000) % 0x1_0000_0000;
            count0 + len * 8 == low + 0x1_0000_0000 * ((if low < count0 then 1 else 0) + len / 0x2000_0000)
    ensures len / 0x2000_0000 < 8
  {
    assert len * 8 == len * 8 % 0x1_0000_0000 + 0x1_0000_0000 * (len / 0x2000_0000);
  }

  lemma HighWord(q: nat, low: nat, high: nat, a: nat)
    requires low < 0x1_0000_0000 && high < 0x1_0000_0010 && a == q * 0x1_0000_0000_0000_0000 + (low + 0x1_0000_0000 * high)
    ensures a % 0x1_0000_0000_0000_0000 == low + 0x1_0000_0000 * (high % 0x1_0000_0000)
  {
    if high < 0x1_0000_0000 {
      ModIs(a, q, low + 0x1_0000_0000 * high);
    } else {
      ModIs(a, q + 1, low + 0x1_0000_0000 * (high - 0x1_0000_0000));
    }
  }

  lemma HighCarry(count1: nat, carry: nat, up: nat)
    requires count1 < 0x1_0000_0000 && carry <= 1 && up < 8
    ensures ((if carry == 1 then (count1 + 1) % 0x1_0000_0000 else count1) + up) % 0x1_0000_0000 == (count1 + carry + up) % 0x1_0000_0000
  {}

  lemma CountTells(count0: nat, count1: nat, n: nat)
    requires Counts(count0, count1, n)
    ensures count0 / 8 % 64 == n % 64
  {
    CountsIs(count0, count1, n);
    hide Counts;
    var q := 8 * n / 0x1_0000_0000_0000_0000;
    assert 8 * n == q * 0x1_0000_0000_0000_0000 + (count0 + 0x1_0000_0000 * count1);
    var k := q * 0x80_0000_0000_0000 + count1 * 0x80_0000;
    assert 8 * n == 8 * 64 * k + count0;
    assert n == 64 * k + count0 / 8;
  }

  /** The registers after the first `p` octets of `s`. */
  function AbsorbTo(s: seq<Octet>, p: nat): Registers
    requires p <= |s| && p % 64 == 0
  {
    Absorb(s[..p])
  }

  lemma AbsorbNext(s: seq<Octet>, p: nat)
    requires p % 64 == 0 && p + 64 <= |s|
    ensures AbsorbTo(s, p + 64) == Compress(AbsorbTo(s, p), Words(s[p..p + 64]))
  {
    var t := s[..p + 64];
    assert t[..|t| - 64] == s[..p] && t[|t| - 64..] == s[p..p + 64];
  }

  function WholeBlocks(n: nat): (p: nat)
    ensures p <= n && p % 64 == 0
  {
    n - n % 64
  }

  lemma WholeBlocksIs(n: nat, p: nat)
    requires p <= n < p + 64 && p % 64 == 0
    ensures WholeBlocks(n) == p && n % 64 == n - p
  {}

  /** The state and the buffer of a context that has been given `m`. */
  ghost predicate Holds(state: Registers, rest: seq<Octet>, m: seq<Octet>) {
    state == AbsorbTo(m, WholeBlocks(|m|)) && rest == m[WholeBlocks(|m|)..]
  }

  lemma HeldBefore(state: Registers, rest: seq<Octet>, m: seq<Octet>, data: seq<Octet>)
    requires Holds(state, rest, m)
    ensures |rest| == |m| % 64 && (|m| - |rest|) % 64 == 0 && |rest| < 64
    ensures state == AbsorbTo(m + data, |m| - |rest|) && rest == (m + data)[|m| - |rest|..|m|]
  {
    var p := WholeBlocks(|m|);
    WholeBlocksIs(|m|, p);
    assert (m + data)[..p] == m[..p];
    assert (m + data)[p..|m|] == m[p..];
    hide WholeBlocks;
  }

  lemma HeldAfter(state: Registers, rest: seq<Octet>, m: seq<Octet>, p: nat)
    requires p <= |m| && p % 64 == 0 && |m| - p < 64 && state == AbsorbTo(m, p) && rest == m[p..]
    ensures Holds(state, rest, m) && |m| % 64 == |m| - p
  {
    WholeBlocksIs(|m|, p);
    hide WholeBlocks, AbsorbTo;
  }

  class Context {
    var state: Registers
    var count0: nat
    var count1: nat
    const buffer: array<Octet>
    ghost var m: seq<Octet>   // the message so far

    ghost predicate Valid()
      reads this, buffer
    {
      && buffer.Length == 64
      && Counts(count0, count1, |m|)
      && Holds(state, buffer[..|m| % 64], m)
    }

    /** SHA1Init. */
    constructor ()
      ensures Valid() && m == [] && fresh(buffer)
    {
      state := H0;
      count0, count1 := 0, 0;
      buffer := new Octet[64];
      m := [];
    }

    /**
     SHA1Update, in 32-bit arithmetic. When the bytes in the buffer and the data make up 4 GB or more, `j + len` wraps
     around and all data is copied to the buffer; short of that nothing wraps.
     */
    method Update(data: seq<Octet>)
      requires Valid() && |m| % 64 + |data| < 0x1_0000_0000
      modifies this, buffer
      ensures Valid() && m == old(m) + data
    {
      hide Absorb, Counts, TWO64;
      var len := |data|;
      ghost var n := |m|;
      ghost var m' := m + data;
      CountTells(count0, count1, n);
      CountCarries(count0, count1, n, len);
      var j := count0;
      count0 := (count0 + len * 8 % TWO32) % TWO32;
      if count0 < j {
        count1 := (count1 + 1) % TWO32;
      }
      count1 := (count1 + len / 0x2000_0000) % TWO32;
      j := j / 8 % 64;
      state, j := Feed(state, j, data, m);
      AppendLength(m, data);
      m := m';
    }

    /** The part of SHA1Update that works on the data. */
    method Feed(state0: Registers, j0: nat, data: seq<Octet>, ghost m0: seq<Octet>) returns (state': Registers, j: nat)
      requires buffer.Length == 64 && j0 == |m0| % 64 && Holds(state0, buffer[..j0], m0) && j0 + |data| < 0x1_0000_0000
      modifies buffer
      ensures j <= 64 && Holds(state', buffer[..j], m0 + data) && |m0 + data| % 64 == j
    {
      hide *;
      state', j := state0, j0;
      var i, len := 0, |data|;
      ghost var all := m0 + data;
      HeldBefore(state0, buffer[..j0], m0, data);
      if (j + len) % 0x1_0000_0000 > 63 {
        state', i := FillBlock(state', j, data, m0);
        j := 0;
      }
      Copy(j, data[i..]);
      BufferEnds(buffer[..], j, m0, data, i);
      HeldAfter(state', buffer[..j + (len - i)], all, |m0| + i - j);
      j := j + (len - i);
    }

    /** The case in which the data fills the buffer. */
    method FillBlock(state0: Registers, j: nat, data: seq<Octet>, ghost m0: seq<Octet>) returns (state': Registers, i: nat)
      requires buffer.Length == 64 && j < 64 && j <= |m0| && 63 < j + |data| < 0x1_0000_0000 && (|m0| - j) % 64 == 0
      requires state0 == AbsorbTo(m0 + data, |m0| - j) && buffer[..j] == (m0 + data)[|m0| - j..|m0|]
      modifies buffer
      ensures 0 < i <= |data| < i + 64 && (|m0| + i) % 64 == 0 && state' == AbsorbTo(m0 + data, |m0| + i)
    {
      hide *;
      i := 64 - j;
      Copy(j, data[..i]);
      BlockFilled(buffer[..], j, m0, data, i);
      AbsorbNext(m0 + data, |m0| - j);
      state' := SHA1Transform(state0, buffer[..]);
      state', i := WholeBlocksOf(state', data, i, j, m0);
    }

    /** The loop over the blocks that lie in the data. */
    method WholeBlocksOf(state0: Registers, data: seq<Octet>, i0: nat, ghost j: nat, ghost m0: seq<Octet>) returns (state': Registers, i: nat)
      requires j + |data| < 0x1_0000_0000 && j <= |m0| && (|m0| - j) % 64 == 0
      requires i0 <= |data| && (|m0| + i0) % 64 == 0 && state0 == AbsorbTo(m0 + data, |m0| + i0)
      ensures i0 <= i <= |data| < i + 64 && (|m0| + i) % 64 == 0 && state' == AbsorbTo(m0 + data, |m0| + i)
    {
      hide *;
      state', i := state0, i0;
      NoWrap(|m0|, j, i, |data|);
      while (i + 63) % 0x1_0000_0000 < |data|
        invariant i0 <= i <= |data| && (|m0| + i) % 64 == 0 && state' == AbsorbTo(m0 + data, |m0| + i)
        invariant i + 63 < 0x1_0000_0000
        decreases |data| - i
      {
        AbsorbNext(m0 + data, |m0| + i);
        assert data[i..i + 64] == (m0 + data)[|m0| + i..|m0| + i + 64];
        state' := SHA1Transform(state', data[i..i + 64]);
        i := i + 64;
        NoWrap(|m0|, j, i, |data|);
      }
    }

    /** At the end of a block, within the data, 63 more do not wrap around. */
    lemma NoWrap(n: nat, j: nat, i: nat, len: nat)
      requires j <= n && (n - j) % 64 == 0 && (n + i) % 64 == 0 && i <= len && j + len < 0x1_0000_0000
      ensures i + 63 < 0x1_0000_0000
    {
      assert (j + i) % 64 == 0;
    }

    /** memcpy into the buffer. */
    method Copy(j: nat, s: seq<Octet>)
      requires j + |s| <= buffer.Length
      modifies buffer
      ensures buffer[..j] == old(buffer[..j]) && buffer[j..j + |s|] == s && buffer[j + |s|..] == old(buffer[j + |s|..])
    {
      forall k | 0 <= k < |s| {
        buffer[j + k] := s[k];
      }
    }

    /** SHA1Final. */
    method Final() returns (digest: seq<Octet>)
      requires Valid()
      modifies this, buffer
      ensures digest == Digest(old(m))
    {
      hide Holds, AbsorbTo, Absorb, Counts, Long, Zeros, Octets, Padded;
      ghost var m0 := m;
      var finalcount := FinalCount(count0, count1, |m|);
      Update([0x80]);
      ghost var k := 0;
      NoZeros(m0);
      // count0 & 504 is the number of bits in the unfinished block
      while count0 / 8 % 64 * 8 != 448
        invariant Valid() && m == m0 + [0x80] + Zeros(k) && k <= (119 - |m0| % 64) % 64
        decreases (119 - |m0| % 64) % 64 - k
      {
        CountTells(count0, count1, |m|);
        MoreZeros(m0, k);
        Update([0]);
        k := k + 1;
      }
      CountTells(count0, count1, |m|);
      EnoughZeros(m0, k);
      Update(finalcount);
      PaddedIs(m0);
      AllAbsorbed(state, buffer[..|m| % 64], m);
      digest := Octets(state.a) + Octets(state.b) + Octets(state.c) + Octets(state.d) + Octets(state.e);
    }
  }

  /** The count as octets: the high word first. */
  method FinalCount(count0: nat, count1: nat, ghost n: nat) returns (s: seq<Octet>)
    requires Counts(count0, count1, n)
    ensures s == Long(8 * n % TWO64)
  {
    s := [OctetOf(count1 / 0x100_0000), OctetOf(count1 / 0x1_0000), OctetOf(count1 / 0x100), OctetOf(count1),
          OctetOf(count0 / 0x100_0000), OctetOf(count0 / 0x1_0000), OctetOf(count0 / 0x100), OctetOf(count0)];
    CountOctets(count0, count1);
  }

  function Concat(chunks: seq<seq<Octet>>): seq<Octet> {
    if chunks == [] then [] else Concat(chunks[..|chunks| - 1]) + chunks[|chunks| - 1]
  }

  /** The digest of a message given in pieces is the digest of the whole, however it is cut. */
  method DigestOfPieces(chunks: seq<seq<Octet>>) returns (digest: seq<Octet>)
    requires forall i :: 0 <= i < |chunks| ==> |Concat(chunks[..i])| % 64 + |chunks[i]| < 0x1_0000_0000
    ensures digest == Digest(Concat(chunks))
  {
    hide *;
    var context := new Context();
    var i := 0;
    ConcatNone();
    while i < |chunks|
      invariant 0 <= i <= |chunks| && context.Valid() && context.m == Concat(chunks[..i])
      invariant fresh(context) && fresh(context.buffer)
    {
      ConcatNext(chunks, i);
      context.Update(chunks[i]);
      i := i + 1;
    }
    assert chunks[..i] == chunks;
    digest := context.Final();
  }

  lemma ConcatNone()
    ensures Concat([]) == []
  {}

  lemma ConcatNext(chunks: seq<seq<Octet>>, i: nat)
    requires i < |chunks|
    ensures Concat(chunks[..i + 1]) == Concat(chunks[..i]) + chunks[i]
  {
    assert chunks[..i + 1][..i] == chunks[..i];
  }

  lemma CountOctets(count0: nat, count1: nat)
    requires count0 < 0x1_0000_0000 && count1 < 0x1_0000_0000
    ensures Long(count0 + 0x1_0000_0000 * count1)
         == [OctetOf(count1 / 0x100_0000), OctetOf(count1 / 0x1_0000), OctetOf(count1 / 0x100), OctetOf(count1),
             OctetOf(count0 / 0x100_0000), OctetOf(count0 / 0x1_0000), OctetOf(count0 / 0x100), OctetOf(count0)]
  {
    hide OctetOf;
    HighOctets(count0, count1);
    LowOctets(count0, count1);
  }

  lemma HighOctets(count0: nat, count1: nat)
    requires count0 < 0x1_0000_0000
    ensures var n := count0 + 0x1_0000_0000 * count1;
            && n / 0x100_0000_0000_0000 == count1 / 0x100_0000 && n / 0x1_0000_0000_0000 == count1 / 0x1_0000
            && n / 0x100_0000_0000 == count1 / 0x100 && n / 0x1_0000_0000 == count1
  {}

  lemma LowOctets(count0: nat, count1: nat)
    ensures var n := count0 + 0x1_0000_0000 * count1;
            && OctetOf(n / 0x100_0000) == OctetOf(count0 / 0x100_0000) && OctetOf(n / 0x1_0000) == OctetOf(count0 / 0x1_0000)
            && OctetOf(n / 0x100) == OctetOf(count0 / 0x100) && OctetOf(n) == OctetOf(count0)
  {
    hide OctetOf;
    var n := count0 + 0x1_0000_0000 * count1;
    assert n / 0x100_0000 == count0 / 0x100_0000 + 256 * count1;
    assert n / 0x1_0000 == count0 / 0x1_0000 + 256 * (256 * count1);
    assert n / 0x100 == count0 / 0x100 + 256 * (0x1_0000 * count1);
    OctetWraps(count0 / 0x100_0000, count1);
    OctetWraps(count0 / 0x1_0000, 256 * count1);
    OctetWraps(count0 / 0x100, 0x1_0000 * count1);
    OctetWraps(count0, 0x100_0000 * count1);
  }

  lemma OctetWraps(a: nat, k: nat)
    ensures OctetOf(a + 256 * k) == OctetOf(a)
  {
    assert (a + 256 * k) % 256 == a % 256;
  }

  lemma NoZeros(m: seq<Octet>)
    ensures m + [0x80] == m + [0x80] + Zeros(0)
  {}

  lemma MoreZeros(m: seq<Octet>, k: nat)
    requires |m + [0x80] + Zeros(k)| % 64 * 8 != 448 && k <= (119 - |m| % 64) % 64
    ensures m + [0x80] + Zeros(k) + [0] == m + [0x80] + Zeros(k + 1) && k + 1 <= (119 - |m| % 64) % 64
  {
    assert |m + [0x80] + Zeros(k)| == |m| + 1 + k;
    assert Zeros(k) + [0] == Zeros(k + 1);
  }

  lemma EnoughZeros(m: seq<Octet>, k: nat)
    requires |m + [0x80] + Zeros(k)| % 64 * 8 == 448 && k <= (119 - |m| % 64) % 64
    ensures k == (119 - |m| % 64) % 64
  {
    assert |m + [0x80] + Zeros(k)| == |m| + 1 + k;
  }

  lemma PaddedIs(m: seq<Octet>)
    ensures Padded(m) == m + [0x80] + Zeros((119 - |m| % 64) % 64) + Long(8 * |m| % TWO64)
  {}

  lemma AllAbsorbed(state: Registers, rest: seq<Octet>, m: seq<Octet>)
    requires Holds(state, rest, m) && |m| % 64 == 0
    ensures state == Absorb(m)
  {
    assert m[..WholeBlocks(|m|)] == m;
  }

  lemma AppendLength(m: seq<Octet>, data: seq<Octet>)
    ensures |m + data| == |m| + |data|
  {}

  lemma BlockFilled(b: seq<Octet>, j: nat, m0: seq<Octet>, data: seq<Octet>, i: nat)
    requires |b| == 64 && j + i == 64 && j <= |m0| && i <= |data|
    requires b[..j] == (m0 + data)[|m0| - j..|m0|] && b[j..] == data[..i]
    ensures b == (m0 + data)[|m0| - j..|m0| - j + 64]
  {
    assert b == b[..j] + b[j..];
  }

  lemma BufferEnds(b: seq<Octet>, j: nat, m0: seq<Octet>, data: seq<Octet>, i: nat)
    requires i <= |data| && j + (|data| - i) <= |b| && (j <= |m0| + i)
    requires b[j..j + (|data| - i)] == data[i..]
    requires if i == 0 then j <= |m0| && b[..j] == (m0 + data)[|m0| - j..|m0|] else j == 0
    ensures b[..j + (|data| - i)] == (m0 + data)[|m0| + i - j..]
  {
    assert b[..j + (|data| - i)] == b[..j] + data[i..];
  }
}