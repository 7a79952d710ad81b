/**
  The Keccak sponge loop against the sponge construction of section 4 of FIPS 202 with the padding of
  section 5.1. The permutation is a parameter, as an arbitrary function on 200 bytes.
 */
module Keccak {
  import opened Wrappers

  type Byte = bv8

  const WIDTH := 200

  /** A permutation of the state; only its width matters here. */
  type Permutation = seq<Byte> -> seq<Byte>

  ghost predicate KeepsWidth(f: Permutation) {
    forall s :: |s| == WIDTH ==> |f(s)| == WIDTH
  }

  // ----- the sponge construction

  function Xor(x: Byte, y: Byte): Byte {
    x ^ y
  }

  lemma XorOne(x: Byte, d: Byte)
    ensures Xor(x, 0) == x && Xor(Xor(x, d), 0x80) == Xor(x, Xor(d, 0x80))
  {
  }

  /** S xor (B || 0...). */
  function XorInto(s: seq<Byte>, b: seq<Byte>): (r: seq<Byte>)
    requires |b| <= |s|
    ensures |r| == |s|
  {
    seq(|s|, i requires 0 <= i < |s| => if i < |b| then Xor(s[i], b[i]) else s[i])
  }

  function Zeros(n: nat): (z: seq<Byte>)
    ensures |z| == n && forall i :: 0 <= i < n ==> z[i] == 0
  {
    seq(n, _ => 0)
  }

  /** Absorbing whole blocks of r bytes. */
  function Absorb(f: Permutation, r: nat, s: seq<Byte>, p: seq<Byte>): (t: seq<Byte>)
    requires KeepsWidth(f) && 0 < r <= WIDTH == |s| && |p| % r == 0
    ensures |t| == WIDTH
    decreases |p|
  {
    if p == [] then s
    else
      BlockDrop(p, r);
      Absorb(f, r, f(XorInto(s, p[..r])), p[r..])
  }

  lemma BlockDrop(p: seq<Byte>, r: nat)
    requires 0 < r && p != [] && |p| % r == 0
    ensures |p| >= r && |p[r..]| % r == 0
  {
    ModSubtract(|p|, r);
  }

  lemma ModSubtract(n: int, r: int)
    requires r > 0
    ensures (n - r) % r == n % r
  {
    assert n == r * (n / r) + n % r;
    assert n - r == r * (n / r - 1) + n % r;
    ModIs(n - r, r, n / r - 1, n % r);
  }

  lemma ModIs(x: int, d: int, q: int, m: int)
    requires d > 0 && 0 <= m < d && x == d * q + m
    ensures x % d == m
  {
    var e := x / d - q;
    assert d * e == m - x % d;
    assert -d < d * e < d;
  }

  function Squeeze(f: Permutation, r: nat, s: seq<Byte>, n: nat): (z: seq<Byte>)
    requires KeepsWidth(f) && 0 < r <= WIDTH == |s|
    ensures |z| == n
    decreases n
  {
    if n <= r then s[..n] else s[..r] + Squeeze(f, r, f(s), n - r)
  }

  /** What follows a message whose last block holds j bytes: the suffix byte, which carries the first bit of
      the padding, and the last bit of the padding at the end of a block. */
  function PadBytes(j: nat, d: Byte, r: nat): seq<Byte>
    requires j < r
  {
    if j < r - 1 then [d] + Zeros(r - 2 - j) + [0x80]
    else if d & 0x80 != 0 then [d] + Zeros(r - 1) + [0x80]
    else [Xor(d, 0x80)]
  }

  lemma PaddedLength(n: nat, d: Byte, r: nat)
    requires 0 < r
    ensures (n + |PadBytes(n % r, d, r)|) % r == 0
  {
    var j, q := n % r, n / r;
    assert n == r * q + j;
    if j == r - 1 && d & 0x80 != 0 {
      assert n + |PadBytes(j, d, r)| == r * (q + 2);
      ModIs(n + |PadBytes(j, d, r)|, r, q + 2, 0);
    } else {
      assert n + |PadBytes(j, d, r)| == r * (q + 1);
      ModIs(n + |PadBytes(j, d, r)|, r, q + 1, 0);
    }
  }

  /** sponge[f, pad, r] of the message m with suffix byte d, truncated to n bytes. */
  function Sponge(f: Permutation, r: nat, m: seq<Byte>, d: Byte, n: nat): seq<Byte>
    requires KeepsWidth(f) && 0 < r <= WIDTH
  {
    PaddedLength(|m|, d, r);
    Squeeze(f, r, Absorb(f, r, Zeros(WIDTH), m + PadBytes(|m| % r, d, r)), n)
  }

  // ----- the padding is that of the standard

  /** The bits of a byte, least significant first. */
  function Bits(b: Byte): (s: seq<bool>)
    ensures |s| == 8
  {
    [b & 0x01 != 0, b & 0x02 != 0, b & 0x04 != 0, b & 0x08 != 0, b & 0x10 != 0, b & 0x20 != 0, b & 0x40 != 0, b & 0x80 != 0]
  }

  function AllBits(s: seq<Byte>): (t: seq<bool>)
    ensures |t| == 8 * |s|
  {
    if s == [] then [] else Bits(s[0]) + AllBits(s[1..])
  }

  lemma {:induction false} AllBitsConcat(s: seq<Byte>, t: seq<Byte>)
    ensures AllBits(s + t) == AllBits(s) + AllBits(t)
  {
    if s == [] {
      assert s + t == t;
    } else {
      assert (s + t)[1..] == s[1..] + t;
      AllBitsConcat(s[1..], t);
    }
  }

  function ZeroBits(n: nat): (z: seq<bool>)
    ensures |z| == n && forall i :: 0 <= i < n ==> !z[i]
  {
    seq(n, _ => false)
  }

  lemma {:induction false} AllBitsZeros(n: nat)
    ensures AllBits(Zeros(n)) == ZeroBits(8 * n)
  {
    if n > 0 {
      assert Zeros(n) == [0] + Zeros(n - 1);
      AllBitsZeros(n - 1);
      assert Bits(0) == ZeroBits(8);
      assert ZeroBits(8) + ZeroBits(8 * (n - 1)) == ZeroBits(8 * n);
    }
  }

  /** The number of suffix bits below the delimiter bit, the highest one set. */
  function SuffixLength(d: Byte): (n: nat)
    requires d != 0
    ensures n < 8
  {
    if d & 0x80 != 0 then 7 else if d & 0x40 != 0 then 6 else if d & 0x20 != 0 then 5 else if d & 0x10 != 0 then 4
    else if d & 0x08 != 0 then 3 else if d & 0x04 != 0 then 2 else if d & 0x02 != 0 then 1 else 0
  }

  function SuffixBits(d: Byte): (s: seq<bool>)
    requires d != 0
    ensures |s| == SuffixLength(d)
  {
    Bits(d)[..SuffixLength(d)]
  }

  lemma TopSuffix(d: Byte)
    requires d != 0
    ensures SuffixLength(d) == 7 <==> d & 0x80 != 0
  {
  }

  lemma DelimitedBits(d: Byte)
    requires d != 0
    ensures Bits(d) == SuffixBits(d) + [true] + ZeroBits(7 - SuffixLength(d))
  {
    var n, b := SuffixLength(d), Bits(d);
    assert d != 0 && d & 0xfe == 0 ==> d & 0x01 != 0;
    assert b[n];
    assert forall i :: n < i < 8 ==> !b[i];
  }

  /** pad10*1(x, m) of section 5.1: a one, j zeros and a one, j being (-m - 2) mod x. */
  function Pad101(x: nat, m: nat): seq<bool>
    requires x > 0
  {
    [true] + ZeroBits((-(m as int) - 2) % x) + [true]
  }

  lemma TopBit(d: Byte)
    requires d & 0x80 == 0
    ensures Bits(Xor(d, 0x80)) == Bits(d)[..7] + [true] && !Bits(d)[7]
    ensures Bits(0x80) == ZeroBits(7) + [true]
  {
    var e := Xor(d, 0x80);
    assert e & 0x01 == d & 0x01 && e & 0x02 == d & 0x02 && e & 0x04 == d & 0x04 && e & 0x08 == d & 0x08;
    assert e & 0x10 == d & 0x10 && e & 0x20 == d & 0x20 && e & 0x40 == d & 0x40 && e & 0x80 != 0;
    assert Bits(e) == Bits(d)[..7] + [true];
  }

  lemma AllBitsOne(b: Byte)
    ensures AllBits([b]) == Bits(b)
  {
    assert [b][1..] == [] && AllBits([]) == [];
  }

  lemma GlueZeros(suffix: seq<bool>, x: nat, y: nat, z: nat)
    ensures suffix + [true] + ZeroBits(x) + ZeroBits(y) + (ZeroBits(z) + [true]) ==
            suffix + ([true] + ZeroBits(x + y + z) + [true])
  {
    assert ZeroBits(x) + ZeroBits(y) + ZeroBits(z) == ZeroBits(x + y + z);
  }

  /** The number of zeros between the two ones of the padding after j bytes of a block and n suffix bits. */
  function PadZeros(j: nat, n: nat, r: nat): (z: nat)
    requires j < r && n < 8
  {
    if j == r - 1 && n == 7 then 8 * r - 1 else 8 * (r - j) - n - 2
  }

  lemma PadBitsFarEnd(d: Byte, k: nat, z: nat)
    requires d != 0 && z == 7 - SuffixLength(d) + 8 * k + 7
    ensures AllBits([d] + Zeros(k) + [0x80]) == SuffixBits(d) + ([true] + ZeroBits(z) + [true])
  {
    hide Bits, AllBits, SuffixBits, SuffixLength, Zeros, ZeroBits;
    DelimitedBits(d);
    TopBit(0);
    AllBitsConcat([d] + Zeros(k), [0x80]);
    AllBitsConcat([d], Zeros(k));
    AllBitsOne(d);
    AllBitsOne(0x80);
    AllBitsZeros(k);
    GlueZeros(SuffixBits(d), 7 - SuffixLength(d), 8 * k, 7);
  }

  lemma PadBitsSameByte(d: Byte)
    requires d != 0 && d & 0x80 == 0
    ensures SuffixLength(d) < 7
    ensures AllBits([Xor(d, 0x80)]) == SuffixBits(d) + ([true] + ZeroBits(6 - SuffixLength(d)) + [true])
  {
    hide Bits, AllBits, SuffixBits, SuffixLength, ZeroBits;
    var n := SuffixLength(d);
    TopSuffix(d);
    DelimitedBits(d);
    TopBit(d);
    AllBitsOne(Xor(d, 0x80));
    assert |SuffixBits(d)| == n;
    assert Bits(d)[..7] == SuffixBits(d) + [true] + ZeroBits(6 - n);
  }

  /** The bits of the padding bytes: the suffix bits, a one, zeros and a one. */
  lemma PadBits(j: nat, d: Byte, r: nat)
    requires j < r && d != 0
    ensures AllBits(PadBytes(j, d, r)) ==
            SuffixBits(d) + ([true] + ZeroBits(PadZeros(j, SuffixLength(d), r)) + [true])
  {
    hide Bits, AllBits, SuffixBits, SuffixLength, ZeroBits, Zeros;
    var n := SuffixLength(d);
    TopSuffix(d);
    if j < r - 1 {
      PadBitsFarEnd(d, r - 2 - j, PadZeros(j, n, r));
    } else if d & 0x80 != 0 {
      PadBitsFarEnd(d, r - 1, PadZeros(j, n, r));
    } else {
      PadBitsSameByte(d);
    }
  }

  lemma Pad101Zeros(m: nat, n: nat, r: nat)
    requires 0 < r && n < 8
    ensures Pad101(8 * r, 8 * m + n) == [true] + ZeroBits(PadZeros(m % r, n, r)) + [true]
  {
    var j, q := m % r, m / r;
    var z := PadZeros(j, n, r);
    assert m == r * q + j;
    var x := -(8 * m + n) - 2;
    if j == r - 1 && n == 7 {
      assert x == (8 * r) * (-q - 2) + z;
      ModIs(x, 8 * r, -q - 2, z);
    } else {
      assert x == (8 * r) * (-q - 1) + z;
      ModIs(x, 8 * r, -q - 1, z);
    }
  }

  lemma PadBytesArePad101(m: nat, j: nat, d: Byte, r: nat)
    requires 0 < r && d != 0 && j == m % r
    ensures AllBits(PadBytes(j, d, r)) == SuffixBits(d) + Pad101(8 * r, 8 * m + |SuffixBits(d)|)
  {
    hide Bits, AllBits, SuffixLength, SuffixBits, ZeroBits, PadBytes, PadZeros, Pad101;
    PadBits(j, d, r);
    Pad101Zeros(m, SuffixLength(d), r);
  }

  /** The padded message is, bit for bit, the message, the suffix bits and pad10*1 of section 5.1. */
  lemma PaddingIsPad101(m: seq<Byte>, d: Byte, r: nat)
    requires 0 < r && d != 0
    ensures AllBits(m + PadBytes(|m| % r, d, r)) ==
            AllBits(m) + (SuffixBits(d) + Pad101(8 * r, 8 * |m| + |SuffixBits(d)|))
  {
    hide *;
    AllBitsConcat(m, PadBytes(|m| % r, d, r));
    PadBytesArePad101(|m|, |m| % r, d, r);
  }

  // ----- the loop

  lemma {:induction false} AbsorbConcat(f: Permutation, r: nat, s: seq<Byte>, p: seq<Byte>, q: seq<Byte>)
    requires KeepsWidth(f) && 0 < r <= WIDTH == |s| && |p| % r == 0 && |q| % r == 0
    ensures |p + q| % r == 0
    ensures Absorb(f, r, s, p + q) == Absorb(f, r, Absorb(f, r, s, p), q)
    decreases |p|
  {
    if p == [] {
      assert p + q == q;
    } else {
      BlockDrop(p, r);
      AbsorbConcat(f, r, f(XorInto(s, p[..r])), p[r..], q);
      assert (p + q)[..r] == p[..r] && (p + q)[r..] == p[r..] + q;
      ModSubtract(|p + q|, r);
    }
  }

  /** KeccakF1600_StatePermute() */
  method Permute(f: Permutation, state: array<Byte>)
    requires KeepsWidth(f) && state.Length == WIDTH
    modifies state
    ensures state[..] == f(old(state[..]))
  {
    var t := f(state[..]);
    for i := 0 to WIDTH
      invariant state[..i] == t[..i]
    {
      state[i] := t[i];
    }
  }

  /** Xors block into the beginning of the state. */
  method XorBlock(state: array<Byte>, block: seq<Byte>)
    requires |block| <= state.Length
    modifies state
    ensures state[..] == XorInto(old(state[..]), block)
  {
    for i := 0 to |block|
      invariant forall k :: 0 <= k < i ==> state[k] == Xor(old(state[k]), block[k])
      invariant forall k :: i <= k < state.Length ==> state[k] == old(state[k])
    {
      state[i] := Xor(state[i], block[i]);
    }
  }

  /** The bytes of m before its last, incomplete block. */
  function Whole(m: seq<Byte>, r: nat): (w: seq<Byte>)
    requires 0 < r
    ensures |w| % r == 0 && w <= m && |m| - |w| == |m| % r
  {
    assert |m| == r * (|m| / r) + |m| % r;
    ModIs(|m| - |m| % r, r, |m| / r, 0);
    m[..|m| - |m| % r]
  }

  /** Absorbs all of the input: whole blocks are permuted, the rest is only xored in. */
  method AbsorbInput(f: Permutation, r: nat, input: seq<Byte>, state: array<Byte>) returns (blockSize: nat)
    requires KeepsWidth(f) && 0 < r <= WIDTH == state.Length && state[..] == Zeros(WIDTH)
    modifies state
    ensures blockSize == |input| % r
    ensures state[..] == XorInto(Absorb(f, r, Zeros(WIDTH), Whole(input, r)), input[|Whole(input, r)|..])
  {
    hide XorInto, Absorb;
    blockSize := 0;
    var pos := 0;
    AbsorbNothing(f, r, Zeros(WIDTH));
    assert input[..0] == [];
    ModIs(0, r, 0, 0);
    while pos < |input|
      invariant 0 <= pos <= |input| && pos % r == 0 && blockSize == 0
      invariant state[..] == Absorb(f, r, Zeros(WIDTH), input[..pos])
    {
      blockSize := if |input| - pos < r then |input| - pos else r;
      XorBlock(state, input[pos..pos + blockSize]);
      if blockSize < r {
        LastBlock(input, r, pos);
        pos := |input|;
        return;
      }
      assert input[..pos + r] == input[..pos] + input[pos..pos + r];
      OneBlock(f, r, Absorb(f, r, Zeros(WIDTH), input[..pos]), input[pos..pos + r]);
      AbsorbConcat(f, r, Zeros(WIDTH), input[..pos], input[pos..pos + r]);
      Permute(f, state);
      pos := pos + r;
      blockSize := 0;
    }
    assert input[..pos] == input;
    XorNothing(state[..]);
    assert Whole(input, r) == input && input[|input|..] == [];
  }

  lemma AbsorbNothing(f: Permutation, r: nat, s: seq<Byte>)
    requires KeepsWidth(f) && 0 < r <= WIDTH == |s|
    ensures 0 % r == 0 && Absorb(f, r, s, []) == s
  {
  }

  lemma XorNothing(s: seq<Byte>)
    ensures XorInto(s, []) == s
  {
  }

  lemma OneBlock(f: Permutation, r: nat, s: seq<Byte>, b: seq<Byte>)
    requires KeepsWidth(f) && 0 < r <= WIDTH == |s| && |b| == r
    ensures |b| % r == 0 && Absorb(f, r, s, b) == f(XorInto(s, b))
  {
    ModIs(r, r, 1, 0);
    assert b[..r] == b && b[r..] == [];
  }

  lemma LastBlock(m: seq<Byte>, r: nat, pos: nat)
    requires 0 < r && pos <= |m| && pos % r == 0 && |m| - pos < r
    ensures |m| % r == |m| - pos && Whole(m, r) == m[..pos] && m[|Whole(m, r)|..] == m[pos..]
    ensures m[pos..pos + (|m| - pos)] == m[pos..]
  {
    assert |m| == r * (pos / r) + (|m| - pos);
    ModIs(|m|, r, pos / r, |m| - pos);
  }

  /** Xoring one more byte at the end of a block. */
  lemma XorNext(s: seq<Byte>, b: seq<Byte>, d: Byte)
    requires |b| < |s|
    ensures XorInto(s, b)[|b| := Xor(XorInto(s, b)[|b|], d)] == XorInto(s, b + [d])
  {
  }

  /** Zeros up to the last byte of the block, which is xored with e. */
  lemma XorFar(s: seq<Byte>, b: seq<Byte>, k: nat, e: Byte)
    requires |b| + k < |s|
    ensures XorInto(s, b)[|b| + k := Xor(XorInto(s, b)[|b| + k], e)] == XorInto(s, b + Zeros(k) + [e])
  {
    hide Zeros, Xor;
    var c := b + Zeros(k) + [e];
    var t := XorInto(s, b)[|b| + k := Xor(XorInto(s, b)[|b| + k], e)];
    forall i | 0 <= i < |s| ensures t[i] == XorInto(s, c)[i] {
      XorOne(s[i], e);
    }
  }

  lemma XorTwice(s: seq<Byte>, b: seq<Byte>, d: Byte)
    requires |b| < |s|
    ensures var t := XorInto(s, b + [d]);
            t[|b| := Xor(t[|b|], 0x80)] == XorInto(s, b + [Xor(d, 0x80)])
  {
    hide Xor;
    XorOne(s[|b|], d);
    var t := XorInto(s, b + [d]);
    assert t[|b| := Xor(t[|b|], 0x80)] == XorInto(s, b + [Xor(d, 0x80)]);
  }

  lemma XorSameBlock(s: seq<Byte>, tail: seq<Byte>, d: Byte, r: nat)
    requires |tail| < r <= |s| && !(d & 0x80 != 0 && |tail| == r - 1)
    ensures |tail + PadBytes(|tail|, d, r)| == r
    ensures var t := XorInto(s, tail + [d]);
            t[r - 1 := Xor(t[r - 1], 0x80)] == XorInto(s, tail + PadBytes(|tail|, d, r))
  {
    hide XorInto, Zeros, Xor;
    if |tail| == r - 1 {
      XorTwice(s, tail, d);
    } else {
      var k := r - 2 - |tail|;
      XorFar(s, tail + [d], k, 0x80);
      assert tail + [d] + Zeros(k) + [0x80] == tail + ([d] + Zeros(k) + [0x80]);
    }
  }

  lemma TwoBlocks(f: Permutation, r: nat, s: seq<Byte>, b: seq<Byte>, c: seq<Byte>)
    requires KeepsWidth(f) && 0 < r <= WIDTH == |s| && |b| == r == |c|
    ensures |b + c| % r == 0 && Absorb(f, r, s, b + c) == f(XorInto(f(XorInto(s, b)), c))
  {
    hide XorInto, Absorb;
    OneBlock(f, r, s, b);
    OneBlock(f, r, f(XorInto(s, b)), c);
    AbsorbConcat(f, r, s, b, c);
  }

  /** Adds the suffix byte and the last bit of the padding and permutes. */
  method PadAndPermute(f: Permutation, r: nat, d: Byte, state: array<Byte>, blockSize: nat, ghost s: seq<Byte>, ghost tail: seq<Byte>)
    requires KeepsWidth(f) && 0 < r <= WIDTH == state.Length == |s| && blockSize == |tail| < r
    requires state[..] == XorInto(s, tail)
    modifies state
    ensures |tail + PadBytes(blockSize, d, r)| % r == 0
    ensures state[..] == Absorb(f, r, s, tail + PadBytes(blockSize, d, r))
  {
    hide XorInto, Absorb, Zeros, Xor;
    state[blockSize] := Xor(state[blockSize], d);
    XorNext(s, tail, d);
    assert state[..] == XorInto(s, tail + [d]);
    if d & 0x80 != 0 && blockSize == r - 1 {
      Permute(f, state);
      ghost var s1 := state[..];
      ghost var b2 := Zeros(r - 1) + [0x80];
      XorNothing(s1);
      XorFar(s1, [], r - 1, 0x80);
      state[r - 1] := Xor(state[r - 1], 0x80);
      assert [] + Zeros(r - 1) + [0x80] == b2;
      assert state[..] == XorInto(s1, b2);
      Permute(f, state);
      TwoBlocks(f, r, s, tail + [d], b2);
      assert tail + PadBytes(blockSize, d, r) == (tail + [d]) + b2;
    } else {
      state[r - 1] := Xor(state[r - 1], 0x80);
      XorSameBlock(s, tail, d, r);
      assert state[..] == XorInto(s, tail + PadBytes(blockSize, d, r));
      Permute(f, state);
      OneBlock(f, r, s, tail + PadBytes(blockSize, d, r));
    }
  }

  /** Keccak(): for a byte-aligned rate with rate + capacity = 1600 the output is that of the sponge; any
      other parameters leave the output untouched. */
  method Keccak(f: Permutation, rate: nat, capacity: nat, input: seq<Byte>, delimitedSuffix: Byte, outputLen: nat)
    returns (output: Option<seq<Byte>>)
    requires KeepsWidth(f) && (rate == 0 ==> capacity != 1600)
    ensures output == if rate + capacity == 1600 && rate % 8 == 0 then Some(Sponge(f, rate / 8, input, delimitedSuffix, outputLen)) else None
  {
    var r := rate / 8;
    if rate + capacity != 1600 || rate % 8 != 0 {
      return None;
    }
    hide Absorb, XorInto, PadBytes;
    var state := new Byte[WIDTH](_ => 0);
    assert state[..] == Zeros(WIDTH);
    var blockSize := AbsorbInput(f, r, input, state);
    ghost var whole := Whole(input, r);
    ghost var tail := input[|whole|..];
    ghost var s := Absorb(f, r, Zeros(WIDTH), whole);
    PadAndPermute(f, r, delimitedSuffix, state, blockSize, s, tail);
    AbsorbConcat(f, r, Zeros(WIDTH), whole, tail + PadBytes(blockSize, delimitedSuffix, r));
    assert input == whole + tail;
    assert whole + (tail + PadBytes(blockSize, delimitedSuffix, r)) == input + PadBytes(blockSize, delimitedSuffix, r);
    var z := SqueezeOutput(f, r, state, outputLen);
    output := Some(z);
  }

  method SqueezeOutput(f: Permutation, r: nat, state: array<Byte>, outputLen: nat) returns (z: seq<Byte>)
    requires KeepsWidth(f) && 0 < r <= WIDTH == state.Length
    modifies state
    ensures z == Squeeze(f, r, old(state[..]), outputLen)
  {
    hide Squeeze;
    z := [];
    var left := outputLen;
    SqueezeNothing(f, r, state[..]);
    while left > 0
      invariant 0 <= left
      invariant Squeeze(f, r, old(state[..]), outputLen) == z + Squeeze(f, r, state[..], left)
    {
      var blockSize := if left < r then left else r;
      ghost var s := state[..];
      SqueezeBlock(f, r, s, left);
      assert state[..blockSize] == s[..blockSize];
      z := z + state[..blockSize];
      left := left - blockSize;
      if left > 0 {
        Permute(f, state);
      } else {
        SqueezeNothing(f, r, s);
      }
    }
    SqueezeNothing(f, r, state[..]);
  }

  lemma SqueezeNothing(f: Permutation, r: nat, s: seq<Byte>)
    requires KeepsWidth(f) && 0 < r <= WIDTH == |s|
    ensures Squeeze(f, r, s, 0) == []
  {
  }

  lemma SqueezeBlock(f: Permutation, r: nat, s: seq<Byte>, n: nat)
    requires KeepsWidth(f) && 0 < r <= WIDTH == |s| && n > 0
    ensures Squeeze(f, r, s, n) == if n <= r then s[..n] else s[..r] + Squeeze(f, r, f(s), n - r)
  {
  }

  // ----- the sponge construction of the standard, on bits

  /** The exclusive or of two bit strings. */
  function XorBits(a: seq<bool>, b: seq<bool>): (c: seq<bool>)
    requires |a| == |b|
    ensures |c| == |a|
  {
    seq(|a|, i requires 0 <= i < |a| => a[i] != b[i])
  }

  type BitPermutation = seq<bool> -> seq<bool>

  ghost predicate KeepsBits(g: BitPermutation) { forall s :: |s| == 8 * WIDTH ==> |g(s)| == 8 * WIDTH }

  /** Step 6 of Algorithm 8 in section 4: every block, filled up with zeros, is xored into the state. */
  function AbsorbBits(g: BitPermutation, r: nat, s: seq<bool>, p: seq<bool>): (t: seq<bool>)
    requires KeepsBits(g) && 0 < r <= 8 * WIDTH == |s|
    ensures |t| == 8 * WIDTH
    decreases |p|
  {
    if |p| < r then s else AbsorbBits(g, r, g(XorBits(s, p[..r] + ZeroBits(8 * WIDTH - r))), p[r..])
  }

  /** Steps 8 to 10: r bits of the state are appended to z until it has n bits. */
  function SqueezeBits(g: BitPermutation, r: nat, s: seq<bool>, z: seq<bool>, n: nat): seq<bool>
    requires KeepsBits(g) && 0 < r <= 8 * WIDTH == |s|
    decreases if |z| < n then n - |z| else 0
  {
    var longer := z + s[..r];
    if n <= |longer| then longer[..n] else SqueezeBits(g, r, g(s), longer, n)
  }

  /** SPONGE[f, pad10*1, r] of Algorithm 8. */
  function SpongeBits(g: BitPermutation, r: nat, message: seq<bool>, n: nat): seq<bool>
    requires KeepsBits(g) && 0 < r <= 8 * WIDTH
  {
    SqueezeBits(g, r, AbsorbBits(g, r, ZeroBits(8 * WIDTH), message + Pad101(r, |message|)), [], n)
  }

  /** g is f on bits. */
  ghost predicate SameOnBits(f: Permutation, g: BitPermutation) {
    forall s :: |s| == WIDTH ==> g(AllBits(s)) == AllBits(f(s))
  }

  /** A bit of x xor y is set if and only if it is set in exactly one of x and y. */
  lemma XorOneBit(x: Byte, y: Byte, m: Byte)
    requires m & (m - 1) == 0
    ensures (Xor(x, y) & m != 0) == ((x & m != 0) != (y & m != 0))
  {
    assert (x ^ y) & m == (x & m) ^ (y & m);
    assert x & m == 0 || x & m == m;
    assert y & m == 0 || y & m == m;
  }

  function BitMask(i: nat): (m: Byte)
    requires i < 8
    ensures m & (m - 1) == 0
  {
    match i
    case 0 => 0x01
    case 1 => 0x02
    case 2 => 0x04
    case 3 => 0x08
    case 4 => 0x10
    case 5 => 0x20
    case 6 => 0x40
    case _ => 0x80
  }

  lemma BitsAt(b: Byte, i: nat)
    requires i < 8
    ensures Bits(b)[i] == (b & BitMask(i) != 0)
  {
  }

  lemma XorOnBits(x: Byte, y: Byte)
    ensures Bits(Xor(x, y)) == XorBits(Bits(x), Bits(y))
  {
    hide Xor, Bits, BitMask;
    forall i: nat | i < 8 ensures Bits(Xor(x, y))[i] == (Bits(x)[i] != Bits(y)[i]) {
      BitsAt(x, i);
      BitsAt(y, i);
      BitsAt(Xor(x, y), i);
      XorOneBit(x, y, BitMask(i));
    }
  }

  lemma XorBitsConcat(a: seq<bool>, b: seq<bool>, c: seq<bool>, d: seq<bool>)
    requires |a| == |b| && |c| == |d|
    ensures XorBits(a + c, b + d) == XorBits(a, b) + XorBits(c, d)
  {
  }

  lemma XorWithZeros(a: seq<bool>)
    ensures XorBits(a, ZeroBits(|a|)) == a
  {
  }

  lemma {:induction false} XorIntoBits(s: seq<Byte>, b: seq<Byte>)
    requires |b| <= |s|
    ensures AllBits(XorInto(s, b)) == XorBits(AllBits(s), AllBits(b) + ZeroBits(8 * (|s| - |b|)))
  {
    hide Xor, XorBits, Bits, ZeroBits;
    if b == [] {
      XorNothing(s);
      XorWithZeros(AllBits(s));
      assert AllBits(b) + ZeroBits(8 * |s|) == ZeroBits(8 * |s|);
    } else {
      var s', b' := s[1..], b[1..];
      XorIntoBits(s', b');
      XorOnBits(s[0], b[0]);
      assert XorInto(s, b) == [Xor(s[0], b[0])] + XorInto(s', b');
      var rest := AllBits(b') + ZeroBits(8 * (|s'| - |b'|));
      assert AllBits(b) + ZeroBits(8 * (|s| - |b|)) == Bits(b[0]) + rest;
      XorBitsConcat(Bits(s[0]), Bits(b[0]), AllBits(s'), rest);
    }
  }

  lemma AllBitsSplit(p: seq<Byte>, n: nat)
    requires n <= |p|
    ensures AllBits(p)[..8 * n] == AllBits(p[..n]) && AllBits(p)[8 * n..] == AllBits(p[n..])
  {
    hide AllBits;
    assert p == p[..n] + p[n..];
    AllBitsConcat(p[..n], p[n..]);
  }

  lemma {:induction false} AbsorbOnBits(f: Permutation, g: BitPermutation, r: nat, s: seq<Byte>, p: seq<Byte>)
    requires KeepsWidth(f) && KeepsBits(g) && SameOnBits(f, g) && 0 < r <= WIDTH == |s| && |p| % r == 0
    ensures AllBits(Absorb(f, r, s, p)) == AbsorbBits(g, 8 * r, AllBits(s), AllBits(p))
    decreases |p|
  {
    hide AllBits, XorInto, XorBits, ZeroBits;
    if p == [] {
      AbsorbNothing(f, r, s);
    } else {
      BlockDrop(p, r);
      var next := XorInto(s, p[..r]);
      AbsorbOnBits(f, g, r, f(next), p[r..]);
      AllBitsSplit(p, r);
      XorIntoBits(s, p[..r]);
      assert g(AllBits(next)) == AllBits(f(next));
    }
  }

  lemma SqueezeBitsLast(g: BitPermutation, r: nat, s: seq<bool>, z: seq<bool>, n: nat)
    requires KeepsBits(g) && 0 < r <= 8 * WIDTH == |s| && n <= r
    ensures SqueezeBits(g, r, s, z, |z| + n) == z + s[..n]
  {
    assert (z + s[..r])[..|z| + n] == z + s[..n];
  }

  lemma SqueezeBitsMore(g: BitPermutation, r: nat, s: seq<bool>, z: seq<bool>, n: nat, m: nat)
    requires KeepsBits(g) && 0 < r <= 8 * WIDTH == |s| && r < n && m == |z| + n
    ensures SqueezeBits(g, r, s, z, m) == SqueezeBits(g, r, g(s), z + s[..r], m)
  {
  }

  lemma PermuteBits(f: Permutation, g: BitPermutation, s: seq<Byte>)
    requires KeepsWidth(f) && SameOnBits(f, g) && |s| == WIDTH
    ensures |f(s)| == WIDTH && g(AllBits(s)) == AllBits(f(s))
  {
  }

  lemma Regroup(a: seq<bool>, b: seq<bool>, c: seq<bool>)
    ensures a + b + c == a + (b + c)
  {
  }

  lemma SqueezeLastOnBits(f: Permutation, g: BitPermutation, r: nat, s: seq<Byte>, z: seq<bool>, n: nat)
    requires KeepsWidth(f) && KeepsBits(g) && 0 < r <= WIDTH == |s| && n <= r
    ensures SqueezeBits(g, 8 * r, AllBits(s), z, |z| + 8 * n) == z + AllBits(Squeeze(f, r, s, n))
  {
    hide AllBits, SqueezeBits, KeepsBits, KeepsWidth;
    AllBitsSplit(s, n);
    SqueezeBitsLast(g, 8 * r, AllBits(s), z, 8 * n);
  }

  lemma SqueezeMoreOnBits(f: Permutation, g: BitPermutation, r: nat, s: seq<Byte>, z: seq<bool>, n: nat)
    requires KeepsWidth(f) && KeepsBits(g) && 0 < r <= WIDTH == |s| && r < n
    ensures |f(s)| == WIDTH
    ensures z + AllBits(Squeeze(f, r, s, n)) == z + AllBits(s)[..8 * r] + AllBits(Squeeze(f, r, f(s), n - r))
  {
    hide AllBits, SqueezeBits, KeepsBits;
    AllBitsSplit(s, r);
    AllBitsConcat(s[..r], Squeeze(f, r, f(s), n - r));
    Regroup(z, AllBits(s[..r]), AllBits(Squeeze(f, r, f(s), n - r)));
  }

  lemma {:induction false} SqueezeOnBits(f: Permutation, g: BitPermutation, r: nat, s: seq<Byte>, z: seq<bool>, n: nat, m: nat)
    requires KeepsWidth(f) && KeepsBits(g) && SameOnBits(f, g) && 0 < r <= WIDTH == |s| && m == |z| + 8 * n
    ensures SqueezeBits(g, 8 * r, AllBits(s), z, m) == z + AllBits(Squeeze(f, r, s, n))
    decreases n
  {
    if n <= r {
      SqueezeLastOnBits(f, g, r, s, z, n);
    } else {
      PermuteBits(f, g, s);
      hide *;
      SqueezeMoreOnBits(f, g, r, s, z, n);
      SqueezeBitsMore(g, 8 * r, AllBits(s), z, 8 * n, m);
      SqueezeOnBits(f, g, r, f(s), z + AllBits(s)[..8 * r], n - r, m);
    }
  }

  lemma AbsorbIsStandard(f: Permutation, g: BitPermutation, r: nat, m: seq<Byte>, d: Byte)
    requires KeepsWidth(f) && KeepsBits(g) && SameOnBits(f, g) && 0 < r <= WIDTH && d != 0
    ensures var padded, message := m + PadBytes(|m| % r, d, r), AllBits(m) + SuffixBits(d);
            && |padded| % r == 0
            && AllBits(Absorb(f, r, Zeros(WIDTH), padded))
            == AbsorbBits(g, 8 * r, ZeroBits(8 * WIDTH), message + Pad101(8 * r, |message|))
  {
    hide *;
    PaddedLength(|m|, d, r);
    PaddingIsPad101(m, d, r);
    AbsorbOnBits(f, g, r, Zeros(WIDTH), m + PadBytes(|m| % r, d, r));
    AllBitsZeros(WIDTH);
    var padded, message := m + PadBytes(|m| % r, d, r), AllBits(m) + SuffixBits(d);
    assert AllBits(padded) == message + Pad101(8 * r, |message|);
  }

  /** The bytes of the sponge are the bits that the standard prescribes for the message followed by the suffix
      bits. */
  lemma SpongeIsStandard(f: Permutation, g: BitPermutation, r: nat, m: seq<Byte>, d: Byte, n: nat)
    requires KeepsWidth(f) && KeepsBits(g) && SameOnBits(f, g) && 0 < r <= WIDTH && d != 0
    ensures AllBits(Sponge(f, r, m, d, n)) == SpongeBits(g, 8 * r, AllBits(m) + SuffixBits(d), 8 * n)
  {
    hide AllBits, Absorb, AbsorbBits, Squeeze, SqueezeBits, Pad101, PadBytes, SuffixBits, Zeros, ZeroBits;
    hide KeepsWidth, KeepsBits, SameOnBits;
    AbsorbIsStandard(f, g, r, m, d);
    var state := Absorb(f, r, Zeros(WIDTH), m + PadBytes(|m| % r, d, r));
    SqueezeOnBits(f, g, r, state, [], n, 8 * n);
    assert [] + AllBits(Squeeze(f, r, state, n)) == AllBits(Squeeze(f, r, state, n));
  }
}
