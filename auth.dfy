/**
 * Time-based one-time passwords for the admin's second factor: base32 decoding of the shared
 * secret (section 6 of RFC 4648), the 8-byte big-endian time-step counter (section 4 of
 * RFC 6238), dynamic truncation to six digits (section 5.3 of RFC 4226) and the acceptance
 * window of one time step either side (section 5.2 of RFC 6238). HMAC-SHA1 is a parameter.
 */
module Totp {
  import opened Numeric

  const ALPHABET: string := "ABCDEFGHIJKLMNOPQRSTUVWXYZ234567"
  /** Milliseconds per time step. */
  const TIME_STEP_MS: int := 30000
  const CODE_DIGITS: nat := 6
  const CODE_MODULUS: nat := 1000000
  /** Bits per base32 character, characters per decoding group, octets per counter block. */
  const CHAR_BITS: nat := 5
  const GROUP_CHARS: nat := 8
  const BLOCK_OCTETS: nat := 8

  /** An HMAC-SHA1 digest: twenty octets. */
  type Digest = h: seq<int> | |h| == 20 && DigitsIn(h, 256) witness seq(20, _ => 0)

  // ---------------------------------------------------------------- base32

  /** `ALPHABET.indexOf(c)`: the position of `c` in the alphabet, or -1. */
  function IndexOf(c: char): (v: int)
    ensures -1 <= v < 32
  {
    if 'A' <= c <= 'Z' then c as int - 'A' as int
    else if '2' <= c <= '7' then c as int - '2' as int + 26
    else -1
  }

  /** IndexOf is the search of the alphabet: it finds the one position holding `c`, and -1 means
      that no position does. */
  lemma IndexOfSearches(c: char)
    ensures IndexOf(c) >= 0 ==> ALPHABET[IndexOf(c)] == c
    ensures forall i :: 0 <= i < 32 && ALPHABET[i] == c ==> i == IndexOf(c)
  {
    forall i | 0 <= i < 32
      ensures ALPHABET[i] == Base32Char(i)
    {
    }
    if IndexOf(c) >= 0 {
      assert Base32Char(IndexOf(c)) == c;
    }
  }

  /** The values of the alphabet characters of `cs`, in order; other characters are skipped. */
  function Values(cs: string): (vs: seq<int>)
    ensures DigitsIn(vs, 32)
  {
    if |cs| == 0 then []
    else
      var v := IndexOf(cs[|cs| - 1]);
      Values(cs[..|cs| - 1]) + if v >= 0 then [v] else []
  }

  /** The five bits of a base32 value, most significant first. */
  function Bits5(v: int): (bs: seq<int>)
    requires 0 <= v < 32
    ensures |bs| == CHAR_BITS && DigitsIn(bs, 2)
  {
    [v / 16, v / 8 % 2, v / 4 % 2, v / 2 % 2, v % 2]
  }

  /** The five bits spell the value back. */
  lemma Bits5Value(v: int)
    requires 0 <= v < 32
    ensures ValueBE(Bits5(v), 2) == v
  {
    var b := Bits5(v);
    assert b[..4][..3] == b[..3] && b[..3][..2] == b[..2] && b[..2][..1] == b[..1] && b[..1][..0] == [];
    assert ValueBE(b[..1], 2) == v / 16;
    assert ValueBE(b[..2], 2) == v / 8;
    assert ValueBE(b[..3], 2) == v / 4;
    assert ValueBE(b[..4], 2) == v / 2;
  }

  /** The bits of base32 values, five per value, most significant first. */
  function BitString(vs: seq<int>): (bs: seq<int>)
    requires DigitsIn(vs, 32)
    ensures |bs| == 5 * |vs| && DigitsIn(bs, 2)
  {
    if |vs| == 0 then [] else BitString(vs[..|vs| - 1]) + Bits5(vs[|vs| - 1])
  }

  /** The whole octets of a bit string, read eight bits at a time; leftover bits are dropped. */
  function Octets(bs: seq<int>): (os: seq<int>)
    ensures |os| == |bs| / 8
  {
    seq(|bs| / 8, k requires 0 <= k < |bs| / 8 => ValueBE(bs[8 * k..8 * k + 8], 2))
  }

  /** One group of up to eight characters decoded on its own. */
  function DecodeGroup(cs: string): seq<int> {
    Octets(BitString(Values(cs)))
  }

  /** The key: every group of eight characters decoded independently, the groups' octets joined. */
  function Base32Decode(s: string): seq<int>
    decreases |s|
  {
    if |s| <= 8 then DecodeGroup(s) else DecodeGroup(s[..8]) + Base32Decode(s[8..])
  }

  /** Every decoded element is an octet. */
  lemma OctetsAreBytes(bs: seq<int>)
    requires DigitsIn(bs, 2)
    ensures DigitsIn(Octets(bs), 256)
  {
    forall k | 0 <= k < |bs| / 8
      ensures 0 <= Octets(bs)[k] < 256
    {
      var w := bs[8 * k..8 * k + 8];
      assert DigitsIn(w, 2) by {
        forall i | 0 <= i < 8 ensures 0 <= w[i] < 2 { assert w[i] == bs[8 * k + i]; }
      }
      ValueBEBound(w, 2);
      assert Pow(2, 8) == 256;
    }
  }

  /** Five more bits either complete one more octet or none. */
  lemma OctetsSnoc(bs: seq<int>, extra: seq<int>)
    requires |extra| == 5 && |bs| % 8 + 5 < 16
    ensures var q := |bs| / 8;
      Octets(bs + extra) ==
        Octets(bs) + if |bs| % 8 + 5 >= 8 then [ValueBE((bs + extra)[8 * q..8 * q + 8], 2)] else []
  {
    var q := |bs| / 8;
    var all := bs + extra;
    forall k | 0 <= k < q
      ensures all[8 * k..8 * k + 8] == bs[8 * k..8 * k + 8]
    {
    }
  }

  /** The bits of base32 values spell their base-32 value in binary. */
  lemma {:induction false} BitStringValue(vs: seq<int>)
    requires DigitsIn(vs, 32)
    ensures ValueBE(BitString(vs), 2) == ValueBE(vs, 32)
  {
    if |vs| > 0 {
      var n := |vs|;
      var front, ext := BitString(vs[..n - 1]), Bits5(vs[n - 1]);
      BitStringValue(vs[..n - 1]);
      var w := ValueBE(front, 2);
      ValueBEAppend(front, ext, 2);
      Bits5Value(vs[n - 1]);
      PowersOfTwo();
      assert ValueBE(ext, 2) == vs[n - 1];
      assert ValueBE(front + ext, 2) == w * 32 + vs[n - 1];
      assert BitString(vs) == front + ext;
    }
  }

  /** Dropping the last eight bits drops the last octet. */
  lemma OctetsPrefix(bs: seq<int>)
    requires |bs| >= 8 && |bs| % 8 == 0
    ensures var n, os := |bs|, Octets(bs);
      os[..|os| - 1] == Octets(bs[..n - 8]) && os[|os| - 1] == ValueBE(bs[n - 8..], 2)
  {
    var n, q := |bs|, |bs| / 8;
    var front := bs[..n - 8];
    forall k | 0 <= k < q - 1
      ensures Octets(bs)[k] == Octets(front)[k]
    {
      assert front[8 * k..8 * k + 8] == bs[8 * k..8 * k + 8];
    }
    assert 8 * (q - 1) == n - 8;
    assert bs[8 * (q - 1)..8 * (q - 1) + 8] == bs[n - 8..];
  }

  /** Whole octets spell, in base 256, the value of the bits they are read from. */
  lemma {:induction false} OctetsValue(bs: seq<int>)
    requires DigitsIn(bs, 2) && |bs| % 8 == 0
    ensures ValueBE(Octets(bs), 256) == ValueBE(bs, 2)
    decreases |bs|
  {
    if |bs| > 0 {
      var n := |bs|;
      var front, last := bs[..n - 8], bs[n - 8..];
      assert DigitsIn(front, 2) by {
        forall i | 0 <= i < n - 8 ensures 0 <= front[i] < 2 { assert front[i] == bs[i]; }
      }
      var os := Octets(bs);
      OctetsPrefix(bs);
      OctetsValue(front);
      assert ValueBE(os, 256) == ValueBE(front, 2) * 256 + ValueBE(last, 2);
      assert bs == front + last;
      ValueBEAppend(front, last, 2);
      KnownPowers();
    }
  }

  // ---------------------------------------------------------------- the decoding loop

  /** Shifting a value in: after `bits = (bits << 5) | val` the low bits that `bits` held
      still spell the bits not yet consumed, followed by the five new ones. `<<` wraps to 32
      bits; its low five bits are zero, so `| val` adds `val`, and the result stays a 32-bit
      integer. */
  lemma ShiftIn(bits: int, bitCount: nat, tail: seq<int>, val: int)
    requires -TWO_31 <= bits < TWO_31 && bitCount < 8 && |tail| == bitCount
    requires 0 <= val < 32 && bits % Pow(2, bitCount) == ValueBE(tail, 2)
    ensures var next := ToInt32(bits * 32) + val;
      -TWO_31 <= next < TWO_31 && next % Pow(2, bitCount + 5) == ValueBE(tail + Bits5(val), 2)
  {
    var p, k := Pow(2, bitCount), Pow(2, 27 - bitCount);
    var ext := Bits5(val);
    PowersOfTwo();
    PowAdd(2, bitCount, 5);
    assert Pow(2, bitCount + 5) == 32 * p;
    PowAdd(2, bitCount + 5, 27 - bitCount);
    assert 32 * p * k == TWO_32;
    var shifted := ToInt32(bits * 32);
    ShiftArith(bits, shifted, (bits * 32 - shifted) / TWO_32, p, k, val);
    ValueBEAppend(tail, ext, 2);
    Bits5Value(val);
    assert ValueBE(ext, 2) == val;
    assert ValueBE(tail + ext, 2) == 32 * ValueBE(tail, 2) + val;
  }

  /** The arithmetic of shifting in, for a pending width `p` that divides 2^32 / 32: `shifted`
      is `32 * bits` wrapped by `t` multiples of 2^32 into the 32-bit range. */
  lemma ShiftArith(bits: int, shifted: int, t: int, p: int, k: int, val: int)
    requires p >= 1 && k >= 1 && 32 * p * k == TWO_32 && 0 <= val < 32
    requires -TWO_31 <= shifted < TWO_31 && bits * 32 - shifted == TWO_32 * t
    ensures -TWO_31 <= shifted + val < TWO_31 && (shifted + val) % (32 * p) == 32 * (bits % p) + val
  {
    var r, s := bits % p, bits / p;
    assert bits == p * s + r;
    var w := bits - p * k * t;
    assert shifted == 32 * w by {
      assert TWO_32 * t == 32 * (p * k * t);
    }
    assert 32 * w + val < TWO_31;
    var m := 32 * p;
    assert shifted + val == m * (s - k * t) + (32 * r + val) by {
      assert 32 * bits == m * s + 32 * r;
      assert 32 * (p * k * t) == m * (k * t);
    }
    DivModUnique(shifted + val, m, s - k * t, 32 * r + val);
  }

  /** The arithmetic of taking an octet out: when the low `256 * q` part of `b` is
      `hi * q + lo`, the octet above the low `q` part is `hi` and the low part is `lo`. */
  lemma SplitOctet(b: int, q: int, hi: int, lo: int)
    requires q >= 1 && 0 <= hi < 256 && 0 <= lo < q && b % (256 * q) == hi * q + lo
    ensures (b / q) % 256 == hi && b % q == lo
  {
    var u := b / (256 * q);
    assert b == (256 * q) * u + (hi * q + lo);
    assert b == q * (256 * u + hi) + lo;
    DivModUnique(b, q, 256 * u + hi, lo);
    DivModUnique(256 * u + hi, 256, u, hi);
  }

  /** Taking an octet out: `(bits >> (bitCount - 8)) & 0xFF` is the first eight of the pending
      bits, and what stays below them spells the rest. `>>` is a floor division and `& 0xFF`
      the remainder by 256. */
  lemma TakeOctet(bits: int, tail: seq<int>)
    requires 8 <= |tail| < 16 && DigitsIn(tail, 2) && bits % Pow(2, |tail|) == ValueBE(tail, 2)
    ensures (bits / Pow(2, |tail| - 8)) % 256 == ValueBE(tail[..8], 2)
    ensures bits % Pow(2, |tail| - 8) == ValueBE(tail[8..], 2)
  {
    var n := |tail|;
    var hd, tl := tail[..8], tail[8..];
    assert tail == hd + tl;
    ValueBEAppend(hd, tl, 2);
    assert DigitsIn(hd, 2) && DigitsIn(tl, 2) by {
      forall i | 0 <= i < 8 ensures 0 <= hd[i] < 2 { assert hd[i] == tail[i]; }
      forall i | 0 <= i < n - 8 ensures 0 <= tl[i] < 2 { assert tl[i] == tail[8 + i]; }
    }
    ValueBEBound(hd, 2);
    ValueBEBound(tl, 2);
    PowAdd(2, 8, n - 8);
    assert Pow(2, 8) == 256;
    SplitOctet(bits, Pow(2, n - 8), ValueBE(hd, 2), ValueBE(tl, 2));
  }

  /** The decoder's state over the bits `bs` read so far: the octets pushed are the whole
      octets of `bs`, and the low `bitCount` bits of the 32-bit accumulator are the bits of
      `bs` not yet pushed. */
  ghost predicate Holds(bs: seq<int>, bits: int, bitCount: nat, octets: seq<int>) {
    DigitsIn(bs, 2) && -TWO_31 <= bits < TWO_31 && bitCount < 8 && bitCount <= |bs| &&
    octets == Octets(bs) && |bs| % 8 == bitCount &&
    bits % Pow(2, bitCount) == ValueBE(bs[|bs| - bitCount..], 2)
  }

  /** The state of the inner loop after the first `j` characters of the group at `i`. */
  ghost predicate Pending(secret: string, i: nat, j: nat, bits: int, bitCount: nat, octets: seq<int>)
    requires i + j <= |secret|
  {
    Holds(BitString(Values(secret[i..i + j])), bits, bitCount, octets)
  }

  /** Reading one more character of the group appends its value, if it has one. */
  lemma ReadOne(secret: string, i: nat, j: nat)
    requires i + j < |secret|
    ensures var v := IndexOf(secret[i + j]);
      Values(secret[i..i + j + 1]) == Values(secret[i..i + j]) + if v >= 0 then [v] else []
  {
    assert secret[i..i + j + 1][..j] == secret[i..i + j];
  }

  /** A character outside the alphabet changes nothing. */
  lemma GroupSkip(secret: string, i: nat, j: nat, bits: int, bitCount: nat, octets: seq<int>)
    requires i + j < |secret| && Pending(secret, i, j, bits, bitCount, octets) && IndexOf(secret[i + j]) == -1
    ensures Pending(secret, i, j + 1, bits, bitCount, octets)
  {
    ReadOne(secret, i, j);
    assert Values(secret[i..i + j + 1]) == Values(secret[i..i + j]);
  }

  /** Reading a character of the alphabet appends its five bits to the bits read. */
  lemma ReadValue(secret: string, i: nat, j: nat)
    requires i + j < |secret| && IndexOf(secret[i + j]) != -1
    ensures BitString(Values(secret[i..i + j + 1])) ==
              BitString(Values(secret[i..i + j])) + Bits5(IndexOf(secret[i + j]))
  {
    var vs, val := Values(secret[i..i + j]), IndexOf(secret[i + j]);
    ReadOne(secret, i, j);
    assert Values(secret[i..i + j + 1]) == vs + [val];
    assert (vs + [val])[..|vs|] == vs;
  }

  /** `bits = (bits << 5) | val` with fewer than eight bits then pending keeps the state. */
  lemma ShiftKeeps(bs: seq<int>, bits: int, bitCount: nat, octets: seq<int>, val: int, bits2: int, count2: nat)
    requires Holds(bs, bits, bitCount, octets) && 0 <= val < 32 && bitCount + 5 < 8
    requires bits2 == ToInt32(bits * 32) + val && count2 == bitCount + 5
    ensures Holds(bs + Bits5(val), bits2, count2, octets)
  {
    ShiftedIn(bs, bits, bitCount, octets, val);
    OctetsSnoc(bs, Bits5(val));
  }

  /** After `bits = (bits << 5) | val` the low `bitCount + 5` bits of the accumulator are
      the last `bitCount + 5` bits read. */
  lemma ShiftedIn(bs: seq<int>, bits: int, bitCount: nat, octets: seq<int>, val: int)
    requires Holds(bs, bits, bitCount, octets) && 0 <= val < 32
    ensures var all, next, n := bs + Bits5(val), ToInt32(bits * 32) + val, bitCount + 5;
      DigitsIn(all, 2) && DigitsIn(all[|all| - n..], 2) &&
      -TWO_31 <= next < TWO_31 && next % Pow(2, n) == ValueBE(all[|all| - n..], 2)
  {
    var all, n := bs + Bits5(val), bitCount + 5;
    var pending := all[|all| - n..];
    DigitsInConcat(bs, Bits5(val), 2);
    ShiftIn(bits, bitCount, bs[|bs| - bitCount..], val);
    assert pending == bs[|bs| - bitCount..] + Bits5(val);
    forall k | 0 <= k < n ensures 0 <= pending[k] < 2 { assert pending[k] == all[|all| - n + k]; }
  }

  /** `bits = (bits << 5) | val` with eight bits or more then pending, followed by the push of
      `(bits >> (bitCount - 8)) & 0xFF`, keeps the state: the octet pushed is the next whole
      octet of the bits read. */
  lemma ShiftPushes(bs: seq<int>, bits: int, bitCount: nat, octets: seq<int>, val: int,
                    bits2: int, count2: nat, octets2: seq<int>)
    requires Holds(bs, bits, bitCount, octets) && 0 <= val < 32 && bitCount + 5 >= 8
    requires bits2 == ToInt32(bits * 32) + val && count2 == bitCount + 5 - 8
    requires octets2 == octets + [(bits2 / Pow(2, bitCount + 5 - 8)) % 256]
    ensures Holds(bs + Bits5(val), bits2, count2, octets2)
  {
    var all := bs + Bits5(val);
    var next, n := ToInt32(bits * 32) + val, bitCount + 5;
    var pending := all[|all| - n..];
    ShiftedIn(bs, bits, bitCount, octets, val);
    TakeOctet(next, pending);
    OctetsSnoc(bs, Bits5(val));
    var q := |bs| / 8;
    assert |all| - n == 8 * q;
    assert pending[..8] == all[8 * q..8 * q + 8];
    assert pending[8..] == all[|all| - (n - 8)..];
  }

  /** A character of the alphabet keeps Pending, whether its five bits are only shifted in
      (`bits2`, `count2`, `octets2` being the state after the character) or also complete an
      octet that is pushed. */
  lemma GroupShift(secret: string, i: nat, j: nat, bits: int, bitCount: nat, octets: seq<int>,
                   bits2: int, count2: nat, octets2: seq<int>)
    requires i + j < |secret| && Pending(secret, i, j, bits, bitCount, octets)
    requires IndexOf(secret[i + j]) != -1 && bits2 == ToInt32(bits * 32) + IndexOf(secret[i + j])
    requires bitCount + 5 < 8 ==> count2 == bitCount + 5 && octets2 == octets
    requires bitCount + 5 >= 8 ==>
      count2 == bitCount + 5 - 8 && octets2 == octets + [(bits2 / Pow(2, bitCount + 5 - 8)) % 256]
    ensures Pending(secret, i, j + 1, bits2, count2, octets2)
  {
    var bs, val := BitString(Values(secret[i..i + j])), IndexOf(secret[i + j]);
    ReadValue(secret, i, j);
    if bitCount + 5 < 8 {
      ShiftKeeps(bs, bits, bitCount, octets, val, bits2, count2);
    } else {
      ShiftPushes(bs, bits, bitCount, octets, val, bits2, count2, octets2);
    }
  }

  /** One pass of the inner loop: the characters of the group from `i` on, at most eight,
      each shifting its five bits into a 32-bit accumulator, an octet taken out whenever eight
      bits are pending; bits left over at the end of the group are dropped. */
  method DecodeGroupAt(secret: string, i: nat) returns (octets: seq<int>)
    requires i < |secret|
    ensures octets == DecodeGroup(secret[i..if i + 8 < |secret| then i + 8 else |secret|])
  {
    octets := [];
    var bits, bitCount := 0, 0;
    var j := 0;
    while j < 8 && i + j < |secret|
      invariant 0 <= j <= 8 && i + j <= |secret|
      invariant Pending(secret, i, j, bits, bitCount, octets)
    {
      var val := IndexOf(secret[i + j]);
      if val == -1 {
        GroupSkip(secret, i, j, bits, bitCount, octets);
      } else {
        ghost var bits0, count0, octets0 := bits, bitCount, octets;
        bits := ToInt32(bits * 32) + val;
        bitCount := bitCount + 5;
        if bitCount >= 8 {
          octets := octets + [(bits / Pow(2, bitCount - 8)) % 256];
          bitCount := bitCount - 8;
        }
        GroupShift(secret, i, j, bits0, count0, octets0, bits, bitCount, octets);
      }
      j := j + 1;
    }
    assert i + j == if i + 8 < |secret| then i + 8 else |secret|;
    PendingOctets(secret, i, j, bits, bitCount, octets);
  }

  /** The octets taken out so far are the decoding of the characters read so far. */
  lemma PendingOctets(secret: string, i: nat, j: nat, bits: int, bitCount: nat, octets: seq<int>)
    requires i + j <= |secret| && Pending(secret, i, j, bits, bitCount, octets)
    ensures octets == DecodeGroup(secret[i..i + j])
  {
  }

  /** The key from position `i` on: the group starting there, then the key after it. */
  lemma DecodeRest(secret: string, i: nat)
    requires i < |secret|
    ensures Base32Decode(secret[i..]) ==
              DecodeGroup(secret[i..if i + 8 < |secret| then i + 8 else |secret|]) +
              if i + 8 < |secret| then Base32Decode(secret[i + 8..]) else []
  {
    if i + 8 < |secret| {
      assert secret[i..i + 8] == secret[i..][..8];
      assert secret[i..][8..] == secret[i + 8..];
    } else {
      assert secret[i..|secret|] == secret[i..];
    }
  }

  /** `generateTOTPAtTime`'s decoding of the secret: the groups of eight characters decoded one
      after the other, their octets pushed onto one key. */
  method DecodeBase32(secret: string) returns (decoded: seq<int>)
    ensures decoded == Base32Decode(secret)
  {
    decoded := [];
    var i := 0;
    while i < |secret|
      invariant 0 <= i
      invariant i < |secret| ==> decoded + Base32Decode(secret[i..]) == Base32Decode(secret)
      invariant i >= |secret| ==> decoded == Base32Decode(secret)
      decreases |secret| - i
    {
      var octets := DecodeGroupAt(secret, i);
      DecodeRest(secret, i);
      if i + 8 < |secret| {
        assert decoded + (octets + Base32Decode(secret[i + 8..])) == (decoded + octets) + Base32Decode(secret[i + 8..]);
      } else {
        assert decoded + (octets + []) == decoded + octets;
      }
      decoded := decoded + octets;
      i := i + 8;
    }
  }

  // ---------------------------------------------------------------- the counter block

  /** The eight octets written for a time-step counter: the 32-bit value of the counter,
      sign-extended to 64 bits, big-endian. */
  function CounterBlock(counter: int): (block: seq<int>)
    ensures |block| == 8 && DigitsIn(block, 256)
  {
    DigitsBE(ToInt32(counter) % TWO_64, 256, BLOCK_OCTETS)
  }

  /** Any counter a clock can give (below 2^31) is written as itself, big-endian, with the
      top four octets zero. */
  lemma CounterBlockBigEndian(counter: int)
    requires 0 <= counter < TWO_31
    ensures CounterBlock(counter) == DigitsBE(counter, 256, BLOCK_OCTETS)
    ensures ValueBE(CounterBlock(counter), 256) == counter
    ensures CounterBlock(counter)[..4] == [0, 0, 0, 0]
  {
    ToInt32InRange(counter);
    var block := CounterBlock(counter);
    PowAdd(256, 4, 4);
    KnownPowers();
    DivModUnique(counter, TWO_64, 0, counter);
    DigitsBEValue(counter, 256, BLOCK_OCTETS);
    assert ValueBE(block, 256) == counter;
    var hi, lo := block[..4], block[4..];
    assert block == hi + lo;
    ValueBEAppend(hi, lo, 256);
    assert DigitsIn(hi, 256) && DigitsIn(lo, 256) by {
      forall i | 0 <= i < 4 ensures 0 <= hi[i] < 256 && 0 <= lo[i] < 256 {
        assert hi[i] == block[i] && lo[i] == block[4 + i];
      }
    }
    ValueBEBound(hi, 256);
    ValueBEBound(lo, 256);
    assert ValueBE(hi, 256) == 0;
    ValueBEZero(hi, 256);
  }

  lemma CounterStep(p: int, x: int, v: int)
    ensures (256 * p) * (x / 256) + ((x % 256) * p + v) == p * x + v
  {
    assert x == 256 * (x / 256) + x % 256;
    assert p * x == p * (256 * (x / 256)) + p * (x % 256);
  }

  /** `Buffer.alloc(8)` filled from the last octet backwards: each octet is `time & 0xff` and
      then `time >>= 8`, both on the 32-bit value of `time`. */
  method CounterBuffer(counter: int) returns (buffer: array<int>)
    ensures fresh(buffer) && buffer[..] == CounterBlock(counter)
  {
    buffer := new int[8](_ => 0);
    var time := counter;
    var i := 7;
    while i >= 0
      invariant -1 <= i <= 7 && buffer.Length == 8
      invariant i < 7 ==> -TWO_31 <= time < TWO_31
      invariant DigitsIn(buffer[i + 1..], 256)
      invariant Pow(256, 7 - i) * ToInt32(time) + ValueBE(buffer[i + 1..], 256) == ToInt32(counter)
    {
      var x := ToInt32(time);
      ghost var rest := buffer[i + 1..];
      ghost var p := Pow(256, 7 - i);
      buffer[i] := x % 256;
      time := x / 256;
      assert buffer[i + 1..] == rest;
      assert buffer[i..] == [x % 256] + rest;
      ToInt32InRange(time);
      ValueBEAppend([x % 256], rest, 256);
      assert ValueBE([x % 256], 256) == x % 256 by {
        assert [x % 256][..0] == [];
      }
      assert Pow(256, 8 - i) == 256 * p;
      CounterStep(p, x, ValueBE(rest, 256));
      i := i - 1;
    }
    assert i == -1 && buffer[0..] == buffer[..];
    CounterFilled(counter, time, buffer[..]);
  }

  /** Once the eight octets and the counter shifted right by 64 bits make up the counter's
      32-bit value, the octets are its counter block. */
  lemma CounterFilled(counter: int, time: int, block: seq<int>)
    requires |block| == 8 && DigitsIn(block, 256)
    requires Pow(256, 8) * ToInt32(time) + ValueBE(block, 256) == ToInt32(counter)
    ensures block == CounterBlock(counter)
  {
    var v := ValueBE(block, 256);
    ValueBEBound(block, 256);
    KnownPowers();
    DivModUnique(ToInt32(counter), TWO_64, ToInt32(time), v);
    DigitsOfValueBE(block, 256);
  }

  // ---------------------------------------------------------------- truncation and the code

  /** The low nibble of the last digest octet picks where the four code octets start. */
  function Offset(hash: Digest): (o: int)
    ensures 0 <= o <= 15 && o + 4 <= |hash|
  {
    hash[19] % 16
  }

  /** Dynamic truncation: the four octets at the offset with the top bit cleared, as one number.
      The shifted parts cover separate bits, so the `|` of them is their sum. */
  function Truncate(hash: Digest): (code: int)
    ensures 0 <= code < TWO_31
  {
    var o := Offset(hash);
    (hash[o] % 128) * 0x100_0000 + hash[o + 1] * 0x1_0000 + hash[o + 2] * 0x100 + hash[o + 3]
  }

  /** Truncation is the big-endian value of the four octets at the offset, modulo 2^31. */
  lemma TruncateIsDynamicTruncation(hash: Digest)
    ensures Truncate(hash) == ValueBE(hash[Offset(hash)..Offset(hash) + 4], 256) % TWO_31
  {
    var o := Offset(hash);
    var w := hash[o..o + 4];
    assert DigitsIn(w, 256) by {
      forall k | 0 <= k < 4 ensures 0 <= w[k] < 256 { assert w[k] == hash[o + k]; }
    }
    TruncateIs31Bits(w);
  }

  /** The four octets' big-endian value, without its top bit, is the sum the source builds. */
  lemma TruncateIs31Bits(w: seq<int>)
    requires |w| == 4 && DigitsIn(w, 256)
    ensures var code := (w[0] % 128) * 0x100_0000 + w[1] * 0x1_0000 + w[2] * 0x100 + w[3];
      0 <= code < TWO_31 && code == ValueBE(w, 256) % TWO_31
  {
    var code := (w[0] % 128) * 0x100_0000 + w[1] * 0x1_0000 + w[2] * 0x100 + w[3];
    assert w[..3][..2] == w[..2] && w[..2][..1] == w[..1] && w[..1][..0] == [];
    assert ValueBE(w[..1], 256) == w[0];
    assert ValueBE(w[..2], 256) == w[0] * 0x100 + w[1];
    assert ValueBE(w[..3], 256) == w[0] * 0x1_0000 + w[1] * 0x100 + w[2];
    assert ValueBE(w, 256) == w[0] * 0x100_0000 + w[1] * 0x1_0000 + w[2] * 0x100 + w[3];
    assert w[0] * 0x100_0000 == (w[0] / 128) * TWO_31 + (w[0] % 128) * 0x100_0000;
    DivModUnique(ValueBE(w, 256), TWO_31, w[0] / 128, code);
  }

  /** `String(code % 1000000).padStart(6, '0')`. */
  function Otp(code: nat): string {
    PadStart(NatToString(code % CODE_MODULUS), CODE_DIGITS, '0')
  }

  /** The code is six decimal digits and reads back as the number modulo 10^6. */
  lemma OtpDigits(code: nat)
    ensures |Otp(code)| == CODE_DIGITS && IsDecimal(Otp(code))
    ensures DecimalValue(Otp(code)) == code % CODE_MODULUS
  {
    var n := code % CODE_MODULUS;
    var s := NatToString(n);
    assert Pow(10, 6) == CODE_MODULUS;
    NatToStringLength(n, 6);
    var r := Otp(code);
    var z := r[..|r| - |s|];
    assert r == z + s;
    DecimalLeadingZeros(z, s);
    NatToStringValue(n);
  }

  /** Two codes print the same exactly when they agree modulo 10^6. */
  lemma OtpSameIff(a: nat, b: nat)
    ensures Otp(a) == Otp(b) <==> a % CODE_MODULUS == b % CODE_MODULUS
  {
    OtpDigits(a);
    OtpDigits(b);
  }

  /** The one-time password of a key for one time-step counter. */
  function TotpAt(key: seq<int>, counter: int, hmac: (seq<int>, seq<int>) -> Digest): string {
    Otp(Truncate(hmac(key, CounterBlock(counter))))
  }

  /** A password is six decimal digits spelling the truncated digest of the counter block
      modulo 10^6. */
  lemma TotpAtIsTruncatedDigest(key: seq<int>, counter: int, hmac: (seq<int>, seq<int>) -> Digest)
    ensures var hash := hmac(key, CounterBlock(counter));
      var t := TotpAt(key, counter, hmac);
      |t| == CODE_DIGITS && IsDecimal(t) &&
      DecimalValue(t) == ValueBE(hash[Offset(hash)..Offset(hash) + 4], 256) % TWO_31 % CODE_MODULUS
  {
    OtpDigits(Truncate(hmac(key, CounterBlock(counter))));
    TruncateIsDynamicTruncation(hmac(key, CounterBlock(counter)));
  }

  /** `generateTOTPAtTime`: decode the secret, write the counter, digest, truncate. */
  method GenerateTotpAtTime(secret: string, counter: int, hmac: (seq<int>, seq<int>) -> Digest) returns (token: string)
    ensures token == TotpAt(Base32Decode(secret), counter, hmac)
  {
    var key := DecodeBase32(secret);
    var buffer := CounterBuffer(counter);
    var hash := hmac(key, buffer[..]);
    assert hash == hmac(Base32Decode(secret), CounterBlock(counter));
    token := Otp(Truncate(hash));
  }

  /** The time-step counter of a clock reading: `Math.floor(now / 30000)`. */
  function Step(now: int): int {
    now / TIME_STEP_MS
  }

  /** `generateTOTP`: the password of the current time step. */
  method GenerateTotp(secret: string, now: int, hmac: (seq<int>, seq<int>) -> Digest) returns (token: string)
    ensures token == TotpAt(Base32Decode(secret), Step(now), hmac)
  {
    token := GenerateTotpAtTime(secret, Step(now), hmac);
  }

  /** The passwords accepted at a time step: the current, previous and next step's. */
  predicate Accepts(key: seq<int>, step: int, hmac: (seq<int>, seq<int>) -> Digest, token: string) {
    token == TotpAt(key, step, hmac) || token == TotpAt(key, step - 1, hmac) || token == TotpAt(key, step + 1, hmac)
  }

  /** `verifyTOTP`: the token equals the current step's password, else the previous one's,
      else the next one's. */
  method VerifyTotp(secret: string, token: string, now: int, hmac: (seq<int>, seq<int>) -> Digest) returns (ok: bool)
    ensures ok <==> Accepts(Base32Decode(secret), Step(now), hmac, token)
  {
    ghost var key := Base32Decode(secret);
    var current := GenerateTotp(secret, now, hmac);
    if current == token {
      assert Accepts(key, Step(now), hmac, token) by { WindowIsOneStep(key, Step(now), Step(now), hmac); }
      return true;
    }
    var prev := GenerateTotpAtTime(secret, Step(now) - 1, hmac);
    if prev == token {
      assert Accepts(key, Step(now), hmac, token) by { WindowIsOneStep(key, Step(now) - 1, Step(now), hmac); }
      return true;
    }
    var next := GenerateTotpAtTime(secret, Step(now) + 1, hmac);
    ok := next == token;
    if ok {
      assert Accepts(key, Step(now), hmac, token) by { WindowIsOneStep(key, Step(now) + 1, Step(now), hmac); }
    } else {
      assert !Accepts(key, Step(now), hmac, token) by {
        assert token != current && token != prev && token != next;
      }
    }
  }

  /** A password generated in one time step is accepted in any step at most one away. */
  lemma WindowIsOneStep(key: seq<int>, counter: int, step: int, hmac: (seq<int>, seq<int>) -> Digest)
    requires -1 <= step - counter <= 1
    ensures Accepts(key, step, hmac, TotpAt(key, counter, hmac))
  {
    if counter == step - 1 {
      assert TotpAt(key, counter, hmac) == TotpAt(key, step - 1, hmac);
    } else if counter == step + 1 {
      assert TotpAt(key, counter, hmac) == TotpAt(key, step + 1, hmac);
    } else {
      assert counter == step;
    }
  }

  // ---------------------------------------------------------------- a partner for decoding

  /** The base32 character of a five-bit value. */
  function Base32Char(v: int): (c: char)
    requires 0 <= v < 32
    ensures IndexOf(c) == v
  {
    if v < 26 then ('A' as int + v) as char else ('2' as int + v - 26) as char
  }

  /** Five octets written as eight base32 characters (section 6 of RFC 4648, no padding). */
  function EncodeGroup(octets: seq<int>): (cs: string)
    requires |octets| == 5 && DigitsIn(octets, 256)
    ensures |cs| == 8
  {
    ValueBEBound(octets, 256);
    var ds := DigitsBE(ValueBE(octets, 256), 32, GROUP_CHARS);
    seq(8, i requires 0 <= i < 8 => Base32Char(ds[i]))
  }

  /** Characters that are all in the alphabet contribute every value. */
  lemma {:induction false} ValuesOfEncoded(ds: seq<int>, cs: string)
    requires DigitsIn(ds, 32) && |cs| == |ds|
    requires forall i :: 0 <= i < |ds| ==> cs[i] == Base32Char(ds[i])
    ensures Values(cs) == ds
  {
    if |ds| > 0 {
      var n := |ds|;
      ValuesOfEncoded(ds[..n - 1], cs[..n - 1]);
      assert ds == ds[..n - 1] + [ds[n - 1]];
    }
  }

  /** Eight alphabet characters decode to five octets, and these are the octets they encode. */
  lemma DecodeEncodedGroup(octets: seq<int>)
    requires |octets| == 5 && DigitsIn(octets, 256)
    ensures DecodeGroup(EncodeGroup(octets)) == octets
  {
    var v := ValueBE(octets, 256);
    ValueBEBound(octets, 256);
    var ds := DigitsBE(v, 32, GROUP_CHARS);
    ValuesOfEncoded(ds, EncodeGroup(octets));
    KnownPowers();
    DigitsBEValue(v, 32, GROUP_CHARS);
    DivModUnique(v, Pow(32, GROUP_CHARS), 0, v);
    BitStringValue(ds);
    var bs := BitString(ds);
    OctetsValue(bs);
    OctetsAreBytes(bs);
    DigitsOfValueBE(Octets(bs), 256);
    DigitsOfValueBE(octets, 256);
  }
}
