/**
 Go's unsigned varints (encoding/binary), which are the unsigned LEB128 integers of
 section 7.6 of DWARF Version 5 cut off at 64 bits: at most ten bytes, the tenth at most 1.
 */
module Varint {
  import opened Types

  /** binary.MaxVarintLen64 */
  const MAX_VARINT_LEN := 10

  function Encode(x: nat): (b: Bytes)
    ensures |b| >= 1
  {
    if x < 0x80 then [x] else [x % 0x80 + 0x80] + Encode(x / 0x80)
  }

  /** The value read and the number of bytes it took; `n <= 0` reports a truncated or too long varint. */
  datatype Decoded = Decoded(value: nat, n: int)

  /** Decode `b` as what is left of a varint once its first `i` bytes have been read. */
  function DecodeFrom(b: Bytes, i: nat): (d: Decoded)
    ensures d.n > 0 ==> i < d.n <= i + |b|
    decreases |b|
  {
    if b == [] then Decoded(0, 0)
    else if i == MAX_VARINT_LEN then Decoded(0, -(i + 1))
    else if b[0] < 0x80 then
      if i == MAX_VARINT_LEN - 1 && b[0] > 1 then Decoded(0, -(i + 1)) else Decoded(b[0], i + 1)
    else
      var rest := DecodeFrom(b[1..], i + 1);
      if rest.n <= 0 then Decoded(0, rest.n) else Decoded(b[0] - 0x80 + 0x80 * rest.value, rest.n)
  }

  function Decode(b: Bytes): (d: Decoded)
    ensures d.n > 0 ==> d.n <= |b|
  {
    DecodeFrom(b, 0)
  }

  function Pow128(i: nat): (p: nat)
    ensures p >= 1
  {
    if i == 0 then 1 else 0x80 * Pow128(i - 1)
  }

  lemma Pow128Nine()
    ensures 2 * Pow128(9) == TWO64
  {
    assert Pow128(3) == 0x20_0000;
    assert Pow128(6) == 0x400_0000_0000 by { assert Pow128(4) == 0x1000_0000; }
    assert Pow128(7) == 0x80 * Pow128(6);
    assert Pow128(8) == 0x80 * Pow128(7);
    assert Pow128(9) == 0x80 * Pow128(8);
  }

  /** What `Decode` reads from a whole varint is what was encoded, whatever follows it. */
  lemma {:induction false} RoundTripFrom(x: nat, rest: Bytes, i: nat)
    requires i <= 9 && x < 2 * Pow128(9 - i)
    ensures DecodeFrom(Encode(x) + rest, i) == Decoded(x, i + |Encode(x)|)
    ensures i + |Encode(x)| <= MAX_VARINT_LEN
  {
    var b := Encode(x) + rest;
    if x >= 0x80 {
      assert i < 9;
      assert b[1..] == Encode(x / 0x80) + rest;
      RoundTripFrom(x / 0x80, rest, i + 1);
    }
  }

  lemma RoundTrip(x: nat, rest: Bytes)
    requires x < TWO64
    ensures Decode(Encode(x) + rest) == Decoded(x, |Encode(x)|)
    ensures |Encode(x)| <= MAX_VARINT_LEN
  {
    Pow128Nine();
    RoundTripFrom(x, rest, 0);
  }

  /** A varint cut short is reported as truncated, never as some other number. */
  lemma {:induction false} TruncatedFrom(x: nat, n: nat, i: nat)
    requires i <= 9 && x < 2 * Pow128(9 - i)
    requires n < |Encode(x)|
    ensures DecodeFrom(Encode(x)[..n], i) == Decoded(0, 0)
  {
    if n > 0 {
      assert x >= 0x80 && i < 9;
      assert Encode(x)[..n][1..] == Encode(x / 0x80)[..n - 1];
      TruncatedFrom(x / 0x80, n - 1, i + 1);
    }
  }

  lemma Truncated(x: nat, n: nat)
    requires x < TWO64 && n < |Encode(x)|
    ensures Decode(Encode(x)[..n]) == Decoded(0, 0)
  {
    Pow128Nine();
    TruncatedFrom(x, n, 0);
  }

  /** Nothing that is decoded leaves 64 bits. */
  lemma DecodedFits(b: Bytes)
    ensures Decode(b).value < TWO64
  {
    Pow128Nine();
    DecodedFitsFrom(b, 0);
  }

  lemma {:induction false} DecodedFitsFrom(b: Bytes, i: nat)
    requires i <= 9
    ensures DecodeFrom(b, i).value < 2 * Pow128(9 - i)
  {
    if b != [] && b[0] >= 0x80 && i < 9 {
      DecodedFitsFrom(b[1..], i + 1);
      assert Pow128(9 - i) == 0x80 * Pow128(9 - i - 1);
    } else if b != [] && i < 9 {
      Pow128Monotone(1, 9 - i);
      assert Pow128(1) == 0x80 * Pow128(0);
    }
  }

  // ---- what the bytes are ----

  /** The number the low seven bits of the bytes make up, the first byte's the least significant. */
  function Groups(b: Bytes): nat {
    if b == [] then 0 else Groups(b[..|b| - 1]) + b[|b| - 1] % 0x80 * Pow128(|b| - 1)
  }

  lemma {:induction false} GroupsHead(b: Bytes)
    requires b != []
    ensures Groups(b) == b[0] % 0x80 + 0x80 * Groups(b[1..])
  {
    var n := |b| - 1;
    if n == 0 {
      assert b[..n] == b[1..] == [];
      assert Pow128(0) == 1;
    } else {
      GroupsHead(b[..n]);
      assert b[..n][1..] == b[1..][..n - 1];
      assert Pow128(n) == 0x80 * Pow128(n - 1);
      Scaled(b[n] % 0x80, Pow128(n - 1));
    }
  }

  lemma NoGroups()
    ensures Groups([]) == 0
  {
  }

  lemma Scaled(x: nat, p: nat)
    ensures x * (0x80 * p) == 0x80 * (x * p)
  {
  }

  /** All bytes but the last have the top bit set. */
  predicate Terminated(b: Bytes) {
    && b != [] && b[|b| - 1] < 0x80
    && forall i :: 0 <= i < |b| - 1 ==> b[i] >= 0x80
  }

  /** `b` is the LEB128 encoding of `x`: it is terminated, makes up `x`, and has no superfluous last byte. */
  predicate Leb128(b: Bytes, x: nat) {
    && Terminated(b) && Groups(b) == x
    && (|b| > 1 ==> b[|b| - 1] != 0)
  }

  /** The encoding is the LEB128 one, and there is no other. */
  lemma {:induction false} EncodeIsLeb128(x: nat, b: Bytes)
    ensures Leb128(b, x) <==> b == Encode(x)
  {
    if b == Encode(x) {
      EncodedIsLeb128(x);
    }
    if Leb128(b, x) {
      Leb128IsEncoded(b, x);
    }
  }

  lemma {:induction false} EncodedIsLeb128(x: nat)
    ensures Leb128(Encode(x), x)
  {
    GroupsHead(Encode(x));
    hide Groups, Pow128;
    if x >= 0x80 {
      EncodeMore(x);
      EncodedIsLeb128(x / 0x80);
      hide Encode;
    } else {
      NoGroups();
    }
  }

  lemma {:induction false} Leb128IsEncoded(b: Bytes, x: nat)
    requires Leb128(b, x)
    ensures b == Encode(x)
  {
    GroupsHead(b);
    NoGroups();
    hide Groups, Pow128;
    if |b| == 1 {
      assert b[1..] == [];
    } else {
      NotZero(b[1..]);
      Leb128IsEncoded(b[1..], x / 0x80);
    }
  }

  lemma {:induction false} NotZero(b: Bytes)
    requires Terminated(b) && b[|b| - 1] != 0
    ensures Groups(b) > 0
  {
    GroupsHead(b);
    if |b| > 1 {
      NotZero(b[1..]);
    }
  }

  /**
   What decoding makes of any bytes that start with a terminated varint, superfluous bytes
   included: its value and length, unless it is longer than ten bytes or leaves 64 bits.
   */
  lemma {:induction false} DecodeTerminated(b: Bytes, n: nat)
    requires n <= |b| && Terminated(b[..n])
    ensures Decode(b) ==
            if n > 10 then Decoded(0, -11)
            else if n == 10 && b[9] > 1 then Decoded(0, -10)
            else Decoded(Groups(b[..n]), n)
  {
    DecodeTerminatedFrom(b, n, 0);
  }

  lemma {:induction false} DecodeTerminatedFrom(b: Bytes, n: nat, i: nat)
    requires n <= |b| && Terminated(b[..n]) && i <= 10
    ensures DecodeFrom(b, i) ==
            if i + n > 10 then Decoded(0, -11)
            else if i + n == 10 && b[n - 1] > 1 then Decoded(0, -10)
            else Decoded(Groups(b[..n]), i + n)
  {
    hide Groups, Pow128;
    var first := b[..n];
    assert b[0] == first[0] && b[n - 1] == first[n - 1];
    GroupsHead(first);
    NoGroups();
    if n > 1 {
      assert first[1..] == b[1..][..n - 1];
      if i < 10 {
        DecodeTerminatedFrom(b[1..], n - 1, i + 1);
      }
    } else {
      assert first[1..] == [];
    }
  }

  /** And of bytes that do not: cut short, or too long. */
  lemma {:induction false} DecodeUnterminated(b: Bytes)
    requires forall i :: 0 <= i < |b| ==> b[i] >= 0x80
    ensures Decode(b) == if |b| > 10 then Decoded(0, -11) else Decoded(0, 0)
  {
    DecodeUnterminatedFrom(b, 0);
  }

  lemma {:induction false} DecodeUnterminatedFrom(b: Bytes, i: nat)
    requires (forall k :: 0 <= k < |b| ==> b[k] >= 0x80) && i <= 10
    ensures DecodeFrom(b, i) == if i + |b| > 10 then Decoded(0, -11) else Decoded(0, 0)
  {
    if b != [] && i < 10 {
      DecodeUnterminatedFrom(b[1..], i + 1);
    }
  }

  /** binary.AppendUvarint */
  method AppendUvarint(buf: Bytes, x: nat) returns (r: Bytes)
    requires x < TWO64
    ensures r == buf + Encode(x)
  {
    r := buf;
    var y := x;
    while y >= 0x80
      invariant r + Encode(y) == buf + Encode(x)
    {
      ghost var before := r + Encode(y);
      r := r + [y % 0x80 + 0x80];
      assert r + Encode(y / 0x80) == before;
      y := y / 0x80;
    }
    assert Encode(y) == [y];
    r := r + [y];
  }

  lemma EncodeMore(y: nat)
    requires y >= 0x80
    ensures Encode(y) == [y % 0x80 + 0x80] + Encode(y / 0x80) && |Encode(y)| == 1 + |Encode(y / 0x80)|
  {
  }

  lemma EncodeLast(y: nat)
    requires y < 0x80
    ensures Encode(y) == [y]
  {
  }

  /** binary.PutUvarint, which writes into a caller's buffer and answers how many bytes it used. */
  method PutUvarint(buf: array<Byte>, x: nat) returns (n: nat)
    requires buf.Length >= MAX_VARINT_LEN && x < TWO64
    modifies buf
    ensures n <= buf.Length && buf[..n] == Encode(x)
  {
    RoundTrip(x, []);
    hide Encode, Decode, DecodeFrom, Pow128;
    n := 0;
    var y := x;
    while y >= 0x80
      invariant n + |Encode(y)| == |Encode(x)| <= MAX_VARINT_LEN
      invariant buf[..n] + Encode(y) == Encode(x)
    {
      ghost var before := buf[..n];
      EncodeMore(y);
      buf[n] := y % 0x80 + 0x80;
      assert buf[..n + 1] == before + [y % 0x80 + 0x80];
      assert buf[..n + 1] + Encode(y / 0x80) == before + Encode(y);
      y := y / 0x80;
      n := n + 1;
    }
    EncodeLast(y);
    buf[n] := y;
    n := n + 1;
    assert buf[..n] == buf[..n - 1] + [y];
  }

  /** How the value read so far and the value still to come combine. */
  function Combine(x: nat, scale: nat, d: Decoded): Decoded {
    if d.n <= 0 then Decoded(0, d.n) else Decoded(x + scale * d.value, d.n)
  }

  /** One continuation byte: its seven bits move from what is to come into what has been read. */
  lemma CombineStep(buf: Bytes, i: nat, acc: nat)
    requires i < |buf| && i < MAX_VARINT_LEN && buf[i] >= 0x80
    requires acc < Pow128(i)
    ensures var acc' := acc + ((buf[i] % 0x80) * Pow128(i)) % TWO64;
            && (i < MAX_VARINT_LEN - 1 ==> acc' < Pow128(i + 1))
            && Combine(acc, Pow128(i), DecodeFrom(buf[i..], i)) ==
                Combine(acc', Pow128(i + 1), DecodeFrom(buf[i + 1..], i + 1))
  {
    assert buf[i..][1..] == buf[i + 1..];
    var b, v, p := buf[i] - 0x80, DecodeFrom(buf[i + 1..], i + 1).value, Pow128(i);
    assert b == buf[i] % 0x80;
    assert acc + p * (b + 0x80 * v) == (acc + b * p) + (p * 0x80) * v;
    if i < MAX_VARINT_LEN - 1 {
      ShiftFits(i, b);
    } else {
      assert DecodeFrom(buf[i + 1..], i + 1).n <= 0;
    }
  }

  lemma {:induction false} Pow128Monotone(i: nat, j: nat)
    requires i <= j
    ensures Pow128(i) <= Pow128(j)
    decreases j
  {
    if i < j {
      Pow128Monotone(i, j - 1);
    }
  }

  /** Only the tenth group can lose bits to the 64-bit shift. */
  lemma ShiftFits(i: nat, b: nat)
    requires i < 9 && b < 0x80
    ensures (b * Pow128(i)) % TWO64 == b * Pow128(i) <= Pow128(i + 1) - Pow128(i)
  {
    Pow128Nine();
    Pow128Monotone(i + 1, 9);
    assert b * Pow128(i) <= 0x7F * Pow128(i);
  }

  /** binary.Uvarint; the shifted seven-bit groups do not overlap, so `|=` is addition, modulo 2^64. */
  method Uvarint(buf: Bytes) returns (x: nat, n: int)
    ensures Decoded(x, n) == Decode(buf)
  {
    var acc: nat := 0;
    var scale: nat := 1;
    assert buf[0..] == buf;
    for i := 0 to |buf|
      invariant i <= MAX_VARINT_LEN && scale == Pow128(i)
      invariant Decode(buf) == Combine(acc, scale, DecodeFrom(buf[i..], i))
      invariant i < MAX_VARINT_LEN ==> acc < scale
    {
      var b := buf[i];
      if i == MAX_VARINT_LEN {
        return 0, -(i + 1);
      }
      if b < 0x80 {
        if i == MAX_VARINT_LEN - 1 && b > 1 {
          return 0, -(i + 1);
        }
        return acc + scale * b, i + 1;
      }
      CombineStep(buf, i, acc);
      acc := acc + ((b % 0x80) * scale) % TWO64;
      scale := scale * 0x80;
    }
    return 0, 0;
  }
}
