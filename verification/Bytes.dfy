/** Byte strings and big-endian integers, as the wire codecs use them. */
module Bytes {
  type byte = x: int | 0 <= x < 256

  type Id16 = s: seq<byte> | |s| == 16 witness seq(16, _ => 0)
  type Id32 = s: seq<byte> | |s| == 32 witness seq(32, _ => 0)
  type Uint64 = x: int | 0 <= x < 0x1_0000_0000_0000_0000

  predicate AllZero(s: seq<byte>) {
    forall i | 0 <= i < |s| :: s[i] == 0
  }

  /** 256 to the power w: the number of values w bytes can hold. */
  function Capacity(w: nat): (c: nat)
    ensures c >= 1
  {
    if w == 0 then 1 else 256 * Capacity(w - 1)
  }

  /** The w-byte big-endian form of n. */
  function BigEndian(n: nat, w: nat): (s: seq<byte>)
    requires n < Capacity(w)
    ensures |s| == w
    decreases w
  {
    if w == 0 then [] else BigEndian(n / 256, w - 1) + [n % 256]
  }

  /** The unsigned integer that the first n bytes denote, most significant first. */
  function PrefixValue(s: seq<byte>, n: nat): (v: nat)
    requires n <= |s|
    ensures v < Capacity(n)
  {
    if n == 0 then 0 else 256 * PrefixValue(s, n - 1) + s[n - 1]
  }

  /** The unsigned integer a big-endian byte string denotes. */
  function Value(s: seq<byte>): nat {
    PrefixValue(s, |s|)
  }

  lemma {:induction false} PrefixValueAgrees(s: seq<byte>, t: seq<byte>, n: nat)
    requires n <= |s| && n <= |t| && s[..n] == t[..n]
    ensures PrefixValue(s, n) == PrefixValue(t, n)
  {
    if n != 0 {
      assert s[..n - 1] == s[..n][..n - 1] == t[..n - 1];
      assert s[n - 1] == s[..n][n - 1] == t[n - 1];
      PrefixValueAgrees(s, t, n - 1);
    }
  }

  lemma {:induction false} ValueOfBigEndian(n: nat, w: nat)
    requires n < Capacity(w)
    ensures Value(BigEndian(n, w)) == n
  {
    if w != 0 {
      var s, high := BigEndian(n, w), BigEndian(n / 256, w - 1);
      ValueOfBigEndian(n / 256, w - 1);
      assert s[..w - 1] == high[..w - 1];
      PrefixValueAgrees(s, high, w - 1);
    }
  }

  lemma {:induction false} BigEndianOfPrefix(s: seq<byte>, n: nat)
    requires n <= |s|
    ensures BigEndian(PrefixValue(s, n), n) == s[..n]
  {
    if n != 0 {
      BigEndianOfPrefix(s, n - 1);
      assert PrefixValue(s, n) / 256 == PrefixValue(s, n - 1);
      assert s[..n] == s[..n - 1] + [s[n - 1]];
    }
  }

  lemma Capacities()
    ensures Capacity(2) == 0x1_0000
    ensures Capacity(4) == 0x1_0000_0000
    ensures Capacity(8) == 0x1_0000_0000_0000_0000
  {
    assert Capacity(2) == 256 * Capacity(1) && Capacity(1) == 256;
    assert Capacity(4) == 256 * Capacity(3) && Capacity(3) == 256 * Capacity(2);
    assert Capacity(6) == 256 * Capacity(5) && Capacity(5) == 256 * Capacity(4);
    assert Capacity(8) == 256 * Capacity(7) && Capacity(7) == 256 * Capacity(6);
  }

  /** The eight bytes binary.BigEndian.PutUint64 writes. */
  function Uint64Bytes(n: Uint64): (s: seq<byte>)
    ensures |s| == 8 && Value(s) == n
  {
    Capacities();
    ValueOfBigEndian(n, 8);
    BigEndian(n, 8)
  }

  /** The four bytes binary.BigEndian.PutUint32 writes. */
  function Uint32Bytes(n: nat): (s: seq<byte>)
    requires n < 0x1_0000_0000
    ensures |s| == 4 && Value(s) == n
  {
    Capacities();
    ValueOfBigEndian(n, 4);
    BigEndian(n, 4)
  }

  /** The most significant byte comes first. */
  lemma FourBytes(s: seq<byte>)
    requires |s| == 4
    ensures Value(s) == s[0] as int * 0x100_0000 + s[1] as int * 0x1_0000 + s[2] as int * 0x100 + s[3] as int
  {
    var one, two := PrefixValue(s, 1), PrefixValue(s, 2);
    assert PrefixValue(s, 0) == 0 && one == s[0] && two == 256 * one + s[1];
    assert PrefixValue(s, 3) == 256 * two + s[2] && PrefixValue(s, 4) == 256 * PrefixValue(s, 3) + s[3];
  }

  lemma EightBytes(s: seq<byte>)
    requires |s| == 8
    ensures Value(s) == Value(s[..4]) * 0x1_0000_0000 + Value(s[4..])
  {
    var high, low := s[..4], s[4..];
    PrefixValueAgrees(s, high, 4);
    FourBytes(low);
    var five, six, seven := PrefixValue(s, 5), PrefixValue(s, 6), PrefixValue(s, 7);
    assert five == 256 * PrefixValue(s, 4) + low[0] && six == 256 * five + low[1] && seven == 256 * six + low[2];
    assert PrefixValue(s, 8) == 256 * seven + low[3];
  }

  /** binary.BigEndian.Uint64: the inverse of Uint64Bytes. */
  function ReadUint64(s: seq<byte>): (n: Uint64)
    requires |s| == 8
    ensures Uint64Bytes(n) == s
  {
    Capacities();
    BigEndianOfPrefix(s, 8);
    assert s[..8] == s;
    Value(s)
  }

  /** binary.BigEndian.Uint32: the inverse of Uint32Bytes. */
  function ReadUint32(s: seq<byte>): (n: nat)
    requires |s| == 4
    ensures n < 0x1_0000_0000 && Uint32Bytes(n) == s
  {
    Capacities();
    BigEndianOfPrefix(s, 4);
    assert s[..4] == s;
    Value(s)
  }

  /** Go's copy(buffer[at:], source): fills a part of the buffer in place. */
  method Blit(buffer: array<byte>, at: nat, source: seq<byte>)
    requires at + |source| <= buffer.Length
    modifies buffer
    ensures buffer[..at + |source|] == old(buffer[..at]) + source
    ensures buffer[at + |source|..] == old(buffer[at + |source|..])
  {
    for i := 0 to |source|
      invariant buffer[..at] == old(buffer[..at])
      invariant buffer[at..at + i] == source[..i]
      invariant buffer[at + |source|..] == old(buffer[at + |source|..])
    {
      buffer[at + i] := source[i];
    }
    assert buffer[..at + |source|] == buffer[..at] + buffer[at..at + |source|];
  }

  /** Allocates a buffer of the exact size and fills it in place. */
  method Assemble(first: seq<byte>, second: seq<byte>) returns (s: seq<byte>)
    ensures s == first + second
  {
    var buffer := new byte[|first| + |second|](_ => 0);
    Blit(buffer, 0, first);
    assert buffer[..|first|] == first;
    Blit(buffer, |first|, second);
    assert buffer[..] == buffer[..|first| + |second|];
    s := buffer[..];
  }
}
