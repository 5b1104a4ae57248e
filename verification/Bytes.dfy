/** Bytes, the big-endian integers of packet headers, and lengths written as 16 bits. */
module Bytes {

  type byte = bv8

  // ----- `to_be_bytes` and `from_be_bytes` -----

  function BytesOf16(n: bv16): (b: seq<byte>)
    ensures |b| == 2
  {
    [(n >> 8) as byte, (n & 0xFF) as byte]
  }

  function Value16(b: seq<byte>): bv16
    requires |b| == 2
  {
    ((b[0] as bv16) << 8) | (b[1] as bv16)
  }

  function BytesOf32(n: bv32): (b: seq<byte>)
    ensures |b| == 4
  {
    [(n >> 24) as byte, ((n >> 16) & 0xFF) as byte, ((n >> 8) & 0xFF) as byte, (n & 0xFF) as byte]
  }

  function Value32(b: seq<byte>): bv32
    requires |b| == 4
  {
    ((b[0] as bv32) << 24) | ((b[1] as bv32) << 16) | ((b[2] as bv32) << 8) | (b[3] as bv32)
  }

  lemma Value16Inverts(n: bv16)
    ensures Value16(BytesOf16(n)) == n
    ensures var b := BytesOf16(n); ((b[0] as bv16) << 8) | (b[1] as bv16) == n
  {
  }

  lemma Value32Inverts(n: bv32)
    ensures Value32(BytesOf32(n)) == n
    ensures var b := BytesOf32(n);
            ((b[0] as bv32) << 24) | ((b[1] as bv32) << 16) | ((b[2] as bv32) << 8) | (b[3] as bv32) == n
  {
  }

  // ----- Lengths -----

  /** Is the binary digit of `n` worth `k` set? */
  predicate HasDigit(n: nat, k: nat)
    requires k > 0
  {
    n / k % 2 == 1
  }

  function Mask(on: bool, mask: byte): byte {
    if on then mask else 0
  }

  function Worth(on: bool, k: nat): nat {
    if on then k else 0
  }

  /** `n as u8`: the low eight binary digits. */
  function ByteOf(n: nat): byte {
    Mask(HasDigit(n, 128), 0x80) | Mask(HasDigit(n, 64), 0x40) | Mask(HasDigit(n, 32), 0x20)
    | Mask(HasDigit(n, 16), 0x10) | Mask(HasDigit(n, 8), 0x08) | Mask(HasDigit(n, 4), 0x04)
    | Mask(HasDigit(n, 2), 0x02) | Mask(HasDigit(n, 1), 0x01)
  }

  /** The number a byte stands for. */
  function NatOf(b: byte): nat {
    Worth(b & 0x80 != 0, 128) + Worth(b & 0x40 != 0, 64) + Worth(b & 0x20 != 0, 32) + Worth(b & 0x10 != 0, 16)
    + Worth(b & 0x08 != 0, 8) + Worth(b & 0x04 != 0, 4) + Worth(b & 0x02 != 0, 2) + Worth(b & 0x01 != 0, 1)
  }

  function Rem(n: nat, k: nat): nat
    requires k > 0
  {
    n % k
  }

  /** Dividing by `k * m` is dividing by `k` and then by `m`. */
  lemma SplitRemainder(n: nat, k: nat, m: nat)
    requires k > 0 && m > 0
    ensures k * m > 0 && Rem(n, k * m) == (n / k % m) * k + n % k
  {
    var q, r := n / k, n % k;
    var a, b := q / m, q % m;
    assert n == k * q + r && q == m * a + b;
    Regroup(k, m, a, b);
    Below(k, m, b);
    RemainderUnique(n, k * m, a, b * k + r);
  }

  lemma Regroup(k: nat, m: nat, a: nat, b: nat)
    ensures k * (m * a + b) == (k * m) * a + b * k
  {
  }

  lemma Below(k: nat, m: nat, b: nat)
    requires b < m
    ensures k * m >= b * k + k
  {
    assert k * (m - b - 1) >= 0;
  }

  lemma RemainderUnique(n: nat, d: nat, q: nat, r: nat)
    requires r < d && n == d * q + r
    ensures n % d == r
  {
    var q': int, r': int := n / d, n % d;
    var x: int := q' - q;
    assert d * x == (r as int) - r';
    Multiple(d, x);
  }

  lemma Multiple(d: nat, x: int)
    ensures x >= 1 ==> d * x >= d
    ensures x <= -1 ==> d * x + d <= 0
  {
  }

  lemma TopDigit(n: nat, k: nat)
    requires k > 0
    ensures Rem(n, 2 * k) == Worth(HasDigit(n, k), k) + Rem(n, k)
  {
    SplitRemainder(n, k, 2);
  }

  lemma NatOfByteOf(n: nat)
    ensures NatOf(ByteOf(n)) == Rem(n, 0x100)
  {
    hide ByteOf, Rem, HasDigit;
    ByteDigits(n);
    TopDigit(n, 128);
    TopDigit(n, 64);
    TopDigit(n, 32);
    TopDigit(n, 16);
    TopDigit(n, 8);
    TopDigit(n, 4);
    TopDigit(n, 2);
    TopDigit(n, 1);
    assert Rem(n, 1) == 0 by {
      RemOne(n);
    }
  }

  lemma RemOne(n: nat)
    ensures Rem(n, 1) == 0
  {
  }

  lemma ByteDigits(n: nat)
    ensures var b := ByteOf(n);
            && (b & 0x80 != 0) == HasDigit(n, 128) && (b & 0x40 != 0) == HasDigit(n, 64)
            && (b & 0x20 != 0) == HasDigit(n, 32) && (b & 0x10 != 0) == HasDigit(n, 16)
            && (b & 0x08 != 0) == HasDigit(n, 8) && (b & 0x04 != 0) == HasDigit(n, 4)
            && (b & 0x02 != 0) == HasDigit(n, 2) && (b & 0x01 != 0) == HasDigit(n, 1)
  {
  }

  /** `n as u16` in big-endian order; the cast drops everything above sixteen bits. */
  function LengthBytes(n: nat): (b: seq<byte>)
    ensures |b| == 2
  {
    [ByteOf(n / 0x100), ByteOf(n)]
  }

  function LengthValue(b: seq<byte>): nat
    requires |b| == 2
  {
    NatOf(b[0]) * 0x100 + NatOf(b[1])
  }

  lemma NatOfIsValue(b: byte)
    ensures NatOf(b) == b as nat
  {
  }

  /** The high byte first; a length survives the 16-bit field exactly when it fits. */
  lemma LengthTruncates(n: nat)
    ensures var b := LengthBytes(n); (b[0] as nat) * 0x100 + (b[1] as nat) == n % 0x1_0000
    ensures LengthValue(LengthBytes(n)) == n % 0x1_0000
    ensures LengthValue(LengthBytes(n)) == n <==> n < 0x1_0000
  {
    hide ByteOf, NatOf;
    NatOfByteOf(n / 0x100);
    NatOfByteOf(n);
    NatOfIsValue(ByteOf(n / 0x100));
    NatOfIsValue(ByteOf(n));
    SplitRemainder(n, 0x100, 0x100);
  }
}
