/** Bytes as numbers, and fixed-width unsigned words read from and written to them. */
module Bytes {

  type Byte = b: int | 0 <= b < 256

  const TWO16 := 0x1_0000
  const TWO32 := 0x1_0000_0000
  const TWO64 := 0x1_0000_0000_0000_0000

  type Uint16 = n: int | 0 <= n < TWO16
  type Uint32 = n: int | 0 <= n < TWO32
  type Uint64 = n: int | 0 <= n < TWO64

  /** A 16-bit word from its high and low byte. */
  function Word(hi: Byte, lo: Byte): (w: Uint16) {
    256 * (hi as int) + (lo as int)
  }

  /** TWO16 to the power n. */
  function Pow16(n: nat): (r: nat)
    ensures r >= 1
  {
    if n == 0 then 1 else TWO16 * Pow16(n - 1)
  }

  /** The big-endian value of an even number of bytes. */
  function BigEndian(b: seq<Byte>): (r: nat)
    requires |b| % 2 == 0
    ensures r < Pow16(|b| / 2)
  {
    if b == [] then 0
    else
      var n := |b| - 2;
      TWO16 * BigEndian(b[..n]) + Word(b[n], b[n + 1])
  }

  /** The little-endian value of an even number of bytes. */
  function LittleEndian(b: seq<Byte>): (r: nat)
    requires |b| % 2 == 0
    ensures r < Pow16(|b| / 2)
  {
    if b == [] then 0 else Word(b[1], b[0]) + TWO16 * LittleEndian(b[2..])
  }

  function PutLittleEndian(n: nat, k: nat): (b: seq<Byte>)
    ensures |b| == 2 * k
  {
    if k == 0 then [] else [n % 256, n / 256 % 256] + PutLittleEndian(n / TWO16, k - 1)
  }

  function PutBigEndian(n: nat, k: nat): (b: seq<Byte>)
    ensures |b| == 2 * k
  {
    if k == 0 then [] else PutBigEndian(n / TWO16, k - 1) + [n / 256 % 256, n % 256]
  }

  lemma Digits(n: nat)
    ensures TWO16 * (n / TWO16) + 256 * (n / 256 % 256) + n % 256 == n
  {
    assert n / 256 / 256 == n / TWO16;
  }

  lemma {:induction false} LittleEndianRoundTrip(n: nat, k: nat)
    requires n < Pow16(k)
    ensures LittleEndian(PutLittleEndian(n, k)) == n
  {
    if k > 0 {
      LittleEndianRoundTrip(n / TWO16, k - 1);
      Digits(n);
      assert PutLittleEndian(n, k)[2..] == PutLittleEndian(n / TWO16, k - 1);
    }
  }

  lemma {:induction false} BigEndianRoundTrip(n: nat, k: nat)
    requires n < Pow16(k)
    ensures BigEndian(PutBigEndian(n, k)) == n
  {
    if k > 0 {
      BigEndianRoundTrip(n / TWO16, k - 1);
      Digits(n);
      assert PutBigEndian(n, k)[..2 * k - 2] == PutBigEndian(n / TWO16, k - 1);
    }
  }

  function Read16(b: seq<Byte>, at: nat): Uint16
    requires at + 2 <= |b|
  {
    Word(b[at], b[at + 1])
  }

  function Read32(b: seq<Byte>, at: nat): Uint32
    requires at + 4 <= |b|
  {
    TWO16 * Read16(b, at) + Read16(b, at + 2)
  }

  /** r is b with the 16-bit word at position `at` set to n. */
  ghost predicate Put16(b: seq<Byte>, at: nat, n: Uint16, r: seq<Byte>) {
    && at + 2 <= |b| == |r| && Read16(r, at) == n
    && r[..at] == b[..at] && r[at + 2..] == b[at + 2..]
  }

  method PutUint16(b: seq<Byte>, at: nat, n: Uint16) returns (r: seq<Byte>)
    requires at + 2 <= |b|
    ensures Put16(b, at, n, r)
    ensures forall i :: 0 <= i < |b| && i != at && i != at + 1 ==> r[i] == b[i]
  {
    r := b[at := n / 256][at + 1 := n % 256];
  }

  method PutUint32(b: seq<Byte>, at: nat, n: Uint32) returns (r: seq<Byte>)
    requires at + 4 <= |b|
    ensures |r| == |b| && Read32(r, at) == n
    ensures forall i :: 0 <= i < |b| && !(at <= i < at + 4) ==> r[i] == b[i]
  {
    r := PutUint16(b, at, n / TWO16);
    r := PutUint16(r, at + 2, n % TWO16);
  }
}
