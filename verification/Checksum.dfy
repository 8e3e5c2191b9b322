/**
  The Internet checksum, computed 64 bits at a time with end-around carry in the
  host's byte order, against the 16-bit one's-complement sum of section 2 of RFC 1071.
 */
module InternetChecksum {
  import opened Bytes

  /** One's-complement addition of 16-bit words. */
  function OnesAdd(a: Uint16, b: Uint16): Uint16 {
    if a + b < TWO16 then a + b else a + b - 0xFFFF
  }

  /** RFC 1071: add the big-endian 16-bit words of b to acc; an odd last byte is padded with zero. */
  function Rfc1071(b: seq<Byte>, acc: Uint16): Uint16 {
    if b == [] then acc
    else if |b| == 1 then OnesAdd(acc, Word(b[0], 0))
    else Rfc1071(b[2..], OnesAdd(acc, Word(b[0], b[1])))
  }

  /** A wide partial sum stands for the one's-complement sum of its 16-bit digits. */
  function PartialSum(n: nat): Uint16 {
    if n < TWO16 then n else OnesAdd(n % TWO16, PartialSum(n / TWO16))
  }

  /** The representative of n modulo 0xFFFF in one's complement: zero only for zero. */
  function Norm(n: nat): (r: Uint16)
    ensures r == 0 <==> n == 0
  {
    if n < TWO16 then n else Norm(n - 0xFFFF)
  }

  lemma {:induction false} NormQuotient(n: nat) returns (q: int)
    ensures q >= 0 && n == Norm(n) + 0xFFFF * q
  {
    if n < TWO16 {
      q := 0;
    } else {
      q := NormQuotient(n - 0xFFFF);
      q := q + 1;
    }
  }

  /** The plain sum of the 16-bit words. */
  function Sum(b: seq<Byte>): nat {
    if b == [] then 0
    else if |b| == 1 then Word(b[0], 0)
    else Word(b[0], b[1]) + Sum(b[2..])
  }

  lemma {:induction false} NormUp(b: nat, q: nat)
    requires b > 0
    ensures Norm(b + 0xFFFF * q) == Norm(b)
  {
    if q > 0 {
      NormUp(b, q - 1);
    }
  }

  /** Numbers that differ by a multiple of 0xFFFF stand for the same sum, zero aside. */
  lemma NormShift(a: nat, b: nat, q: int)
    requires a == b + 0xFFFF * q && (a == 0 <==> b == 0)
    ensures Norm(a) == Norm(b)
  {
    if a > 0 {
      if q >= 0 { NormUp(b, q); } else { NormUp(a, -q); }
    }
  }

  lemma NormAdd(a: nat, a': nat, c: nat)
    requires Norm(a) == Norm(a')
    ensures Norm(a + c) == Norm(a' + c)
  {
    var q := NormQuotient(a);
    var q' := NormQuotient(a');
    NormShift(a + c, a' + c, q - q');
  }

  lemma NormScale(a: nat, a': nat)
    requires Norm(a) == Norm(a')
    ensures Norm(256 * a) == Norm(256 * a')
  {
    var q := NormQuotient(a);
    var q' := NormQuotient(a');
    NormShift(256 * a, 256 * a', 256 * (q - q'));
  }

  lemma OnesAddNorm(a: nat, b: Uint16)
    ensures OnesAdd(Norm(a), b) == Norm(a + b)
  {
    var q := NormQuotient(a);
    NormShift(a + b, Norm(a) + b, q);
  }

  lemma {:induction false} Rfc1071IsNorm(b: seq<Byte>, n: nat)
    ensures Rfc1071(b, Norm(n)) == Norm(n + Sum(b))
  {
    if |b| == 1 {
      OnesAddNorm(n, Word(b[0], 0));
    } else if b != [] {
      OnesAddNorm(n, Word(b[0], b[1]));
      Rfc1071IsNorm(b[2..], n + Word(b[0], b[1]));
    }
  }

  lemma {:induction false} PartialSumIsNorm(n: nat)
    ensures PartialSum(n) == Norm(n)
  {
    if n >= TWO16 {
      PartialSumIsNorm(n / TWO16);
      OnesAddNorm(n / TWO16, n % TWO16);
      NormShift(n, n / TWO16 + n % TWO16, n / TWO16);
    }
  }

  lemma {:induction false} SumConcat(a: seq<Byte>, b: seq<Byte>, pairs: nat)
    requires |a| == 2 * pairs
    ensures Sum(a + b) == Sum(a) + Sum(b)
  {
    if a == [] {
      assert a + b == b;
    } else {
      SumConcat(a[2..], b, pairs - 1);
      assert (a + b)[2..] == a[2..] + b;
    }
  }

  /** How the host's byte order scales sums: swapping the bytes of every word multiplies by 256. */
  function Scaled(n: nat, big: bool): nat {
    if big then n else 256 * n
  }

  function Native(b: seq<Byte>, big: bool): nat
    requires |b| % 2 == 0
  {
    if big then BigEndian(b) else LittleEndian(b)
  }

  lemma LastWord(b: seq<Byte>, n: nat)
    requires n % 2 == 0 && |b| == n + 2
    ensures Sum(b) == Sum(b[..n]) + Word(b[n], b[n + 1])
  {
    assert b == b[..n] + [b[n], b[n + 1]];
    SumConcat(b[..n], [b[n], b[n + 1]], n / 2);
    assert Sum([b[n], b[n + 1]]) == Word(b[n], b[n + 1]);
  }

  lemma BigWord(be: nat, sum: nat, w: Uint16)
    requires Norm(be) == Norm(sum)
    ensures Norm(TWO16 * be + w) == Norm(sum + w)
  {
    NormAdd(be, sum, w);
    NormShift(TWO16 * be + w, be + w, be);
  }

  lemma {:induction false} BigEndianNorm(b: seq<Byte>)
    requires |b| % 2 == 0
    ensures Norm(BigEndian(b)) == Norm(Sum(b))
  {
    if b != [] {
      var n := |b| - 2;
      BigEndianNorm(b[..n]);
      LastWord(b, n);
      BigWord(BigEndian(b[..n]), Sum(b[..n]), Word(b[n], b[n + 1]));
    }
  }

  lemma FirstWord(b: seq<Byte>)
    requires |b| % 2 == 0 && b != []
    ensures LittleEndian(b) == Word(b[1], b[0]) + TWO16 * LittleEndian(b[2..])
    ensures Sum(b) == Word(b[0], b[1]) + Sum(b[2..])
  {}

  lemma {:induction false} LittleEndianNorm(b: seq<Byte>)
    requires |b| % 2 == 0
    ensures Norm(LittleEndian(b)) == Norm(256 * Sum(b))
  {
    hide Norm, LittleEndian, Sum, Word;
    if b == [] {
      NothingNorm();
    } else {
      FirstWord(b);
      LittleEndianNorm(b[2..]);
      LittleWord(b[0], b[1], LittleEndian(b[2..]), Sum(b[2..]));
    }
  }

  lemma NothingNorm()
    ensures LittleEndian([]) == Sum([]) == 0
  {}

  lemma LittleWord(b0: Byte, b1: Byte, le: nat, sum: nat)
    requires Norm(le) == Norm(256 * sum)
    ensures Norm(Word(b1, b0) + TWO16 * le) == Norm(256 * (Word(b0, b1) + sum))
  {
    NormAdd(le, 256 * sum, Word(b1, b0));
    NormShift(Word(b1, b0) + TWO16 * le, le + Word(b1, b0), le);
    NormShift(256 * (Word(b0, b1) + sum), 256 * sum + Word(b1, b0), b0);
  }

  lemma NativeNorm(b: seq<Byte>, big: bool)
    requires |b| % 2 == 0
    ensures Norm(Native(b, big)) == Norm(Scaled(Sum(b), big))
  {
    if big { BigEndianNorm(b); } else { LittleEndianNorm(b); }
  }

  /** Write a word in host order, read it back in network order. */
  function HostToNetwork(n: Uint64, big: bool): Uint64 {
    var b := if big then PutBigEndian(n, 4) else PutLittleEndian(n, 4);
    assert Pow16(4) == TWO64;
    BigEndian(b)
  }

  lemma HostToNetworkNorm(n: Uint64, big: bool)
    ensures Norm(HostToNetwork(n, big)) == Norm(Scaled(n, big))
  {
    assert Pow16(4) == TWO64;
    if big {
      BigEndianRoundTrip(n, 4);
    } else {
      var b := PutLittleEndian(n, 4);
      LittleEndianRoundTrip(n, 4);
      LittleEndianNorm(b);
      BigEndianNorm(b);
      NormScale(n, 256 * Sum(b));
      NormShift(256 * (256 * Sum(b)), Sum(b), Sum(b));
    }
  }

  lemma ScaledNorm(n: nat, m: nat, big: bool)
    requires Norm(n) == Norm(m)
    ensures Norm(Scaled(n, big)) == Norm(Scaled(m, big))
  {
    if !big { NormScale(n, m); }
  }

  lemma ScaledTwice(n: nat, big: bool)
    ensures Norm(Scaled(Scaled(n, big), big)) == Norm(n)
  {
    if !big { NormShift(256 * (256 * n), n, n); }
  }

  /** binary.NativeEndian reads a word of two, four or eight bytes. */
  method ReadNative(w: seq<Byte>, big: bool) returns (n: Uint64)
    requires |w| == 2 || |w| == 4 || |w| == 8
    ensures Norm(n) == Norm(Scaled(Sum(w), big))
  {
    assert Pow16(1) == TWO16 && Pow16(2) == TWO32 && Pow16(4) == TWO64;
    NativeNorm(w, big);
    n := Native(w, big);
  }

  /** bits.Add64. Seen together, sum and carry out never overflow, so the end-around carry can
      always be folded in, and then the addition is exact modulo 0xFFFF. */
  method Add64(x: Uint64, y: Uint64, carry: nat) returns (sum: Uint64, carryOut: nat)
    requires carry <= 1 && x + carry < TWO64
    ensures x + y + carry == sum + TWO64 * carryOut
    ensures carryOut <= 1 && sum + carryOut < TWO64
    ensures Norm(sum + carryOut) == Norm(x + carry + y)
  {
    sum, carryOut := (x + y + carry) % TWO64, (x + y + carry) / TWO64;
    NormShift(x + carry + y, sum + carryOut, carryOut * 0x1_0001_0001_0001);
  }

  lemma NextWord(sum: nat, ac: nat, before: nat, word: nat, w: nat, big: bool)
    requires Norm(sum) == Norm(ac + Scaled(before, big))
    requires Norm(word) == Norm(Scaled(w, big))
    ensures Norm(sum + word) == Norm(ac + Scaled(before + w, big))
  {
    NormAdd(sum, ac + Scaled(before, big), word);
    NormAdd(word, Scaled(w, big), ac + Scaled(before, big));
  }

  lemma SumNext(b: seq<Byte>, i: nat)
    requires 8 * i + 8 <= |b|
    ensures Sum(b[..8 * (i + 1)]) == Sum(b[..8 * i]) + Sum(b[8 * i..8 * i + 8])
  {
    SumConcat(b[..8 * i], b[8 * i..8 * i + 8], 4 * i);
    assert b[..8 * i] + b[8 * i..8 * i + 8] == b[..8 * (i + 1)];
  }

  /** One unrolled run of additions with carry over the first `count` words of b, ended by adding
      the last carry to the accumulator. */
  method AddWords(ac: Uint64, b: seq<Byte>, count: nat, big: bool) returns (r: Uint64)
    requires |b| >= 8 * count
    ensures Norm(r) == Norm(ac + Scaled(Sum(b[..8 * count]), big))
  {
    hide Norm;
    var carry := 0;
    r := ac;
    for i := 0 to count
      invariant carry <= 1 && r + carry < TWO64
      invariant Norm(r + carry) == Norm(ac + Scaled(Sum(b[..8 * i]), big))
    {
      var word := ReadNative(b[8 * i..8 * i + 8], big);
      NextWord(r + carry, ac, Sum(b[..8 * i]), word, Sum(b[8 * i..8 * i + 8]), big);
      SumNext(b, i);
      r, carry := Add64(r, word, carry);
    }
    r := r + carry;
  }

  /** Adding one word of two or four bytes. */
  method AddWord(ac: Uint64, w: seq<Byte>, big: bool) returns (r: Uint64)
    requires |w| == 2 || |w| == 4
    ensures Norm(r) == Norm(ac + Scaled(Sum(w), big))
  {
    var word := ReadNative(w, big);
    var sum, carry := Add64(ac, word, 0);
    NextWord(ac, ac, 0, word, Sum(w), big);
    r := sum + carry;
  }

  /** The accumulator holds the bytes that are no longer in rest. */
  ghost predicate Absorbed(ac: Uint64, rest: seq<Byte>, total: nat, big: bool) {
    Sum(rest) <= total && Norm(ac) == Norm(Scaled(total - Sum(rest), big))
  }

  lemma Absorb(ac: Uint64, rest: seq<Byte>, total: nat, k: nat, pairs: nat, next: Uint64, big: bool)
    requires Absorbed(ac, rest, total, big) && k == 2 * pairs && k <= |rest|
    requires Norm(next) == Norm(ac + Scaled(Sum(rest[..k]), big))
    ensures Absorbed(next, rest[k..], total, big)
  {
    assert rest == rest[..k] + rest[k..];
    SumConcat(rest[..k], rest[k..], pairs);
    NormAdd(ac, Scaled(total - Sum(rest), big), Scaled(Sum(rest[..k]), big));
  }

  /** One step of the word-size cascade: a run of eight-byte words, when there is one. */
  method StepRun(ac: Uint64, b: seq<Byte>, words: nat, big: bool, ghost total: nat)
    returns (next: Uint64, rest: seq<Byte>)
    requires |b| < 16 * words && Absorbed(ac, b, total, big)
    ensures |rest| < 8 * words && Absorbed(next, rest, total, big)
  {
    next, rest := ac, b;
    if |b| >= 8 * words {
      next := AddWords(ac, b, words, big);
      Absorb(ac, b, total, 8 * words, 4 * words, next, big);
      rest := b[8 * words..];
    }
  }

  /** The same for a single word of four or two bytes. */
  method StepWord(ac: Uint64, b: seq<Byte>, k: nat, big: bool, ghost total: nat)
    returns (next: Uint64, rest: seq<Byte>)
    requires (k == 2 || k == 4) && |b| < 2 * k && Absorbed(ac, b, total, big)
    ensures |rest| < k && Absorbed(next, rest, total, big)
  {
    next, rest := ac, b;
    if |b| >= k {
      next := AddWord(ac, b[..k], big);
      Absorb(ac, b, total, k, k / 2, next, big);
      rest := b[k..];
    }
  }

  method Cascade(ac: Uint64, b: seq<Byte>, big: bool, ghost total: nat) returns (next: Uint64, rest: seq<Byte>)
    requires |b| < 128 && Absorbed(ac, b, total, big)
    ensures |rest| < 2 && Absorbed(next, rest, total, big)
  {
    next, rest := StepRun(ac, b, 8, big, total);
    next, rest := StepRun(next, rest, 4, big, total);
    next, rest := StepRun(next, rest, 2, big, total);
    next, rest := StepRun(next, rest, 1, big, total);
    next, rest := StepWord(next, rest, 4, big, total);
    next, rest := StepWord(next, rest, 2, big, total);
  }

  /** The unfolded sum stands for the sum of all 16-bit words, on either kind of host. */
  method ChecksumNoFold(bytes: seq<Byte>, initial: Uint64, big: bool) returns (r: Uint64)
    ensures Norm(r) == Norm(initial + Sum(bytes))
  {
    hide Norm;
    ghost var total := initial + Sum(bytes);
    var ac := HostToNetwork(initial, big);
    HostToNetworkNorm(initial, big);
    var b := bytes;
    while |b| >= 128
      invariant Absorbed(ac, b, total, big)
    {
      var next := AddWords(ac, b, 16, big);
      Absorb(ac, b, total, 128, 64, next, big);
      ac, b := next, b[128..];
    }
    ac, b := Cascade(ac, b, big, total);
    if |b| == 1 {
      var next := AddWord(ac, [b[0], 0], big);
      LastByte(ac, b, total, next, big);
      ac, b := next, [];
    }
    r := HostToNetwork(ac, big);
    BackToNetwork(ac, total, big);
  }

  lemma BackToNetwork(ac: Uint64, total: nat, big: bool)
    requires Norm(ac) == Norm(Scaled(total, big))
    ensures Norm(HostToNetwork(ac, big)) == Norm(total)
  {
    HostToNetworkNorm(ac, big);
    ScaledNorm(ac, Scaled(total, big), big);
    ScaledTwice(total, big);
  }

  lemma LastByte(ac: Uint64, b: seq<Byte>, total: nat, next: Uint64, big: bool)
    requires |b| == 1 && Absorbed(ac, b, total, big)
    requires Norm(next) == Norm(ac + Scaled(Sum([b[0], 0]), big))
    ensures Absorbed(next, [], total, big)
  {
    assert Sum([b[0], 0]) == Word(b[0], 0) == Sum(b);
    NormAdd(ac, Scaled(total - Sum(b), big), Scaled(Sum(b), big));
  }

  function Fold(ac: nat): nat {
    ac / TWO16 + ac % TWO16
  }

  lemma FoldNorm(ac: nat)
    ensures Norm(Fold(ac)) == Norm(ac)
  {
    NormShift(ac, Fold(ac), ac / TWO16);
  }

  lemma FoldSmaller(ac: nat, k: nat)
    requires ac <= TWO16 * k + 0xFFFE && k >= 1
    ensures Fold(ac) <= k + 0xFFFE
  {}

  /** Four folds always leave a 16-bit value. */
  lemma FourFolds(ac: Uint64)
    ensures Fold(Fold(Fold(Fold(ac)))) == Norm(ac)
  {
    var f1 := Fold(ac);
    assert f1 <= TWO16 * TWO32 + 0xFFFE;
    var f2 := Fold(f1);
    FoldSmaller(f1, TWO32);
    var f3 := Fold(f2);
    FoldSmaller(f2, TWO16);
    var f4 := Fold(f3);
    FoldSmaller(f3, 1);
    FoldNorm(ac);
    FoldNorm(f1);
    FoldNorm(f2);
    FoldNorm(f3);
  }

  /** The whole checksum is the RFC 1071 sum, whatever the initial partial sum and byte order. */
  method Checksum(b: seq<Byte>, initial: Uint64, big: bool) returns (r: Uint16)
    ensures r == Rfc1071(b, PartialSum(initial))
    ensures r == Norm(initial + Sum(b))
  {
    var sum := ChecksumNoFold(b, initial, big);
    FourFolds(sum);
    var ac: nat := Fold(sum);
    ac := Fold(ac);
    ac := Fold(ac);
    ac := Fold(ac);
    r := ac;
    PartialSumIsNorm(initial);
    Rfc1071IsNorm(b, initial);
  }

  /** The pseudo-header: both addresses, the protocol and the transport length. */
  method PseudoHeaderNoFold(protocol: Byte, src: seq<Byte>, dst: seq<Byte>, totalLen: Uint16, big: bool)
    returns (r: Uint64)
    ensures Norm(r) == Norm(Sum(src) + Sum(dst) + Sum([0, protocol]) + totalLen)
  {
    hide Norm, Sum;
    var s1 := ChecksumNoFold(src, 0, big);
    var s2 := ChecksumNoFold(dst, s1, big);
    var s3 := ChecksumNoFold([0, protocol], s2, big);
    var len := EncodeLength(totalLen);
    r := ChecksumNoFold(len, s3, big);
    NormChain(s1, s2, s3, r, Sum(src), Sum(dst), Sum([0, protocol]), totalLen);
  }

  method EncodeLength(n: Uint16) returns (b: seq<Byte>)
    ensures Sum(b) == n
  {
    b := PutBigEndian(n, 1);
    assert b == [n / 256 % 256, n % 256];
    assert Sum(b) == Word(n / 256 % 256, n % 256);
  }

  lemma NormChain(s1: nat, s2: nat, s3: nat, s4: nat, a: nat, b: nat, c: nat, d: nat)
    requires Norm(s1) == Norm(a) && Norm(s2) == Norm(s1 + b) && Norm(s3) == Norm(s2 + c) && Norm(s4) == Norm(s3 + d)
    ensures Norm(s4) == Norm(a + b + c + d)
  {
    NormAdd(s1, a, b);
    NormAdd(s2, a + b, c);
    NormAdd(s3, a + b + c, d);
  }
}
