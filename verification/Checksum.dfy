/** The Internet checksum as libcpe464/checksum.c computes it, against the
    definition of section 4.1 of RFC 1071: add the 16-bit words, fold the carries
    back in until none is left, and complement. */
module Checksum {

  type byte = x: int | 0 <= x < 0x100

  /** The width of the accumulator `sum`; a value outside it would be an overflow in C. */
  newtype int32 = x: int | -0x8000_0000 <= x < 0x8000_0000

  /** Sum of the 16-bit words on a little-endian host. A last odd byte is stored at the
      first memory byte of `answer`, which is the low byte of the word. */
  function WordSum(s: seq<byte>): nat {
    if |s| == 0 then 0
    else if |s| == 1 then s[0]
    else s[0] + 0x100 * s[1] + WordSum(s[2..])
  }

  /** The same sum on a big-endian host: the first memory byte is the high byte. */
  function WordSumBigEndian(s: seq<byte>): nat {
    if |s| == 0 then 0
    else if |s| == 1 then 0x100 * s[0]
    else 0x100 * s[0] + s[1] + WordSumBigEndian(s[2..])
  }

  /** Folds carries out of the low 16 bits until none is left. */
  function FoldAll(sum: nat): (r: nat)
    ensures r < 0x1_0000 && r <= sum
  {
    if sum < 0x1_0000 then sum else FoldAll(sum / 0x1_0000 + sum % 0x1_0000)
  }

  /** RFC 1071 checksum of `s`, read as a 16-bit number by a little-endian host. */
  function Cksum(s: seq<byte>): (c: nat)
    ensures c < 0x1_0000
  {
    0xFFFF - FoldAll(WordSum(s))
  }

  /** A receiver accepts `s` when the checksum over all of it is zero. */
  predicate Verifies(s: seq<byte>) {
    Cksum(s) == 0
  }

  // ---------------------------------------------------------------- folding

  lemma SameResidue(a: int, b: int, k: int)
    requires a == b + 0xFFFF * k
    ensures a % 0xFFFF == b % 0xFFFF
  {
  }

  /** Folding takes a multiple of 2^16 - 1 away and leaves zero only for zero. Together these
      fix the folded value: the one of 0..0xFFFF that is congruent, zero only for zero. */
  lemma {:induction false} FoldGap(sum: nat) returns (k: nat)
    ensures sum == FoldAll(sum) + 0xFFFF * k
    ensures FoldAll(sum) == 0 <==> sum == 0
  {
    if sum < 0x1_0000 {
      k := 0;
    } else {
      var hi, lo := sum / 0x1_0000, sum % 0x1_0000;
      var k' := FoldGap(hi + lo);
      k := k' + hi;
    }
  }

  lemma FoldIsOnesComplement(sum: nat)
    ensures FoldAll(sum) % 0xFFFF == sum % 0xFFFF
    ensures FoldAll(sum) == 0 <==> sum == 0
  {
    var k := FoldGap(sum);
    SameResidue(sum, FoldAll(sum), k);
  }

  /** Two folded values that are congruent and zero only together are equal. */
  lemma SameFold(x: nat, y: nat, m: int)
    requires x == y + 0xFFFF * m && x < 0x1_0000 && y < 0x1_0000 && (x == 0 <==> y == 0)
    ensures x == y
  {
  }

  lemma MultipleVerifies(s: seq<byte>, n: nat)
    requires WordSum(s) == 0xFFFF * n && n > 0
    ensures Verifies(s)
  {
    var k := FoldGap(WordSum(s));
    SameFold(FoldAll(WordSum(s)), 0xFFFF, n - k - 1);
  }

  lemma VerifiedMultiple(s: seq<byte>) returns (n: nat)
    requires Verifies(s)
    ensures WordSum(s) == 0xFFFF * n && n > 0
  {
    var k := FoldGap(WordSum(s));
    n := k + 1;
  }

  /** A packet verifies exactly when its words add up to a nonzero multiple of 2^16 - 1. */
  lemma VerifiesIff(s: seq<byte>)
    ensures Verifies(s) <==> WordSum(s) > 0 && WordSum(s) % 0xFFFF == 0
  {
    if Verifies(s) {
      var n := VerifiedMultiple(s);
      SameResidue(WordSum(s), 0, n);
    } else if WordSum(s) > 0 && WordSum(s) % 0xFFFF == 0 {
      MultipleVerifies(s, WordSum(s) / 0xFFFF);
    }
  }

  lemma FoldSmall(n: nat)
    requires n < 0x1_FFFF
    ensures FoldAll(n) == if n < 0x1_0000 then n else n - 0xFFFF
  {
    if n >= 0x1_0000 {
      assert n / 0x1_0000 == 1 && n % 0x1_0000 == n - 0x1_0000;
      assert FoldAll(n) == FoldAll(n - 0xFFFF);
    }
  }

  /** The fixed two-step fold of checksum.c agrees with folding until no carry is left. */
  lemma TwoStepsSuffice(sum: nat)
    requires sum < 0x8000_0000
    ensures var s1 := sum / 0x1_0000 + sum % 0x1_0000;
            (s1 + s1 / 0x1_0000) % 0x1_0000 == FoldAll(sum)
  {
    var s1 := sum / 0x1_0000 + sum % 0x1_0000;
    FoldSmall(s1);
    assert FoldAll(sum) == FoldAll(s1) by {
      if sum < 0x1_0000 { assert s1 == sum; }
    }
    if s1 < 0x1_0000 { assert s1 / 0x1_0000 == 0; } else { assert s1 / 0x1_0000 == 1; }
  }

  lemma {:induction false} WordSumBound(s: seq<byte>)
    ensures 2 * WordSum(s) <= 0xFFFF * (|s| + 1)
  {
    if |s| > 1 {
      WordSumBound(s[2..]);
    }
  }

  /** libcpe464/checksum.c:58-86. Up to 65536 bytes the accumulator never overflows
      and the result is the RFC 1071 checksum. */
  method InCksum(addr: seq<byte>) returns (answer: nat)
    requires |addr| <= 0x1_0000
    ensures answer == Cksum(addr)
  {
    var sum: int32 := 0;
    var w := 0;
    var nleft := |addr|;
    WordSumBound(addr);
    while nleft > 1
      invariant 0 <= w && 0 <= nleft && w + nleft == |addr|
      invariant sum as int + WordSum(addr[w..]) == WordSum(addr)
    {
      assert addr[w..][2..] == addr[w + 2..];
      sum := sum + (addr[w] as int + 0x100 * addr[w + 1] as int) as int32;
      w := w + 2;
      nleft := nleft - 2;
    }
    if nleft == 1 {
      sum := sum + addr[w] as int32;
    }
    assert sum as int == WordSum(addr);
    TwoStepsSuffice(sum as int);
    sum := sum / 0x1_0000 + sum % 0x1_0000;
    sum := sum + sum / 0x1_0000;
    answer := 0xFFFF - (sum % 0x1_0000) as int;
  }

  // ------------------------------------------------------------ one byte changed

  lemma {:induction false} WordSumUpdate(s: seq<byte>, i: nat, v: byte)
    requires i < |s|
    ensures WordSum(s[i := v]) == WordSum(s) + if i % 2 == 0 then v - s[i] else 0x100 * (v - s[i])
  {
    var t := s[i := v];
    if i < 2 {
      if |s| > 1 { assert t[2..] == s[2..]; }
    } else {
      assert t[2..] == s[2..][i - 2 := v];
      WordSumUpdate(s[2..], i - 2, v);
    }
  }

  lemma MultiplesApart(m: int, n: int, d: int)
    requires d != 0 && -0xFFFF < d < 0xFFFF
    ensures 0xFFFF * m + d != 0xFFFF * n
  {
  }

  /** Any change confined to one byte moves the sum off the multiples of 2^16 - 1, so
      no two packets that differ in exactly one byte both verify. */
  lemma OneByteChangeDetected(s: seq<byte>, i: nat, v: byte)
    requires i < |s| && v != s[i] && Verifies(s)
    ensures !Verifies(s[i := v])
  {
    WordSumUpdate(s, i, v);
    var m := VerifiedMultiple(s);
    if Verifies(s[i := v]) {
      var n := VerifiedMultiple(s[i := v]);
      MultiplesApart(m, n, if i % 2 == 0 then v - s[i] else 0x100 * (v - s[i]));
      assert false;
    }
  }

  // ------------------------------------------------------------ byte order

  lemma {:induction false} BigEndianSumCongruent(s: seq<byte>) returns (k: int)
    ensures WordSumBigEndian(s) == 0x100 * WordSum(s) - 0xFFFF * k
    ensures WordSumBigEndian(s) == 0 <==> WordSum(s) == 0
  {
    if |s| <= 1 {
      k := 0;
    } else {
      var k' := BigEndianSumCongruent(s[2..]);
      k := k' + s[1];
    }
  }

  /** Multiplying a folded sum by 256 modulo 2^16 - 1 swaps its two bytes. */
  lemma SwapIsTimes256(a: nat, b: nat, k: int)
    requires b == 0x100 * a - 0xFFFF * k && (b == 0 <==> a == 0)
    ensures FoldAll(b) == 0x100 * (FoldAll(a) % 0x100) + FoldAll(a) / 0x100
  {
    var i := FoldGap(a);
    var j := FoldGap(b);
    var f := FoldAll(a);
    var lo, hi := f % 0x100, f / 0x100;
    SameFold(FoldAll(b), 0x100 * lo + hi, hi + 0x100 * i - k - j);
  }

  lemma ComplementSwapped(hi: nat, lo: nat)
    requires hi < 0x100 && lo < 0x100
    ensures var c, d := 0xFFFF - (0x100 * hi + lo), 0xFFFF - (0x100 * lo + hi);
            c % 0x100 == d / 0x100 && c / 0x100 == d % 0x100
  {
    assert 0xFFFF - (0x100 * hi + lo) == 0x100 * (0xFF - hi) + (0xFF - lo);
    assert 0xFFFF - (0x100 * lo + hi) == 0x100 * (0xFF - lo) + (0xFF - hi);
  }

  /** Section 2(B) of RFC 1071: whichever byte order the host uses, the two bytes that
      memcpy puts into the packet are the same, because swapping the bytes of a word
      multiplies it by 256 modulo 2^16 - 1. */
  lemma ByteOrderIndependent(s: seq<byte>)
    ensures var little := 0xFFFF - FoldAll(WordSum(s));
            var big := 0xFFFF - FoldAll(WordSumBigEndian(s));
            little % 0x100 == big / 0x100 && little / 0x100 == big % 0x100
  {
    var k := BigEndianSumCongruent(s);
    SwapIsTimes256(WordSum(s), WordSumBigEndian(s), k);
    var f := FoldAll(WordSum(s));
    ComplementSwapped(f / 0x100, f % 0x100);
  }
}
