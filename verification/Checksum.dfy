/** The IPv4 header checksum of pkg/network/network.go: ComputeChecksum stamps a header,
    ValidateChecksum is applied to the header with the stamp in place and compared with it.
    The one's complement sum follows RFC 1071: 16-bit big-endian words added, carries folded. */
module Checksum {
  import opened Words

  type Bytes = seq<Byte>

  // The words of a header of even length.
  function WordSum(b: Bytes): nat
    decreases |b|
  {
    if |b| < 2 then 0 else b[0] as int * 256 + b[1] as int + WordSum(b[2..])
  }

  // ChecksumCombine: the two halves of a 32-bit sum, with the last carry added in.
  function Fold(sum: U32): U16 {
    var v := sum % TWO_16 + sum / TWO_16;
    (v + v / TWO_16) % TWO_16
  }

  // At most the 60 bytes of the longest IPv4 header.
  predicate IsHeader(b: Bytes) { 20 <= |b| <= 60 && |b| % 2 == 0 }

  lemma {:induction false} WordSumBound(b: Bytes)
    ensures WordSum(b) <= 65535 * (|b| / 2)
    decreases |b|
  {
    if |b| >= 2 { WordSumBound(b[2..]); }
  }

  function HeaderSum(b: Bytes, initial: U16): U16
    requires IsHeader(b)
  {
    WordSumBound(b);
    Fold(initial + WordSum(b))
  }

  function ComputeChecksum(b: Bytes): U16
    requires IsHeader(b)
  {
    65535 - HeaderSum(b, 0)
  }

  function ValidateChecksum(b: Bytes, fromHeader: U16): U16
    requires IsHeader(b)
  {
    HeaderSum(b, fromHeader)
  }

  // HandlePacket goes on with the packet.
  predicate Accepts(b: Bytes, stamp: U16)
    requires IsHeader(b)
  {
    ValidateChecksum(b, stamp) == stamp
  }

  /** Folding is arithmetic modulo 65535, with 0 only for an all-zero sum. */
  lemma FoldIsModulo(sum: U32)
    requires sum < 65535 * 65536
    ensures Fold(sum) % 65535 == sum % 65535
    ensures Fold(sum) == 0 <==> sum == 0
  {
    var lo, hi := sum % TWO_16, sum / TWO_16;
    var v := lo + hi;
    assert sum == 65535 * hi + v;
    if v < TWO_16 {
      assert Fold(sum) == v;
    } else {
      assert Fold(sum) == v - 65535;
    }
    ModShift(v, hi);
    if v >= 65535 { ModShift(v - 65535, 1); }
  }

  lemma ModShift(v: int, k: int)
    ensures (65535 * k + v) % 65535 == v % 65535
  {
  }

  // Bytes 10 and 11 hold the checksum.
  function Stamped(b: Bytes, stamp: U16): Bytes
    requires IsHeader(b)
  {
    b[10 := stamp / 256][11 := stamp % 256]
  }

  // The header as the forwarder and the sender stamp it: this TTL in byte 8, and no checksum yet.
  function Zeroed(b: Bytes, ttl: Byte): Bytes
    requires IsHeader(b)
  {
    b[8 := ttl][10 := 0][11 := 0]
  }

  lemma {:induction false} SumSplit(b: Bytes, k: nat)
    requires 2 * k <= |b|
    ensures WordSum(b) == WordSum(b[..2 * k]) + WordSum(b[2 * k..])
    decreases k
  {
    if k == 0 {
      assert b[0..] == b;
    } else {
      SumSplit(b[2..], k - 1);
      assert b[2..][..2 * (k - 1)] == b[2..2 * k] == b[..2 * k][2..];
      assert b[2..][2 * (k - 1)..] == b[2 * k..];
    }
  }

  lemma StampSum(b: Bytes, stamp: U16)
    requires IsHeader(b) && b[10] == 0 && b[11] == 0
    ensures WordSum(Stamped(b, stamp)) == WordSum(b) + stamp
  {
    var s := Stamped(b, stamp);
    SumSplit(b, 5);
    SumSplit(s, 5);
    assert s[..10] == b[..10];
    assert s[10..][2..] == b[10..][2..];
  }

  /** A header is accepted exactly when its words sum to 0 modulo 65535 and the stamp is not 0
      (or every word is 0). */
  lemma AcceptedIff(b: Bytes, stamp: U16)
    requires IsHeader(b)
    ensures Accepts(b, stamp) <==> WordSum(b) % 65535 == 0 && (stamp != 0 || WordSum(b) == 0)
  {
    WordSumBound(b);
    FoldIsModulo(WordSum(b) + stamp);
    ModSum(WordSum(b), stamp);
    SameResidue(Fold(WordSum(b) + stamp), stamp);
  }

  // Two 16-bit numbers are congruent modulo 65535 only if they are equal or are 0 and 65535.
  lemma SameResidue(x: U16, y: U16)
    ensures x % 65535 == y % 65535 <==> x == y || (x == 0 && y == 65535) || (x == 65535 && y == 0)
  {
  }

  lemma ModSum(x: nat, y: nat)
    ensures (x + y) % 65535 == y % 65535 <==> x % 65535 == 0
  {
    var k := x / 65535;
    ModShift(x % 65535 + y, k);
    var l := y / 65535;
    ModShift(x % 65535 + y % 65535, l);
  }

  /** A header stamped over its zeroed field is accepted by the next hop if and only if the stamp is not 0. */
  lemma StampAcceptedIff(b: Bytes)
    requires IsHeader(b) && b[10] == 0 && b[11] == 0 && b[0] != 0
    ensures Accepts(Stamped(b, ComputeChecksum(b)), ComputeChecksum(b)) <==> ComputeChecksum(b) != 0
  {
    var c := ComputeChecksum(b);
    WordSumBound(b);
    StampSum(b, c);
    FoldIsModulo(WordSum(b));
    var f := Fold(WordSum(b));
    assert c == 65535 - f;
    ModSum(WordSum(b), c);
    StampedSumIsZero(WordSum(b), f);
    AcceptedIff(Stamped(b, c), c);
  }

  lemma StampedSumIsZero(sum: nat, f: nat)
    requires f <= 65535 && f % 65535 == sum % 65535
    ensures (sum + (65535 - f)) % 65535 == 0
  {
    var k, l := sum / 65535, f / 65535;
    assert sum - f == 65535 * (k - l);
    ModShift(0, k - l + 1);
  }

  /** The forwarder's rewrite: whatever TTL byte it writes, the header it stamps anew passes the
      next hop if and only if the new checksum is not 0. */
  lemma ForwardedHeaderPasses(b: Bytes, ttl: Byte)
    requires IsHeader(b) && b[0] != 0
    ensures var stamp := ComputeChecksum(Zeroed(b, ttl));
      Accepts(Stamped(Zeroed(b, ttl), stamp), stamp) <==> stamp != 0
  {
    StampAcceptedIff(Zeroed(b, ttl));
  }

  // A header without options whose words happen to sum to 65535.
  const UNLUCKY: Bytes := [69, 0, 0, 20, 0, 0, 0, 0] + [16, 0, 0, 0, 0, 0, 0, 0] + [170, 235, 0, 0]

  lemma SumOfTwoWords(b: Bytes)
    requires |b| == 4
    ensures WordSum(b) == b[0] as int * 256 + b[1] as int + b[2] as int * 256 + b[3] as int
  {
    assert WordSum(b[2..]) == b[2] as int * 256 + b[3] as int + WordSum(b[2..][2..]);
    assert WordSum(b[2..][2..]) == 0;
  }

  lemma SumOfFourWords(b: Bytes)
    requires |b| == 8
    ensures WordSum(b) == (b[0] as int + b[2] as int + b[4] as int + b[6] as int) * 256
                          + b[1] as int + b[3] as int + b[5] as int + b[7] as int
  {
    SumSplit(b, 2);
    SumOfTwoWords(b[..4]);
    SumOfTwoWords(b[4..]);
  }

  /** The case the condition excludes does occur: this header is stamped 0 and then refused. */
  lemma UnluckyHeaderIsRefused()
    ensures IsHeader(UNLUCKY) && ComputeChecksum(UNLUCKY) == 0
    ensures !Accepts(Stamped(UNLUCKY, ComputeChecksum(UNLUCKY)), ComputeChecksum(UNLUCKY))
  {
    var b := UNLUCKY;
    SumSplit(b, 4);
    SumSplit(b[8..], 4);
    assert b[..8] == [69, 0, 0, 20, 0, 0, 0, 0];
    assert b[8..][..8] == [16, 0, 0, 0, 0, 0, 0, 0] && b[8..][8..] == [170, 235, 0, 0];
    SumOfFourWords(b[..8]);
    SumOfFourWords(b[8..][..8]);
    SumOfTwoWords(b[8..][8..]);
    assert WordSum(b) == 65535;
    StampAcceptedIff(b);
  }
}
