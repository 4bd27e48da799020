/** The DSP0222 packet checksum (types.h ncsi_compute_checksum; section 8.2.2.3 of DSP0222). */
module Checksum {
  import opened Types

  /** Word k of a region read as big-endian 16-bit words, an odd trailing byte padded with zero. */
  function WordAt(p: seq<Byte>, start: nat, len: nat, k: nat): U16
    requires start + len <= |p| && 2 * k < len
  {
    Be16(p[start + 2 * k], if 2 * k + 1 < len then p[start + 2 * k + 1] else 0)
  }

  /** The unbounded sum of the first n words of a region. */
  function Words(p: seq<Byte>, start: nat, len: nat, n: nat): nat
    requires start + len <= |p| && 2 * n <= len + 1
  {
    if n == 0 then 0 else Words(p, start, len, n - 1) + WordAt(p, start, len, n - 1)
  }

  function WordSum(p: seq<Byte>, start: nat, len: nat): nat
    requires start + len <= |p|
  {
    Words(p, start, len, (len + 1) / 2)
  }

  /** Two's complement of a sum modulo 2^32. */
  function Compensation(sum: nat): U32 { Negate(sum % WRAP32) }

  function Negate(sum: U32): U32 { if sum == 0 then 0 else WRAP32 - sum }

  /** What a receiver computes: the region sum plus the field as one 32-bit value. Zero means intact. */
  function Residue(packet: seq<Byte>, start: nat, len: nat, at: nat): U32
    requires start + len <= |packet| && at + 4 <= |packet|
  {
    (WordSum(packet, start, len) + Rd32(packet, at)) % WRAP32
  }

  function Sealed(packet: seq<Byte>, start: nat, len: nat, at: nat): seq<Byte>
    requires start + len <= |packet| && at + 4 <= |packet|
  {
    Put32(packet, at, Compensation(WordSum(packet, start, len)))
  }

  /** Regions with the same bytes have the same sum. */
  lemma {:induction false} SameBytesSameWords(p: seq<Byte>, q: seq<Byte>, start: nat, len: nat, n: nat)
    requires start + len <= |p| && start + len <= |q| && 2 * n <= len + 1
    requires forall i :: start <= i < start + len ==> p[i] == q[i]
    ensures Words(p, start, len, n) == Words(q, start, len, n)
  {
    if n > 0 { SameBytesSameWords(p, q, start, len, n - 1); }
  }

  /** A sum of n words is at most n times 65535. */
  lemma {:induction false} WordsBound(p: seq<Byte>, start: nat, len: nat, n: nat)
    requires start + len <= |p| && 2 * n <= len + 1
    ensures Words(p, start, len, n) <= n * 0xFFFF
  {
    if n > 0 { WordsBound(p, start, len, n - 1); }
  }

  lemma {:induction false} WordsOfOnes(p: seq<Byte>, len: nat, n: nat)
    requires len <= |p| && 2 * n <= len
    requires forall i :: 0 <= i < len ==> p[i] == 0xFF
    ensures Words(p, 0, len, n) == n * 0xFFFF
  {
    if n > 0 { WordsOfOnes(p, len, n - 1); }
  }

  /** The bound is exact: no region up to 131074 bytes wraps, and in every longer length some region does. */
  lemma {:induction false} NoWrapExactly(len: nat)
    ensures (forall p: seq<Byte> | |p| == len :: WordSum(p, 0, len) < 0x1_0000_0000) <==> len <= 131074
  {
    if len <= 131074 {
      forall p: seq<Byte> | |p| == len ensures WordSum(p, 0, len) < WRAP32 {
        WordsBound(p, 0, len, (len + 1) / 2);
      }
    } else {
      var p: seq<Byte> := seq(len, _ => 0xFF);
      WordsOfOnes(p, len, len / 2);
      assert WordSum(p, 0, len) >= WRAP32;
    }
  }

  /** The summing loop. The running sum is a uint32_t; an addition wraps exactly if the region's sum needs more than 32
      bits, which a region of up to 131074 bytes never does. */
  method SumRegion(packet: array<Byte>, regionStart: nat, regionLen: nat) returns (sum: U32, ghost wrapped: bool)
    requires regionStart + regionLen <= packet.Length && packet.Length + 2 < WRAP32
    ensures sum == WordSum(packet[..], regionStart, regionLen) % 0x1_0000_0000
    ensures wrapped <==> WordSum(packet[..], regionStart, regionLen) >= 0x1_0000_0000
  {
    var end: U32 := regionStart + regionLen;
    var i: U32 := regionStart;
    ghost var p := packet[..];
    ghost var n := 0;
    sum, wrapped := 0, false;
    while i + 2 <= end
      invariant i == regionStart + 2 * n <= end
      invariant sum == Words(p, regionStart, regionLen, n) % WRAP32
      invariant wrapped <==> Words(p, regionStart, regionLen, n) >= WRAP32
    {
      var word := Be16(packet[i], packet[i + 1]);
      NextWord(p, regionStart, regionLen, n, word);
      wrapped := wrapped || sum + word >= WRAP32;
      sum := (sum + word) % WRAP32;
      i := i + 2;
      n := n + 1;
    }
    if i < end {
      var word := Be16(packet[i], 0);
      NextWord(p, regionStart, regionLen, n, word);
      wrapped := wrapped || sum + word >= WRAP32;
      sum := (sum + word) % WRAP32;
      n := n + 1;
    }
    assert n == (regionLen + 1) / 2;
  }

  /** Sum the region and store the two's complement in place. The stored value is right even if the sum wraps. */
  method ComputeChecksum(packet: array<Byte>, regionStart: nat, regionLen: nat, checksumOffset: nat)
    returns (ghost wrapped: bool)
    requires regionStart + regionLen <= packet.Length && checksumOffset + 4 <= packet.Length
    requires packet.Length + 2 < WRAP32
    modifies packet
    ensures packet[..] == Sealed(old(packet[..]), regionStart, regionLen, checksumOffset)
    ensures wrapped <==> WordSum(old(packet[..]), regionStart, regionLen) >= 0x1_0000_0000
    ensures regionLen <= 131074 ==> !wrapped
  {
    var sum: U32;
    sum, wrapped := SumRegion(packet, regionStart, regionLen);
    WordsBound(packet[..], regionStart, regionLen, (regionLen + 1) / 2);
    Wr32(packet, checksumOffset, Negate(sum));
  }

  lemma NextWord(p: seq<Byte>, start: nat, len: nat, n: nat, word: U16)
    requires start + len <= |p| && 2 * n < len && word == WordAt(p, start, len, n)
    ensures var s := Words(p, start, len, n); var t := Words(p, start, len, n + 1);
            && t % WRAP32 == (s % WRAP32 + word) % WRAP32
            && (t >= WRAP32 <==> s >= WRAP32 || s % WRAP32 + word >= WRAP32)
  {
    WrapStep(Words(p, start, len, n), word);
  }

  lemma WrapStep(sum: nat, word: U16)
    ensures (sum + word) % WRAP32 == (sum % WRAP32 + word) % WRAP32
    ensures sum + word >= WRAP32 <==> sum >= WRAP32 || sum % WRAP32 + word >= WRAP32
  {}

  /** A sealed packet verifies, and sealing touches nothing but the four bytes of the field. */
  lemma {:induction false} SealedVerifies(packet: seq<Byte>, start: nat, len: nat, at: nat)
    requires start + len <= at && at + 4 <= |packet|
    ensures var s := Sealed(packet, start, len, at);
            && |s| == |packet| && Residue(s, start, len, at) == 0
            && (forall i :: 0 <= i < |packet| && !(at <= i < at + 4) ==> s[i] == packet[i])
  {
    var f := Compensation(WordSum(packet, start, len));
    PutKeeps(packet, at, f);
    Rd32Put32(packet, at, f);
    SameBytesSameWords(packet, Put32(packet, at, f), start, len, (len + 1) / 2);
    FieldIsForced(Put32(packet, at, f), start, len, at);
  }

  /** For a given region there is exactly one field value that verifies. */
  lemma {:induction false} FieldIsForced(packet: seq<Byte>, start: nat, len: nat, at: nat)
    requires start + len <= |packet| && at + 4 <= |packet|
    ensures Residue(packet, start, len, at) == 0 <==> Rd32(packet, at) == Compensation(WordSum(packet, start, len))
  {
    ZeroSum(WordSum(packet, start, len), Rd32(packet, at));
  }

  lemma ZeroSum(sum: nat, field: U32)
    ensures (sum + field) % WRAP32 == 0 <==> field == Compensation(sum)
  {
    var m := sum % WRAP32;
    assert (sum + field) % WRAP32 == (m + field) % WRAP32;
  }

  /** Regions that differ in word k only have sums that differ by the difference of those words. */
  lemma {:induction false} OneWordApart(p: seq<Byte>, q: seq<Byte>, start: nat, len: nat, k: nat, n: nat)
    requires start + len <= |p| && start + len <= |q| && 2 * k < len && k < n && 2 * n <= len + 1
    requires forall j :: 0 <= j < n && j != k ==> WordAt(p, start, len, j) == WordAt(q, start, len, j)
    ensures Words(p, start, len, n) - WordAt(p, start, len, k) == Words(q, start, len, n) - WordAt(q, start, len, k)
    ensures Words(p, start, len, n) >= WordAt(p, start, len, k)
  {
    if n == k + 1 {
      EqualWords(p, q, start, len, k);
    } else {
      OneWordApart(p, q, start, len, k, n - 1);
    }
  }

  lemma {:induction false} EqualWords(p: seq<Byte>, q: seq<Byte>, start: nat, len: nat, n: nat)
    requires start + len <= |p| && start + len <= |q| && 2 * n <= len + 1
    requires forall j :: 0 <= j < n ==> WordAt(p, start, len, j) == WordAt(q, start, len, j)
    ensures Words(p, start, len, n) == Words(q, start, len, n)
  {
    if n > 0 { EqualWords(p, q, start, len, n - 1); }
  }

  /** Replacing any one 16-bit word of the region of an intact packet is detected. */
  lemma {:induction false} OneWordChangeDetected(p: seq<Byte>, q: seq<Byte>, start: nat, len: nat, at: nat, k: nat)
    requires start + len <= |p| && start + len <= |q| && at + 4 <= |p| && at + 4 <= |q|
    requires 2 * k < len && Residue(p, start, len, at) == 0
    requires Rd32(p, at) == Rd32(q, at)
    requires forall j :: 0 <= j < (len + 1) / 2 && j != k ==> WordAt(p, start, len, j) == WordAt(q, start, len, j)
    ensures Residue(q, start, len, at) == 0 <==> WordAt(p, start, len, k) == WordAt(q, start, len, k)
  {
    OneWordApart(p, q, start, len, k, (len + 1) / 2);
    ResidueDistinguishes(WordSum(p, start, len), WordSum(q, start, len), WordAt(p, start, len, k),
                         WordAt(q, start, len, k), Rd32(p, at));
  }

  lemma ResidueDistinguishes(s: nat, t: nat, a: U16, b: U16, field: U32)
    requires s - a == t - b && s >= a && (s + field) % WRAP32 == 0
    ensures (t + field) % WRAP32 == 0 <==> a == b
  {
    ZeroSum(s - a + field, a);
    ZeroSum(s - a + field, b);
  }

  /** Adding the field as two more 16-bit words instead of one 32-bit value gives 0 exactly when the region sum
      is 0 or among the last 65535 values; that reading fails for every sum in (0, 2^32 - 65536]. */
  lemma {:induction false} TwoHalvesReading(sum: U32)
    ensures var f := Compensation(sum);
            (sum + f / 0x1_0000 + f % 0x1_0000) % WRAP32 == 0 <==> sum == 0 || sum > WRAP32 - 0x1_0000
  {
    var f := Compensation(sum);
    if sum != 0 {
      assert f == WRAP32 - sum;
      var hi := f / 0x1_0000;
      assert sum + hi + f % 0x1_0000 == WRAP32 - hi * 0xFFFF;
      assert 0 <= hi < 0x1_0000;
    }
  }
}
