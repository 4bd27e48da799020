/** The word-swapping transmit path (ncsi.c NCSI_TxPacket_internal, NCSI_TxBePacket; types.h ncsi_be32toh). */
module WordSwap {
  import opened Types

  const SWAP_BUFFER: nat := 256

  /** ncsi_be32toh: reverse the four bytes of a value. */
  function Be32toh(v: U32): U32 {
    (v % 0x100) * 0x100_0000 + (v / 0x100 % 0x100) * 0x1_0000 + (v / 0x1_0000 % 0x100) * 0x100 + v / 0x100_0000
  }

  /** Where byte i of the swapped packet comes from: full words are reversed, the 0 to 3 trailing bytes stay. */
  function Source(n: nat, i: nat): nat { if i < n / 4 * 4 then i / 4 * 4 + 3 - i % 4 else i }

  function Swapped(s: seq<Byte>): (r: seq<Byte>)
    ensures |r| == |s|
  {
    seq(|s|, i requires 0 <= i < |s| => s[Source(|s|, i)])
  }

  lemma SourceTwice(n: nat, i: nat)
    requires i < n
    ensures Source(n, i) < n && Source(n, Source(n, i)) == i
  {
    if i < n / 4 * 4 {
      var j := Source(n, i);
      assert j / 4 == i / 4 && j % 4 == 3 - i % 4;
    }
  }

  /** Swapping twice restores every packet. */
  lemma {:induction false} SwapTwice(s: seq<Byte>)
    ensures Swapped(Swapped(s)) == s
  {
    forall i | 0 <= i < |s| ensures Swapped(Swapped(s))[i] == s[i] {
      SourceTwice(|s|, i);
    }
  }

  lemma ReverseBytes(a: Byte, b: Byte, c: Byte, d: Byte)
    ensures Be32toh(Be32(a, b, c, d)) == Be32(d, c, b, a)
  {
    BytesOfBe32(a, b, c, d);
  }

  lemma WordSource(n: nat, k: nat, j: nat)
    requires k < n / 4 && j < 4
    ensures 4 * k + 3 < n && Source(n, 4 * k + j) == 4 * k + 3 - j
  {}

  lemma SwappedWord(s: seq<Byte>, k: nat)
    requires k < |s| / 4
    ensures Rd32(Swapped(s), 4 * k) == Be32toh(Rd32(s, 4 * k))
  {
    TargetWord(s, k);
    ReverseBytes(s[4 * k], s[4 * k + 1], s[4 * k + 2], s[4 * k + 3]);
  }

  /** Word k of t holds the bytes of word k of s in reverse. */
  predicate WordReversed(s: seq<Byte>, t: seq<Byte>, k: nat) {
    4 * k + 3 < |s| && 4 * k + 3 < |t|
    && t[4 * k] == s[4 * k + 3] && t[4 * k + 1] == s[4 * k + 2]
    && t[4 * k + 2] == s[4 * k + 1] && t[4 * k + 3] == s[4 * k]
  }

  /** Each full word is reversed, byte by byte and as a value, and the 0 to 3 trailing bytes stay in place. */
  lemma {:induction false} SwapIsByteReversal(s: seq<Byte>)
    ensures forall k :: 0 <= k < |s| / 4 ==> WordReversed(s, Swapped(s), k)
    ensures forall k :: 0 <= k < |s| / 4 ==> Rd32(Swapped(s), 4 * k) == Be32toh(Rd32(s, 4 * k))
    ensures forall i :: |s| / 4 * 4 <= i < |s| ==> Swapped(s)[i] == s[i]
  {
    forall k | 0 <= k < |s| / 4 ensures WordReversed(s, Swapped(s), k) {
      TargetWord(s, k);
    }
    forall k | 0 <= k < |s| / 4 ensures Rd32(Swapped(s), 4 * k) == Be32toh(Rd32(s, 4 * k)) {
      SwappedWord(s, k);
    }
  }

  /** The loop over full words. */
  method SwapWords(packet: array<Byte>, len: nat, swapped: array<Byte>)
    requires len <= packet.Length && len <= swapped.Length && packet != swapped
    modifies swapped
    ensures forall j :: 0 <= j < len / 4 * 4 ==> swapped[j] == Swapped(packet[..len])[j]
  {
    ghost var target := Swapped(packet[..len]);
    var fullWords := len / 4;
    var i := 0;
    while i < fullWords
      invariant 0 <= i <= fullWords
      invariant forall j :: 0 <= j < 4 * i ==> swapped[j] == target[j]
    {
      var off := i * 4;
      TargetWord(packet[..len], i);
      swapped[off + 0] := packet[off + 3];
      swapped[off + 1] := packet[off + 2];
      swapped[off + 2] := packet[off + 1];
      swapped[off + 3] := packet[off + 0];
      i := i + 1;
    }
  }

  /** The copy loops into a fixed buffer of 256 bytes. */
  method SwapInto(packet: array<Byte>, len: nat, swapped: array<Byte>)
    requires len <= packet.Length && len <= swapped.Length && packet != swapped
    modifies swapped
    ensures swapped[..len] == Swapped(packet[..len])
  {
    ghost var target := Swapped(packet[..len]);
    SwapWords(packet, len, swapped);
    SwapIsByteReversal(packet[..len]);
    var i := len / 4 * 4;
    while i < len
      invariant len / 4 * 4 <= i <= len
      invariant forall j :: 0 <= j < i ==> swapped[j] == target[j]
    {
      swapped[i] := packet[i];
      i := i + 1;
    }
  }

  lemma TargetWord(s: seq<Byte>, k: nat)
    requires k < |s| / 4
    ensures 4 * k + 3 < |s|
    ensures var t := Swapped(s);
            t[4 * k] == s[4 * k + 3] && t[4 * k + 1] == s[4 * k + 2]
            && t[4 * k + 2] == s[4 * k + 1] && t[4 * k + 3] == s[4 * k]
  {
    WordSource(|s|, k, 0);
    WordSource(|s|, k, 1);
    WordSource(|s|, k, 2);
    WordSource(|s|, k, 3);
  }
}
