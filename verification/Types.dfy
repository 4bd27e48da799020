/** Integer widths and big-endian field access (types.h).
    Shifts and masks of the C code are written as the arithmetic they compute on unsigned values. */
module Types {

  const WRAP32: int := 0x1_0000_0000

  type Byte = x: int | 0 <= x < 0x100
  type U16 = x: int | 0 <= x < 0x1_0000
  type U32 = x: int | 0 <= x < 0x1_0000_0000
  type I32 = x: int | -0x8000_0000 <= x < 0x8000_0000

  datatype Option<+T> = None | Some(value: T)

  function Max(a: nat, b: nat): nat { if a > b then a else b }

  /** A uint32_t counter increment. */
  function Bump(x: U32): U32 { if x == WRAP32 - 1 then 0 else x + 1 }

  /** An unbounded count as a uint32_t shows it. */
  function Wrap(n: nat): U32 { if n < WRAP32 then n else Wrap(n - WRAP32) }

  lemma WrapSmall(n: U32)
    ensures Wrap(n) == n
  {}

  lemma {:induction false} WrapIsMod(n: nat)
    ensures Wrap(n) == n % 0x1_0000_0000
  {
    if n >= WRAP32 { WrapIsMod(n - WRAP32); }
  }

  lemma {:induction false} BumpWrap(n: nat)
    ensures Bump(Wrap(n)) == Wrap(n + 1)
  {
    if n >= WRAP32 { BumpWrap(n - WRAP32); }
  }

  lemma {:induction false} WrapSum(n: nat, m: nat)
    ensures Wrap(Wrap(n) + m) == Wrap(n + m)
  {
    if n >= WRAP32 { WrapSum(n - WRAP32, m); }
  }

  function Be16(b0: Byte, b1: Byte): U16 { (b0 as int) * 0x100 + b1 as int }

  function Be32(b0: Byte, b1: Byte, b2: Byte, b3: Byte): U32 {
    (b0 as int) * 0x100_0000 + (b1 as int) * 0x1_0000 + (b2 as int) * 0x100 + b3 as int
  }

  function Rd16(p: seq<Byte>, at: nat): U16
    requires at + 2 <= |p|
  {
    Be16(p[at], p[at + 1])
  }

  function Rd32(p: seq<Byte>, at: nat): U32
    requires at + 4 <= |p|
  {
    Be32(p[at], p[at + 1], p[at + 2], p[at + 3])
  }

  function Put16(p: seq<Byte>, at: nat, v: U16): seq<Byte>
    requires at + 2 <= |p|
  {
    p[at := v / 0x100][at + 1 := v % 0x100]
  }

  function Put32(p: seq<Byte>, at: nat, v: U32): seq<Byte>
    requires at + 4 <= |p|
  {
    p[at := v / 0x100_0000][at + 1 := v / 0x1_0000 % 0x100][at + 2 := v / 0x100 % 0x100][at + 3 := v % 0x100]
  }

  /** A 32-bit value is the base-256 number written by its four bytes. */
  lemma Digits(v: U32)
    ensures v / 0x100_0000 < 0x100
    ensures v / 0x100_0000 * 0x100_0000 + v / 0x1_0000 % 0x100 * 0x1_0000 + v / 0x100 % 0x100 * 0x100 + v % 0x100 == v
  {
    var a := v / 0x100;
    var b := a / 0x100;
    assert b == v / 0x1_0000;
    assert b / 0x100 == v / 0x100_0000;
  }

  lemma BytesOfBe32(a: Byte, b: Byte, c: Byte, d: Byte)
    ensures var v := Be32(a, b, c, d);
            v / 0x100_0000 == a && v / 0x1_0000 % 0x100 == b && v / 0x100 % 0x100 == c && v % 0x100 == d
  {
    var v := Be32(a, b, c, d);
    assert v / 0x100 == (a as int) * 0x1_0000 + (b as int) * 0x100 + c as int;
    assert v / 0x1_0000 == (a as int) * 0x100 + b as int;
  }

  lemma Rd32Put32(p: seq<Byte>, at: nat, v: U32)
    requires at + 4 <= |p|
    ensures Rd32(Put32(p, at, v), at) == v
  {
    Digits(v);
  }

  lemma PutKeeps(p: seq<Byte>, at: nat, v: U32)
    requires at + 4 <= |p|
    ensures |Put32(p, at, v)| == |p|
    ensures forall i :: 0 <= i < |p| && !(at <= i < at + 4) ==> Put32(p, at, v)[i] == p[i]
  {}

  method Wr16(p: array<Byte>, at: nat, v: U16)
    requires at + 2 <= p.Length
    modifies p
    ensures p[..] == Put16(old(p[..]), at, v)
  {
    p[at] := v / 0x100;
    p[at + 1] := v % 0x100;
  }

  method Wr32(p: array<Byte>, at: nat, v: U32)
    requires at + 4 <= p.Length
    modifies p
    ensures p[..] == Put32(old(p[..]), at, v)
  {
    p[at] := v / 0x100_0000;
    p[at + 1] := v / 0x1_0000 % 0x100;
    p[at + 2] := v / 0x100 % 0x100;
    p[at + 3] := v % 0x100;
  }
}
