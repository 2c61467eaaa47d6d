/** Bytes, fixed-width unsigned integers and the two byte orders of the protocol. */
module Wire {
  datatype Option<+T> = None | Some(value: T)

  type u8 = x: int | 0 <= x < 0x100
  type u16 = x: int | 0 <= x < 0x1_0000
  type u32 = x: int | 0 <= x < 0x1_0000_0000
  type u64 = x: int | 0 <= x < 0x1_0000_0000_0000_0000
  type bytes = seq<u8>

  /** encoding/binary's LittleEndian and BigEndian. */
  datatype Order = Little | Big

  function Max(a: int, b: int): int { if a < b then b else a }

  function Zeros(n: nat): bytes { seq(n, _ => 0) }

  // Reading at an offset.

  function Join(low: int, high: int): int { low + 0x100 * high }

  function U16(b: bytes, p: nat): u16
    requires p + 2 <= |b|
  {
    Join(b[p], b[p + 1])
  }

  function U32(b: bytes, p: nat): u32
    requires p + 4 <= |b|
  {
    Join(b[p], Join(b[p + 1], Join(b[p + 2], b[p + 3])))
  }

  function Get32(o: Order, b: bytes, p: nat): u32
    requires p + 4 <= |b|
  {
    if o == Little then U32(b, p) else Join(b[p + 3], Join(b[p + 2], Join(b[p + 1], b[p])))
  }

  function Get64(o: Order, b: bytes, p: nat): u64
    requires p + 8 <= |b|
  {
    if o == Little then U32(b, p) + 0x1_0000_0000 * U32(b, p + 4)
    else Get32(Big, b, p + 4) + 0x1_0000_0000 * Get32(Big, b, p)
  }

  // Writing.

  function Put32(v: u32): (r: bytes)
    ensures |r| == 4
  {
    [v % 0x100, v / 0x100 % 0x100, v / 0x100 / 0x100 % 0x100, v / 0x100 / 0x100 / 0x100]
  }

  function PutOrder32(o: Order, v: u32): (r: bytes)
    ensures |r| == 4
  {
    if o == Little then Put32(v) else [Put32(v)[3], Put32(v)[2], Put32(v)[1], Put32(v)[0]]
  }

  function PutOrder64(o: Order, v: u64): (r: bytes)
    ensures |r| == 8
  {
    var lo, hi := v % 0x1_0000_0000, v / 0x1_0000_0000;
    if o == Little then Put32(lo) + Put32(hi) else PutOrder32(Big, hi) + PutOrder32(Big, lo)
  }

  /** A value is split into low digit and rest in one way only. */
  lemma Digit(low: u8, high: nat, v: nat)
    ensures Join(low, high) == v <==> low == v % 0x100 && high == v / 0x100
  {
  }

  lemma Digits(b0: u8, b1: u8, b2: u8, b3: u8, v: u32)
    ensures Join(b0, Join(b1, Join(b2, b3))) == v <==> [b0, b1, b2, b3] == Put32(v)
  {
    var v1 := v / 0x100;
    var v2 := v1 / 0x100;
    Digit(b0, Join(b1, Join(b2, b3)), v);
    Digit(b1, Join(b2, b3), v1);
    Digit(b2, b3, v2);
    var s := [b0, b1, b2, b3];
    assert s == Put32(v) <==>
      s[0] == Put32(v)[0] && s[1] == Put32(v)[1] && s[2] == Put32(v)[2] && s[3] == Put32(v)[3];
  }

  /** Four bytes hold the value v exactly when they are the encoding of v. */
  lemma Word(o: Order, b: bytes, p: nat, v: u32)
    requires p + 4 <= |b|
    ensures Get32(o, b, p) == v <==> b[p..p + 4] == PutOrder32(o, v)
  {
    var s := [b[p], b[p + 1], b[p + 2], b[p + 3]];
    assert b[p..p + 4] == s;
    if o == Little {
      Digits(b[p], b[p + 1], b[p + 2], b[p + 3], v);
    } else {
      Digits(b[p + 3], b[p + 2], b[p + 1], b[p], v);
      var e, t := PutOrder32(Big, v), [s[3], s[2], s[1], s[0]];
      assert t == Put32(v) <==>
        t[0] == Put32(v)[0] && t[1] == Put32(v)[1] && t[2] == Put32(v)[2] && t[3] == Put32(v)[3];
      assert s == e <==> s[0] == e[0] && s[1] == e[1] && s[2] == e[2] && s[3] == e[3];
    }
  }

  lemma Long(o: Order, b: bytes, p: nat, v: u64)
    requires p + 8 <= |b|
    ensures Get64(o, b, p) == v <==> b[p..p + 8] == PutOrder64(o, v)
  {
    var lo, hi := v % 0x1_0000_0000, v / 0x1_0000_0000;
    var first, second := if o == Little then lo else hi, if o == Little then hi else lo;
    Word(o, b, p, first);
    Word(o, b, p + 4, second);
    assert b[p..p + 8] == b[p..p + 4] + b[p + 4..p + 8];
    assert PutOrder64(o, v) == PutOrder32(o, first) + PutOrder32(o, second);
    assert PutOrder64(o, v)[..4] == PutOrder32(o, first);
    assert PutOrder64(o, v)[4..] == PutOrder32(o, second);
    assert b[p..p + 8][..4] == b[p..p + 4] && b[p..p + 8][4..] == b[p + 4..p + 8];
  }

  /** A little-endian word is its two halves, low half first. */
  lemma Halves(b: bytes, p: nat)
    requires p + 4 <= |b|
    ensures U32(b, p) == U16(b, p) + 0x1_0000 * U16(b, p + 2)
  {
  }

  /** The weight of each byte: the first one counts least in little-endian order and most in big-endian order. */
  lemma Weights(b: bytes, p: nat)
    requires p + 8 <= |b|
    ensures var w := (i: nat) requires i < 8 => b[p + i] as int;
      && U16(b, p) == w(0) + 256 * w(1)
      && U32(b, p) == Get32(Little, b, p) == w(0) + 256 * w(1) + 65536 * w(2) + 16777216 * w(3)
      && Get32(Big, b, p) == w(3) + 256 * w(2) + 65536 * w(1) + 16777216 * w(0)
      && Get64(Little, b, p) == Get32(Little, b, p) as int + 4294967296 * Get32(Little, b, p + 4) as int
      && Get64(Big, b, p) == Get32(Big, b, p + 4) as int + 4294967296 * Get32(Big, b, p) as int
  {
  }
}
