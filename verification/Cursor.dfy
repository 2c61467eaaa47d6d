/** The bounds-checked little-endian reader: it remembers its first error and then reads zeros. */
module Cursors {
  import opened Wire
  import opened Codec
  import opened Layouts

  datatype Err = Nil | ShortPacket

  /** n bytes further on, unless the reader has failed or the data ends first. */
  function Advance(b: bytes, at: Option<nat>, n: nat): Option<nat> {
    if at.None? || at.value + n > |b| then None else Some(at.value + n)
  }

  /** The word that stands k bytes further on, or zero when the data ends before its last byte. */
  function WordOrZero(b: bytes, at: Option<nat>, k: nat): u32 {
    if Advance(b, at, k + 4).None? then 0 else U32(b, at.value + k)
  }

  /** Reads data[lo..hi] of an array it never writes. pos counts from lo. */
  class Cursor {
    const source: array<u8>
    const lo: nat
    const hi: nat
    ghost const data: bytes
    var pos: nat
    var err: Err

    ghost predicate Valid()
      reads this, source
    {
      lo <= hi <= source.Length && data == source[lo..hi] && pos <= |data|
    }

    ghost function State(): Option<nat>
      reads this
    {
      if err == Nil then Some(pos) else None
    }

    constructor (source: array<u8>, lo: nat, hi: nat)
      requires lo <= hi <= source.Length
      ensures Valid() && this.source == source && data == source[lo..hi] && State() == Some(0)
    {
      this.source, this.lo, this.hi := source, lo, hi;
      data := source[lo..hi];
      pos, err := 0, Nil;
    }

    /** Records the first error only. */
    method Fail()
      requires Valid()
      modifies this
      ensures Valid() && State() == None && pos == old(pos)
    {
      if err == Nil {
        err := ShortPacket;
      }
    }

    method Remaining() returns (n: nat)
      requires Valid()
      ensures n == if State().Some? then |data| - pos else 0
    {
      if err != Nil {
        return 0;
      }
      n := hi - lo - pos;
    }

    /** The offset in source of the next n bytes, advancing past them; None when the read would overrun. */
    method Need(n: int) returns (at: Option<nat>)
      requires Valid()
      modifies this
      ensures Valid()
      ensures State() == if n < 0 then None else Advance(data, old(State()), n)
      ensures at == if State().Some? then Some(lo + old(pos)) else None
    {
      if err != Nil {
        return None;
      }
      if n < 0 || pos + n > hi - lo {
        Fail();
        return None;
      }
      at := Some(lo + pos);
      pos := pos + n;
    }

    method Uint8() returns (v: u8)
      requires Valid()
      modifies this
      ensures Valid() && State() == Advance(data, old(State()), 1)
      ensures v == if State().Some? then data[old(pos)] else 0
    {
      var b := Need(1);
      if b == None {
        return 0;
      }
      v := source[b.value];
    }

    method Uint16() returns (v: u16)
      requires Valid()
      modifies this
      ensures Valid() && State() == Advance(data, old(State()), 2)
      ensures v == if State().Some? then U16(data, old(pos)) else 0
    {
      var b := Need(2);
      if b == None {
        return 0;
      }
      v := Join(source[b.value], source[b.value + 1]);
    }

    method Uint32() returns (v: u32)
      requires Valid()
      modifies this
      ensures Valid() && State() == Advance(data, old(State()), 4)
      ensures v == if State().Some? then U32(data, old(pos)) else 0
    {
      var b := Need(4);
      if b == None {
        return 0;
      }
      var i := b.value;
      assert data[old(pos)..old(pos) + 4] == [source[i], source[i + 1], source[i + 2], source[i + 3]];
      v := Join(source[i], Join(source[i + 1], Join(source[i + 2], source[i + 3])));
    }

    method Float32() returns (v: f32)
      requires Valid()
      modifies this
      ensures Valid() && State() == Advance(data, old(State()), 4)
      ensures v == if State().Some? then U32(data, old(pos)) else 0
    {
      v := Uint32();
    }

    method ReadPoint() returns (p: Point)
      requires Valid()
      modifies this
      ensures Valid() && State() == Advance(data, old(State()), 12)
      ensures p == Point(WordOrZero(data, old(State()), 0), WordOrZero(data, old(State()), 4), WordOrZero(data, old(State()), 8))
    {
      var x := Float32();
      var y := Float32();
      var z := Float32();
      p := Point(x, y, z);
    }

    /** A copy of the next n bytes: the array returned is new, never a part of source. */
    method Bytes(n: int) returns (out: array?<u8>)
      requires Valid()
      modifies this
      ensures Valid()
      ensures State() == if n < 0 then None else Advance(data, old(State()), n)
      ensures out != null <==> State().Some?
      ensures out != null ==> fresh(out) && out[..] == data[old(pos)..old(pos) + n]
    {
      var b := Need(n);
      if b == None {
        return null;
      }
      var copy := new u8[n];
      var i := 0;
      while i < n
        invariant 0 <= i <= n
        invariant forall k :: 0 <= k < i ==> copy[k] == source[b.value + k]
        modifies copy
      {
        copy[i] := source[b.value + i];
        i := i + 1;
      }
      assert copy[..] == source[b.value..b.value + n] == data[old(pos)..old(pos) + n];
      out := copy;
    }

    /** Refuses a count whose records cannot fit. least is the smallest size of one record. */
    method CheckCount(count: u32, least: nat) returns (ok: bool)
      requires Valid()
      modifies this
      ensures Valid()
      ensures ok <==> State().Some?
      ensures ok ==> State() == old(State()) && count * least <= |data| - pos
      ensures !ok && old(State()).Some? ==> count * least > |data| - old(pos)
    {
      if err != Nil {
        return false;
      }
      var left := Remaining();
      if least > 0 && count * least > left {
        Fail();
        return false;
      }
      return true;
    }
  }

  /** Reads a bare count. */
  method ReadCount(cur: Cursor) returns (count: u32)
    requires cur.Valid()
    modifies cur
    ensures cur.Valid() && Took(Rec(CountRecord()).dec, cur.data, old(cur.State()), Head(count, Nothing), cur.State())
  {
    count := cur.Uint32();
  }

  /** A count and two halves are a header of rates. */
  lemma RatesTook(b: bytes, before: Option<nat>, count: u32, rates: Rates, after: Option<nat>)
    requires after == Advance(b, before, 8)
    requires after.Some? ==> var p := before.value;
      count == U32(b, p) && rates == Rates(U16(b, p + 4), U16(b, p + 6))
    ensures Took(Rec(RatesRecord()).dec, b, before, Head(count, rates), after)
  {
    if after.Some? {
      Halves(b, before.value + 4);
      var ws := Words(b, before.value, 2);
      assert ws[0] == count && ws[1] == rates.droprate + 0x1_0000 * rates.outOfSyncRate;
    }
  }

  /** Reads the header of the kinds that report rates. */
  method ReadRates(cur: Cursor) returns (count: u32, rates: Rates)
    requires cur.Valid()
    modifies cur
    ensures cur.Valid() && Took(Rec(RatesRecord()).dec, cur.data, old(cur.State()), Head(count, rates), cur.State())
  {
    count := cur.Uint32();
    var droprate := cur.Uint16();
    var outOfSyncRate := cur.Uint16();
    rates := Rates(droprate, outOfSyncRate);
    RatesTook(cur.data, old(cur.State()), count, rates, cur.State());
  }

  /** n floats, read one by one into an array. */
  method ReadFloats(cur: Cursor, n: u32) returns (values: seq<f32>)
    requires cur.Valid()
    modifies cur
    ensures cur.Valid() && |values| == n
    ensures cur.State() == Advance(cur.data, old(cur.State()), 4 * n)
    ensures cur.State().Some? ==> values == Words(cur.data, old(cur.pos), n)
  {
    var table := new f32[n];
    var i := 0;
    while i < n
      invariant 0 <= i <= n
      invariant cur.Valid()
      invariant cur.State() == Advance(cur.data, old(cur.State()), 4 * i)
      invariant cur.State().Some? ==> forall k :: 0 <= k < i ==> table[k] == U32(cur.data, old(cur.pos) + 4 * k)
      modifies cur, table
    {
      table[i] := cur.Float32();
      i := i + 1;
    }
    values := table[..];
  }
}
