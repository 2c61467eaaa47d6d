/** The three timecode representations packed into two 32-bit words. Masks and shifts are written as
    remainders and quotients by powers of two. */
module Timecodes {
  import opened Wire
  import opened Layouts

  const SMPTE := 0
  const IRIG := 1
  const CAMERA_TIME := 2

  datatype IrigTime = IrigTime(year: u32, day: u32, hour: u32, minute: u32, second: u32, tenth: u32)
  datatype SmpteTime = SmpteTime(hour: u32, minute: u32, second: u32, frame: u32, subFrame: u32)

  /** An entry as decoded: the representation its kind names is set, the others are zero. */
  datatype Timecode = Timecode(kind: u32, irig: IrigTime, smpte: SmpteTime, cameraTime: u64, high: u32, low: u32)

  const ZERO_IRIG := IrigTime(0, 0, 0, 0, 0, 0)
  const ZERO_SMPTE := SmpteTime(0, 0, 0, 0, 0)
  const ZERO_TIMECODE := Timecode(0, ZERO_IRIG, ZERO_SMPTE, 0, 0, 0)

  function Irig(high: u32, low: u32): IrigTime {
    IrigTime(high % 0x80, high / 0x80 % 0x200, low % 0x20, low / 0x20 % 0x40, low / 0x800 % 0x40, low / 0x2_0000 % 0x10)
  }

  function Smpte(low: u32): SmpteTime {
    SmpteTime(low % 0x20, low / 0x20 % 0x40, low / 0x800 % 0x40, low / 0x2_0000 % 0x20, low / 0x40_0000 % 0x200)
  }

  function CameraTime(high: u32, low: u32): u64 { high * 0x1_0000_0000 + low }

  function Decode(w: TimecodeWire): Timecode {
    var t := ZERO_TIMECODE.(kind := w.kind);
    if w.kind == SMPTE then t.(smpte := Smpte(w.low))
    else if w.kind == IRIG then t.(irig := Irig(w.high, w.low))
    else if w.kind == CAMERA_TIME then t.(cameraTime := CameraTime(w.high, w.low))
    else t.(high := w.high, low := w.low)
  }

  // The packing the encoder side uses.

  function SmpteWord(t: SmpteTime): int {
    t.hour + 0x20 * (t.minute + 0x40 * (t.second + 0x40 * (t.frame + 0x20 * t.subFrame)))
  }

  function IrigHigh(t: IrigTime): int { t.year + 0x80 * t.day }

  function IrigLow(t: IrigTime): int { t.hour + 0x20 * (t.minute + 0x40 * (t.second + 0x40 * t.tenth)) }

  predicate SmpteInRange(t: SmpteTime) {
    t.hour < 0x20 && t.minute < 0x40 && t.second < 0x40 && t.frame < 0x20 && t.subFrame < 0x200
  }

  predicate IrigInRange(t: IrigTime) {
    t.year < 0x80 && t.day < 0x200 && t.hour < 0x20 && t.minute < 0x40 && t.second < 0x40 && t.tenth < 0x10
  }

  predicate InRange(t: Timecode) {
    && (if t.kind == SMPTE then SmpteInRange(t.smpte) else t.smpte == ZERO_SMPTE)
    && (if t.kind == IRIG then IrigInRange(t.irig) else t.irig == ZERO_IRIG)
    && (t.kind != CAMERA_TIME ==> t.cameraTime == 0)
    && (t.kind <= CAMERA_TIME ==> t.high == 0 && t.low == 0)
  }

  /** The words of an entry, unused bits clear. */
  function Encode(t: Timecode): TimecodeWire
    requires InRange(t)
  {
    if t.kind == SMPTE then TimecodeWire(t.kind, 0, SmpteWord(t.smpte))
    else if t.kind == IRIG then TimecodeWire(t.kind, IrigHigh(t.irig), IrigLow(t.irig))
    else if t.kind == CAMERA_TIME then
      TimecodeWire(t.kind, t.cameraTime / 0x1_0000_0000, t.cameraTime % 0x1_0000_0000)
    else TimecodeWire(t.kind, t.high, t.low)
  }

  /** An entry's words with the bits its kind does not use cleared. */
  function Used(w: TimecodeWire): TimecodeWire {
    if w.kind == SMPTE then w.(high := 0, low := w.low % 0x8000_0000)
    else if w.kind == IRIG then w.(high := w.high % 0x1_0000, low := w.low % 0x20_0000)
    else w
  }

  /** Shifting further is shifting again. */
  lemma Shifts(x: u32)
    ensures x / 0x800 == x / 0x20 / 0x40 && x / 0x2_0000 == x / 0x20 / 0x40 / 0x40
    ensures x / 0x40_0000 == x / 0x20 / 0x40 / 0x40 / 0x20
  {
  }

  /** The low end of a packed word: its first field, and what stands above it. */
  lemma Peel(width: nat, field: nat, rest: nat, x: int)
    requires width == 0x10 || width == 0x20 || width == 0x40 || width == 0x80 || width == 0x200
    requires field < width && x == field + width * rest
    ensures x % width == field && x / width == rest
  {
  }

  lemma SmpteFields(t: SmpteTime)
    requires SmpteInRange(t)
    ensures SmpteWord(t) < 0x8000_0000 && Smpte(SmpteWord(t)) == t
  {
    var w4 := t.frame + 0x20 * t.subFrame;
    var w3 := t.second + 0x40 * w4;
    var w2 := t.minute + 0x40 * w3;
    var w1 := t.hour + 0x20 * w2;
    Peel(0x20, t.hour, w2, w1);
    Peel(0x40, t.minute, w3, w2);
    Peel(0x40, t.second, w4, w3);
    Peel(0x20, t.frame, t.subFrame, w4);
    Shifts(w1);
  }

  /** A word is what its used fields pack to, plus whatever stands above them. */
  lemma Above(x: nat, used: nat, size: nat, above: nat)
    requires size == 0x8000_0000 || size == 0x20_0000 || size == 0x1_0000
    requires used < size && x == used + size * above
    ensures used == x % size
  {
  }

  lemma Sum(x: int, f1: int, q1: int, f2: int, q2: int, f3: int, q3: int)
    requires x == f1 + 0x20 * q1 && q1 == f2 + 0x40 * q2 && q2 == f3 + 0x40 * q3
    ensures x == f1 + 0x20 * (f2 + 0x40 * f3) + 0x2_0000 * q3
  {
  }

  lemma SmpteUsed(low: u32)
    ensures SmpteInRange(Smpte(low)) && SmpteWord(Smpte(low)) == low % 0x8000_0000
  {
    Shifts(low);
    var t := Smpte(low);
    var q := low / 0x2_0000;
    Sum(low, t.hour, low / 0x20, t.minute, low / 0x800, t.second, q);
    assert q == t.frame + 0x20 * (low / 0x40_0000);
    var top := low / 0x40_0000 / 0x200;
    assert low / 0x40_0000 == t.subFrame + 0x200 * top;
    Above(low, SmpteWord(t), 0x8000_0000, top);
  }

  lemma IrigFields(t: IrigTime)
    requires IrigInRange(t)
    ensures IrigHigh(t) < 0x1_0000 && IrigLow(t) < 0x20_0000 && Irig(IrigHigh(t), IrigLow(t)) == t
  {
    var w3 := t.second + 0x40 * t.tenth;
    var w2 := t.minute + 0x40 * w3;
    var w1 := t.hour + 0x20 * w2;
    Peel(0x80, t.year, t.day, IrigHigh(t));
    Peel(0x20, t.hour, w2, w1);
    Peel(0x40, t.minute, w3, w2);
    Peel(0x40, t.second, t.tenth, w3);
    Shifts(w1);
  }

  lemma IrigUsed(high: u32, low: u32)
    ensures IrigInRange(Irig(high, low))
    ensures IrigHigh(Irig(high, low)) == high % 0x1_0000 && IrigLow(Irig(high, low)) == low % 0x20_0000
  {
    Shifts(low);
    var t := Irig(high, low);
    var q := low / 0x2_0000;
    Sum(low, t.hour, low / 0x20, t.minute, low / 0x800, t.second, q);
    assert q == t.tenth + 0x10 * (q / 0x10);
    Above(low, IrigLow(t), 0x20_0000, q / 0x10);
    Above(high, IrigHigh(t), 0x1_0000, high / 0x80 / 0x200);
  }

  /** Every entry in range comes back from its words. */
  lemma EncodeDecode(t: Timecode)
    requires InRange(t)
    ensures Decode(Encode(t)) == t
  {
    SmpteFields(t.smpte);
    if t.kind == IRIG {
      IrigFields(t.irig);
    }
  }

  /** What is decoded is in range and determines every bit its kind uses, and no other. */
  lemma DecodeEncode(w: TimecodeWire)
    ensures InRange(Decode(w)) && Encode(Decode(w)) == Used(w)
  {
    SmpteUsed(w.low);
    IrigUsed(w.high, w.low);
  }

  lemma SameEntry(v: TimecodeWire, w: TimecodeWire)
    ensures Decode(v) == Decode(w) <==> Used(v) == Used(w)
  {
    DecodeEncode(v);
    DecodeEncode(w);
  }

  // Camera time, in ticks of 100 nanoseconds.

  /** The signed 64-bit value an integer is reduced to. */
  function Wrap64(x: int): int { (x + 0x8000_0000_0000_0000) % 0x1_0000_0000_0000_0000 - 0x8000_0000_0000_0000 }

  function Duration(ticks: u64): int { Wrap64(Wrap64(ticks) * 100) }

  /** The duration in nanoseconds is right exactly up to the largest tick count a signed 64-bit count of
      nanoseconds can hold. */
  lemma DurationExact(ticks: u64)
    ensures Duration(ticks) == 100 * ticks <==> ticks <= 92233720368547758
  {
  }

  const TICKS_PER_SECOND := 10_000_000

  function Seconds(ticks: u64): int { ticks / TICKS_PER_SECOND }

  function Nanoseconds(ticks: u64): int { ticks % TICKS_PER_SECOND * (1_000_000_000 / TICKS_PER_SECOND) }

  /** Printed as seconds and nine digits of nanoseconds, a camera time loses nothing, at any tick count. */
  lemma SecondsAndNanoseconds(ticks: u64, s: nat, n: nat)
    ensures s == Seconds(ticks) && n == Nanoseconds(ticks) <==> n < 1_000_000_000 && s * 1_000_000_000 + n == 100 * ticks
  {
  }
}
