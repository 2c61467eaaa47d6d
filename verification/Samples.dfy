/** Sampled devices: analog boards and force plates, each in a multi-sample and a single-sample kind. */
module Samples {
  import opened Wire
  import opened Codec
  import opened Layouts
  import opened Cursors

  /** The decoded device, without the wire's sample count. */
  function Device(w: AnalogWire): AnalogDevice { AnalogDevice(w.head.id, w.head.sampleNumber, w.channels) }

  function SingleDevice(w: AnalogSingleWire): AnalogDevice { AnalogDevice(w.id, 0, w.channels) }

  class ComponentAnalog {
    var analogDevices: seq<AnalogDevice>

    constructor ()
      ensures Value() == []
    {
      analogDevices := [];
    }

    function Value(): seq<AnalogDevice>
      reads this
    {
      analogDevices
    }

    /** The multi-sample kind. */
    method Unmarshal(data: array<u8>, lo: nat, hi: nat) returns (err: Err)
      requires lo <= hi <= data.Length
      modifies this
      ensures Payload(Mapped(List(CountedShape(List(AnalogShape()))).dec, Device), data[lo..hi], old(Value()))
              == if err == Nil then Some(Value()) else None
    {
      if lo == hi {
        return Nil;
      }
      var cur := new Cursor(data, lo, hi);
      var deviceCount := ReadCount(cur);
      ghost var item, start := List(AnalogShape()), cur.State();
      var ok := cur.CheckCount(deviceCount, 16);
      if !ok {
        AnalogTakes();
        GuardTook(CountedShape(item), 16, cur.data, Some(0), deviceCount, Nothing, start, []);
        return cur.err;
      }
      analogDevices := [];
      ghost var wires := [];
      ProgressStart(item.dec, deviceCount, cur.data, start);
      var i := 0;
      while i < deviceCount
        invariant 0 <= i <= deviceCount && |wires| == i && analogDevices == Map(Device, wires)
        invariant cur.Valid()
        invariant Progress(item.dec, deviceCount, cur.data, start, wires, cur.State())
      {
        ghost var before := cur.State();
        ghost var wire;
        var dev;
        ok, dev, wire := ReadAnalogDevice(cur);
        ProgressStep(item.dec, deviceCount, cur.data, start, wires, before, wire, cur.State());
        MapSnoc(Device, wires, wire);
        wires := wires + [wire];
        if !ok {
          TookList(CountedShape(item), cur.data, Some(0), deviceCount, Nothing, start, wires, cur.State());
          return cur.err;
        }
        analogDevices := analogDevices + [dev];
        i := i + 1;
      }
      TookList(CountedShape(item), cur.data, Some(0), deviceCount, Nothing, start, wires, cur.State());
      return cur.err;
    }

    /** The single-sample kind. */
    method UnmarshalSingle(data: array<u8>, lo: nat, hi: nat) returns (err: Err)
      requires lo <= hi <= data.Length
      modifies this
      ensures Payload(Mapped(List(CountedShape(List(AnalogSingleShape()))).dec, SingleDevice), data[lo..hi], old(Value()))
              == if err == Nil then Some(Value()) else None
    {
      if lo == hi {
        return Nil;
      }
      var cur := new Cursor(data, lo, hi);
      var deviceCount := ReadCount(cur);
      ghost var item, start := List(AnalogSingleShape()), cur.State();
      var ok := cur.CheckCount(deviceCount, 8);
      if !ok {
        AnalogSingleTakes();
        GuardTook(CountedShape(item), 8, cur.data, Some(0), deviceCount, Nothing, start, []);
        return cur.err;
      }
      analogDevices := [];
      ghost var wires := [];
      ProgressStart(item.dec, deviceCount, cur.data, start);
      var i := 0;
      while i < deviceCount
        invariant 0 <= i <= deviceCount && |wires| == i && analogDevices == Map(SingleDevice, wires)
        invariant cur.Valid()
        invariant Progress(item.dec, deviceCount, cur.data, start, wires, cur.State())
      {
        ghost var before := cur.State();
        ghost var wire;
        var dev;
        ok, dev, wire := ReadAnalogSingleDevice(cur);
        ProgressStep(item.dec, deviceCount, cur.data, start, wires, before, wire, cur.State());
        MapSnoc(SingleDevice, wires, wire);
        wires := wires + [wire];
        if !ok {
          TookList(CountedShape(item), cur.data, Some(0), deviceCount, Nothing, start, wires, cur.State());
          return cur.err;
        }
        analogDevices := analogDevices + [dev];
        i := i + 1;
      }
      TookList(CountedShape(item), cur.data, Some(0), deviceCount, Nothing, start, wires, cur.State());
      return cur.err;
    }
  }

  lemma AnalogTakes()
    ensures Takes(List(AnalogShape()).dec, 16)
  {
    RecTakes(AnalogRecord());
    forall h: AnalogHead ensures Takes(AnalogShape().item(h).dec, 0) {
      forall b: bytes, p: nat ensures TakesAt(AnalogShape().item(h).dec, 0, b, p) {
      }
    }
    ListTakes(AnalogShape(), 16);
  }

  lemma AnalogSingleTakes()
    ensures Takes(List(AnalogSingleShape()).dec, 8)
  {
    RecTakes(IdRecord());
    forall b: bytes, p: nat ensures TakesAt(Rec(WordsRecord(1)).dec, 0, b, p) {
    }
    ListTakes(AnalogSingleShape(), 8);
  }

  /** channels * samples * 4 as a 64-bit unsigned product. */
  function Product64(channels: u32, samples: u32): u64 {
    channels * samples % 0x1_0000_0000_0000_0000 * 4 % 0x1_0000_0000_0000_0000
  }

  /** The wrapped product never exceeds the true one, so what it refuses cannot be decoded. */
  lemma ProductGuard(channels: u32, samples: u32, left: nat)
    ensures Product64(channels, samples) > left ==> channels * (4 * samples) > left
  {
    var x := channels * samples;
    assert x >= 0 && x % 0x1_0000_0000_0000_0000 <= x;
    assert channels * (4 * samples) == 4 * x;
  }

  /** It is the true product exactly while that fits 64 bits. Beyond, the guard can pass a product that is far too
      large: 2^31 channels of 2^31 samples count as nothing. */
  lemma ProductExact(channels: u32, samples: u32)
    ensures Product64(channels, samples) == 4 * (channels * samples) <==> 4 * (channels * samples) < 0x1_0000_0000_0000_0000
    ensures Product64(0x8000_0000, 0x8000_0000) == 0
  {
    var x := channels * samples;
    assert 0 <= x;
  }

  method ReadAnalogHead(cur: Cursor) returns (channelCount: u32, head: AnalogHead)
    requires cur.Valid()
    modifies cur
    ensures cur.Valid()
    ensures Took(Rec(AnalogRecord()).dec, cur.data, old(cur.State()), Head(channelCount, head), cur.State())
  {
    hide Rec, Took, U32;
    var id := cur.Uint32();
    channelCount := cur.Uint32();
    var sampleCount := cur.Uint32();
    var sampleNumber := cur.Uint32();
    head := AnalogHead(id, sampleCount, sampleNumber);
    AnalogHeadTook(cur.data, old(cur.State()), channelCount, head, cur.State());
  }

  lemma AnalogHeadTook(b: bytes, before: Option<nat>, channelCount: u32, h: AnalogHead, after: Option<nat>)
    requires after == Advance(b, before, 16)
    requires after.Some? ==> var p := before.value;
      channelCount == U32(b, p + 4) && h == AnalogHead(U32(b, p), U32(b, p + 8), U32(b, p + 12))
    ensures Took(Rec(AnalogRecord()).dec, b, before, Head(channelCount, h), after)
  {
  }

  /** Refuses a device whose samples cannot fit, unless the reader has failed already. */
  method CheckProduct(cur: Cursor, channelCount: u32, sampleCount: u32) returns (ok: bool)
    requires cur.Valid()
    modifies cur
    ensures cur.Valid()
    ensures ok ==> cur.State() == old(cur.State())
    ensures !ok ==> cur.State() == None && old(cur.State()).Some?
    ensures !ok ==> channelCount * (4 * sampleCount) > |cur.data| - old(cur.pos)
  {
    ok := true;
    if cur.err == Nil {
      var left := cur.Remaining();
      if Product64(channelCount, sampleCount) > left {
        ProductGuard(channelCount, sampleCount, left);
        cur.Fail();
        ok := false;
      }
    }
  }

  lemma DeviceRefused(b: bytes, before: Option<nat>, n: u32, h: AnalogHead, mid: Option<nat>, wire: AnalogWire)
    requires Took(Rec(AnalogRecord()).dec, b, before, Head(n, h), mid)
    requires mid.Some? && mid.value <= |b| && n * (4 * h.sampleCount) > |b| - mid.value
    ensures Took(List(AnalogShape()).dec, b, before, wire, None)
  {
    var least := 4 * h.sampleCount;
    RecTakes(WordsRecord(h.sampleCount));
    GuardTook(AnalogShape(), least, b, before, n, h, mid, wire);
  }

  /** One device; ok is false when the product of its counts was refused. After a failed header read the
      product is not checked. */
  method ReadAnalogDevice(cur: Cursor) returns (ok: bool, dev: AnalogDevice, ghost wire: AnalogWire)
    requires cur.Valid()
    modifies cur
    ensures cur.Valid() && (!ok ==> cur.State() == None) && dev == Device(wire)
    ensures Took(List(AnalogShape()).dec, cur.data, old(cur.State()), wire, cur.State())
  {
    var channelCount, head := ReadAnalogHead(cur);
    var sampleCount := head.sampleCount;
    ghost var start := cur.State();
    dev, wire := AnalogDevice(head.id, head.sampleNumber, []), AnalogWire(head, []);
    ok := CheckProduct(cur, channelCount, sampleCount);
    if !ok {
      DeviceRefused(cur.data, old(cur.State()), channelCount, head, start, wire);
      return;
    }
    var channels := ReadChannels(cur, channelCount, sampleCount);
    dev, wire := dev.(channels := channels), wire.(channels := channels);
    TookList(AnalogShape(), cur.data, old(cur.State()), channelCount, head, start, channels, cur.State());
  }

  /** Fills the table of channels, all samples of one channel before the next. */
  method ReadChannels(cur: Cursor, channelCount: u32, sampleCount: u32) returns (channels: seq<seq<f32>>)
    requires cur.Valid()
    modifies cur
    ensures cur.Valid() && |channels| == channelCount
    ensures Progress(Rec(WordsRecord(sampleCount)).dec, channelCount, cur.data, old(cur.State()), channels, cur.State())
  {
    var table := new seq<f32>[channelCount](_ => []);
    ghost var item := Rec(WordsRecord(sampleCount));
    ProgressStart(item.dec, channelCount, cur.data, cur.State());
    assert table[..0] == [];
    var ch := 0;
    while ch < channelCount
      invariant 0 <= ch <= channelCount
      invariant cur.Valid()
      invariant forall k :: ch <= k < channelCount ==> table[k] == []
      invariant Progress(item.dec, channelCount, cur.data, old(cur.State()), table[..ch], cur.State())
      modifies cur, table
    {
      ghost var before, done := cur.State(), table[..ch];
      if sampleCount != 0 {
        var samples := ReadFloats(cur, sampleCount);
        table[ch] := samples;
      }
      ProgressStep(item.dec, channelCount, cur.data, old(cur.State()), done, before, table[ch], cur.State());
      assert table[..ch + 1] == done + [table[ch]];
      ch := ch + 1;
    }
    channels := table[..];
    assert table[..ch] == channels;
  }

  method ReadAnalogSingleDevice(cur: Cursor) returns (ok: bool, dev: AnalogDevice, ghost wire: AnalogSingleWire)
    requires cur.Valid()
    modifies cur
    ensures cur.Valid() && (!ok ==> cur.State() == None) && dev == SingleDevice(wire)
    ensures Took(List(AnalogSingleShape()).dec, cur.data, old(cur.State()), wire, cur.State())
  {
    var id := cur.Uint32();
    var channelCount := cur.Uint32();
    ghost var item, start := Rec(WordsRecord(1)), cur.State();
    dev, wire := AnalogDevice(id, 0, []), AnalogSingleWire(id, []);
    ok := cur.CheckCount(channelCount, 4);
    if !ok {
      RecTakes(WordsRecord(1));
      GuardTook(AnalogSingleShape(), 4, cur.data, old(cur.State()), channelCount, id, start, wire);
      return;
    }
    var channels := ReadChannels(cur, channelCount, 1);
    dev, wire := dev.(channels := channels), wire.(channels := channels);
    TookList(AnalogSingleShape(), cur.data, old(cur.State()), channelCount, id, start, channels, cur.State());
  }

  class ComponentForce {
    var forcePlates: seq<ForcePlate>

    constructor ()
      ensures Value() == []
    {
      forcePlates := [];
    }

    function Value(): seq<ForcePlate>
      reads this
    {
      forcePlates
    }

    /** The multi-sample kind. */
    method Unmarshal(data: array<u8>, lo: nat, hi: nat) returns (err: Err)
      requires lo <= hi <= data.Length
      modifies this
      ensures Payload(List(CountedShape(List(PlateShape()))).dec, data[lo..hi], old(Value()))
              == if err == Nil then Some(Value()) else None
    {
      if lo == hi {
        return Nil;
      }
      var cur := new Cursor(data, lo, hi);
      var plateCount := ReadCount(cur);
      ghost var item, start := List(PlateShape()), cur.State();
      var ok := cur.CheckCount(plateCount, 12);
      if !ok {
        PlateTakes();
        GuardTook(CountedShape(item), 12, cur.data, Some(0), plateCount, Nothing, start, []);
        return cur.err;
      }
      forcePlates := [];
      ProgressStart(item.dec, plateCount, cur.data, start);
      var i := 0;
      while i < plateCount
        invariant 0 <= i <= plateCount && |forcePlates| == i
        invariant cur.Valid()
        invariant Progress(item.dec, plateCount, cur.data, start, forcePlates, cur.State())
      {
        ghost var before := cur.State();
        var fp;
        ok, fp := ReadPlate(cur);
        ProgressStep(item.dec, plateCount, cur.data, start, forcePlates, before, fp, cur.State());
        if !ok {
          TookList(CountedShape(item), cur.data, Some(0), plateCount, Nothing, start, forcePlates + [fp], cur.State());
          return cur.err;
        }
        forcePlates := forcePlates + [fp];
        i := i + 1;
      }
      TookList(CountedShape(item), cur.data, Some(0), plateCount, Nothing, start, forcePlates, cur.State());
      return cur.err;
    }

    /** The single-sample kind: a plate is an identity and one sample, with no number. */
    method UnmarshalSingle(data: array<u8>, lo: nat, hi: nat) returns (err: Err)
      requires lo <= hi <= data.Length
      modifies this
      ensures Payload(List(CountedShape(Rec(SinglePlateRecord()))).dec, data[lo..hi], old(Value()))
              == if err == Nil then Some(Value()) else None
    {
      hide U32, Words, Rec, Takes;
      if lo == hi {
        return Nil;
      }
      var cur := new Cursor(data, lo, hi);
      var plateCount := ReadCount(cur);
      ghost var item, start := Rec(SinglePlateRecord()), cur.State();
      var ok := cur.CheckCount(plateCount, 40);
      if !ok {
        RecTakes(SinglePlateRecord());
        GuardTook(CountedShape(item), 40, cur.data, Some(0), plateCount, Nothing, start, []);
        return cur.err;
      }
      forcePlates := [];
      ProgressStart(item.dec, plateCount, cur.data, start);
      var i := 0;
      while i < plateCount
        invariant 0 <= i <= plateCount && |forcePlates| == i
        invariant cur.Valid()
        invariant Progress(item.dec, plateCount, cur.data, start, forcePlates, cur.State())
      {
        ghost var before := cur.State();
        var fp := ReadSinglePlate(cur);
        ProgressStep(item.dec, plateCount, cur.data, start, forcePlates, before, fp, cur.State());
        forcePlates := forcePlates + [fp];
        i := i + 1;
      }
      TookList(CountedShape(item), cur.data, Some(0), plateCount, Nothing, start, forcePlates, cur.State());
      return cur.err;
    }
  }

  lemma PlateTakes()
    ensures Takes(List(PlateShape()).dec, 12)
  {
    RecTakes(PlateRecord());
    forall b: bytes, p: nat ensures TakesAt(Rec(ForceSampleRecord()).dec, 0, b, p) {
    }
    ListTakes(PlateShape(), 12);
  }

  /** An identity and then a sample are a single-sample plate. */
  lemma SinglePlateTook(b: bytes, before: Option<nat>, fp: ForcePlate, after: Option<nat>)
    requires after == Advance(b, before, 40)
    requires after.Some? ==> fp.id == U32(b, before.value) && fp.number == 0
    requires after.Some? ==> fp.samples == [ForceSampleAt(Words(b, before.value + 4, 9), 0)]
    ensures Took(Rec(SinglePlateRecord()).dec, b, before, fp, after)
  {
    if after.Some? {
      WordsSplit(b, before.value, 9);
      var ws, rest := Words(b, before.value, 10), Words(b, before.value + 4, 9);
      assert forall i :: 0 <= i < 9 ==> Nth(ws, i + 1) == Nth(rest, i);
    }
  }

  method ReadPlateHead(cur: Cursor) returns (sampleCount: u32, head: PlateHead)
    requires cur.Valid()
    modifies cur
    ensures cur.Valid()
    ensures Took(Rec(PlateRecord()).dec, cur.data, old(cur.State()), Head(sampleCount, head), cur.State())
  {
    var id := cur.Uint32();
    sampleCount := cur.Uint32();
    var number := cur.Uint32();
    head := PlateHead(id, number);
  }

  method ReadForceSample(cur: Cursor) returns (s: ForceSample)
    requires cur.Valid()
    modifies cur
    ensures cur.Valid() && cur.State() == Advance(cur.data, old(cur.State()), 36)
    ensures cur.State().Some? ==> s == ForceSampleAt(Words(cur.data, old(cur.pos), 9), 0)
    ensures Took(Rec(ForceSampleRecord()).dec, cur.data, old(cur.State()), s, cur.State())
  {
    hide Rec, Took, U32, Words;
    var force := cur.ReadPoint();
    var moment := cur.ReadPoint();
    var centerOfPressure := cur.ReadPoint();
    s := ForceSample(force, moment, centerOfPressure);
    ForceSampleTook(cur.data, old(cur.State()), s, cur.State());
  }

  lemma ForceSampleTook(b: bytes, before: Option<nat>, s: ForceSample, after: Option<nat>)
    requires after == Advance(b, before, 36)
    requires after.Some? ==> var p := before.value;
      s == ForceSample(Point(U32(b, p), U32(b, p + 4), U32(b, p + 8)), Point(U32(b, p + 12), U32(b, p + 16), U32(b, p + 20)),
        Point(U32(b, p + 24), U32(b, p + 28), U32(b, p + 32)))
    ensures after.Some? ==> s == ForceSampleAt(Words(b, before.value, 9), 0)
    ensures Took(Rec(ForceSampleRecord()).dec, b, before, s, after)
  {
  }

  method ReadSinglePlate(cur: Cursor) returns (fp: ForcePlate)
    requires cur.Valid()
    modifies cur
    ensures cur.Valid()
    ensures Took(Rec(SinglePlateRecord()).dec, cur.data, old(cur.State()), fp, cur.State())
  {
    var id := cur.Uint32();
    var sample := ReadForceSample(cur);
    fp := ForcePlate(id, 0, [sample]);
    SinglePlateTook(cur.data, old(cur.State()), fp, cur.State());
  }

  method ReadPlate(cur: Cursor) returns (ok: bool, fp: ForcePlate)
    requires cur.Valid()
    modifies cur
    ensures cur.Valid() && (!ok ==> cur.State() == None)
    ensures Took(List(PlateShape()).dec, cur.data, old(cur.State()), fp, cur.State())
  {
    var sampleCount, head := ReadPlateHead(cur);
    fp := ForcePlate(head.id, head.number, []);
    ghost var item, start := Rec(ForceSampleRecord()), cur.State();
    ok := cur.CheckCount(sampleCount, 36);
    if !ok {
      RecTakes(ForceSampleRecord());
      GuardTook(PlateShape(), 36, cur.data, old(cur.State()), sampleCount, head, start, fp);
      return;
    }
    ProgressStart(item.dec, sampleCount, cur.data, start);
    var s := 0;
    while s < sampleCount
      invariant 0 <= s <= sampleCount && |fp.samples| == s && fp.id == head.id && fp.number == head.number
      invariant cur.Valid()
      invariant Progress(item.dec, sampleCount, cur.data, start, fp.samples, cur.State())
    {
      ghost var before := cur.State();
      var sample := ReadForceSample(cur);
      ProgressStep(item.dec, sampleCount, cur.data, start, fp.samples, before, sample, cur.State());
      fp := fp.(samples := fp.samples + [sample]);
      s := s + 1;
    }
    TookList(PlateShape(), cur.data, old(cur.State()), sampleCount, head, start, fp.samples, cur.State());
  }
}
