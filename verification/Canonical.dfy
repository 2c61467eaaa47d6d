/** What an accepted payload must look like: the encoding of the value answered stands at its start, except for
    bits that carry nothing. */
module CanonicalForms {
  import opened Wire
  import opened Codec
  import opened Layouts
  import opened Components
  import T = Timecodes
  import S = Samples

  lemma PayloadCanonical<T(!new)>(f: Format<T>, b: bytes, receiver: T)
    requires Lawful(f) && b != [] && Payload(f.dec, b, receiver).Some?
    ensures var v := Payload(f.dec, b, receiver).value; f.valid(v) && f.enc(v) <= b && End(f.dec, b) == |f.enc(v)|
  {
    Canonical(f, b);
  }

  /** b begins with the encoding of v, and reading b stops where that ends. */
  predicate Begins(kind: u32, v: Body, b: bytes)
    requires WellFormed(kind, v)
  {
    EncodeBody(kind, v) <= b && BodyEnd(kind, b) == |EncodeBody(kind, v)|
  }

  /** The kinds whose values keep every bit. */
  predicate Lossless(kind: u32) { kind != TYPE_ANALOG && kind != TYPE_TIMECODE }

  lemma SingleWiresBack(ws: seq<AnalogSingleWire>)
    ensures Map(SingleWire, Map(S.SingleDevice, ws)) == ws
  {
  }

  lemma AnalogSingleCanonical(b: bytes)
    requires b != [] && DecodeBody(TYPE_ANALOG_SINGLE, b).Some?
    ensures var v := DecodeBody(TYPE_ANALOG_SINGLE, b).value;
      WellFormed(TYPE_ANALOG_SINGLE, v) && Begins(TYPE_ANALOG_SINGLE, v, b)
  {
    SampledLaws();
    var ws := FormatAnalogSingle().dec(b, 0).value.0;
    Canonical(FormatAnalogSingle(), b);
    SingleWiresBack(ws);
  }

  lemma RatedCanonical(kind: u32, b: bytes)
    requires Is3D(kind) || Is6D(kind) || IsEuler(kind) || Is2D(kind)
    requires b != [] && DecodeBody(kind, b).Some?
    ensures var v := DecodeBody(kind, b).value; WellFormed(kind, v) && Begins(kind, v, b)
  {
    RatedLaws(kind);
    if Is3D(kind) {
      PayloadCanonical(Format3D(kind), b, NoRates());
    } else if Is6D(kind) {
      PayloadCanonical(Format6D(kind), b, NoRates());
    } else if IsEuler(kind) {
      PayloadCanonical(FormatEuler(kind), b, NoRates());
    } else {
      PayloadCanonical(Format2D(), b, NoRates());
    }
  }

  lemma ForceCanonical(kind: u32, b: bytes)
    requires kind == TYPE_FORCE || kind == TYPE_FORCE_SINGLE
    requires b != [] && DecodeBody(kind, b).Some?
    ensures var v := DecodeBody(kind, b).value; WellFormed(kind, v) && Begins(kind, v, b)
  {
    SampledLaws();
    if kind == TYPE_FORCE {
      PayloadCanonical(FormatForce(), b, []);
    } else {
      PayloadCanonical(FormatForceSingle(), b, []);
    }
  }

  lemma SensorCanonical(kind: u32, b: bytes)
    requires kind == TYPE_IMAGE || kind == TYPE_GAZE_VECTOR || kind == TYPE_SKELETON || kind == TYPE_EYE_TRACKER
    requires b != [] && DecodeBody(kind, b).Some?
    ensures var v := DecodeBody(kind, b).value; WellFormed(kind, v) && Begins(kind, v, b)
  {
    SensorLaws();
    if kind == TYPE_IMAGE {
      PayloadCanonical(FormatImage(), b, []);
    } else if kind == TYPE_GAZE_VECTOR {
      PayloadCanonical(FormatGaze(), b, []);
    } else if kind == TYPE_SKELETON {
      PayloadCanonical(FormatSkeleton(), b, []);
    } else {
      PayloadCanonical(FormatEye(), b, []);
    }
  }

  /** A non-empty payload accepted by any kind but multi-sample analog and timecode begins with the encoding of
      the value it decodes to, and reading stops there. */
  lemma BodyCanonical(kind: u32, b: bytes)
    requires Lossless(kind) && b != [] && DecodeBody(kind, b).Some?
    ensures var v := DecodeBody(kind, b).value; WellFormed(kind, v) && Begins(kind, v, b)
  {
    if Is3D(kind) || Is6D(kind) || IsEuler(kind) || Is2D(kind) {
      RatedCanonical(kind, b);
    } else if kind == TYPE_ANALOG_SINGLE {
      AnalogSingleCanonical(b);
    } else if kind == TYPE_FORCE || kind == TYPE_FORCE_SINGLE {
      ForceCanonical(kind, b);
    } else if Known(kind) {
      SensorCanonical(kind, b);
    }
  }

  /** The sample count of a device without channels carries nothing. */
  function Normal(w: AnalogWire): AnalogWire {
    if w.channels == [] then w.(head := w.head.(sampleCount := 0)) else w
  }

  lemma NormalWire(w: AnalogWire)
    requires List(AnalogShape()).valid(w)
    ensures DeviceWire(S.Device(w)) == Normal(w) && List(AnalogShape()).valid(Normal(w))
  {
    if w.channels != [] {
      assert WordsRecord(w.head.sampleCount).valid(w.channels[0]);
    }
  }

  ghost predicate SameSize<T>(f: Format<T>, x: T, y: T) { |f.enc(x)| == |f.enc(y)| }

  lemma {:induction false} ManySize<T(!new)>(f: Format<T>, xs: seq<T>, ys: seq<T>)
    requires |xs| == |ys| && forall i :: 0 <= i < |xs| ==> SameSize(f, xs[i], ys[i])
    ensures |EncMany(f.enc, xs)| == |EncMany(f.enc, ys)|
    decreases |xs|
  {
    if xs != [] {
      assert SameSize(f, xs[0], ys[0]);
      forall i | 0 <= i < |xs[1..]| ensures SameSize(f, xs[1..][i], ys[1..][i]) {
        assert SameSize(f, xs[i + 1], ys[i + 1]);
      }
      ManySize(f, xs[1..], ys[1..]);
    }
  }

  /** Replacing items by items of the same size keeps the size of a counted list. */
  lemma ListSize<T(!new)>(f: Format<T>, xs: seq<T>, ys: seq<T>)
    requires |xs| == |ys| && forall i :: 0 <= i < |xs| ==> SameSize(f, xs[i], ys[i])
    ensures |List(CountedShape(f)).enc(xs)| == |List(CountedShape(f)).enc(ys)|
  {
    ManySize(f, xs, ys);
  }

  lemma NormalSize(w: AnalogWire)
    ensures SameSize(List(AnalogShape()), w, Normal(w))
  {
    if w.channels == [] {
      WordsLength(AnalogRecord().from(Head(0, w.head)));
      WordsLength(AnalogRecord().from(Head(0, Normal(w).head)));
    }
  }

  lemma AnalogSize(ws: seq<AnalogWire>)
    ensures |FormatAnalog().enc(Map(Normal, ws))| == |FormatAnalog().enc(ws)|
  {
    hide List;
    forall i | 0 <= i < |ws| ensures SameSize(List(AnalogShape()), ws[i], Normal(ws[i])) {
      NormalSize(ws[i]);
    }
    ListSize(List(AnalogShape()), ws, Map(Normal, ws));
  }

  lemma TimecodeSize(ws: seq<TimecodeWire>)
    ensures |FormatTimecode().enc(Map(T.Used, ws))| == |FormatTimecode().enc(ws)|
  {
    hide List;
    forall i | 0 <= i < |ws| ensures SameSize(Rec(TimecodeRecord()), ws[i], T.Used(ws[i])) {
      WordsLength(TimecodeRecord().from(ws[i]));
      WordsLength(TimecodeRecord().from(T.Used(ws[i])));
    }
    ListSize(Rec(TimecodeRecord()), ws, Map(T.Used, ws));
  }

  /** The encoding stands there up to the sample counts that carry nothing, and reading stops where it ends. */
  lemma AnalogCanonical(b: bytes)
    requires b != [] && DecodeBody(TYPE_ANALOG, b).Some?
    ensures var v := DecodeBody(TYPE_ANALOG, b).value;
      WellFormed(TYPE_ANALOG, v) &&
      BodyEnd(TYPE_ANALOG, b) == |EncodeBody(TYPE_ANALOG, v)| &&
      exists ws :: FormatAnalog().valid(ws) && FormatAnalog().enc(ws) <= b && v == Analogs(Map(S.Device, ws))
        && EncodeBody(TYPE_ANALOG, v) == FormatAnalog().enc(Map(Normal, ws))
  {
    SampledLaws();
    Canonical(FormatAnalog(), b);
    var ws := FormatAnalog().dec(b, 0).value.0;
    var back := Map(DeviceWire, Map(S.Device, ws));
    forall i | 0 <= i < |ws| ensures back[i] == Normal(ws[i]) && List(AnalogShape()).valid(back[i]) {
      NormalWire(ws[i]);
    }
    assert back == Map(Normal, ws);
    AnalogSize(ws);
  }

  /** The encoding stands there up to the unused bits, and reading stops where it ends. */
  lemma TimecodeCanonical(b: bytes)
    requires b != [] && DecodeBody(TYPE_TIMECODE, b).Some?
    ensures var v := DecodeBody(TYPE_TIMECODE, b).value;
      WellFormed(TYPE_TIMECODE, v) &&
      BodyEnd(TYPE_TIMECODE, b) == |EncodeBody(TYPE_TIMECODE, v)| &&
      exists ws :: FormatTimecode().valid(ws) && FormatTimecode().enc(ws) <= b && v == Codes(Map(T.Decode, ws))
        && EncodeBody(TYPE_TIMECODE, v) == FormatTimecode().enc(Map(T.Used, ws))
  {
    SensorLaws();
    Canonical(FormatTimecode(), b);
    var ws := FormatTimecode().dec(b, 0).value.0;
    var ts := Map(T.Decode, ws);
    var back := Map(CodeWire, ts);
    forall i | 0 <= i < |ws| ensures T.InRange(ts[i]) && back[i] == T.Used(ws[i]) {
      T.DecodeEncode(ws[i]);
    }
    assert back == Map(T.Used, ws);
    TimecodeSize(ws);
  }

  // Where the samples of an accepted multi-sample analog payload stand.

  /** Bytes a device takes. */
  function DeviceBytes(w: AnalogWire): nat { 16 + 4 * w.head.sampleCount * |w.channels| }

  /** A channel is the run of words that follows the channels before it; width is the size of one channel. */
  ghost predicate ChannelAt(b: bytes, p: nat, width: nat, xs: seq<seq<u32>>, c: nat) {
    c < |xs| ==> p + width * c + 4 * |xs[c]| <= |b| && xs[c] == Words(b, p + width * c, |xs[c]|)
  }

  lemma Times(k: nat, c: nat)
    requires c > 0
    ensures k * c == k * (c - 1) + k
  {
  }

  lemma {:induction false} ChannelsAt(sc: u32, n: nat, b: bytes, p: nat)
    requires DecMany(Rec(WordsRecord(sc)).dec, n, b, p).Some?
    ensures var (xs, q) := DecMany(Rec(WordsRecord(sc)).dec, n, b, p).value;
      |xs| == n && q == p + 4 * sc * n && (forall c :: 0 <= c < n ==> |xs[c]| == sc)
      && forall c: nat :: ChannelAt(b, p, 4 * sc, xs, c)
    decreases n
  {
    hide U32;
    if n > 0 {
      var width := 4 * sc;
      var m := p + width;
      ChannelsAt(sc, n - 1, b, m);
      var (rest, q) := DecMany(Rec(WordsRecord(sc)).dec, n - 1, b, m).value;
      Times(width, n);
      var xs := [Words(b, p, sc)] + rest;
      assert DecMany(Rec(WordsRecord(sc)).dec, n, b, p).value == (xs, q);
      forall c: nat ensures ChannelAt(b, p, width, xs, c) {
        if 0 < c {
          Times(width, c);
          assert ChannelAt(b, m, width, rest, c - 1);
        } else {
          assert ChannelAt(b, p, width, xs, 0);
        }
      }
    }
  }

  /** Sample s of channel c of a device that starts at p. */
  ghost predicate SampleAt(b: bytes, w: AnalogWire, p: nat, c: nat, s: nat) {
    c < |w.channels| && s < |w.channels[c]| ==>
      var at := p + 16 + 4 * (c * w.head.sampleCount + s);
      at + 4 <= |b| && w.channels[c][s] == U32(b, at)
  }

  ghost predicate DeviceHolds(b: bytes, w: AnalogWire, p: nat) {
    forall c: nat, s: nat :: SampleAt(b, w, p, c, s)
  }

  lemma Offset(sc: nat, c: nat, s: nat)
    ensures 4 * (c * sc + s) == 4 * sc * c + 4 * s
  {
  }

  lemma SampleOfChannel(b: bytes, w: AnalogWire, p: nat, c: nat, s: nat)
    requires c < |w.channels| ==> |w.channels[c]| == w.head.sampleCount
    requires ChannelAt(b, p + 16, 4 * w.head.sampleCount, w.channels, c)
    ensures SampleAt(b, w, p, c, s)
  {
    Offset(w.head.sampleCount, c, s);
  }

  lemma DeviceAt(b: bytes, p: nat)
    requires List(AnalogShape()).dec(b, p).Some?
    ensures var (w, q) := List(AnalogShape()).dec(b, p).value; q == p + DeviceBytes(w) && DeviceHolds(b, w, p)
  {
    var (w, q) := List(AnalogShape()).dec(b, p).value;
    ChannelsAt(w.head.sampleCount, U32(b, p + 4), b, p + 16);
    forall c: nat, s: nat ensures SampleAt(b, w, p, c, s) {
      assert ChannelAt(b, p + 16, 4 * w.head.sampleCount, w.channels, c);
      SampleOfChannel(b, w, p, c, s);
    }
  }

  /** Devices stand one after the other from p to q, each with its samples in place. */
  ghost predicate Tiled(b: bytes, p: nat, ws: seq<AnalogWire>, q: nat)
    decreases |ws|
  {
    if ws == [] then p == q
    else DeviceHolds(b, ws[0], p) && Tiled(b, p + DeviceBytes(ws[0]), ws[1..], q)
  }

  lemma {:induction false} DevicesAt(b: bytes, p: nat, n: nat)
    requires DecMany(List(AnalogShape()).dec, n, b, p).Some?
    ensures var (ws, q) := DecMany(List(AnalogShape()).dec, n, b, p).value; |ws| == n && Tiled(b, p, ws, q)
    decreases n
  {
    if n > 0 {
      var dec := List(AnalogShape()).dec;
      var (w, m) := dec(b, p).value;
      var (rest, q) := DecMany(dec, n - 1, b, m).value;
      DeviceAt(b, p);
      DevicesAt(b, m, n - 1);
      assert ([w] + rest)[1..] == rest;
    }
  }

  /** In an accepted analog payload every sample is the word its device, channel and sample numbers say, each
      device starts where the ones before it end, and the reader stops where the last one ends. */
  lemma AnalogSamplesAt(b: bytes)
    requires FormatAnalog().dec(b, 0).Some?
    ensures var (ws, q) := FormatAnalog().dec(b, 0).value; |ws| == U32(b, 0) && Tiled(b, 4, ws, q)
  {
    DevicesAt(b, 4, U32(b, 0));
  }

  // A count of samples of zero.

  lemma FourWords(a: u32, b: u32, c: u32, d: u32)
    ensures EncMany(Put, [a, b, c, d]) == Put32(a) + Put32(b) + Put32(c) + Put32(d)
  {
    assert [a, b, c, d][1..] == [b, c, d] && [b, c, d][1..] == [c, d] && [c, d][1..] == [d] && [d][1..] == [];
    assert EncMany(Put, [d]) == Put32(d);
    assert EncMany(Put, [c, d]) == Put32(c) + Put32(d);
    assert EncMany(Put, [b, c, d]) == Put32(b) + Put32(c) + Put32(d);
  }

  lemma {:induction false} NoSamples(xs: seq<seq<u32>>)
    requires forall i :: 0 <= i < |xs| ==> xs[i] == []
    ensures EncMany(Rec(WordsRecord(0)).enc, xs) == []
    decreases |xs|
  {
    if xs != [] {
      NoSamples(xs[1..]);
      assert Rec(WordsRecord(0)).enc(xs[0]) == EncMany(Put, []);
    }
  }

  lemma EmptyChannels(d: AnalogDevice)
    requires d.id == d.sampleNumber == 0 && |d.channels| < 0x1_0000_0000
    requires forall i :: 0 <= i < |d.channels| ==> d.channels[i] == []
    ensures List(AnalogShape()).valid(DeviceWire(d))
    ensures List(AnalogShape()).enc(DeviceWire(d)) == Put32(0) + Put32(|d.channels|) + Put32(0) + Put32(0)
  {
    NoSamples(d.channels);
    FourWords(0, |d.channels|, 0, 0);
  }

  lemma OneDevice(w: AnalogWire)
    requires List(AnalogShape()).valid(w)
    ensures FormatAnalog().valid([w]) && FormatAnalog().enc([w]) == Put32(1) + List(AnalogShape()).enc(w)
  {
    var enc := List(AnalogShape()).enc;
    assert EncMany(enc, [w]) == enc(w) + EncMany(enc, []);
    assert EncMany(Put, [1]) == Put32(1) + EncMany(Put, []);
  }

  /** With a sample count of zero the product guard bounds nothing: twenty bytes are a device of any number of
      channels. */
  lemma ChannelsWithoutSamples(d: AnalogDevice)
    requires d.id == d.sampleNumber == 0 && |d.channels| < 0x1_0000_0000
    requires forall i :: 0 <= i < |d.channels| ==> d.channels[i] == []
    ensures exists b: bytes :: |b| == 20 && DecodeBody(TYPE_ANALOG, b) == Some(Analogs([d]))
  {
    EmptyChannels(d);
    OneDevice(DeviceWire(d));
    assert Map(DeviceWire, [d]) == [DeviceWire(d)];
    var v := Analogs([d]);
    assert WellFormed(TYPE_ANALOG, v);
    BodyRoundTrip(TYPE_ANALOG, v, []);
    var b := EncodeBody(TYPE_ANALOG, v) + [];
    assert |b| == 20;
  }
}
