/** The record layouts of the nineteen component kinds: their values, and one wire format for each.
    A float32 is its 32-bit pattern. */
module Layouts {
  import opened Wire
  import opened Codec

  type f32 = u32

  datatype Point = Point(x: f32, y: f32, z: f32)

  datatype Rates = Rates(droprate: u16, outOfSyncRate: u16)

  /** Kinds that open with a count, a drop rate and an out-of-sync rate. */
  datatype Rated<T> = Rated(rates: Rates, items: seq<T>)

  datatype Marker = Marker(point: Point, residual: f32, id: u32)
  datatype BodyMatrix = BodyMatrix(point: Point, residual: f32, rotation: seq<f32>)
  datatype BodyEuler = BodyEuler(point: Point, residual: f32, angles: seq<f32>)
  datatype Marker2D = Marker2D(x: u32, y: u32, diameterX: u16, diameterY: u16)
  datatype Camera = Camera(markers: seq<Marker2D>, status: u8)
  datatype ForceSample = ForceSample(force: Point, moment: Point, centerOfPressure: Point)
  datatype ForcePlate = ForcePlate(id: u32, number: u32, samples: seq<ForceSample>)
  datatype GazeVectorSample = GazeVectorSample(direction: Point, position: Point)
  datatype GazeVector = GazeVector(sampleNumber: u32, samples: seq<GazeVectorSample>)
  datatype EyeTrackerSample = EyeTrackerSample(left: f32, right: f32)
  datatype EyeTracker = EyeTracker(sampleNumber: u32, samples: seq<EyeTrackerSample>)
  datatype Crop = Crop(left: f32, top: f32, right: f32, bottom: f32)
  datatype ImageHead = ImageHead(id: u32, format: u32, width: u32, height: u32, crop: Crop)
  datatype ImageValue = ImageValue(head: ImageHead, data: bytes)
  datatype Rotation = Rotation(x: f32, y: f32, z: f32, w: f32)
  datatype Segment = Segment(id: u32, position: Point, rotation: Rotation)
  datatype Skeleton = Skeleton(segments: seq<Segment>)

  /** A device as decoded. The wire also carries a sample count, which the channels show unless there are none. */
  datatype AnalogDevice = AnalogDevice(id: u32, sampleNumber: u32, channels: seq<seq<f32>>)
  datatype AnalogHead = AnalogHead(id: u32, sampleCount: u32, sampleNumber: u32)
  datatype AnalogWire = AnalogWire(head: AnalogHead, channels: seq<seq<f32>>)

  /** A timecode entry as it stands on the wire. */
  datatype TimecodeWire = TimecodeWire(kind: u32, high: u32, low: u32)

  datatype PlateHead = PlateHead(id: u32, number: u32)

  datatype Nothing = Nothing

  // Headers: a count and what comes with it.

  function Low32(n: nat): u32 { if n < 0x1_0000_0000 then n else 0 }

  predicate Fits32(n: nat) { n < 0x1_0000_0000 }

  function CountRecord(): Record<Head<Nothing>> {
    Record(1, (ws: seq<u32>) => Head(Nth(ws, 0), Nothing),
      (t: Head<Nothing>) => [Low32(t.count)], (t: Head<Nothing>) => Fits32(t.count))
  }

  function RatesRecord(): Record<Head<Rates>> {
    Record(2, (ws: seq<u32>) => Head(Nth(ws, 0), Rates(Nth(ws, 1) % 0x1_0000, Nth(ws, 1) / 0x1_0000)),
      (t: Head<Rates>) => [Low32(t.count), t.rest.droprate + 0x1_0000 * t.rest.outOfSyncRate],
      (t: Head<Rates>) => Fits32(t.count))
  }

  function AnalogRecord(): Record<Head<AnalogHead>> {
    Record(4, (ws: seq<u32>) => Head(Nth(ws, 1), AnalogHead(Nth(ws, 0), Nth(ws, 2), Nth(ws, 3))),
      (t: Head<AnalogHead>) => [t.rest.id, Low32(t.count), t.rest.sampleCount, t.rest.sampleNumber],
      (t: Head<AnalogHead>) => Fits32(t.count))
  }

  function IdRecord(): Record<Head<u32>> {
    Record(2, (ws: seq<u32>) => Head(Nth(ws, 1), Nth(ws, 0)),
      (t: Head<u32>) => [t.rest, Low32(t.count)], (t: Head<u32>) => Fits32(t.count))
  }

  function PlateRecord(): Record<Head<PlateHead>> {
    Record(3, (ws: seq<u32>) => Head(Nth(ws, 1), PlateHead(Nth(ws, 0), Nth(ws, 2))),
      (t: Head<PlateHead>) => [t.rest.id, Low32(t.count), t.rest.number],
      (t: Head<PlateHead>) => Fits32(t.count))
  }

  function ImageRecord(): Record<Head<ImageHead>> {
    Record(9, (ws: seq<u32>) => Head(Nth(ws, 8), ImageHead(Nth(ws, 0), Nth(ws, 1), Nth(ws, 2), Nth(ws, 3),
          Crop(Nth(ws, 4), Nth(ws, 5), Nth(ws, 6), Nth(ws, 7)))),
      (t: Head<ImageHead>) => ImageWords(t), (t: Head<ImageHead>) => Fits32(t.count))
  }

  function ImageWords(t: Head<ImageHead>): seq<u32> {
    var h := t.rest;
    [h.id, h.format, h.width, h.height, h.crop.left, h.crop.top, h.crop.right, h.crop.bottom, Low32(t.count)]
  }

  lemma CountLaw()
    ensures Lawful(Rec(CountRecord()))
  {
    forall t: Head<Nothing> | Fits32(t.count) ensures CountRecord().to(CountRecord().from(t)) == t {
      assert t.rest == Nothing;
    }
    RecLaw(CountRecord());
  }

  lemma RatesLaw()
    ensures Lawful(Rec(RatesRecord()))
  {
    RecLaw(RatesRecord());
  }

  lemma AnalogLaw()
    ensures Lawful(Rec(AnalogRecord()))
  {
    RecLaw(AnalogRecord());
  }

  lemma IdLaw()
    ensures Lawful(Rec(IdRecord()))
  {
    RecLaw(IdRecord());
  }

  lemma PlateLaw()
    ensures Lawful(Rec(PlateRecord()))
  {
    RecLaw(PlateRecord());
  }

  lemma ImageLaw()
    ensures Lawful(Rec(ImageRecord()))
  {
    RecLaw(ImageRecord());
  }

  /** Gaze vectors and eye trackers: a sample count, and the sample number only when there are samples. */
  function SampleHeader(): Format<Head<u32>> {
    Format((t: Head<u32>) => Fits32(t.count) && (t.count == 0 ==> t.rest == 0),
      (t: Head<u32>) => if t.count == 0 then Put32(0) else Put32(Low32(t.count)) + Put32(t.rest),
      (b: bytes, p: nat) => SampleHeaderDec(b, p))
  }

  function SampleHeaderDec(b: bytes, p: nat): Option<(Head<u32>, nat)> {
    if p + 4 > |b| then None
    else if U32(b, p) == 0 then Some((Head(0, 0), p + 4))
    else if p + 8 > |b| then None
    else Some((Head(U32(b, p), U32(b, p + 4)), p + 8))
  }

  lemma SampleHeaderLaw()
    ensures Lawful(SampleHeader())
  {
    forall b: bytes, p: nat, t: Head<u32>, q: nat ensures LawAt(SampleHeader(), b, p, t, q) {
      if p + 4 <= |b| {
        Word(Little, b, p, 0);
        if p + 8 <= |b| {
          Word(Little, b, p, Low32(t.count));
          Word(Little, b, p + 4, t.rest);
          var e := Put32(Low32(t.count)) + Put32(t.rest);
          SplitEqual(b[p..p + 8], e, 4);
          assert b[p..p + 8][..4] == b[p..p + 4] && b[p..p + 8][4..] == b[p + 4..p + 8];
        }
      }
    }
  }

  /** A camera block opens with a marker count and one status byte: five bytes. */
  function CameraHeader(): Format<Head<u8>> {
    Format((t: Head<u8>) => Fits32(t.count), (t: Head<u8>) => Put32(Low32(t.count)) + [t.rest],
      (b: bytes, p: nat) => CameraHeaderDec(b, p))
  }

  function CameraHeaderDec(b: bytes, p: nat): Option<(Head<u8>, nat)> {
    if p + 5 > |b| then None else Some((Head(U32(b, p), b[p + 4]), p + 5))
  }

  lemma CameraHeaderLaw()
    ensures Lawful(CameraHeader())
  {
    forall b: bytes, p: nat, t: Head<u8>, q: nat ensures LawAt(CameraHeader(), b, p, t, q) {
      if p + 5 <= |b| {
        Word(Little, b, p, Low32(t.count));
        SplitEqual(b[p..p + 5], Put32(Low32(t.count)) + [t.rest], 4);
        assert b[p..p + 5][..4] == b[p..p + 4] && b[p..p + 5][4..] == [b[p + 4]];
      }
    }
  }

  // Records without a count.

  function PointAt(ws: seq<u32>, i: nat): Point { Point(Nth(ws, i), Nth(ws, i + 1), Nth(ws, i + 2)) }

  function PointWords(p: Point): seq<u32> { [p.x, p.y, p.z] }

  function MarkerRecord(withID: bool, withResidual: bool): Record<Marker> {
    Record(3 + (if withID then 1 else 0) + (if withResidual then 1 else 0),
      (ws: seq<u32>) => Marker(PointAt(ws, 0),
        if withResidual then Nth(ws, if withID then 4 else 3) else 0, if withID then Nth(ws, 3) else 0),
      (m: Marker) => PointWords(m.point) + (if withID then [m.id] else [])
                     + (if withResidual then [m.residual] else []),
      (m: Marker) => (!withID ==> m.id == 0) && (!withResidual ==> m.residual == 0))
  }

  lemma MarkerLaw(withID: bool, withResidual: bool)
    ensures Lawful(Rec(MarkerRecord(withID, withResidual)))
  {
    RecLaw(MarkerRecord(withID, withResidual));
  }

  function Run(ws: seq<u32>, from: nat, n: nat): seq<u32> {
    if from + n <= |ws| then ws[from..from + n] else []
  }

  function MatrixRecord(withResidual: bool): Record<BodyMatrix> {
    Record(if withResidual then 13 else 12,
      (ws: seq<u32>) => BodyMatrix(PointAt(ws, 0), if withResidual then Nth(ws, 12) else 0, Run(ws, 3, 9)),
      (m: BodyMatrix) => PointWords(m.point) + m.rotation + (if withResidual then [m.residual] else []),
      (m: BodyMatrix) => |m.rotation| == 9 && (!withResidual ==> m.residual == 0))
  }

  function EulerRecord(withResidual: bool): Record<BodyEuler> {
    Record(if withResidual then 7 else 6,
      (ws: seq<u32>) => BodyEuler(PointAt(ws, 0), if withResidual then Nth(ws, 6) else 0, Run(ws, 3, 3)),
      (m: BodyEuler) => PointWords(m.point) + m.angles + (if withResidual then [m.residual] else []),
      (m: BodyEuler) => |m.angles| == 3 && (!withResidual ==> m.residual == 0))
  }

  lemma MatrixLaw(withResidual: bool)
    ensures Lawful(Rec(MatrixRecord(withResidual)))
  {
    hide Rec, Lawful;
    var m := MatrixRecord(withResidual);
    forall ws: seq<u32> | |ws| == m.n ensures m.from(m.to(ws)) == ws {
      assert ws[..3] == PointWords(PointAt(ws, 0)) && ws == ws[..3] + ws[3..12] + ws[12..];
    }
    forall v: BodyMatrix | m.valid(v) ensures m.to(m.from(v)) == v {
      assert m.from(v)[3..12] == v.rotation;
    }
    RecLaw(m);
  }

  lemma EulerLaw(withResidual: bool)
    ensures Lawful(Rec(EulerRecord(withResidual)))
  {
    hide Rec, Lawful;
    var e := EulerRecord(withResidual);
    forall ws: seq<u32> | |ws| == e.n ensures e.from(e.to(ws)) == ws {
      assert ws[..3] == PointWords(PointAt(ws, 0)) && ws == ws[..3] + ws[3..6] + ws[6..];
    }
    forall v: BodyEuler | e.valid(v) ensures e.to(e.from(v)) == v {
      var ws := e.from(v);
      assert ws[3..6] == v.angles;
      assert ws[0] == v.point.x && ws[1] == v.point.y && ws[2] == v.point.z;
    }
    RecLaw(e);
  }

  function Marker2DRecord(): Record<Marker2D> {
    Record(3, (ws: seq<u32>) => Marker2D(Nth(ws, 0), Nth(ws, 1), Nth(ws, 2) % 0x1_0000, Nth(ws, 2) / 0x1_0000),
      (m: Marker2D) => [m.x, m.y, m.diameterX + 0x1_0000 * m.diameterY], (m: Marker2D) => true)
  }

  function ForceSampleAt(ws: seq<u32>, i: nat): ForceSample {
    ForceSample(PointAt(ws, i), PointAt(ws, i + 3), PointAt(ws, i + 6))
  }

  function ForceSampleWords(s: ForceSample): seq<u32> {
    [s.force.x, s.force.y, s.force.z, s.moment.x, s.moment.y, s.moment.z,
     s.centerOfPressure.x, s.centerOfPressure.y, s.centerOfPressure.z]
  }

  function ForceSampleRecord(): Record<ForceSample> {
    Record(9, (ws: seq<u32>) => ForceSampleAt(ws, 0), (s: ForceSample) => ForceSampleWords(s), (s: ForceSample) => true)
  }

  /** A plate of the single-sample kind: an identity and one sample, no number. */
  function SinglePlateRecord(): Record<ForcePlate> {
    Record(10, (ws: seq<u32>) => ForcePlate(Nth(ws, 0), 0, [ForceSampleAt(ws, 1)]),
      (f: ForcePlate) => if |f.samples| == 1 then [f.id] + ForceSampleWords(f.samples[0]) else [],
      (f: ForcePlate) => f.number == 0 && |f.samples| == 1)
  }

  function GazeSampleRecord(): Record<GazeVectorSample> {
    Record(6, (ws: seq<u32>) => GazeVectorSample(PointAt(ws, 0), PointAt(ws, 3)),
      (s: GazeVectorSample) => PointWords(s.direction) + PointWords(s.position), (s: GazeVectorSample) => true)
  }

  function EyeSampleRecord(): Record<EyeTrackerSample> {
    Record(2, (ws: seq<u32>) => EyeTrackerSample(Nth(ws, 0), Nth(ws, 1)),
      (s: EyeTrackerSample) => [s.left, s.right], (s: EyeTrackerSample) => true)
  }

  function SegmentRecord(): Record<Segment> {
    Record(8, (ws: seq<u32>) => Segment(Nth(ws, 0), PointAt(ws, 1), Rotation(Nth(ws, 4), Nth(ws, 5), Nth(ws, 6), Nth(ws, 7))),
      (s: Segment) => [s.id] + PointWords(s.position) + [s.rotation.x, s.rotation.y, s.rotation.z, s.rotation.w],
      (s: Segment) => true)
  }

  function TimecodeRecord(): Record<TimecodeWire> {
    Record(3, (ws: seq<u32>) => TimecodeWire(Nth(ws, 0), Nth(ws, 1), Nth(ws, 2)),
      (t: TimecodeWire) => [t.kind, t.high, t.low], (t: TimecodeWire) => true)
  }

  /** n words as they are. */
  function WordsRecord(n: nat): Record<seq<u32>> {
    Record(n, (ws: seq<u32>) => ws, (ws: seq<u32>) => ws, (ws: seq<u32>) => |ws| == n)
  }

  lemma Marker2DLaw()
    ensures Lawful(Rec(Marker2DRecord()))
  {
    RecLaw(Marker2DRecord());
  }

  lemma ForceSampleLaw()
    ensures Lawful(Rec(ForceSampleRecord()))
  {
    RecLaw(ForceSampleRecord());
  }

  lemma GazeSampleLaw()
    ensures Lawful(Rec(GazeSampleRecord()))
  {
    RecLaw(GazeSampleRecord());
  }

  lemma EyeSampleLaw()
    ensures Lawful(Rec(EyeSampleRecord()))
  {
    RecLaw(EyeSampleRecord());
  }

  lemma SegmentLaw()
    ensures Lawful(Rec(SegmentRecord()))
  {
    RecLaw(SegmentRecord());
  }

  lemma TimecodeLaw()
    ensures Lawful(Rec(TimecodeRecord()))
  {
    RecLaw(TimecodeRecord());
  }

  lemma SinglePlateLaw()
    ensures Lawful(Rec(SinglePlateRecord()))
  {
    var single := SinglePlateRecord();
    forall ws: seq<u32> | |ws| == 10 ensures single.from(single.to(ws)) == ws {
      SampleWordsAt(ws);
    }
    forall f: ForcePlate | single.valid(f) ensures single.to(single.from(f)) == f {
      SampleAtWords(f.id, f.samples[0]);
      assert f.samples == [f.samples[0]];
    }
    hide ForceSampleAt, ForceSampleWords, Nth;
    RecLaw(single);
  }

  lemma SampleWordsAt(ws: seq<u32>)
    requires |ws| == 10
    ensures [Nth(ws, 0)] + ForceSampleWords(ForceSampleAt(ws, 1)) == ws
  {
    assert ForceSampleWords(ForceSampleAt(ws, 1)) == ws[1..];
    assert ws == [ws[0]] + ws[1..];
  }

  lemma SampleAtWords(id: u32, s: ForceSample)
    ensures var ws := [id] + ForceSampleWords(s); |ws| == 10 && Nth(ws, 0) == id && ForceSampleAt(ws, 1) == s
  {
  }

  lemma WordsRecordLaw(n: nat)
    ensures Lawful(Rec(WordsRecord(n)))
  {
    RecLaw(WordsRecord(n));
  }

  // Records with their own counts.

  function CameraShape(): Shape<u8, Marker2D, Camera> {
    Shape(CameraHeader(), (h: u8) => Rec(Marker2DRecord()), (h: u8, xs: seq<Marker2D>) => Camera(xs, h),
      (c: Camera) => c.status, (c: Camera) => c.markers)
  }

  function AnalogShape(): Shape<AnalogHead, seq<f32>, AnalogWire> {
    Shape(Rec(AnalogRecord()), (h: AnalogHead) => Rec(WordsRecord(h.sampleCount)),
      (h: AnalogHead, xs: seq<seq<f32>>) => AnalogWire(h, xs), (d: AnalogWire) => d.head, (d: AnalogWire) => d.channels)
  }

  /** A single-sample device has one word a channel and neither a sample count nor a sample number. */
  function AnalogSingleShape(): Shape<u32, seq<f32>, AnalogSingleWire> {
    Shape(Rec(IdRecord()), (h: u32) => Rec(WordsRecord(1)), (h: u32, xs: seq<seq<f32>>) => AnalogSingleWire(h, xs),
      (d: AnalogSingleWire) => d.id, (d: AnalogSingleWire) => d.channels)
  }

  datatype AnalogSingleWire = AnalogSingleWire(id: u32, channels: seq<seq<f32>>)

  function PlateShape(): Shape<PlateHead, ForceSample, ForcePlate> {
    Shape(Rec(PlateRecord()), (h: PlateHead) => Rec(ForceSampleRecord()),
      (h: PlateHead, xs: seq<ForceSample>) => ForcePlate(h.id, h.number, xs),
      (f: ForcePlate) => PlateHead(f.id, f.number), (f: ForcePlate) => f.samples)
  }

  function GazeShape(): Shape<u32, GazeVectorSample, GazeVector> {
    Shape(SampleHeader(), (h: u32) => Rec(GazeSampleRecord()), (h: u32, xs: seq<GazeVectorSample>) => GazeVector(h, xs),
      (g: GazeVector) => g.sampleNumber, (g: GazeVector) => g.samples)
  }

  function EyeShape(): Shape<u32, EyeTrackerSample, EyeTracker> {
    Shape(SampleHeader(), (h: u32) => Rec(EyeSampleRecord()), (h: u32, xs: seq<EyeTrackerSample>) => EyeTracker(h, xs),
      (e: EyeTracker) => e.sampleNumber, (e: EyeTracker) => e.samples)
  }

  function ImageShape(): Shape<ImageHead, u8, ImageValue> {
    Shape(Rec(ImageRecord()), (h: ImageHead) => Byte(), (h: ImageHead, xs: bytes) => ImageValue(h, xs),
      (i: ImageValue) => i.head, (i: ImageValue) => i.data)
  }

  function SkeletonShape(): Shape<Nothing, Segment, Skeleton> {
    Shape(Rec(CountRecord()), (h: Nothing) => Rec(SegmentRecord()), (h: Nothing, xs: seq<Segment>) => Skeleton(xs),
      (s: Skeleton) => Nothing, (s: Skeleton) => s.segments)
  }

  lemma CameraLaw()
    ensures Lawful(List(CameraShape()))
  {
    CameraHeaderLaw();
    Marker2DLaw();
    ListLaw(CameraShape());
  }

  lemma AnalogDeviceLaw()
    ensures Lawful(List(AnalogShape()))
  {
    AnalogLaw();
    forall h: AnalogHead ensures Lawful(AnalogShape().item(h)) {
      WordsRecordLaw(h.sampleCount);
    }
    ListLaw(AnalogShape());
  }

  lemma AnalogSingleDeviceLaw()
    ensures Lawful(List(AnalogSingleShape()))
  {
    IdLaw();
    WordsRecordLaw(1);
    ListLaw(AnalogSingleShape());
  }

  lemma ForcePlateLaw()
    ensures Lawful(List(PlateShape()))
  {
    PlateLaw();
    ForceSampleLaw();
    ListLaw(PlateShape());
  }

  lemma GazeVectorLaw()
    ensures Lawful(List(GazeShape()))
  {
    SampleHeaderLaw();
    GazeSampleLaw();
    ListLaw(GazeShape());
  }

  lemma EyeTrackerLaw()
    ensures Lawful(List(EyeShape()))
  {
    SampleHeaderLaw();
    EyeSampleLaw();
    ListLaw(EyeShape());
  }

  lemma ImageBlockLaw()
    ensures Lawful(List(ImageShape()))
  {
    ImageLaw();
    ByteLaw();
    ListLaw(ImageShape());
  }

  lemma SkeletonLaw()
    ensures Lawful(List(SkeletonShape()))
  {
    CountLaw();
    SegmentLaw();
    var s := SkeletonShape();
    forall h: Nothing, xs: seq<Segment> ensures s.head(s.make(h, xs)) == h {
      assert h == Nothing;
    }
    ListLaw(s);
  }

  // Whole components.

  function RatedShape<T>(item: Format<T>): Shape<Rates, T, Rated<T>> {
    Shape(Rec(RatesRecord()), (h: Rates) => item, (h: Rates, xs: seq<T>) => Rated(h, xs),
      (r: Rated<T>) => r.rates, (r: Rated<T>) => r.items)
  }

  function CountedShape<T>(item: Format<T>): Shape<Nothing, T, seq<T>> {
    Shape(Rec(CountRecord()), (h: Nothing) => item, (h: Nothing, xs: seq<T>) => xs,
      (r: seq<T>) => Nothing, (r: seq<T>) => r)
  }

  lemma WholeLaws<T(!new)>(item: Format<T>)
    requires Lawful(item)
    ensures Lawful(List(RatedShape(item))) && Lawful(List(CountedShape(item)))
  {
    RatesLaw();
    CountLaw();
    ListLaw(RatedShape(item));
    var s := CountedShape(item);
    forall h: Nothing, xs: seq<T> ensures s.head(s.make(h, xs)) == h {
      assert h == Nothing;
    }
    ListLaw(s);
  }
}
