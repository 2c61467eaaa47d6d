/** The nineteen component kinds as one type: what a payload of each kind decodes to, and its encoding. */
module Components {
  import opened Wire
  import opened Codec
  import opened Layouts
  import T = Timecodes
  import S = Samples

  const TYPE_3D := 1
  const TYPE_3D_NO_LABELS := 2
  const TYPE_ANALOG := 3
  const TYPE_FORCE := 4
  const TYPE_6D := 5
  const TYPE_6D_EULER := 6
  const TYPE_2D := 7
  const TYPE_2D_LINEARIZED := 8
  const TYPE_3D_RESIDUAL := 9
  const TYPE_3D_NO_LABELS_RESIDUAL := 10
  const TYPE_6D_RESIDUAL := 11
  const TYPE_6D_EULER_RESIDUAL := 12
  const TYPE_ANALOG_SINGLE := 13
  const TYPE_IMAGE := 14
  const TYPE_FORCE_SINGLE := 15
  const TYPE_GAZE_VECTOR := 16
  const TYPE_TIMECODE := 17
  const TYPE_SKELETON := 18
  const TYPE_EYE_TRACKER := 19

  predicate Known(kind: u32) { 1 <= kind <= 19 }

  predicate Is3D(kind: u32) {
    kind == TYPE_3D || kind == TYPE_3D_NO_LABELS || kind == TYPE_3D_RESIDUAL || kind == TYPE_3D_NO_LABELS_RESIDUAL
  }

  predicate Is6D(kind: u32) { kind == TYPE_6D || kind == TYPE_6D_RESIDUAL }

  predicate IsEuler(kind: u32) { kind == TYPE_6D_EULER || kind == TYPE_6D_EULER_RESIDUAL }

  predicate Is2D(kind: u32) { kind == TYPE_2D || kind == TYPE_2D_LINEARIZED }

  predicate WithID(kind: u32) { kind == TYPE_3D_NO_LABELS || kind == TYPE_3D_NO_LABELS_RESIDUAL }

  predicate WithResidual(kind: u32) {
    kind == TYPE_3D_RESIDUAL || kind == TYPE_3D_NO_LABELS_RESIDUAL || kind == TYPE_6D_RESIDUAL
    || kind == TYPE_6D_EULER_RESIDUAL
  }

  datatype Body =
    | Markers(markers: Rated<Marker>)
    | Matrices(matrices: Rated<BodyMatrix>)
    | Eulers(eulers: Rated<BodyEuler>)
    | Cameras(cameras: Rated<Camera>)
    | Analogs(devices: seq<AnalogDevice>)
    | Forces(plates: seq<ForcePlate>)
    | Images(images: seq<ImageValue>)
    | Gazes(gazes: seq<GazeVector>)
    | Eyes(eyes: seq<EyeTracker>)
    | Codes(timecodes: seq<T.Timecode>)
    | Skeletons(skeletons: seq<Skeleton>)
    | Raw(data: bytes)

  /** A component nobody has decoded into yet. */
  function Zero(kind: u32): Body {
    if Is3D(kind) then Markers(Rated(Rates(0, 0), []))
    else if Is6D(kind) then Matrices(Rated(Rates(0, 0), []))
    else if IsEuler(kind) then Eulers(Rated(Rates(0, 0), []))
    else if Is2D(kind) then Cameras(Rated(Rates(0, 0), []))
    else if kind == TYPE_ANALOG || kind == TYPE_ANALOG_SINGLE then Analogs([])
    else if kind == TYPE_FORCE || kind == TYPE_FORCE_SINGLE then Forces([])
    else if kind == TYPE_IMAGE then Images([])
    else if kind == TYPE_GAZE_VECTOR then Gazes([])
    else if kind == TYPE_TIMECODE then Codes([])
    else if kind == TYPE_SKELETON then Skeletons([])
    else if kind == TYPE_EYE_TRACKER then Eyes([])
    else Raw([])
  }

  // One format for each kind.

  function Format3D(kind: u32): Format<Rated<Marker>> {
    List(RatedShape(Rec(MarkerRecord(WithID(kind), WithResidual(kind)))))
  }

  function Format6D(kind: u32): Format<Rated<BodyMatrix>> { List(RatedShape(Rec(MatrixRecord(WithResidual(kind))))) }

  function FormatEuler(kind: u32): Format<Rated<BodyEuler>> { List(RatedShape(Rec(EulerRecord(WithResidual(kind))))) }

  function Format2D(): Format<Rated<Camera>> { List(RatedShape(List(CameraShape()))) }

  function FormatAnalog(): Format<seq<AnalogWire>> { List(CountedShape(List(AnalogShape()))) }

  function FormatAnalogSingle(): Format<seq<AnalogSingleWire>> { List(CountedShape(List(AnalogSingleShape()))) }

  function FormatForce(): Format<seq<ForcePlate>> { List(CountedShape(List(PlateShape()))) }

  function FormatForceSingle(): Format<seq<ForcePlate>> { List(CountedShape(Rec(SinglePlateRecord()))) }

  function FormatImage(): Format<seq<ImageValue>> { List(CountedShape(List(ImageShape()))) }

  function FormatGaze(): Format<seq<GazeVector>> { List(CountedShape(List(GazeShape()))) }

  function FormatEye(): Format<seq<EyeTracker>> { List(CountedShape(List(EyeShape()))) }

  function FormatTimecode(): Format<seq<TimecodeWire>> { List(CountedShape(Rec(TimecodeRecord()))) }

  function FormatSkeleton(): Format<seq<Skeleton>> { List(CountedShape(List(SkeletonShape()))) }

  function As<T>(v: Option<T>, wrap: T -> Body): Option<Body> {
    match v case None => None case Some(x) => Some(wrap(x))
  }

  function NoRates<T>(): Rated<T> { Rated(Rates(0, 0), []) }

  /** What a component payload of a kind decodes to. Kinds the client does not know keep their raw bytes. */
  function DecodeBody(kind: u32, b: bytes): Option<Body> {
    if Is3D(kind) then As(Payload(Format3D(kind).dec, b, NoRates()), (v: Rated<Marker>) => Markers(v))
    else if Is6D(kind) then As(Payload(Format6D(kind).dec, b, NoRates()), (v: Rated<BodyMatrix>) => Matrices(v))
    else if IsEuler(kind) then As(Payload(FormatEuler(kind).dec, b, NoRates()), (v: Rated<BodyEuler>) => Eulers(v))
    else if Is2D(kind) then As(Payload(Format2D().dec, b, NoRates()), (v: Rated<Camera>) => Cameras(v))
    else if kind == TYPE_ANALOG then
      As(Payload(Mapped(FormatAnalog().dec, S.Device), b, []), (v: seq<AnalogDevice>) => Analogs(v))
    else if kind == TYPE_ANALOG_SINGLE then
      As(Payload(Mapped(FormatAnalogSingle().dec, S.SingleDevice), b, []), (v: seq<AnalogDevice>) => Analogs(v))
    else if kind == TYPE_FORCE then As(Payload(FormatForce().dec, b, []), (v: seq<ForcePlate>) => Forces(v))
    else if kind == TYPE_FORCE_SINGLE then
      As(Payload(FormatForceSingle().dec, b, []), (v: seq<ForcePlate>) => Forces(v))
    else if kind == TYPE_IMAGE then As(Payload(FormatImage().dec, b, []), (v: seq<ImageValue>) => Images(v))
    else if kind == TYPE_GAZE_VECTOR then As(Payload(FormatGaze().dec, b, []), (v: seq<GazeVector>) => Gazes(v))
    else if kind == TYPE_TIMECODE then
      As(Payload(Mapped(FormatTimecode().dec, T.Decode), b, []), (v: seq<T.Timecode>) => Codes(v))
    else if kind == TYPE_SKELETON then As(Payload(FormatSkeleton().dec, b, []), (v: seq<Skeleton>) => Skeletons(v))
    else if kind == TYPE_EYE_TRACKER then As(Payload(FormatEye().dec, b, []), (v: seq<EyeTracker>) => Eyes(v))
    else Some(Raw(b))
  }

  /** Where decoding a non-empty payload of a kind stops. */
  function BodyEnd(kind: u32, b: bytes): nat {
    if Is3D(kind) then End(Format3D(kind).dec, b)
    else if Is6D(kind) then End(Format6D(kind).dec, b)
    else if IsEuler(kind) then End(FormatEuler(kind).dec, b)
    else if Is2D(kind) then End(Format2D().dec, b)
    else if kind == TYPE_ANALOG then End(FormatAnalog().dec, b)
    else if kind == TYPE_ANALOG_SINGLE then End(FormatAnalogSingle().dec, b)
    else if kind == TYPE_FORCE then End(FormatForce().dec, b)
    else if kind == TYPE_FORCE_SINGLE then End(FormatForceSingle().dec, b)
    else if kind == TYPE_IMAGE then End(FormatImage().dec, b)
    else if kind == TYPE_GAZE_VECTOR then End(FormatGaze().dec, b)
    else if kind == TYPE_TIMECODE then End(FormatTimecode().dec, b)
    else if kind == TYPE_SKELETON then End(FormatSkeleton().dec, b)
    else if kind == TYPE_EYE_TRACKER then End(FormatEye().dec, b)
    else |b|
  }

  // Encoding. Analog devices and timecodes go through the words they stand for.

  function DeviceWire(d: AnalogDevice): AnalogWire {
    AnalogWire(AnalogHead(d.id, if d.channels == [] then 0 else Low32(|d.channels[0]|), d.sampleNumber), d.channels)
  }

  function SingleWire(d: AnalogDevice): AnalogSingleWire { AnalogSingleWire(d.id, d.channels) }

  function CodeWire(t: T.Timecode): TimecodeWire {
    if T.InRange(t) then T.Encode(t) else TimecodeWire(0, 0, 0)
  }

  /** The values of a kind that have an encoding: counts that fit their fields, and nothing set that the kind
      does not carry. */
  predicate WellFormed(kind: u32, v: Body) {
    if Is3D(kind) then v.Markers? && Format3D(kind).valid(v.markers)
    else if Is6D(kind) then v.Matrices? && Format6D(kind).valid(v.matrices)
    else if IsEuler(kind) then v.Eulers? && FormatEuler(kind).valid(v.eulers)
    else if Is2D(kind) then v.Cameras? && Format2D().valid(v.cameras)
    else if kind == TYPE_ANALOG then v.Analogs? && FormatAnalog().valid(Map(DeviceWire, v.devices))
    else if kind == TYPE_ANALOG_SINGLE then
      v.Analogs? && FormatAnalogSingle().valid(Map(SingleWire, v.devices))
      && forall i :: 0 <= i < |v.devices| ==> v.devices[i].sampleNumber == 0
    else if kind == TYPE_FORCE then v.Forces? && FormatForce().valid(v.plates)
    else if kind == TYPE_FORCE_SINGLE then v.Forces? && FormatForceSingle().valid(v.plates)
    else if kind == TYPE_IMAGE then v.Images? && FormatImage().valid(v.images)
    else if kind == TYPE_GAZE_VECTOR then v.Gazes? && FormatGaze().valid(v.gazes)
    else if kind == TYPE_TIMECODE then
      v.Codes? && FormatTimecode().valid(Map(CodeWire, v.timecodes))
      && forall i :: 0 <= i < |v.timecodes| ==> T.InRange(v.timecodes[i])
    else if kind == TYPE_SKELETON then v.Skeletons? && FormatSkeleton().valid(v.skeletons)
    else if kind == TYPE_EYE_TRACKER then v.Eyes? && FormatEye().valid(v.eyes)
    else v.Raw?
  }

  function EncodeBody(kind: u32, v: Body): bytes
    requires WellFormed(kind, v)
  {
    if Is3D(kind) then Format3D(kind).enc(v.markers)
    else if Is6D(kind) then Format6D(kind).enc(v.matrices)
    else if IsEuler(kind) then FormatEuler(kind).enc(v.eulers)
    else if Is2D(kind) then Format2D().enc(v.cameras)
    else if kind == TYPE_ANALOG then FormatAnalog().enc(Map(DeviceWire, v.devices))
    else if kind == TYPE_ANALOG_SINGLE then FormatAnalogSingle().enc(Map(SingleWire, v.devices))
    else if kind == TYPE_FORCE then FormatForce().enc(v.plates)
    else if kind == TYPE_FORCE_SINGLE then FormatForceSingle().enc(v.plates)
    else if kind == TYPE_IMAGE then FormatImage().enc(v.images)
    else if kind == TYPE_GAZE_VECTOR then FormatGaze().enc(v.gazes)
    else if kind == TYPE_TIMECODE then FormatTimecode().enc(Map(CodeWire, v.timecodes))
    else if kind == TYPE_SKELETON then FormatSkeleton().enc(v.skeletons)
    else if kind == TYPE_EYE_TRACKER then FormatEye().enc(v.eyes)
    else v.data
  }

  // The laws of all formats.

  lemma RatedLaws(kind: u32)
    ensures Lawful(Format3D(kind)) && Lawful(Format6D(kind)) && Lawful(FormatEuler(kind)) && Lawful(Format2D())
  {
    MarkerLaw(WithID(kind), WithResidual(kind));
    MatrixLaw(WithResidual(kind));
    EulerLaw(WithResidual(kind));
    CameraLaw();
    WholeLaws(Rec(MarkerRecord(WithID(kind), WithResidual(kind))));
    WholeLaws(Rec(MatrixRecord(WithResidual(kind))));
    WholeLaws(Rec(EulerRecord(WithResidual(kind))));
    WholeLaws(List(CameraShape()));
  }

  lemma SampledLaws()
    ensures Lawful(FormatAnalog()) && Lawful(FormatAnalogSingle())
    ensures Lawful(FormatForce()) && Lawful(FormatForceSingle())
  {
    AnalogDeviceLaw();
    AnalogSingleDeviceLaw();
    ForcePlateLaw();
    SinglePlateLaw();
    WholeLaws(List(AnalogShape()));
    WholeLaws(List(AnalogSingleShape()));
    WholeLaws(List(PlateShape()));
    WholeLaws(Rec(SinglePlateRecord()));
  }

  lemma SensorLaws()
    ensures Lawful(FormatImage()) && Lawful(FormatGaze()) && Lawful(FormatEye())
    ensures Lawful(FormatTimecode()) && Lawful(FormatSkeleton())
  {
    ImageBlockLaw();
    GazeVectorLaw();
    EyeTrackerLaw();
    TimecodeLaw();
    SkeletonLaw();
    WholeLaws(List(ImageShape()));
    WholeLaws(List(GazeShape()));
    WholeLaws(List(EyeShape()));
    WholeLaws(Rec(TimecodeRecord()));
    WholeLaws(List(SkeletonShape()));
  }

  /** A lawful format reads back what it wrote, whatever follows. */
  lemma PayloadRoundTrip<T(!new)>(f: Format<T>, v: T, tail: bytes, receiver: T)
    requires Lawful(f) && f.valid(v) && f.enc(v) != []
    ensures Payload(f.dec, f.enc(v) + tail, receiver) == Some(v)
  {
    RoundTrip(f, v, tail);
  }

  lemma MappedRoundTrip<A(!new), B>(f: Format<seq<A>>, to: A -> B, xs: seq<A>, tail: bytes, receiver: seq<B>)
    requires Lawful(f) && f.valid(xs) && f.enc(xs) != []
    ensures Payload(Mapped(f.dec, to), f.enc(xs) + tail, receiver) == Some(Map(to, xs))
  {
    RoundTrip(f, xs, tail);
  }

  lemma RatedNonEmpty<T(!new)>(item: Format<T>, v: Rated<T>)
    ensures List(RatedShape(item)).enc(v) != []
  {
    WordsLength(RatesRecord().from(Head(|v.items|, v.rates)));
  }

  lemma CountedNonEmpty<T(!new)>(item: Format<T>, v: seq<T>)
    ensures List(CountedShape(item)).enc(v) != []
  {
    WordsLength(CountRecord().from(Head(|v|, Nothing)));
  }

  lemma DevicesBack(ds: seq<AnalogDevice>)
    ensures Map(S.Device, Map(DeviceWire, ds)) == ds
    ensures (forall i :: 0 <= i < |ds| ==> ds[i].sampleNumber == 0) ==> Map(S.SingleDevice, Map(SingleWire, ds)) == ds
  {
  }

  lemma CodesBack(ts: seq<T.Timecode>)
    requires forall i :: 0 <= i < |ts| ==> T.InRange(ts[i])
    ensures Map(T.Decode, Map(CodeWire, ts)) == ts
  {
    forall i | 0 <= i < |ts| ensures T.Decode(CodeWire(ts[i])) == ts[i] {
      T.EncodeDecode(ts[i]);
    }
  }

  lemma CodesRoundTrip(ts: seq<T.Timecode>, tail: bytes)
    requires FormatTimecode().valid(Map(CodeWire, ts)) && forall i :: 0 <= i < |ts| ==> T.InRange(ts[i])
    ensures Payload(Mapped(FormatTimecode().dec, T.Decode), FormatTimecode().enc(Map(CodeWire, ts)) + tail, [])
            == Some(ts)
  {
    SensorLaws();
    CountedNonEmpty(Rec(TimecodeRecord()), Map(CodeWire, ts));
    MappedRoundTrip(FormatTimecode(), T.Decode, Map(CodeWire, ts), tail, []);
    CodesBack(ts);
  }

  lemma RatedRoundTrip(kind: u32, v: Body, tail: bytes)
    requires WellFormed(kind, v) && (Is3D(kind) || Is6D(kind) || IsEuler(kind) || Is2D(kind))
    ensures DecodeBody(kind, EncodeBody(kind, v) + tail) == Some(v)
  {
    hide List, Rec, Payload, Lawful;
    RatedLaws(kind);
    if Is3D(kind) {
      RatedNonEmpty(Rec(MarkerRecord(WithID(kind), WithResidual(kind))), v.markers);
      PayloadRoundTrip(Format3D(kind), v.markers, tail, NoRates());
    } else if Is6D(kind) {
      RatedNonEmpty(Rec(MatrixRecord(WithResidual(kind))), v.matrices);
      PayloadRoundTrip(Format6D(kind), v.matrices, tail, NoRates());
    } else if IsEuler(kind) {
      RatedNonEmpty(Rec(EulerRecord(WithResidual(kind))), v.eulers);
      PayloadRoundTrip(FormatEuler(kind), v.eulers, tail, NoRates());
    } else {
      RatedNonEmpty(List(CameraShape()), v.cameras);
      PayloadRoundTrip(Format2D(), v.cameras, tail, NoRates());
    }
  }

  lemma SampledRoundTrip(kind: u32, v: Body, tail: bytes)
    requires WellFormed(kind, v)
    requires kind == TYPE_ANALOG || kind == TYPE_ANALOG_SINGLE || kind == TYPE_FORCE || kind == TYPE_FORCE_SINGLE
    ensures DecodeBody(kind, EncodeBody(kind, v) + tail) == Some(v)
  {
    hide List, Rec, Payload, Lawful, Mapped, Map;
    SampledLaws();
    if kind == TYPE_ANALOG {
      CountedNonEmpty(List(AnalogShape()), Map(DeviceWire, v.devices));
      MappedRoundTrip(FormatAnalog(), S.Device, Map(DeviceWire, v.devices), tail, []);
      DevicesBack(v.devices);
    } else if kind == TYPE_ANALOG_SINGLE {
      CountedNonEmpty(List(AnalogSingleShape()), Map(SingleWire, v.devices));
      MappedRoundTrip(FormatAnalogSingle(), S.SingleDevice, Map(SingleWire, v.devices), tail, []);
      DevicesBack(v.devices);
    } else if kind == TYPE_FORCE {
      CountedNonEmpty(List(PlateShape()), v.plates);
      PayloadRoundTrip(FormatForce(), v.plates, tail, []);
    } else {
      CountedNonEmpty(Rec(SinglePlateRecord()), v.plates);
      PayloadRoundTrip(FormatForceSingle(), v.plates, tail, []);
    }
  }

  lemma SensorRoundTrip(kind: u32, v: Body, tail: bytes)
    requires WellFormed(kind, v)
    requires kind == TYPE_IMAGE || kind == TYPE_GAZE_VECTOR || kind == TYPE_TIMECODE || kind == TYPE_SKELETON
             || kind == TYPE_EYE_TRACKER
    ensures DecodeBody(kind, EncodeBody(kind, v) + tail) == Some(v)
  {
    hide List, Rec, Payload, Lawful;
    SensorLaws();
    if kind == TYPE_IMAGE {
      CountedNonEmpty(List(ImageShape()), v.images);
      PayloadRoundTrip(FormatImage(), v.images, tail, []);
    } else if kind == TYPE_GAZE_VECTOR {
      CountedNonEmpty(List(GazeShape()), v.gazes);
      PayloadRoundTrip(FormatGaze(), v.gazes, tail, []);
    } else if kind == TYPE_TIMECODE {
      CodesRoundTrip(v.timecodes, tail);
    } else if kind == TYPE_SKELETON {
      CountedNonEmpty(List(SkeletonShape()), v.skeletons);
      PayloadRoundTrip(FormatSkeleton(), v.skeletons, tail, []);
    } else {
      CountedNonEmpty(List(EyeShape()), v.eyes);
      PayloadRoundTrip(FormatEye(), v.eyes, tail, []);
    }
  }

  /** Every well-formed value of every kind comes back from its encoding. Bytes after the encoding change
      nothing for the kinds the client knows. */
  lemma BodyRoundTrip(kind: u32, v: Body, tail: bytes)
    requires WellFormed(kind, v) && (!Known(kind) ==> tail == [])
    ensures DecodeBody(kind, EncodeBody(kind, v) + tail) == Some(v)
  {
    hide List, Rec, Payload, Mapped;
    if Is3D(kind) || Is6D(kind) || IsEuler(kind) || Is2D(kind) {
      RatedRoundTrip(kind, v, tail);
    } else if kind == TYPE_ANALOG || kind == TYPE_FORCE || kind == TYPE_ANALOG_SINGLE || kind == TYPE_FORCE_SINGLE {
      SampledRoundTrip(kind, v, tail);
    } else if Known(kind) {
      SensorRoundTrip(kind, v, tail);
    } else {
      assert v.data + tail == v.data;
    }
  }
}
