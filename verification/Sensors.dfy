/** Gaze vectors, eye trackers, skeletons, timecodes and camera images. */
module Sensors {
  import opened Wire
  import opened Codec
  import opened Layouts
  import opened Cursors
  import T = Timecodes

  /** Gaze vectors and eye trackers leave out the sample number when there are no samples. */
  method ReadSampleHeader(cur: Cursor) returns (sampleCount: u32, sampleNumber: u32)
    requires cur.Valid()
    modifies cur
    ensures cur.Valid()
    ensures Took(SampleHeader().dec, cur.data, old(cur.State()), Head(sampleCount, sampleNumber), cur.State())
    ensures sampleCount == 0 ==> sampleNumber == 0
  {
    sampleNumber := 0;
    sampleCount := cur.Uint32();
    if sampleCount == 0 {
      return;
    }
    sampleNumber := cur.Uint32();
  }

  class ComponentGazeVector {
    var gazeVectors: seq<GazeVector>

    constructor ()
      ensures Value() == []
    {
      gazeVectors := [];
    }

    function Value(): seq<GazeVector>
      reads this
    {
      gazeVectors
    }

    method Unmarshal(data: array<u8>, lo: nat, hi: nat) returns (err: Err)
      requires lo <= hi <= data.Length
      modifies this
      ensures Payload(List(CountedShape(List(GazeShape()))).dec, data[lo..hi], old(Value()))
              == if err == Nil then Some(Value()) else None
    {
      if lo == hi {
        return Nil;
      }
      var cur := new Cursor(data, lo, hi);
      var deviceCount := ReadCount(cur);
      ghost var item, start := List(GazeShape()), cur.State();
      var ok := cur.CheckCount(deviceCount, 4);
      if !ok {
        GazeTakes();
        GuardTook(CountedShape(item), 4, cur.data, Some(0), deviceCount, Nothing, start, []);
        return cur.err;
      }
      gazeVectors := [];
      ProgressStart(item.dec, deviceCount, cur.data, start);
      var i := 0;
      while i < deviceCount
        invariant 0 <= i <= deviceCount && |gazeVectors| == i
        invariant cur.Valid()
        invariant Progress(item.dec, deviceCount, cur.data, start, gazeVectors, cur.State())
      {
        ghost var before := cur.State();
        var gv;
        ok, gv := ReadGazeVector(cur);
        ProgressStep(item.dec, deviceCount, cur.data, start, gazeVectors, before, gv, cur.State());
        if !ok {
          TookList(CountedShape(item), cur.data, Some(0), deviceCount, Nothing, start, gazeVectors + [gv], cur.State());
          return cur.err;
        }
        gazeVectors := gazeVectors + [gv];
        i := i + 1;
      }
      TookList(CountedShape(item), cur.data, Some(0), deviceCount, Nothing, start, gazeVectors, cur.State());
      return cur.err;
    }
  }

  lemma GazeTakes()
    ensures Takes(List(GazeShape()).dec, 4)
  {
    forall b: bytes, p: nat ensures TakesAt(SampleHeader().dec, 4, b, p) {
    }
    forall b: bytes, p: nat ensures TakesAt(Rec(GazeSampleRecord()).dec, 0, b, p) {
    }
    ListTakes(GazeShape(), 4);
  }

  method ReadGazeSample(cur: Cursor) returns (s: GazeVectorSample)
    requires cur.Valid()
    modifies cur
    ensures cur.Valid() && Took(Rec(GazeSampleRecord()).dec, cur.data, old(cur.State()), s, cur.State())
  {
    hide Rec, Took, U32;
    var direction := cur.ReadPoint();
    var position := cur.ReadPoint();
    s := GazeVectorSample(direction, position);
    GazeSampleTook(cur.data, old(cur.State()), s, cur.State());
  }

  lemma GazeSampleTook(b: bytes, before: Option<nat>, s: GazeVectorSample, after: Option<nat>)
    requires after == Advance(b, before, 24)
    requires after.Some? ==> var p := before.value;
      s == GazeVectorSample(Point(U32(b, p), U32(b, p + 4), U32(b, p + 8)),
        Point(U32(b, p + 12), U32(b, p + 16), U32(b, p + 20)))
    ensures Took(Rec(GazeSampleRecord()).dec, b, before, s, after)
  {
  }

  method ReadGazeVector(cur: Cursor) returns (ok: bool, gv: GazeVector)
    requires cur.Valid()
    modifies cur
    ensures cur.Valid() && (!ok ==> cur.State() == None)
    ensures Took(List(GazeShape()).dec, cur.data, old(cur.State()), gv, cur.State())
  {
    var sampleCount, sampleNumber := ReadSampleHeader(cur);
    ghost var item, start := Rec(GazeSampleRecord()), cur.State();
    ok, gv := true, GazeVector(sampleNumber, []);
    ProgressStart(item.dec, sampleCount, cur.data, start);
    if sampleCount == 0 {
      TookList(GazeShape(), cur.data, old(cur.State()), sampleCount, sampleNumber, start, [], start);
      return;
    }
    ok := cur.CheckCount(sampleCount, 24);
    if !ok {
      RecTakes(GazeSampleRecord());
      GuardTook(GazeShape(), 24, cur.data, old(cur.State()), sampleCount, sampleNumber, start, gv);
      return;
    }
    var s := 0;
    while s < sampleCount
      invariant 0 <= s <= sampleCount && |gv.samples| == s && gv.sampleNumber == sampleNumber
      invariant cur.Valid()
      invariant Progress(item.dec, sampleCount, cur.data, start, gv.samples, cur.State())
    {
      ghost var before := cur.State();
      var sample := ReadGazeSample(cur);
      ProgressStep(item.dec, sampleCount, cur.data, start, gv.samples, before, sample, cur.State());
      gv := gv.(samples := gv.samples + [sample]);
      s := s + 1;
    }
    TookList(GazeShape(), cur.data, old(cur.State()), sampleCount, sampleNumber, start, gv.samples, cur.State());
  }

  class ComponentEyeTracker {
    var eyeTrackers: seq<EyeTracker>

    constructor ()
      ensures Value() == []
    {
      eyeTrackers := [];
    }

    function Value(): seq<EyeTracker>
      reads this
    {
      eyeTrackers
    }

    method Unmarshal(data: array<u8>, lo: nat, hi: nat) returns (err: Err)
      requires lo <= hi <= data.Length
      modifies this
      ensures Payload(List(CountedShape(List(EyeShape()))).dec, data[lo..hi], old(Value()))
              == if err == Nil then Some(Value()) else None
    {
      if lo == hi {
        return Nil;
      }
      var cur := new Cursor(data, lo, hi);
      var deviceCount := ReadCount(cur);
      ghost var item, start := List(EyeShape()), cur.State();
      var ok := cur.CheckCount(deviceCount, 4);
      if !ok {
        EyeTakes();
        GuardTook(CountedShape(item), 4, cur.data, Some(0), deviceCount, Nothing, start, []);
        return cur.err;
      }
      eyeTrackers := [];
      ProgressStart(item.dec, deviceCount, cur.data, start);
      var i := 0;
      while i < deviceCount
        invariant 0 <= i <= deviceCount && |eyeTrackers| == i
        invariant cur.Valid()
        invariant Progress(item.dec, deviceCount, cur.data, start, eyeTrackers, cur.State())
      {
        ghost var before := cur.State();
        var et;
        ok, et := ReadEyeTracker(cur);
        ProgressStep(item.dec, deviceCount, cur.data, start, eyeTrackers, before, et, cur.State());
        if !ok {
          TookList(CountedShape(item), cur.data, Some(0), deviceCount, Nothing, start, eyeTrackers + [et], cur.State());
          return cur.err;
        }
        eyeTrackers := eyeTrackers + [et];
        i := i + 1;
      }
      TookList(CountedShape(item), cur.data, Some(0), deviceCount, Nothing, start, eyeTrackers, cur.State());
      return cur.err;
    }
  }

  lemma EyeTakes()
    ensures Takes(List(EyeShape()).dec, 4)
  {
    forall b: bytes, p: nat ensures TakesAt(SampleHeader().dec, 4, b, p) {
    }
    forall b: bytes, p: nat ensures TakesAt(Rec(EyeSampleRecord()).dec, 0, b, p) {
    }
    ListTakes(EyeShape(), 4);
  }

  method ReadEyeSample(cur: Cursor) returns (s: EyeTrackerSample)
    requires cur.Valid()
    modifies cur
    ensures cur.Valid() && Took(Rec(EyeSampleRecord()).dec, cur.data, old(cur.State()), s, cur.State())
  {
    var left := cur.Float32();
    var right := cur.Float32();
    s := EyeTrackerSample(left, right);
  }

  method ReadEyeTracker(cur: Cursor) returns (ok: bool, et: EyeTracker)
    requires cur.Valid()
    modifies cur
    ensures cur.Valid() && (!ok ==> cur.State() == None)
    ensures Took(List(EyeShape()).dec, cur.data, old(cur.State()), et, cur.State())
  {
    var sampleCount, sampleNumber := ReadSampleHeader(cur);
    ghost var item, start := Rec(EyeSampleRecord()), cur.State();
    ok, et := true, EyeTracker(sampleNumber, []);
    ProgressStart(item.dec, sampleCount, cur.data, start);
    if sampleCount == 0 {
      TookList(EyeShape(), cur.data, old(cur.State()), sampleCount, sampleNumber, start, [], start);
      return;
    }
    ok := cur.CheckCount(sampleCount, 8);
    if !ok {
      RecTakes(EyeSampleRecord());
      GuardTook(EyeShape(), 8, cur.data, old(cur.State()), sampleCount, sampleNumber, start, et);
      return;
    }
    var s := 0;
    while s < sampleCount
      invariant 0 <= s <= sampleCount && |et.samples| == s && et.sampleNumber == sampleNumber
      invariant cur.Valid()
      invariant Progress(item.dec, sampleCount, cur.data, start, et.samples, cur.State())
    {
      ghost var before := cur.State();
      var sample := ReadEyeSample(cur);
      ProgressStep(item.dec, sampleCount, cur.data, start, et.samples, before, sample, cur.State());
      et := et.(samples := et.samples + [sample]);
      s := s + 1;
    }
    TookList(EyeShape(), cur.data, old(cur.State()), sampleCount, sampleNumber, start, et.samples, cur.State());
  }

  class ComponentSkeleton {
    var skeletons: seq<Skeleton>

    constructor ()
      ensures Value() == []
    {
      skeletons := [];
    }

    function Value(): seq<Skeleton>
      reads this
    {
      skeletons
    }

    method Unmarshal(data: array<u8>, lo: nat, hi: nat) returns (err: Err)
      requires lo <= hi <= data.Length
      modifies this
      ensures Payload(List(CountedShape(List(SkeletonShape()))).dec, data[lo..hi], old(Value()))
              == if err == Nil then Some(Value()) else None
    {
      if lo == hi {
        return Nil;
      }
      var cur := new Cursor(data, lo, hi);
      var skeletonCount := ReadCount(cur);
      ghost var item, start := List(SkeletonShape()), cur.State();
      var ok := cur.CheckCount(skeletonCount, 4);
      if !ok {
        SkeletonTakes();
        GuardTook(CountedShape(item), 4, cur.data, Some(0), skeletonCount, Nothing, start, []);
        return cur.err;
      }
      skeletons := [];
      ProgressStart(item.dec, skeletonCount, cur.data, start);
      var i := 0;
      while i < skeletonCount
        invariant 0 <= i <= skeletonCount && |skeletons| == i
        invariant cur.Valid()
        invariant Progress(item.dec, skeletonCount, cur.data, start, skeletons, cur.State())
      {
        ghost var before := cur.State();
        var sk;
        ok, sk := ReadSkeleton(cur);
        ProgressStep(item.dec, skeletonCount, cur.data, start, skeletons, before, sk, cur.State());
        if !ok {
          TookList(CountedShape(item), cur.data, Some(0), skeletonCount, Nothing, start, skeletons + [sk], cur.State());
          return cur.err;
        }
        skeletons := skeletons + [sk];
        i := i + 1;
      }
      TookList(CountedShape(item), cur.data, Some(0), skeletonCount, Nothing, start, skeletons, cur.State());
      return cur.err;
    }
  }

  lemma SkeletonTakes()
    ensures Takes(List(SkeletonShape()).dec, 4)
  {
    RecTakes(CountRecord());
    forall b: bytes, p: nat ensures TakesAt(Rec(SegmentRecord()).dec, 0, b, p) {
    }
    ListTakes(SkeletonShape(), 4);
  }

  method ReadSegment(cur: Cursor) returns (s: Segment)
    requires cur.Valid()
    modifies cur
    ensures cur.Valid() && Took(Rec(SegmentRecord()).dec, cur.data, old(cur.State()), s, cur.State())
  {
    hide Rec, Took, U32;
    var id := cur.Uint32();
    var position := cur.ReadPoint();
    var x := cur.Float32();
    var y := cur.Float32();
    var z := cur.Float32();
    var w := cur.Float32();
    s := Segment(id, position, Rotation(x, y, z, w));
    SegmentTook(cur.data, old(cur.State()), s, cur.State());
  }

  lemma SegmentTook(b: bytes, before: Option<nat>, s: Segment, after: Option<nat>)
    requires after == Advance(b, before, 32)
    requires after.Some? ==> var p := before.value;
      s == Segment(U32(b, p), Point(U32(b, p + 4), U32(b, p + 8), U32(b, p + 12)),
        Rotation(U32(b, p + 16), U32(b, p + 20), U32(b, p + 24), U32(b, p + 28)))
    ensures Took(Rec(SegmentRecord()).dec, b, before, s, after)
  {
  }

  /** One skeleton, its segments filled in place. */
  method ReadSkeleton(cur: Cursor) returns (ok: bool, sk: Skeleton)
    requires cur.Valid()
    modifies cur
    ensures cur.Valid() && (!ok ==> cur.State() == None)
    ensures Took(List(SkeletonShape()).dec, cur.data, old(cur.State()), sk, cur.State())
  {
    var segmentCount := ReadCount(cur);
    ghost var item, start := Rec(SegmentRecord()), cur.State();
    sk := Skeleton([]);
    ok := cur.CheckCount(segmentCount, 32);
    if !ok {
      RecTakes(SegmentRecord());
      GuardTook(SkeletonShape(), 32, cur.data, old(cur.State()), segmentCount, Nothing, start, sk);
      return;
    }
    ProgressStart(item.dec, segmentCount, cur.data, start);
    var zero := Segment(0, Point(0, 0, 0), Rotation(0, 0, 0, 0));
    var segments := new Segment[segmentCount](_ => zero);
    assert segments[..0] == [];
    var s := 0;
    while s < segmentCount
      invariant 0 <= s <= segmentCount
      invariant cur.Valid()
      invariant Progress(item.dec, segmentCount, cur.data, start, segments[..s], cur.State())
      modifies cur, segments
    {
      ghost var before, done := cur.State(), segments[..s];
      var segment := ReadSegment(cur);
      ProgressStep(item.dec, segmentCount, cur.data, start, done, before, segment, cur.State());
      segments[s] := segment;
      assert segments[..s + 1] == done + [segment];
      s := s + 1;
    }
    sk := Skeleton(segments[..]);
    assert segments[..s] == sk.segments;
    TookList(SkeletonShape(), cur.data, old(cur.State()), segmentCount, Nothing, start, sk.segments, cur.State());
  }

  class ComponentTimecode {
    var timecodes: seq<T.Timecode>

    constructor ()
      ensures Value() == []
    {
      timecodes := [];
    }

    function Value(): seq<T.Timecode>
      reads this
    {
      timecodes
    }

    method Unmarshal(data: array<u8>, lo: nat, hi: nat) returns (err: Err)
      requires lo <= hi <= data.Length
      modifies this
      ensures Payload(Mapped(List(CountedShape(Rec(TimecodeRecord()))).dec, T.Decode), data[lo..hi], old(Value()))
              == if err == Nil then Some(Value()) else None
    {
      if lo == hi {
        return Nil;
      }
      var cur := new Cursor(data, lo, hi);
      var count := ReadCount(cur);
      ghost var item, start := Rec(TimecodeRecord()), cur.State();
      var ok := cur.CheckCount(count, 12);
      if !ok {
        RecTakes(TimecodeRecord());
        GuardTook(CountedShape(item), 12, cur.data, Some(0), count, Nothing, start, []);
        return cur.err;
      }
      ghost var wires;
      timecodes, wires := ReadTimecodes(cur, count);
      TookList(CountedShape(item), cur.data, Some(0), count, Nothing, start, wires, cur.State());
      return cur.err;
    }
  }

  /** Fills the table of entries in place. */
  method ReadTimecodes(cur: Cursor, count: u32) returns (timecodes: seq<T.Timecode>, ghost wires: seq<TimecodeWire>)
    requires cur.Valid()
    modifies cur
    ensures cur.Valid() && |wires| == count && timecodes == Map(T.Decode, wires)
    ensures Progress(Rec(TimecodeRecord()).dec, count, cur.data, old(cur.State()), wires, cur.State())
  {
    var table := new T.Timecode[count](_ => T.ZERO_TIMECODE);
    ghost var dec := Rec(TimecodeRecord()).dec;
    wires := [];
    ProgressStart(dec, count, cur.data, cur.State());
    assert table[..0] == [];
    var i := 0;
    while i < count
      invariant 0 <= i <= count && |wires| == i && table[..i] == Map(T.Decode, wires)
      invariant forall k :: i <= k < count ==> table[k] == T.ZERO_TIMECODE
      invariant cur.Valid()
      invariant Progress(dec, count, cur.data, old(cur.State()), wires, cur.State())
      modifies cur, table
    {
      ghost var before, done := cur.State(), table[..i];
      var wire := ReadTimecode(cur);
      ProgressStep(dec, count, cur.data, old(cur.State()), wires, before, wire, cur.State());
      table[i] := Entry(table[i], wire);
      MapSnoc(T.Decode, wires, wire);
      wires := wires + [wire];
      assert table[..i + 1] == done + [table[i]];
      i := i + 1;
    }
    timecodes := table[..];
    assert table[..i] == timecodes;
  }

  /** Sets the fields of a table entry that its kind names. */
  function Entry(t: T.Timecode, w: TimecodeWire): (r: T.Timecode)
    ensures t == T.ZERO_TIMECODE ==> r == T.Decode(w)
  {
    var named := t.(kind := w.kind);
    if w.kind == T.SMPTE then named.(smpte := T.Smpte(w.low))
    else if w.kind == T.IRIG then named.(irig := T.Irig(w.high, w.low))
    else if w.kind == T.CAMERA_TIME then named.(cameraTime := T.CameraTime(w.high, w.low))
    else named.(high := w.high, low := w.low)
  }

  method ReadTimecode(cur: Cursor) returns (w: TimecodeWire)
    requires cur.Valid()
    modifies cur
    ensures cur.Valid() && Took(Rec(TimecodeRecord()).dec, cur.data, old(cur.State()), w, cur.State())
  {
    var kind := cur.Uint32();
    var high := cur.Uint32();
    var low := cur.Uint32();
    w := TimecodeWire(kind, high, low);
  }

  /** A camera image as handed out: its content is an array of its own. */
  datatype Image = Image(head: ImageHead, size: u32, data: array<u8>)

  function ImageOf(i: Image): ImageValue
    reads i.data
  {
    ImageValue(i.head, i.data[..])
  }

  class ComponentImage {
    var images: seq<Image>

    constructor ()
      ensures images == []
    {
      images := [];
    }

    ghost function Blobs(): set<object>
      reads this
    {
      set i | i in images :: i.data
    }

    ghost function Value(): seq<ImageValue>
      reads this, Blobs()
    {
      seq(|images|, i requires 0 <= i < |images| reads this, Blobs() => ImageOf(images[i]))
    }

    /** The size of each image is that of its content. */
    predicate Measured()
      reads this
    {
      forall i :: 0 <= i < |images| ==> images[i].size == images[i].data.Length
    }

    method Unmarshal(data: array<u8>, lo: nat, hi: nat) returns (err: Err)
      requires lo <= hi <= data.Length
      modifies this
      ensures old(Measured()) ==> Measured()
      ensures Payload(List(CountedShape(List(ImageShape()))).dec, data[lo..hi], old(Value()))
              == if err == Nil then Some(Value()) else None
      ensures fresh(Blobs() - old(Blobs()))
    {
      if lo == hi {
        return Nil;
      }
      var cur := new Cursor(data, lo, hi);
      var imageCount := ReadCount(cur);
      ghost var item, start := List(ImageShape()), cur.State();
      var ok := cur.CheckCount(imageCount, 36);
      if !ok {
        ImageTakes();
        GuardTook(CountedShape(item), 36, cur.data, Some(0), imageCount, Nothing, start, []);
        return cur.err;
      }
      ok := ReadImages(cur, imageCount);
      if !ok {
        TookList(CountedShape(item), cur.data, Some(0), imageCount, Nothing, start, Value(), None);
        return ShortPacket;
      }
      TookList(CountedShape(item), cur.data, Some(0), imageCount, Nothing, start, Value(), cur.State());
      return cur.err;
    }

    /** The images one after the other; ok is false when one of them was refused. */
    method ReadImages(cur: Cursor, imageCount: u32) returns (ok: bool)
      requires cur.Valid() && cur.State().Some?
      modifies this, cur
      ensures cur.Valid() && |images| <= imageCount && fresh(Blobs()) && Measured()
      ensures ok ==> cur.State().Some? && |images| == imageCount
      ensures Progress(List(ImageShape()).dec, imageCount, cur.data, old(cur.State()), Value(), if ok then cur.State() else None)
    {
      ghost var dec, start := List(ImageShape()).dec, cur.State();
      images := [];
      ghost var values := [];
      ProgressStart(dec, imageCount, cur.data, start);
      var i := 0;
      while i < imageCount
        invariant 0 <= i <= imageCount && |images| == |values| == i
        invariant cur.Valid() && cur.State().Some? && Measured()
        invariant forall k :: 0 <= k < i ==> fresh(images[k].data) && ImageOf(images[k]) == values[k]
        invariant Progress(dec, imageCount, cur.data, start, values, cur.State())
      {
        ghost var before := cur.State();
        var img;
        ok, img := ReadImage(cur);
        ghost var after := if ok then cur.State() else None;
        ProgressStep(dec, imageCount, cur.data, start, values, before, ImageOf(img), after);
        if !ok {
          assert Value() == values;
          return false;
        }
        images, values := images + [img], values + [ImageOf(img)];
        i := i + 1;
      }
      assert Value() == values;
      return true;
    }
  }

  lemma ImageTakes()
    ensures Takes(List(ImageShape()).dec, 36)
  {
    RecTakes(ImageRecord());
    forall b: bytes, p: nat ensures TakesAt(Byte().dec, 0, b, p) {
    }
    ListTakes(ImageShape(), 36);
  }

  method ReadCrop(cur: Cursor) returns (crop: Crop)
    requires cur.Valid()
    modifies cur
    ensures cur.Valid() && cur.State() == Advance(cur.data, old(cur.State()), 16)
    ensures cur.State().Some? ==> var p := old(cur.pos);
      crop == Crop(U32(cur.data, p), U32(cur.data, p + 4), U32(cur.data, p + 8), U32(cur.data, p + 12))
  {
    hide U32;
    var left := cur.Float32();
    var top := cur.Float32();
    var right := cur.Float32();
    var bottom := cur.Float32();
    crop := Crop(left, top, right, bottom);
  }

  method ReadImageHead(cur: Cursor) returns (size: u32, head: ImageHead)
    requires cur.Valid()
    modifies cur
    ensures cur.Valid()
    ensures Took(Rec(ImageRecord()).dec, cur.data, old(cur.State()), Head(size, head), cur.State())
  {
    hide Rec, Took, U32;
    var id := cur.Uint32();
    var format := cur.Uint32();
    var width := cur.Uint32();
    var height := cur.Uint32();
    var crop := ReadCrop(cur);
    size := cur.Uint32();
    head := ImageHead(id, format, width, height, crop);
    ImageHeadTook(cur.data, old(cur.State()), size, head, cur.State());
  }

  lemma ImageHeadTook(b: bytes, before: Option<nat>, size: u32, h: ImageHead, after: Option<nat>)
    requires after == Advance(b, before, 36)
    requires after.Some? ==> var p := before.value;
      size == U32(b, p + 32) && h == ImageHead(U32(b, p), U32(b, p + 4), U32(b, p + 8), U32(b, p + 12),
        Crop(U32(b, p + 16), U32(b, p + 20), U32(b, p + 24), U32(b, p + 28)))
    ensures Took(Rec(ImageRecord()).dec, b, before, Head(size, h), after)
  {
  }

  /** One image; ok is false when its header is cut short or its size claims more than is left, and then the
      reader itself may not have failed. */
  method ReadImage(cur: Cursor) returns (ok: bool, img: Image)
    requires cur.Valid()
    modifies cur
    ensures cur.Valid() && (ok ==> cur.State().Some?)
    ensures fresh(img.data) && (ok ==> img.size == img.data.Length)
    ensures Took(List(ImageShape()).dec, cur.data, old(cur.State()), ImageOf(img), if ok then cur.State() else None)
  {
    hide Rec, U32;
    var size, head := ReadImageHead(cur);
    ghost var start := cur.State();
    var empty := new u8[0];
    img := Image(head, size, empty);
    if cur.err != Nil {
      ImageRefused(cur.data, old(cur.State()), size, head, start, ImageOf(img));
      return false, img;
    }
    var left := cur.Remaining();
    if size > left {
      ImageRefused(cur.data, old(cur.State()), size, head, start, ImageOf(img));
      return false, img;
    }
    var content := cur.Bytes(size);
    ok, img := true, Image(head, size, content);
    ImageTook(cur.data, old(cur.State()), size, head, start, ImageOf(img));
  }

  lemma ImageTook(b: bytes, before: Option<nat>, size: u32, h: ImageHead, mid: Option<nat>, v: ImageValue)
    requires Took(Rec(ImageRecord()).dec, b, before, Head(size, h), mid)
    requires mid.Some? && mid.value + size <= |b| && v == ImageValue(h, b[mid.value..mid.value + size])
    ensures Took(List(ImageShape()).dec, b, before, v, Some(mid.value + size))
  {
    ManyBytes(b, mid.value, size);
  }

  lemma ImageRefused(b: bytes, before: Option<nat>, size: u32, h: ImageHead, mid: Option<nat>, v: ImageValue)
    requires Took(Rec(ImageRecord()).dec, b, before, Head(size, h), mid)
    requires mid.Some? ==> mid.value <= |b| < mid.value + size
    ensures Took(List(ImageShape()).dec, b, before, v, None)
  {
    if mid.Some? {
      ManyBytes(b, mid.value, size);
    }
  }
}
