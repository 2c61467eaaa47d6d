/** Labelled and unlabelled 3D markers, and 2D markers seen by each camera. */
module Markers {
  import opened Wire
  import opened Codec
  import opened Layouts
  import opened Cursors

  class Component3D {
    var rates: Rates
    var markers: seq<Marker>

    constructor ()
      ensures Value() == Rated(Rates(0, 0), [])
    {
      rates, markers := Rates(0, 0), [];
    }

    function Value(): Rated<Marker>
      reads this
    {
      Rated(rates, markers)
    }

    /** The body shared by the four 3D kinds. */
    method Unmarshal(data: array<u8>, lo: nat, hi: nat, withID: bool, withResidual: bool) returns (err: Err)
      requires lo <= hi <= data.Length
      modifies this
      ensures Payload(List(RatedShape(Rec(MarkerRecord(withID, withResidual)))).dec, data[lo..hi], old(Value()))
              == if err == Nil then Some(Value()) else None
    {
      if lo == hi {
        return Nil;
      }
      var cur := new Cursor(data, lo, hi);
      var count;
      count, rates := ReadRates(cur);
      var stride := 12;
      if withID {
        stride := stride + 4;
      }
      if withResidual {
        stride := stride + 4;
      }
      ghost var item, start, head := Rec(MarkerRecord(withID, withResidual)), cur.State(), rates;
      var ok := cur.CheckCount(count, stride);
      if !ok {
        RecTakes(MarkerRecord(withID, withResidual));
        GuardTook(RatedShape(item), stride, cur.data, Some(0), count, rates, start, Value());
        return cur.err;
      }
      markers := [];
      ProgressStart(item.dec, count, cur.data, start);
      var i := 0;
      while i < count
        invariant 0 <= i <= count && |markers| == i
        invariant cur.Valid() && rates == head
        invariant Progress(item.dec, count, cur.data, start, markers, cur.State())
      {
        ghost var before := cur.State();
        var m := ReadMarker(cur, withID, withResidual);
        ProgressStep(item.dec, count, cur.data, start, markers, before, m, cur.State());
        markers := markers + [m];
        i := i + 1;
      }
      TookList(RatedShape(item), cur.data, Some(0), count, rates, start, markers, cur.State());
      return cur.err;
    }
  }

  method ReadMarker(cur: Cursor, withID: bool, withResidual: bool) returns (m: Marker)
    requires cur.Valid()
    modifies cur
    ensures cur.Valid()
    ensures Took(Rec(MarkerRecord(withID, withResidual)).dec, cur.data, old(cur.State()), m, cur.State())
  {
    var point := cur.ReadPoint();
    m := Marker(point, 0, 0);
    if withID {
      var id := cur.Uint32();
      m := m.(id := id);
    }
    if withResidual {
      var residual := cur.Float32();
      m := m.(residual := residual);
    }
  }

  class Component2D {
    var rates: Rates
    var cameras: seq<Camera>

    constructor ()
      ensures Value() == Rated(Rates(0, 0), [])
    {
      rates, cameras := Rates(0, 0), [];
    }

    function Value(): Rated<Camera>
      reads this
    {
      Rated(rates, cameras)
    }

    /** The body shared by the raw and the linearized kind. */
    method Unmarshal(data: array<u8>, lo: nat, hi: nat) returns (err: Err)
      requires lo <= hi <= data.Length
      modifies this
      ensures Payload(List(RatedShape(List(CameraShape()))).dec, data[lo..hi], old(Value()))
              == if err == Nil then Some(Value()) else None
    {
      if lo == hi {
        return Nil;
      }
      var cur := new Cursor(data, lo, hi);
      var count;
      count, rates := ReadRates(cur);
      ghost var item, start, head := List(CameraShape()), cur.State(), rates;
      var ok := cur.CheckCount(count, 5);
      if !ok {
        CameraTakes();
        GuardTook(RatedShape(item), 5, cur.data, Some(0), count, rates, start, Value());
        return cur.err;
      }
      cameras := [];
      ProgressStart(item.dec, count, cur.data, start);
      var i := 0;
      while i < count
        invariant 0 <= i <= count && |cameras| == i
        invariant cur.Valid() && rates == head
        invariant Progress(item.dec, count, cur.data, start, cameras, cur.State())
      {
        ghost var before := cur.State();
        var cam;
        ok, cam := ReadCamera(cur);
        ProgressStep(item.dec, count, cur.data, start, cameras, before, cam, cur.State());
        if !ok {
          TookList(RatedShape(item), cur.data, Some(0), count, rates, start, cameras + [cam], cur.State());
          return cur.err;
        }
        cameras := cameras + [cam];
        i := i + 1;
      }
      TookList(RatedShape(item), cur.data, Some(0), count, rates, start, cameras, cur.State());
      return cur.err;
    }
  }

  lemma CameraTakes()
    ensures Takes(List(CameraShape()).dec, 5)
  {
    forall b: bytes, p: nat ensures TakesAt(CameraShape().hdr.dec, 5, b, p) {
    }
    forall b: bytes, p: nat ensures TakesAt(Rec(Marker2DRecord()).dec, 0, b, p) {
    }
    ListTakes(CameraShape(), 5);
  }

  /** One camera block; ok is false when its marker count was refused. */
  method ReadCamera(cur: Cursor) returns (ok: bool, cam: Camera)
    requires cur.Valid()
    modifies cur
    ensures cur.Valid() && (!ok ==> cur.State() == None)
    ensures Took(List(CameraShape()).dec, cur.data, old(cur.State()), cam, cur.State())
  {
    var markerCount := cur.Uint32();
    var status := cur.Uint8();
    cam := Camera([], status);
    ghost var item, start := Rec(Marker2DRecord()), cur.State();
    ok := cur.CheckCount(markerCount, 12);
    if !ok {
      RecTakes(Marker2DRecord());
      GuardTook(CameraShape(), 12, cur.data, old(cur.State()), markerCount, status, start, cam);
      return;
    }
    ProgressStart(item.dec, markerCount, cur.data, start);
    var m := 0;
    while m < markerCount
      invariant 0 <= m <= markerCount && |cam.markers| == m && cam.status == status
      invariant cur.Valid()
      invariant Progress(item.dec, markerCount, cur.data, start, cam.markers, cur.State())
    {
      ghost var before := cur.State();
      var marker := ReadMarker2D(cur);
      ProgressStep(item.dec, markerCount, cur.data, start, cam.markers, before, marker, cur.State());
      cam := cam.(markers := cam.markers + [marker]);
      m := m + 1;
    }
    TookList(CameraShape(), cur.data, old(cur.State()), markerCount, status, start, cam.markers, cur.State());
  }

  method ReadMarker2D(cur: Cursor) returns (m: Marker2D)
    requires cur.Valid()
    modifies cur
    ensures cur.Valid()
    ensures Took(Rec(Marker2DRecord()).dec, cur.data, old(cur.State()), m, cur.State())
  {
    var x := cur.Uint32();
    var y := cur.Uint32();
    var dx := cur.Uint16();
    var dy := cur.Uint16();
    m := Marker2D(x, y, dx, dy);
    Marker2DTook(cur.data, old(cur.State()), m, cur.State());
  }

  lemma Marker2DTook(b: bytes, before: Option<nat>, m: Marker2D, after: Option<nat>)
    requires after == Advance(b, before, 12)
    requires after.Some? ==> var p := before.value;
      m == Marker2D(U32(b, p), U32(b, p + 4), U16(b, p + 8), U16(b, p + 10))
    ensures Took(Rec(Marker2DRecord()).dec, b, before, m, after)
  {
    if after.Some? {
      Halves(b, before.value + 8);
      var ws := Words(b, before.value, 3);
      assert ws[2] == m.diameterX + 0x1_0000 * m.diameterY;
    }
  }
}
