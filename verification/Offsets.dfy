/** Where each field of each component stands: what a payload decodes to, by component type number and byte offset, and
    exactly when it is accepted. */
module Offsets {
  import opened Wire
  import opened Codec
  import opened Layouts
  import opened Components
  import opened Frames
  import T = Timecodes
  import S = Samples

  // Records one after the other.

  /** Where the record that starts at an offset ends, if it is whole. */
  type Reader = (bytes, nat) -> Option<nat>

  /** Where record i starts when the first one starts at p. */
  function At(end: Reader, b: bytes, p: nat, i: nat): Option<nat>
    decreases i
  {
    if i == 0 then Some(p) else match end(b, p) case None => None case Some(q) => At(end, b, q, i - 1)
  }

  ghost predicate Reads<A>(dec: Dec<A>, end: Reader, holds: (bytes, nat, A) -> bool, b: bytes, p: nat) {
    match dec(b, p)
    case None => end(b, p) == None
    case Some((x, q)) => end(b, p) == Some(q) && holds(b, p, x)
  }

  /** Each item stands where its record starts. */
  ghost predicate InPlace<A>(end: Reader, holds: (bytes, nat, A) -> bool, b: bytes, p: nat, xs: seq<A>) {
    forall i :: 0 <= i < |xs| ==> At(end, b, p, i).Some? && holds(b, At(end, b, p, i).value, xs[i])
  }

  lemma {:induction false} ManyRead<A(!new)>(dec: Dec<A>, end: Reader, holds: (bytes, nat, A) -> bool, n: nat, b: bytes, p: nat)
    requires forall q: nat :: Reads(dec, end, holds, b, q)
    ensures var r := DecMany(dec, n, b, p);
      && (r == None ==> At(end, b, p, n) == None)
      && (r.Some? ==> At(end, b, p, n) == Some(r.value.1) && |r.value.0| == n && InPlace(end, holds, b, p, r.value.0))
    decreases n
  {
    if n > 0 {
      assert Reads(dec, end, holds, b, p);
      if dec(b, p).Some? {
        ManyRead(dec, end, holds, n - 1, b, dec(b, p).value.1);
      }
    }
  }

  /** Records of k bytes each. */
  function Fixed(k: nat): Reader { (b: bytes, p: nat) => if p + k <= |b| then Some(p + k) else None }

  /** Where record i stands when all of them have k bytes and the first one stands at p. */
  function Place(p: nat, k: nat, i: nat): nat { p + k * i }

  lemma PlaceOn(p: nat, k: nat, i: nat)
    requires i > 0
    ensures Place(p, k, i) == Place(p + k, k, i - 1) >= p + k
  {
    assert k * i == k + k * (i - 1) && k * (i - 1) >= 0;
  }

  lemma {:induction false} FixedAt(k: nat, b: bytes, p: nat, i: nat)
    requires p <= |b|
    ensures At(Fixed(k), b, p, i) == if Place(p, k, i) <= |b| then Some(Place(p, k, i)) else None
    decreases i
  {
    if i > 0 {
      hide Place;
      PlaceOn(p, k, i);
      if p + k <= |b| {
        FixedAt(k, b, p + k, i - 1);
      }
    }
  }

  ghost predicate WordsAt<A>(r: Record<A>, b: bytes, p: nat, x: A) { p + 4 * r.n <= |b| && x == r.to(Words(b, p, r.n)) }

  /** n records of k bytes each from p on. */
  lemma Run<A(!new)>(r: Record<A>, k: nat, n: nat, b: bytes, p: nat)
    requires k == 4 * r.n && p <= |b|
    ensures var d := DecMany(Rec(r).dec, n, b, p);
      && (d.Some? <==> Place(p, k, n) <= |b|)
      && (d.Some? ==> d.value.1 == Place(p, k, n) && |d.value.0| == n
                      && forall i :: 0 <= i < n ==> WordsAt(r, b, Place(p, k, i), d.value.0[i]))
  {
    hide Place, DecMany;
    var holds := (b: bytes, p: nat, x: A) => WordsAt(r, b, p, x);
    forall q: nat ensures Reads(Rec(r).dec, Fixed(k), holds, b, q) {
    }
    ManyRead(Rec(r).dec, Fixed(k), holds, n, b, p);
    FixedAt(k, b, p, n);
    if DecMany(Rec(r).dec, n, b, p).Some? {
      var xs := DecMany(Rec(r).dec, n, b, p).value.0;
      forall i | 0 <= i < n ensures WordsAt(r, b, Place(p, k, i), xs[i]) {
        FixedAt(k, b, p, i);
        assert At(Fixed(k), b, p, i).Some? && holds(b, At(Fixed(k), b, p, i).value, xs[i]);
      }
    }
  }

  // Payloads: a count, for some kinds two rates, and the records.

  lemma RatesHeader(b: bytes)
    ensures Rec(RatesRecord()).dec(b, 0) ==
      if |b| < 8 then None else Some((Head(U32(b, 0), Rates(U16(b, 4), U16(b, 6))), 8))
  {
    hide U32, U16;
    if |b| >= 8 {
      Halves(b, 4);
      var ws := Words(b, 0, 2);
      assert ws[0] == U32(b, 0) && ws[1] == U32(b, 4);
    }
  }

  lemma CountHeader(b: bytes)
    ensures Rec(CountRecord()).dec(b, 0) == if |b| < 4 then None else Some((Head(U32(b, 0), Nothing), 4))
  {
  }

  lemma RatedRead<A(!new)>(item: Format<A>, end: Reader, holds: (bytes, nat, A) -> bool, b: bytes)
    requires forall q: nat :: Reads(item.dec, end, holds, b, q)
    ensures var r := List(RatedShape(item)).dec(b, 0);
      && (r.Some? <==> |b| >= 8 && At(end, b, 8, U32(b, 0)).Some?)
      && (r.Some? ==> r.value.0.rates == Rates(U16(b, 4), U16(b, 6)) && |r.value.0.items| == U32(b, 0)
                      && InPlace(end, holds, b, 8, r.value.0.items))
  {
    hide DecMany, At, InPlace, U32, U16, Rec;
    RatesHeader(b);
    if |b| >= 8 {
      ManyRead(item.dec, end, holds, U32(b, 0), b, 8);
    }
  }

  lemma CountedRead<A(!new)>(item: Format<A>, end: Reader, holds: (bytes, nat, A) -> bool, b: bytes)
    requires forall q: nat :: Reads(item.dec, end, holds, b, q)
    ensures var r := List(CountedShape(item)).dec(b, 0);
      && (r.Some? <==> |b| >= 4 && At(end, b, 4, U32(b, 0)).Some?)
      && (r.Some? ==> |r.value.0| == U32(b, 0) && InPlace(end, holds, b, 4, r.value.0))
  {
    hide DecMany, At, InPlace, U32, Rec;
    CountHeader(b);
    if |b| >= 4 {
      ManyRead(item.dec, end, holds, U32(b, 0), b, 4);
    }
  }

  function PointOf(b: bytes, p: nat): Point
    requires p + 12 <= |b|
  {
    Point(U32(b, p), U32(b, p + 4), U32(b, p + 8))
  }

  // Types 1, 9, 2 and 10: markers.

  function MarkerStride(kind: u32): nat { if kind == 1 then 12 else if kind == 9 || kind == 2 then 16 else 20 }

  /** The point first, the ID after it in types 2 and 10 only, the residual last in types 9 and 10 only. */
  predicate MarkerAt(kind: u32, b: bytes, p: nat, m: Marker) {
    && p + MarkerStride(kind) <= |b| && m.point == PointOf(b, p)
    && m.id == (if kind == 2 || kind == 10 then U32(b, p + 12) else 0)
    && m.residual == (if kind == 9 then U32(b, p + 12) else if kind == 10 then U32(b, p + 16) else 0)
  }

  lemma MarkerReads(kind: u32, b: bytes, p: nat)
    requires kind == 1 || kind == 9 || kind == 2 || kind == 10
    ensures Reads(Rec(MarkerRecord(WithID(kind), WithResidual(kind))).dec, Fixed(MarkerStride(kind)),
      (b: bytes, p: nat, m: Marker) => MarkerAt(kind, b, p, m), b, p)
  {
  }

  /** A payload of type 1, 9, 2 or 10 is accepted exactly when all its markers are there, and decodes to the rates and
      to marker i at its place. */
  lemma MarkerOffsets(kind: u32, b: bytes)
    requires (kind == 1 || kind == 9 || kind == 2 || kind == 10) && b != []
    ensures DecodeBody(kind, b).Some? <==> |b| >= 8 && Place(8, MarkerStride(kind), U32(b, 0)) <= |b|
    ensures DecodeBody(kind, b).Some? ==>
      var v := DecodeBody(kind, b).value;
      && v.Markers? && v.markers.rates == Rates(U16(b, 4), U16(b, 6)) && |v.markers.items| == U32(b, 0)
      && forall i :: 0 <= i < |v.markers.items| ==> MarkerAt(kind, b, Place(8, MarkerStride(kind), i), v.markers.items[i])
  {
    hide List, Rec, MarkerAt, U32, U16, Place;
    var holds := (b: bytes, p: nat, m: Marker) => MarkerAt(kind, b, p, m);
    var item := Rec(MarkerRecord(WithID(kind), WithResidual(kind)));
    forall q: nat ensures Reads(item.dec, Fixed(MarkerStride(kind)), holds, b, q) {
      MarkerReads(kind, b, q);
    }
    RatedRead(item, Fixed(MarkerStride(kind)), holds, b);
    if |b| >= 8 {
      InStrides(MarkerStride(kind), holds, b, 8, U32(b, 0));
    }
  }

  /** Records in place at fixed strides. */
  lemma InStrides<A(!new)>(k: nat, holds: (bytes, nat, A) -> bool, b: bytes, p: nat, n: nat)
    requires p <= |b|
    ensures At(Fixed(k), b, p, n).Some? <==> Place(p, k, n) <= |b|
    ensures forall xs: seq<A> :: |xs| == n && InPlace(Fixed(k), holds, b, p, xs) ==>
      forall i :: 0 <= i < n ==> holds(b, Place(p, k, i), xs[i])
  {
    hide Place;
    FixedAt(k, b, p, n);
    forall xs: seq<A> | |xs| == n && InPlace(Fixed(k), holds, b, p, xs)
      ensures forall i :: 0 <= i < n ==> holds(b, Place(p, k, i), xs[i])
    {
      forall i | 0 <= i < n ensures holds(b, Place(p, k, i), xs[i]) {
        FixedAt(k, b, p, i);
        assert At(Fixed(k), b, p, i).Some? && holds(b, At(Fixed(k), b, p, i).value, xs[i]);
      }
    }
  }

  // Types 5 and 11, 6 and 12: bodies.

  function MatrixStride(kind: u32): nat { if kind == 5 then 48 else 52 }

  /** The point, nine rotation words, and the residual last in type 11 only. */
  predicate MatrixAt(kind: u32, b: bytes, p: nat, m: BodyMatrix) {
    && p + MatrixStride(kind) <= |b| && m.point == PointOf(b, p) && |m.rotation| == 9
    && (forall k :: 0 <= k < 9 ==> m.rotation[k] == U32(b, p + 12 + 4 * k))
    && m.residual == (if kind == 11 then U32(b, p + 48) else 0)
  }

  lemma MatrixReads(kind: u32, b: bytes, p: nat)
    requires kind == 5 || kind == 11
    ensures Reads(Rec(MatrixRecord(WithResidual(kind))).dec, Fixed(MatrixStride(kind)),
      (b: bytes, p: nat, m: BodyMatrix) => MatrixAt(kind, b, p, m), b, p)
  {
    hide U32;
    if p + MatrixStride(kind) <= |b| {
      var m := MatrixRecord(WithResidual(kind)).to(Words(b, p, if kind == 5 then 12 else 13));
      forall k | 0 <= k < 9 ensures m.rotation[k] == U32(b, p + 12 + 4 * k) {
        assert p + 4 * (3 + k) == p + 12 + 4 * k;
      }
      assert MatrixAt(kind, b, p, m);
    }
  }

  lemma MatrixOffsets(kind: u32, b: bytes)
    requires (kind == 5 || kind == 11) && b != []
    ensures DecodeBody(kind, b).Some? <==> |b| >= 8 && Place(8, MatrixStride(kind), U32(b, 0)) <= |b|
    ensures DecodeBody(kind, b).Some? ==>
      var v := DecodeBody(kind, b).value;
      && v.Matrices? && v.matrices.rates == Rates(U16(b, 4), U16(b, 6)) && |v.matrices.items| == U32(b, 0)
      && forall i :: 0 <= i < |v.matrices.items| ==> MatrixAt(kind, b, Place(8, MatrixStride(kind), i), v.matrices.items[i])
  {
    hide List, Rec, MatrixAt, U32, U16, Place;
    var holds := (b: bytes, p: nat, m: BodyMatrix) => MatrixAt(kind, b, p, m);
    var item := Rec(MatrixRecord(WithResidual(kind)));
    forall q: nat ensures Reads(item.dec, Fixed(MatrixStride(kind)), holds, b, q) {
      MatrixReads(kind, b, q);
    }
    RatedRead(item, Fixed(MatrixStride(kind)), holds, b);
    if |b| >= 8 {
      InStrides(MatrixStride(kind), holds, b, 8, U32(b, 0));
    }
  }

  function EulerStride(kind: u32): nat { if kind == 6 then 24 else 28 }

  /** The point, three angles, and the residual last in type 12 only. */
  predicate EulerAt(kind: u32, b: bytes, p: nat, m: BodyEuler) {
    && p + EulerStride(kind) <= |b| && m.point == PointOf(b, p)
    && m.angles == [U32(b, p + 12), U32(b, p + 16), U32(b, p + 20)]
    && m.residual == (if kind == 12 then U32(b, p + 24) else 0)
  }

  lemma EulerReads(kind: u32, b: bytes, p: nat)
    requires kind == 6 || kind == 12
    ensures Reads(Rec(EulerRecord(WithResidual(kind))).dec, Fixed(EulerStride(kind)),
      (b: bytes, p: nat, m: BodyEuler) => EulerAt(kind, b, p, m), b, p)
  {
    var n := EulerRecord(WithResidual(kind)).n;
    if p + 4 * n <= |b| {
      var ws := Words(b, p, n);
      assert ws[3..6] == [U32(b, p + 12), U32(b, p + 16), U32(b, p + 20)];
    }
  }

  lemma EulerOffsets(kind: u32, b: bytes)
    requires (kind == 6 || kind == 12) && b != []
    ensures DecodeBody(kind, b).Some? <==> |b| >= 8 && Place(8, EulerStride(kind), U32(b, 0)) <= |b|
    ensures DecodeBody(kind, b).Some? ==>
      var v := DecodeBody(kind, b).value;
      && v.Eulers? && v.eulers.rates == Rates(U16(b, 4), U16(b, 6)) && |v.eulers.items| == U32(b, 0)
      && forall i :: 0 <= i < |v.eulers.items| ==> EulerAt(kind, b, Place(8, EulerStride(kind), i), v.eulers.items[i])
  {
    hide List, Rec, EulerAt, U32, U16, Place;
    var holds := (b: bytes, p: nat, m: BodyEuler) => EulerAt(kind, b, p, m);
    var item := Rec(EulerRecord(WithResidual(kind)));
    forall q: nat ensures Reads(item.dec, Fixed(EulerStride(kind)), holds, b, q) {
      EulerReads(kind, b, q);
    }
    RatedRead(item, Fixed(EulerStride(kind)), holds, b);
    if |b| >= 8 {
      InStrides(EulerStride(kind), holds, b, 8, U32(b, 0));
    }
  }

  // Types 7 and 8: cameras, each a marker count, a status byte and its markers.

  function CameraEnd(b: bytes, p: nat): Option<nat> {
    if p + 5 > |b| || p + 5 + 12 * U32(b, p) > |b| then None else Some(p + 5 + 12 * U32(b, p))
  }

  predicate Marker2DAt(b: bytes, p: nat, m: Marker2D) {
    p + 12 <= |b| && m == Marker2D(U32(b, p), U32(b, p + 4), U16(b, p + 8), U16(b, p + 10))
  }

  predicate CameraAt(b: bytes, p: nat, c: Camera) {
    && p + 5 <= |b| && |c.markers| == U32(b, p) && c.status == b[p + 4]
    && forall j :: 0 <= j < |c.markers| ==> Marker2DAt(b, p + 5 + 12 * j, c.markers[j])
  }

  lemma Marker2DWords(b: bytes, p: nat, m: Marker2D)
    requires WordsAt(Marker2DRecord(), b, p, m)
    ensures Marker2DAt(b, p, m)
  {
    Halves(b, p + 8);
  }

  lemma CameraReads(b: bytes, p: nat)
    ensures Reads(List(CameraShape()).dec, CameraEnd, CameraAt, b, p)
  {
    hide U32, Rec, Marker2DRecord, WordsAt, Marker2DAt;
    if p + 5 <= |b| {
      var n := U32(b, p);
      SizeOfMarker2D();
      Run(Marker2DRecord(), 12, n, b, p + 5);
      var d := DecMany(Rec(Marker2DRecord()).dec, n, b, p + 5);
      if d.Some? {
        forall j | 0 <= j < n ensures Marker2DAt(b, p + 5 + 12 * j, d.value.0[j]) {
          Marker2DWords(b, p + 5 + 12 * j, d.value.0[j]);
        }
      }
    }
  }

  lemma SizeOfMarker2D()
    ensures Marker2DRecord().n == 3
  {
  }

  /** Types 7 and 8: accepted exactly when all cameras are whole, and camera i is the one that stands where the cameras
      before it end. */
  lemma CameraOffsets(kind: u32, b: bytes)
    requires (kind == 7 || kind == 8) && b != []
    ensures DecodeBody(kind, b).Some? <==> |b| >= 8 && At(CameraEnd, b, 8, U32(b, 0)).Some?
    ensures DecodeBody(kind, b).Some? ==>
      var v := DecodeBody(kind, b).value;
      && v.Cameras? && v.cameras.rates == Rates(U16(b, 4), U16(b, 6)) && |v.cameras.items| == U32(b, 0)
      && InPlace(CameraEnd, CameraAt, b, 8, v.cameras.items)
  {
    hide List, U32, U16, InPlace;
    forall q: nat ensures Reads(List(CameraShape()).dec, CameraEnd, CameraAt, b, q) {
      CameraReads(b, q);
    }
    RatedRead(List(CameraShape()), CameraEnd, CameraAt, b);
  }

  // Types 3 and 13: analog devices.

  function AnalogEnd(b: bytes, p: nat): Option<nat> {
    if p + 16 > |b| || Channel(p, U32(b, p + 8), U32(b, p + 4)) > |b| then None
    else Some(Channel(p, U32(b, p + 8), U32(b, p + 4)))
  }

  /** Where channel c of a device at p stands when a channel has sc samples of four bytes each. */
  function Channel(p: nat, sc: nat, c: nat): nat { Place(p + 16, 4 * sc, c) }

  /** ID, channel count, sample count and sample number, and then the samples of one channel after the other. */
  predicate AnalogAt(b: bytes, p: nat, d: AnalogDevice) {
    && p + 16 <= |b| && d.id == U32(b, p) && |d.channels| == U32(b, p + 4) && d.sampleNumber == U32(b, p + 12)
    && forall c :: 0 <= c < |d.channels| ==> ChannelAt(b, Channel(p, U32(b, p + 8), c), U32(b, p + 8), d.channels[c])
  }

  predicate ChannelAt(b: bytes, p: nat, n: nat, xs: seq<f32>) {
    p + 4 * n <= |b| && |xs| == n && forall s :: 0 <= s < n ==> xs[s] == U32(b, p + 4 * s)
  }

  lemma ChannelWords(b: bytes, p: nat, n: nat, xs: seq<f32>)
    requires WordsAt(WordsRecord(n), b, p, xs)
    ensures ChannelAt(b, p, n, xs)
  {
  }

  lemma SizeOfWords(n: nat)
    ensures WordsRecord(n).n == n
  {
  }

  /** n channels of sc samples. */
  lemma ChannelsRead(b: bytes, p: nat, sc: u32, n: nat)
    requires p + 16 <= |b|
    ensures var d := DecMany(Rec(WordsRecord(sc)).dec, n, b, p + 16);
      && (d.Some? <==> Channel(p, sc, n) <= |b|)
      && (d.Some? ==> d.value.1 == Channel(p, sc, n) && |d.value.0| == n
                      && forall c :: 0 <= c < n ==> ChannelAt(b, Channel(p, sc, c), sc, d.value.0[c]))
  {
    hide U32, WordsAt, ChannelAt, WordsRecord, DecMany, Rec, Place;
    SizeOfWords(sc);
    var k: nat := 4 * (sc as int);
    Run(WordsRecord(sc), k, n, b, p + 16);
    var d := DecMany(Rec(WordsRecord(sc)).dec, n, b, p + 16);
    if d.Some? {
      forall c | 0 <= c < n ensures ChannelAt(b, Channel(p, sc, c), sc, d.value.0[c]) {
        assert WordsAt(WordsRecord(sc), b, Place(p + 16, k, c), d.value.0[c]);
        ChannelWords(b, Place(p + 16, k, c), sc, d.value.0[c]);
      }
    }
  }

  lemma AnalogList(b: bytes, p: nat)
    requires p + 16 <= |b|
    ensures List(AnalogShape()).dec(b, p) ==
      var d := DecMany(Rec(WordsRecord(U32(b, p + 8))).dec, U32(b, p + 4), b, p + 16);
      match d case None => None
      case Some((xs, q)) => Some((AnalogWire(AnalogHead(U32(b, p), U32(b, p + 8), U32(b, p + 12)), xs), q))
  {
    hide U32, WordsRecord, DecMany;
    AnalogHeader(b, p);
  }

  lemma AnalogReads(b: bytes, p: nat)
    ensures Reads(List(AnalogShape()).dec, AnalogEnd, (b: bytes, p: nat, w: AnalogWire) => AnalogAt(b, p, S.Device(w)), b, p)
  {
    if p + 16 <= |b| {
      hide U32, ChannelAt, DecMany, Rec, List, Channel;
      AnalogList(b, p);
      ChannelsRead(b, p, U32(b, p + 8), U32(b, p + 4));
    } else {
      AnalogHeader(b, p);
    }
  }

  lemma AnalogHeader(b: bytes, p: nat)
    ensures Rec(AnalogRecord()).dec(b, p) ==
      if p + 16 > |b| then None
      else Some((Head(U32(b, p + 4), AnalogHead(U32(b, p), U32(b, p + 8), U32(b, p + 12))), p + 16))
  {
  }

  /** Type 3. */
  lemma AnalogOffsets(b: bytes)
    requires b != []
    ensures DecodeBody(3, b).Some? <==> |b| >= 4 && At(AnalogEnd, b, 4, U32(b, 0)).Some?
    ensures DecodeBody(3, b).Some? ==>
      var v := DecodeBody(3, b).value;
      v.Analogs? && |v.devices| == U32(b, 0) && InPlace(AnalogEnd, AnalogAt, b, 4, v.devices)
  {
    hide List, U32, AnalogAt, AnalogEnd;
    var holds := (b: bytes, p: nat, w: AnalogWire) => AnalogAt(b, p, S.Device(w));
    forall q: nat ensures Reads(List(AnalogShape()).dec, AnalogEnd, holds, b, q) {
      AnalogReads(b, q);
    }
    CountedRead(List(AnalogShape()), AnalogEnd, holds, b);
    if DecodeBody(3, b).Some? {
      var ws, ds := FormatAnalog().dec(b, 0).value.0, DecodeBody(3, b).value.devices;
      forall i | 0 <= i < |ds| ensures At(AnalogEnd, b, 4, i).Some? && AnalogAt(b, At(AnalogEnd, b, 4, i).value, ds[i]) {
        assert holds(b, At(AnalogEnd, b, 4, i).value, ws[i]);
      }
    }
  }

  function SingleEnd(b: bytes, p: nat): Option<nat> {
    if p + 8 > |b| || p + 8 + 4 * U32(b, p + 4) > |b| then None else Some(p + 8 + 4 * U32(b, p + 4))
  }

  /** ID and channel count, and then one sample for each channel; no sample number. */
  predicate SingleAt(b: bytes, p: nat, d: AnalogDevice) {
    && p + 8 <= |b| && d.id == U32(b, p) && |d.channels| == U32(b, p + 4) && d.sampleNumber == 0
    && forall c :: 0 <= c < |d.channels| ==> ChannelAt(b, p + 8 + 4 * c, 1, d.channels[c])
  }

  /** n channels of one sample. */
  lemma SinglesRead(b: bytes, p: nat, n: nat)
    requires p + 8 <= |b|
    ensures var d := DecMany(Rec(WordsRecord(1)).dec, n, b, p + 8);
      && (d.Some? <==> p + 8 + 4 * n <= |b|)
      && (d.Some? ==> d.value.1 == p + 8 + 4 * n && |d.value.0| == n
                      && forall c :: 0 <= c < n ==> ChannelAt(b, p + 8 + 4 * c, 1, d.value.0[c]))
  {
    hide U32, WordsAt, ChannelAt, WordsRecord, DecMany, Rec;
    SizeOfWords(1);
    Run(WordsRecord(1), 4, n, b, p + 8);
    var d := DecMany(Rec(WordsRecord(1)).dec, n, b, p + 8);
    if d.Some? {
      forall c | 0 <= c < n ensures ChannelAt(b, p + 8 + 4 * c, 1, d.value.0[c]) {
        assert WordsAt(WordsRecord(1), b, Place(p + 8, 4, c), d.value.0[c]);
        ChannelWords(b, p + 8 + 4 * c, 1, d.value.0[c]);
      }
    }
  }

  lemma SingleList(b: bytes, p: nat)
    requires p + 8 <= |b|
    ensures List(AnalogSingleShape()).dec(b, p) ==
      match DecMany(Rec(WordsRecord(1)).dec, U32(b, p + 4), b, p + 8)
      case None => None
      case Some((xs, q)) => Some((AnalogSingleWire(U32(b, p), xs), q))
  {
    hide U32, WordsRecord, DecMany;
    SingleHeader(b, p);
  }

  lemma SingleHeader(b: bytes, p: nat)
    ensures Rec(IdRecord()).dec(b, p) == if p + 8 > |b| then None else Some((Head(U32(b, p + 4), U32(b, p)), p + 8))
  {
  }

  lemma SingleReads(b: bytes, p: nat)
    ensures Reads(List(AnalogSingleShape()).dec, SingleEnd,
      (b: bytes, p: nat, w: AnalogSingleWire) => SingleAt(b, p, S.SingleDevice(w)), b, p)
  {
    if p + 8 <= |b| {
      hide U32, ChannelAt, DecMany, Rec, List;
      SingleList(b, p);
      SinglesRead(b, p, U32(b, p + 4));
    } else {
      SingleHeader(b, p);
    }
  }

  /** Type 13. */
  lemma SingleOffsets(b: bytes)
    requires b != []
    ensures DecodeBody(13, b).Some? <==> |b| >= 4 && At(SingleEnd, b, 4, U32(b, 0)).Some?
    ensures DecodeBody(13, b).Some? ==>
      var v := DecodeBody(13, b).value;
      v.Analogs? && |v.devices| == U32(b, 0) && InPlace(SingleEnd, SingleAt, b, 4, v.devices)
  {
    hide List, U32, SingleAt, SingleEnd;
    var holds := (b: bytes, p: nat, w: AnalogSingleWire) => SingleAt(b, p, S.SingleDevice(w));
    forall q: nat ensures Reads(List(AnalogSingleShape()).dec, SingleEnd, holds, b, q) {
      SingleReads(b, q);
    }
    CountedRead(List(AnalogSingleShape()), SingleEnd, holds, b);
    if DecodeBody(13, b).Some? {
      var ws, ds := FormatAnalogSingle().dec(b, 0).value.0, DecodeBody(13, b).value.devices;
      forall i | 0 <= i < |ds| ensures At(SingleEnd, b, 4, i).Some? && SingleAt(b, At(SingleEnd, b, 4, i).value, ds[i]) {
        assert holds(b, At(SingleEnd, b, 4, i).value, ws[i]);
      }
    }
  }

  // Types 4 and 15: force plates.

  predicate ForceAt(b: bytes, p: nat, s: ForceSample) {
    p + 36 <= |b| && s == ForceSample(PointOf(b, p), PointOf(b, p + 12), PointOf(b, p + 24))
  }

  lemma ForceWords(b: bytes, p: nat, s: ForceSample)
    requires WordsAt(ForceSampleRecord(), b, p, s)
    ensures ForceAt(b, p, s)
  {
  }

  lemma SizeOfForce()
    ensures ForceSampleRecord().n == 9
  {
  }

  function PlateEnd(b: bytes, p: nat): Option<nat> {
    if p + 12 > |b| || p + 12 + 36 * U32(b, p + 4) > |b| then None else Some(p + 12 + 36 * U32(b, p + 4))
  }

  /** ID, sample count, number, and the samples. */
  predicate PlateAt(b: bytes, p: nat, f: ForcePlate) {
    && p + 12 <= |b| && f.id == U32(b, p) && |f.samples| == U32(b, p + 4) && f.number == U32(b, p + 8)
    && forall j :: 0 <= j < |f.samples| ==> ForceAt(b, p + 12 + 36 * j, f.samples[j])
  }

  lemma PlateReads(b: bytes, p: nat)
    ensures Reads(List(PlateShape()).dec, PlateEnd, PlateAt, b, p)
  {
    hide U32, WordsAt, ForceAt, ForceSampleRecord, DecMany;
    if p + 12 <= |b| {
      var n := U32(b, p + 4);
      SizeOfForce();
      Run(ForceSampleRecord(), 36, n, b, p + 12);
      var d := DecMany(Rec(ForceSampleRecord()).dec, n, b, p + 12);
      if d.Some? {
        forall j | 0 <= j < n ensures ForceAt(b, p + 12 + 36 * j, d.value.0[j]) {
          ForceWords(b, p + 12 + 36 * j, d.value.0[j]);
        }
      }
    }
  }

  /** Type 4. */
  lemma PlateOffsets(b: bytes)
    requires b != []
    ensures DecodeBody(4, b).Some? <==> |b| >= 4 && At(PlateEnd, b, 4, U32(b, 0)).Some?
    ensures DecodeBody(4, b).Some? ==>
      var v := DecodeBody(4, b).value;
      v.Forces? && |v.plates| == U32(b, 0) && InPlace(PlateEnd, PlateAt, b, 4, v.plates)
  {
    hide List, U32, InPlace, PlateAt, PlateEnd;
    forall q: nat ensures Reads(List(PlateShape()).dec, PlateEnd, PlateAt, b, q) {
      PlateReads(b, q);
    }
    CountedRead(List(PlateShape()), PlateEnd, PlateAt, b);
  }

  /** ID and one sample; no number. */
  predicate SinglePlateAt(b: bytes, p: nat, f: ForcePlate) {
    && p + 40 <= |b| && f.id == U32(b, p) && f.number == 0 && |f.samples| == 1 && ForceAt(b, p + 4, f.samples[0])
  }

  lemma SinglePlateReads(b: bytes, p: nat)
    ensures Reads(Rec(SinglePlateRecord()).dec, Fixed(40), SinglePlateAt, b, p)
  {
  }

  /** Type 15: 40 bytes each. */
  lemma SinglePlateOffsets(b: bytes)
    requires b != []
    ensures DecodeBody(15, b).Some? <==> |b| >= 4 && 4 + 40 * U32(b, 0) <= |b|
    ensures DecodeBody(15, b).Some? ==>
      var v := DecodeBody(15, b).value;
      && v.Forces? && |v.plates| == U32(b, 0)
      && forall i :: 0 <= i < |v.plates| ==> SinglePlateAt(b, 4 + 40 * i, v.plates[i])
  {
    hide List, Rec, U32, SinglePlateAt;
    forall q: nat ensures Reads(Rec(SinglePlateRecord()).dec, Fixed(40), SinglePlateAt, b, q) {
      SinglePlateReads(b, q);
    }
    CountedRead(Rec(SinglePlateRecord()), Fixed(40), SinglePlateAt, b);
    if |b| >= 4 {
      InStrides(40, SinglePlateAt, b, 4, U32(b, 0));
    }
  }

  // Type 14: images.

  function ImageEnd(b: bytes, p: nat): Option<nat> {
    if p + 36 > |b| || p + 36 + U32(b, p + 32) > |b| then None else Some(p + 36 + U32(b, p + 32))
  }

  /** Nine words, the last of them the size, and the content. */
  predicate ImageAt(b: bytes, p: nat, v: ImageValue) {
    && p + 36 <= |b| && p + 36 + U32(b, p + 32) <= |b| && v.data == b[p + 36..p + 36 + U32(b, p + 32)]
    && v.head == ImageHead(U32(b, p), U32(b, p + 4), U32(b, p + 8), U32(b, p + 12),
                   Crop(U32(b, p + 16), U32(b, p + 20), U32(b, p + 24), U32(b, p + 28)))
  }

  lemma ImageReads(b: bytes, p: nat)
    ensures Reads(List(ImageShape()).dec, ImageEnd, ImageAt, b, p)
  {
    hide U32;
    if p + 36 <= |b| {
      ManyBytes(b, p + 36, U32(b, p + 32));
    }
  }

  lemma ImageOffsets(b: bytes)
    requires b != []
    ensures DecodeBody(14, b).Some? <==> |b| >= 4 && At(ImageEnd, b, 4, U32(b, 0)).Some?
    ensures DecodeBody(14, b).Some? ==>
      var v := DecodeBody(14, b).value;
      v.Images? && |v.images| == U32(b, 0) && InPlace(ImageEnd, ImageAt, b, 4, v.images)
  {
    hide List, U32, InPlace, ImageAt, ImageEnd;
    forall q: nat ensures Reads(List(ImageShape()).dec, ImageEnd, ImageAt, b, q) {
      ImageReads(b, q);
    }
    CountedRead(List(ImageShape()), ImageEnd, ImageAt, b);
  }

  // Types 16 and 19: sample counts, sample numbers when there are samples, and the samples of k bytes each.

  function SampledEnd(k: nat): Reader {
    (b: bytes, p: nat) =>
      if p + 4 > |b| then None
      else if U32(b, p) == 0 then Some(p + 4)
      else if p + 8 > |b| || p + 8 + k * U32(b, p) > |b| then None
      else Some(p + 8 + k * U32(b, p))
  }

  predicate GazeSampleAt(b: bytes, p: nat, s: GazeVectorSample) {
    p + 24 <= |b| && s == GazeVectorSample(PointOf(b, p), PointOf(b, p + 12))
  }

  predicate GazeAt(b: bytes, p: nat, g: GazeVector) {
    && p + 4 <= |b| && |g.samples| == U32(b, p)
    && (U32(b, p) == 0 ==> g.sampleNumber == 0)
    && (U32(b, p) != 0 ==> p + 8 <= |b| && g.sampleNumber == U32(b, p + 4))
    && forall j :: 0 <= j < |g.samples| ==> GazeSampleAt(b, p + 8 + 24 * j, g.samples[j])
  }

  lemma GazeWords(b: bytes, p: nat, s: GazeVectorSample)
    requires WordsAt(GazeSampleRecord(), b, p, s)
    ensures GazeSampleAt(b, p, s)
  {
  }

  lemma SizesOfSamples()
    ensures GazeSampleRecord().n == 6 && EyeSampleRecord().n == 2 && SegmentRecord().n == 8 && TimecodeRecord().n == 3
  {
  }

  lemma NoneRead<A>(dec: Dec<A>, b: bytes, p: nat)
    ensures DecMany(dec, 0, b, p) == Some(([], p))
  {
  }

  lemma GazeReads(b: bytes, p: nat)
    ensures Reads(List(GazeShape()).dec, SampledEnd(24), GazeAt, b, p)
  {
    hide U32, WordsAt, GazeSampleAt, GazeSampleRecord, DecMany, Rec;
    NoneRead(Rec(GazeSampleRecord()).dec, b, p + 4);
    if p + 8 <= |b| && U32(b, p) != 0 {
      var n := U32(b, p);
      SizesOfSamples();
      Run(GazeSampleRecord(), 24, n, b, p + 8);
      var d := DecMany(Rec(GazeSampleRecord()).dec, n, b, p + 8);
      if d.Some? {
        forall j | 0 <= j < n ensures GazeSampleAt(b, p + 8 + 24 * j, d.value.0[j]) {
          GazeWords(b, p + 8 + 24 * j, d.value.0[j]);
        }
      }
    }
  }

  /** Type 16. */
  lemma GazeOffsets(b: bytes)
    requires b != []
    ensures DecodeBody(16, b).Some? <==> |b| >= 4 && At(SampledEnd(24), b, 4, U32(b, 0)).Some?
    ensures DecodeBody(16, b).Some? ==>
      var v := DecodeBody(16, b).value;
      v.Gazes? && |v.gazes| == U32(b, 0) && InPlace(SampledEnd(24), GazeAt, b, 4, v.gazes)
  {
    hide List, U32, InPlace, GazeAt, SampledEnd;
    forall q: nat ensures Reads(List(GazeShape()).dec, SampledEnd(24), GazeAt, b, q) {
      GazeReads(b, q);
    }
    CountedRead(List(GazeShape()), SampledEnd(24), GazeAt, b);
  }

  predicate EyeAt(b: bytes, p: nat, e: EyeTracker) {
    && p + 4 <= |b| && |e.samples| == U32(b, p)
    && (U32(b, p) == 0 ==> e.sampleNumber == 0)
    && (U32(b, p) != 0 ==> p + 8 <= |b| && e.sampleNumber == U32(b, p + 4))
    && forall j :: 0 <= j < |e.samples| ==> EyeSampleAt(b, p + 8 + 8 * j, e.samples[j])
  }

  predicate EyeSampleAt(b: bytes, p: nat, s: EyeTrackerSample) {
    p + 8 <= |b| && s == EyeTrackerSample(U32(b, p), U32(b, p + 4))
  }

  lemma EyeWords(b: bytes, p: nat, s: EyeTrackerSample)
    requires WordsAt(EyeSampleRecord(), b, p, s)
    ensures EyeSampleAt(b, p, s)
  {
  }

  lemma EyeReads(b: bytes, p: nat)
    ensures Reads(List(EyeShape()).dec, SampledEnd(8), EyeAt, b, p)
  {
    hide U32, WordsAt, EyeSampleAt, EyeSampleRecord, DecMany, Rec;
    NoneRead(Rec(EyeSampleRecord()).dec, b, p + 4);
    if p + 8 <= |b| && U32(b, p) != 0 {
      var n := U32(b, p);
      SizesOfSamples();
      Run(EyeSampleRecord(), 8, n, b, p + 8);
      var d := DecMany(Rec(EyeSampleRecord()).dec, n, b, p + 8);
      if d.Some? {
        forall j | 0 <= j < n ensures EyeSampleAt(b, p + 8 + 8 * j, d.value.0[j]) {
          EyeWords(b, p + 8 + 8 * j, d.value.0[j]);
        }
      }
    }
  }

  /** Type 19. */
  lemma EyeOffsets(b: bytes)
    requires b != []
    ensures DecodeBody(19, b).Some? <==> |b| >= 4 && At(SampledEnd(8), b, 4, U32(b, 0)).Some?
    ensures DecodeBody(19, b).Some? ==>
      var v := DecodeBody(19, b).value;
      v.Eyes? && |v.eyes| == U32(b, 0) && InPlace(SampledEnd(8), EyeAt, b, 4, v.eyes)
  {
    hide List, U32, InPlace, EyeAt, SampledEnd;
    forall q: nat ensures Reads(List(EyeShape()).dec, SampledEnd(8), EyeAt, b, q) {
      EyeReads(b, q);
    }
    CountedRead(List(EyeShape()), SampledEnd(8), EyeAt, b);
  }

  // Type 18: skeletons.

  function SkeletonEnd(b: bytes, p: nat): Option<nat> {
    if p + 4 > |b| || p + 4 + 32 * U32(b, p) > |b| then None else Some(p + 4 + 32 * U32(b, p))
  }

  /** ID, position and rotation. */
  predicate SegmentAt(b: bytes, p: nat, s: Segment) {
    p + 32 <= |b| && s == Segment(U32(b, p), PointOf(b, p + 4),
                            Rotation(U32(b, p + 16), U32(b, p + 20), U32(b, p + 24), U32(b, p + 28)))
  }

  predicate SkeletonAt(b: bytes, p: nat, s: Skeleton) {
    && p + 4 <= |b| && |s.segments| == U32(b, p)
    && forall j :: 0 <= j < |s.segments| ==> SegmentAt(b, p + 4 + 32 * j, s.segments[j])
  }

  lemma SegmentWords(b: bytes, p: nat, s: Segment)
    requires WordsAt(SegmentRecord(), b, p, s)
    ensures SegmentAt(b, p, s)
  {
  }

  lemma SkeletonReads(b: bytes, p: nat)
    ensures Reads(List(SkeletonShape()).dec, SkeletonEnd, SkeletonAt, b, p)
  {
    hide U32, WordsAt, SegmentAt, SegmentRecord, DecMany;
    if p + 4 <= |b| {
      var n := U32(b, p);
      SizesOfSamples();
      Run(SegmentRecord(), 32, n, b, p + 4);
      var d := DecMany(Rec(SegmentRecord()).dec, n, b, p + 4);
      if d.Some? {
        forall j | 0 <= j < n ensures SegmentAt(b, p + 4 + 32 * j, d.value.0[j]) {
          SegmentWords(b, p + 4 + 32 * j, d.value.0[j]);
        }
      }
    }
  }

  lemma SkeletonOffsets(b: bytes)
    requires b != []
    ensures DecodeBody(18, b).Some? <==> |b| >= 4 && At(SkeletonEnd, b, 4, U32(b, 0)).Some?
    ensures DecodeBody(18, b).Some? ==>
      var v := DecodeBody(18, b).value;
      v.Skeletons? && |v.skeletons| == U32(b, 0) && InPlace(SkeletonEnd, SkeletonAt, b, 4, v.skeletons)
  {
    hide List, U32, InPlace, SkeletonAt, SkeletonEnd;
    forall q: nat ensures Reads(List(SkeletonShape()).dec, SkeletonEnd, SkeletonAt, b, q) {
      SkeletonReads(b, q);
    }
    CountedRead(List(SkeletonShape()), SkeletonEnd, SkeletonAt, b);
  }

  // Type 17: timecodes.

  /** Hour in bits 0 to 4, minute in 5 to 10, second in 11 to 16, frame in 17 to 21, subframe in 22 to 30. */
  predicate SmpteBits(low: u32, t: T.SmpteTime) {
    && t.hour < 32 && t.minute < 64 && t.second < 64 && t.frame < 32 && t.subFrame < 512
    && low % 0x8000_0000 == t.hour + 0x20 * t.minute + 0x800 * t.second + 0x2_0000 * t.frame + 0x40_0000 * t.subFrame
  }

  /** Year in bits 0 to 6 and day in 7 to 15 of the high word; hour, minute and second in the low word as above, the
      tenth in bits 17 to 20. */
  predicate IrigBits(high: u32, low: u32, t: T.IrigTime) {
    && t.year < 128 && t.day < 512 && high % 0x1_0000 == t.year + 0x80 * t.day
    && t.hour < 32 && t.minute < 64 && t.second < 64 && t.tenth < 16
    && low % 0x20_0000 == t.hour + 0x20 * t.minute + 0x800 * t.second + 0x2_0000 * t.tenth
  }

  /** Entry kind, high word, low word. Kind 0 is an SMPTE time, kind 1 an IRIG time, kind 2 one number of 64 bits; any
      other kind keeps its words. What a kind does not set is zero. */
  predicate TimecodeAt(b: bytes, p: nat, t: T.Timecode) {
    && p + 12 <= |b| && t.kind == U32(b, p)
    && (if t.kind == 0 then SmpteBits(U32(b, p + 8), t.smpte) else t.smpte == T.SmpteTime(0, 0, 0, 0, 0))
    && (if t.kind == 1 then IrigBits(U32(b, p + 4), U32(b, p + 8), t.irig) else t.irig == T.IrigTime(0, 0, 0, 0, 0, 0))
    && t.cameraTime == (if t.kind == 2 then 0x1_0000_0000 * U32(b, p + 4) + U32(b, p + 8) else 0)
    && t.high == (if t.kind > 2 then U32(b, p + 4) else 0) && t.low == (if t.kind > 2 then U32(b, p + 8) else 0)
  }

  lemma TimecodeReads(b: bytes, p: nat)
    ensures Reads(Rec(TimecodeRecord()).dec, Fixed(12), (b: bytes, p: nat, w: TimecodeWire) => TimecodeAt(b, p, T.Decode(w)), b, p)
  {
    hide TimecodeAt, T.Decode, U32;
    if p + 12 <= |b| {
      CodeBits(b, p);
      var w := TimecodeRecord().to(Words(b, p, 3));
      assert w == TimecodeWire(U32(b, p), U32(b, p + 4), U32(b, p + 8));
    }
  }

  lemma CodeBits(b: bytes, p: nat)
    requires p + 12 <= |b|
    ensures TimecodeAt(b, p, T.Decode(TimecodeWire(U32(b, p), U32(b, p + 4), U32(b, p + 8))))
  {
    hide T.Smpte, T.Irig, U32;
    T.SmpteUsed(U32(b, p + 8));
    T.IrigUsed(U32(b, p + 4), U32(b, p + 8));
  }

  lemma TimecodeOffsets(b: bytes)
    requires b != []
    ensures DecodeBody(17, b).Some? <==> |b| >= 4 && 4 + 12 * U32(b, 0) <= |b|
    ensures DecodeBody(17, b).Some? ==>
      var v := DecodeBody(17, b).value;
      v.Codes? && |v.timecodes| == U32(b, 0) && forall i :: 0 <= i < |v.timecodes| ==> TimecodeAt(b, 4 + 12 * i, v.timecodes[i])
  {
    hide List, Rec, U32, TimecodeAt, T.Decode, Format3D, Format6D, FormatEuler, Format2D, FormatAnalog, FormatAnalogSingle,
      FormatForce, FormatForceSingle, FormatImage, FormatGaze, FormatSkeleton, FormatEye;
    var holds := (b: bytes, p: nat, w: TimecodeWire) => TimecodeAt(b, p, T.Decode(w));
    forall q: nat ensures Reads(Rec(TimecodeRecord()).dec, Fixed(12), holds, b, q) {
      TimecodeReads(b, q);
    }
    CountedRead(Rec(TimecodeRecord()), Fixed(12), holds, b);
    if |b| >= 4 {
      InStrides(12, holds, b, 4, U32(b, 0));
    }
    if DecodeBody(17, b).Some? {
      var ws, ts := FormatTimecode().dec(b, 0).value.0, DecodeBody(17, b).value.timecodes;
      forall i | 0 <= i < |ts| ensures TimecodeAt(b, 4 + 12 * i, ts[i]) {
        assert holds(b, 4 + 12 * i, ws[i]);
      }
    }
  }

  // The other payloads.

  /** An empty payload of a known type decodes to a component with nothing in it. */
  lemma EmptyPayload(kind: u32)
    ensures kind == 1 || kind == 2 || kind == 9 || kind == 10 ==> DecodeBody(kind, []) == Some(Markers(Rated(Rates(0, 0), [])))
    ensures kind == 5 || kind == 11 ==> DecodeBody(kind, []) == Some(Matrices(Rated(Rates(0, 0), [])))
    ensures kind == 6 || kind == 12 ==> DecodeBody(kind, []) == Some(Eulers(Rated(Rates(0, 0), [])))
    ensures kind == 7 || kind == 8 ==> DecodeBody(kind, []) == Some(Cameras(Rated(Rates(0, 0), [])))
  {
    hide List, Rec, Mapped, WithID, WithResidual;
  }

  lemma EmptyCount(kind: u32)
    ensures kind == 3 || kind == 13 ==> DecodeBody(kind, []) == Some(Analogs([]))
    ensures kind == 4 || kind == 15 ==> DecodeBody(kind, []) == Some(Forces([]))
    ensures kind == 14 ==> DecodeBody(kind, []) == Some(Images([]))
    ensures kind == 16 ==> DecodeBody(kind, []) == Some(Gazes([]))
    ensures kind == 17 ==> DecodeBody(kind, []) == Some(Codes([]))
    ensures kind == 18 ==> DecodeBody(kind, []) == Some(Skeletons([]))
    ensures kind == 19 ==> DecodeBody(kind, []) == Some(Eyes([]))
  {
    hide List, Rec, Mapped, WithID, WithResidual, Format3D, Format6D, FormatEuler, Format2D, FormatAnalog,
      FormatAnalogSingle, FormatForce, FormatForceSingle, FormatImage, FormatGaze, FormatTimecode, FormatSkeleton, FormatEye;
  }

  /** Types that are not between 1 and 19 keep their bytes. */
  lemma UnknownPayload(kind: u32, b: bytes)
    requires kind == 0 || kind > 19
    ensures DecodeBody(kind, b) == Some(Raw(b))
  {
    hide Payload;
  }

  // Data frames.

  /** A component: a size of at least eight that counts the header, a type, and bytes that decode as that type. */
  function PartEnd(o: Order): Reader {
    (b: bytes, p: nat) =>
      if p + 8 > |b| || Get32(o, b, p) < 8 || p + Get32(o, b, p) > |b| then None
      else if DecodeBody(Get32(o, b, p + 4), b[p + 8..p + Get32(o, b, p)]).None? then None
      else Some(p + Get32(o, b, p))
  }

  predicate PartAt(o: Order, b: bytes, p: nat, x: Part) {
    && p + 8 <= |b| && 8 <= Get32(o, b, p) && p + Get32(o, b, p) <= |b| && x.kind == Get32(o, b, p + 4)
    && DecodeBody(x.kind, b[p + 8..p + Get32(o, b, p)]) == Some(x.body)
  }

  lemma PartReads(o: Order, b: bytes, p: nat)
    ensures Reads(PartDec(o, DecodePart), PartEnd(o), (b: bytes, p: nat, x: Part) => PartAt(o, b, p, x), b, p)
  {
    hide Get32, DecodeBody;
  }

  /** A frame is a timestamp of eight bytes, a number, a component count and the components one after the other from
      byte 16 on; it is accepted exactly when all of them are. */
  lemma FrameOffsets(o: Order, b: bytes)
    ensures DecodeFrame(o, b).Some? <==> |b| >= 16 && At(PartEnd(o), b, 16, Get32(o, b, 12)).Some?
    ensures DecodeFrame(o, b).Some? ==>
      var f := DecodeFrame(o, b).value;
      && f.timestamp == Get64(o, b, 0) && f.frame == Get32(o, b, 8) && |f.parts| == Get32(o, b, 12)
      && InPlace(PartEnd(o), (b: bytes, p: nat, x: Part) => PartAt(o, b, p, x), b, 16, f.parts)
  {
    hide Get32, Get64, DecodeBody, PartDec, PartEnd, InPlace, At;
    if |b| >= 16 {
      var holds := (b: bytes, p: nat, x: Part) => PartAt(o, b, p, x);
      forall q: nat ensures Reads(PartDec(o, DecodePart), PartEnd(o), holds, b, q) {
        PartReads(o, b, q);
      }
      ManyRead(PartDec(o, DecodePart), PartEnd(o), holds, Get32(o, b, 12), b, 16);
    }
  }
}
