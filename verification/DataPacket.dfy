/** Decoded data frames as objects: component objects, the walk that fills them, and the lookups. */
module DataPackets {
  import opened Wire
  import opened Codec
  import opened Components
  import opened Frames
  import Cursors
  import M = Markers
  import B = Bodies
  import S = Samples
  import N = Sensors

  /** A component this client cannot decode: its type and a copy of its bytes. */
  class UnknownComponent {
    const ctype: u32
    var data: array<u8>

    constructor (ctype: u32)
      ensures this.ctype == ctype && fresh(data) && data.Length == 0
    {
      this.ctype := ctype;
      data := new u8[0];
    }

    method Unmarshal(source: array<u8>, lo: nat, hi: nat)
      requires lo <= hi <= source.Length
      modifies this
      ensures fresh(data) && data[..] == source[lo..hi]
    {
      data := CopyOf(source, lo, hi);
    }
  }

  /** A new array holding source[lo..hi]. */
  method CopyOf(source: array<u8>, lo: nat, hi: nat) returns (copy: array<u8>)
    requires lo <= hi <= source.Length
    ensures fresh(copy) && copy[..] == source[lo..hi]
  {
    copy := new u8[hi - lo];
    var i := 0;
    while i < hi - lo
      invariant 0 <= i <= hi - lo
      invariant forall k :: 0 <= k < i ==> copy[k] == source[lo + k]
      modifies copy
    {
      copy[i] := source[lo + i];
      i := i + 1;
    }
  }

  /** A component object. Types that share one layout differ by their kind. */
  datatype DataObject =
    | Obj3D(kind3: u32, c3: M.Component3D)
    | Obj2D(kind2: u32, c2: M.Component2D)
    | Obj6D(kind6: u32, c6: B.Component6D)
    | ObjEuler(kindE: u32, cE: B.Component6DEuler)
    | ObjAnalog(kindA: u32, cA: S.ComponentAnalog)
    | ObjForce(kindF: u32, cF: S.ComponentForce)
    | ObjImage(cI: N.ComponentImage)
    | ObjGaze(cG: N.ComponentGazeVector)
    | ObjEye(cY: N.ComponentEyeTracker)
    | ObjTimecode(cT: N.ComponentTimecode)
    | ObjSkeleton(cS: N.ComponentSkeleton)
    | ObjUnknown(u: UnknownComponent)
  {
    /** The component type an object came from. */
    function TypeOf(): u32 {
      match this
      case Obj3D(k, _) => k
      case Obj2D(k, _) => k
      case Obj6D(k, _) => k
      case ObjEuler(k, _) => k
      case ObjAnalog(k, _) => k
      case ObjForce(k, _) => k
      case ObjImage(_) => TYPE_IMAGE
      case ObjGaze(_) => TYPE_GAZE_VECTOR
      case ObjEye(_) => TYPE_EYE_TRACKER
      case ObjTimecode(_) => TYPE_TIMECODE
      case ObjSkeleton(_) => TYPE_SKELETON
      case ObjUnknown(u) => u.ctype
    }

    predicate Typed() {
      match this
      case Obj3D(k, _) => Is3D(k)
      case Obj2D(k, _) => Is2D(k)
      case Obj6D(k, _) => Is6D(k)
      case ObjEuler(k, _) => IsEuler(k)
      case ObjAnalog(k, _) => k == TYPE_ANALOG || k == TYPE_ANALOG_SINGLE
      case ObjForce(k, _) => k == TYPE_FORCE || k == TYPE_FORCE_SINGLE
      case ObjUnknown(u) => !Known(u.ctype)
      case _ => true
    }

    ghost function Ref(): object {
      match this
      case Obj3D(_, c) => c
      case Obj2D(_, c) => c
      case Obj6D(_, c) => c
      case ObjEuler(_, c) => c
      case ObjAnalog(_, c) => c
      case ObjForce(_, c) => c
      case ObjImage(c) => c
      case ObjGaze(c) => c
      case ObjEye(c) => c
      case ObjTimecode(c) => c
      case ObjSkeleton(c) => c
      case ObjUnknown(u) => u
    }

    /** The object and every array of bytes it holds. */
    ghost function Footprint(): set<object>
      reads Ref()
    {
      {Ref()} + (if ObjImage? then cI.Blobs() else if ObjUnknown? then {u.data} else {})
    }

    ghost function Value(): Body
      reads Footprint()
    {
      match this
      case Obj3D(_, c) => Components.Markers(c.Value())
      case Obj2D(_, c) => Cameras(c.Value())
      case Obj6D(_, c) => Matrices(c.Value())
      case ObjEuler(_, c) => Eulers(c.Value())
      case ObjAnalog(_, c) => Analogs(c.Value())
      case ObjForce(_, c) => Forces(c.Value())
      case ObjImage(c) => Images(c.Value())
      case ObjGaze(c) => Gazes(c.Value())
      case ObjEye(c) => Eyes(c.Value())
      case ObjTimecode(c) => Codes(c.Value())
      case ObjSkeleton(c) => Skeletons(c.Value())
      case ObjUnknown(u) => Raw(u.data[..])
    }
  }

  /** A new, zero object for a component type, or None for a type the client does not know. */
  method GetComponentObject(c: u32) returns (o: Option<DataObject>)
    ensures o.Some? <==> Known(c)
    ensures o.Some? ==> o.value.Typed() && !o.value.ObjUnknown? && o.value.TypeOf() == c
    ensures o.Some? ==> fresh(o.value.Footprint()) && o.value.Value() == Zero(c)
  {
    if Is3D(c) {
      var x := new M.Component3D();
      return Some(Obj3D(c, x));
    }
    if Is2D(c) {
      var x := new M.Component2D();
      return Some(Obj2D(c, x));
    }
    if Is6D(c) {
      var x := new B.Component6D();
      return Some(Obj6D(c, x));
    }
    if IsEuler(c) {
      var x := new B.Component6DEuler();
      return Some(ObjEuler(c, x));
    }
    o := GetDeviceObject(c);
  }

  method GetDeviceObject(c: u32) returns (o: Option<DataObject>)
    requires !Is3D(c) && !Is2D(c) && !Is6D(c) && !IsEuler(c)
    ensures o.Some? <==> Known(c)
    ensures o.Some? ==> o.value.Typed() && !o.value.ObjUnknown? && o.value.TypeOf() == c
    ensures o.Some? ==> fresh(o.value.Footprint()) && o.value.Value() == Zero(c)
  {
    if c == TYPE_ANALOG || c == TYPE_ANALOG_SINGLE {
      var x := new S.ComponentAnalog();
      return Some(ObjAnalog(c, x));
    }
    if c == TYPE_FORCE || c == TYPE_FORCE_SINGLE {
      var x := new S.ComponentForce();
      return Some(ObjForce(c, x));
    }
    if c == TYPE_IMAGE {
      var x := new N.ComponentImage();
      return Some(ObjImage(x));
    }
    if c == TYPE_GAZE_VECTOR {
      var x := new N.ComponentGazeVector();
      return Some(ObjGaze(x));
    }
    if c == TYPE_TIMECODE {
      var x := new N.ComponentTimecode();
      return Some(ObjTimecode(x));
    }
    if c == TYPE_SKELETON {
      var x := new N.ComponentSkeleton();
      return Some(ObjSkeleton(x));
    }
    if c == TYPE_EYE_TRACKER {
      var x := new N.ComponentEyeTracker();
      return Some(ObjEye(x));
    }
    return None;
  }

  /** Decodes source[lo..hi] into a zero object. */
  method UnmarshalObject(o: DataObject, source: array<u8>, lo: nat, hi: nat) returns (ok: bool)
    requires lo <= hi <= source.Length && o.Typed() && o.Value() == Zero(o.TypeOf())
    modifies o.Ref()
    ensures fresh(o.Footprint() - old(o.Footprint()))
    ensures DecodeBody(o.TypeOf(), source[lo..hi]) == if ok then Some(o.Value()) else None
  {
    hide List, Rec, Payload, Mapped, Map;
    if o.Obj3D? || o.Obj2D? || o.Obj6D? || o.ObjEuler? {
      ok := UnmarshalRated(o, source, lo, hi);
    } else if o.ObjAnalog? || o.ObjForce? {
      ok := UnmarshalSampled(o, source, lo, hi);
    } else if o.ObjImage? {
      var err := o.cI.Unmarshal(source, lo, hi);
      ok := err.Nil?;
    } else if o.ObjUnknown? {
      o.u.Unmarshal(source, lo, hi);
      ok := true;
    } else if o.ObjGaze? || o.ObjEye? {
      ok := UnmarshalGaze(o, source, lo, hi);
    } else {
      ok := UnmarshalSensor(o, source, lo, hi);
    }
  }

  method UnmarshalRated(o: DataObject, source: array<u8>, lo: nat, hi: nat) returns (ok: bool)
    requires lo <= hi <= source.Length && o.Typed() && o.Value() == Zero(o.TypeOf())
    requires o.Obj3D? || o.Obj2D? || o.Obj6D? || o.ObjEuler?
    modifies o.Ref()
    ensures o.Footprint() == old(o.Footprint())
    ensures DecodeBody(o.TypeOf(), source[lo..hi]) == if ok then Some(o.Value()) else None
  {
    hide List, Rec, Payload, Mapped, Map;
    var err: Cursors.Err;
    match o {
      case Obj3D(k, c) => err := c.Unmarshal(source, lo, hi, WithID(k), WithResidual(k));
      case Obj2D(_, c) => err := c.Unmarshal(source, lo, hi);
      case Obj6D(k, c) => err := c.Unmarshal(source, lo, hi, WithResidual(k));
      case ObjEuler(k, c) => err := c.Unmarshal(source, lo, hi, WithResidual(k));
    }
    ok := err.Nil?;
  }

  method UnmarshalSampled(o: DataObject, source: array<u8>, lo: nat, hi: nat) returns (ok: bool)
    requires lo <= hi <= source.Length && o.Typed() && o.Value() == Zero(o.TypeOf())
    requires o.ObjAnalog? || o.ObjForce?
    modifies o.Ref()
    ensures o.Footprint() == old(o.Footprint())
    ensures DecodeBody(o.TypeOf(), source[lo..hi]) == if ok then Some(o.Value()) else None
  {
    hide List, Rec, Payload, Mapped, Map;
    var err: Cursors.Err;
    match o {
      case ObjAnalog(k, c) =>
        if k == TYPE_ANALOG {
          err := c.Unmarshal(source, lo, hi);
        } else {
          err := c.UnmarshalSingle(source, lo, hi);
        }
      case ObjForce(k, c) =>
        if k == TYPE_FORCE {
          err := c.Unmarshal(source, lo, hi);
        } else {
          err := c.UnmarshalSingle(source, lo, hi);
        }
    }
    ok := err.Nil?;
  }

  method UnmarshalGaze(o: DataObject, source: array<u8>, lo: nat, hi: nat) returns (ok: bool)
    requires lo <= hi <= source.Length && o.Typed() && o.Value() == Zero(o.TypeOf())
    requires o.ObjGaze? || o.ObjEye?
    modifies o.Ref()
    ensures o.Footprint() == old(o.Footprint())
    ensures DecodeBody(o.TypeOf(), source[lo..hi]) == if ok then Some(o.Value()) else None
  {
    hide List, Rec, Payload, Mapped, Map, Format3D, Format6D, FormatEuler, Format2D, FormatAnalog, FormatAnalogSingle,
      FormatForce, FormatForceSingle, FormatImage, FormatTimecode, FormatSkeleton;
    var err: Cursors.Err;
    match o {
      case ObjGaze(c) => err := c.Unmarshal(source, lo, hi);
      case ObjEye(c) => err := c.Unmarshal(source, lo, hi);
    }
    ok := err.Nil?;
  }

  method UnmarshalSensor(o: DataObject, source: array<u8>, lo: nat, hi: nat) returns (ok: bool)
    requires lo <= hi <= source.Length && o.Typed() && o.Value() == Zero(o.TypeOf())
    requires o.ObjTimecode? || o.ObjSkeleton?
    modifies o.Ref()
    ensures o.Footprint() == old(o.Footprint())
    ensures DecodeBody(o.TypeOf(), source[lo..hi]) == if ok then Some(o.Value()) else None
  {
    hide List, Rec, Payload, Mapped, Map, Format3D, Format6D, FormatEuler, Format2D, FormatAnalog, FormatAnalogSingle,
      FormatForce, FormatForceSingle, FormatImage, FormatGaze, FormatEye;
    var err: Cursors.Err;
    match o {
      case ObjTimecode(c) => err := c.Unmarshal(source, lo, hi);
      case ObjSkeleton(c) => err := c.Unmarshal(source, lo, hi);
    }
    ok := err.Nil?;
  }

  class DataPacket {
    var timestamp: u64
    var frame: u32
    var components: seq<DataObject>
    var order: Option<Order>
    /** Every object the components consist of. */
    ghost var Repr: set<object>

    ghost predicate Valid()
      reads this, Repr
    {
      this !in Repr && forall i :: 0 <= i < |components| ==>
        components[i].Ref() in Repr && Owns(Repr, components[i])
    }

    static ghost predicate Owns(repr: set<object>, o: DataObject)
      reads o.Ref()
    {
      o.Typed() && o.Footprint() <= repr
    }

    ghost function Parts(): seq<Part>
      reads this, Repr
      requires Valid()
    {
      seq(|components|, i requires 0 <= i < |components| reads this, Repr requires Valid() => PartOf(components[i]))
    }

    ghost function Value(): FrameValue
      reads this, Repr
      requires Valid()
    {
      FrameValue(timestamp, frame, Parts())
    }

    constructor ()
      ensures Valid() && Repr == {} && order == None && Value() == FrameValue(0, 0, [])
    {
      timestamp, frame, components, order := 0, 0, [], None;
      Repr := {};
    }

    /** Appends the component at pos, if it decodes. */
    method Step(source: array<u8>, lo: nat, hi: nat, pos: nat) returns (next: Option<nat>, ghost part: Part)
      requires lo <= hi <= source.Length && pos <= hi - lo && Valid()
      modifies this
      ensures order == old(order) && timestamp == old(timestamp) && frame == old(frame)
      ensures Valid() && fresh(Repr - old(Repr))
      ensures next.Some? ==> pos < next.value <= hi - lo && Parts() == old(Parts()) + [part]
      ensures Took(PartDec(Effective(order), DecodePart), source[lo..hi], Some(pos), part, next)
    {
      var obj;
      next, obj := ReadComponent(Effective(order), source, lo, hi, pos);
      part := PartOf(obj);
      if next.Some? {
        components := components + [obj];
        Repr := Repr + obj.Footprint();
      }
    }

    /** The loop over the components. */
    method Walk(componentCount: u32, source: array<u8>, lo: nat, hi: nat) returns (ok: bool)
      requires lo + DATA_HEADER_SIZE <= hi <= source.Length
      modifies this
      ensures order == old(order) && timestamp == old(timestamp) && frame == old(frame)
      ensures ok ==> Valid() && fresh(Repr)
      ensures var walked := DecMany(PartDec(Effective(order), DecodePart), componentCount, source[lo..hi], DATA_HEADER_SIZE);
        if ok then walked.Some? && walked.value.0 == Parts() else walked == None
    {
      ghost var b, dec := source[lo..hi], PartDec(Effective(order), DecodePart);
      components := [];
      Repr := {};
      var pos := DATA_HEADER_SIZE;
      assert Parts() == [];
      ProgressStart(dec, componentCount, b, Some(pos));
      var i := 0;
      while i < componentCount
        invariant Valid() && fresh(Repr)
        invariant 0 <= i <= componentCount && |Parts()| == i
        invariant DATA_HEADER_SIZE <= pos <= hi - lo
        invariant order == old(order) && timestamp == old(timestamp) && frame == old(frame)
        invariant Progress(dec, componentCount, b, Some(DATA_HEADER_SIZE), Parts(), Some(pos))
      {
        ghost var done := Parts();
        var next;
        ghost var part;
        next, part := Step(source, lo, hi, pos);
        ProgressStep(dec, componentCount, b, Some(DATA_HEADER_SIZE), done, Some(pos), part, next);
        if next == None {
          return false;
        }
        pos := next.value;
        i := i + 1;
      }
      ProgressEnd(dec, componentCount, b, Some(DATA_HEADER_SIZE), Parts(), Some(pos));
      return true;
    }

    /** Decodes source[lo..hi]; on success the packet owns nothing but new objects. */
    method UnmarshalBinary(source: array<u8>, lo: nat, hi: nat) returns (ok: bool)
      requires lo <= hi <= source.Length
      modifies this
      ensures order == old(order)
      ensures ok ==> Valid() && fresh(Repr)
      ensures DecodeFrame(Effective(order), source[lo..hi]) == if ok then Some(Value()) else None
    {
      var o := Effective(order);
      if hi - lo < DATA_HEADER_SIZE {
        return false;
      }
      timestamp := ReadOrder64(o, source, lo, hi, 0);
      frame := ReadOrder32(o, source, lo, hi, 8);
      var componentCount := ReadOrder32(o, source, lo, hi, 12);
      ok := Walk(componentCount, source, lo, hi);
    }

    /** The first component of type c is the one at i. */
    ghost predicate FirstAt(c: u32, i: nat)
      reads this, Repr
      requires Valid()
    {
      i < |components| && Parts()[i].kind == c && forall j :: 0 <= j < i ==> Parts()[j].kind != c
    }

    /** The first component of type c that this client decodes itself, or None. */
    method Component(c: u32) returns (r: Option<DataObject>)
      requires Valid()
      ensures r == None ==> !Known(c) || forall i :: 0 <= i < |components| ==> Parts()[i].kind != c
      ensures r.Some? ==> Known(c) && r.value.TypeOf() == c && r.value in components
      ensures r.Some? ==> exists i :: 0 <= i < |components| && FirstAt(c, i) && r.value == components[i]
    {
      var i := 0;
      while i < |components|
        invariant 0 <= i <= |components|
        invariant Known(c) ==> forall j :: 0 <= j < i ==> Parts()[j].kind != c
      {
        var obj := components[i];
        if !obj.ObjUnknown? && obj.TypeOf() == c {
          return Some(obj);
        }
        i := i + 1;
      }
      return None;
    }

    /** The raw bytes of the first component of type c that this client cannot decode, or None. */
    method UnknownComponentData(c: u32) returns (r: Option<array<u8>>)
      requires Valid()
      ensures r == None ==> Known(c) || forall i :: 0 <= i < |components| ==> Parts()[i].kind != c
      ensures r.Some? ==> !Known(c)
      ensures r.Some? ==> exists i :: 0 <= i < |components| && FirstAt(c, i) && Parts()[i].body == Raw(r.value[..])
    {
      var i := 0;
      while i < |components|
        invariant 0 <= i <= |components|
        invariant !Known(c) ==> forall j :: 0 <= j < i ==> Parts()[j].kind != c
      {
        var obj := components[i];
        if obj.ObjUnknown? && obj.u.ctype == c {
          assert Parts()[i] == Part(c, Raw(obj.u.data[..]));
          return Some(obj.u.data);
        }
        i := i + 1;
      }
      return None;
    }

    /** The types of the components this client cannot decode, in order. */
    method UnknownComponentTypes() returns (out: seq<u32>)
      requires Valid()
      ensures out == UnknownKinds(Parts()) && exists at: seq<nat> :: PicksUnknown(Parts(), at, out)
    {
      out := [];
      ghost var parts := Parts();
      var i := 0;
      assert parts[..0] == [];
      while i < |components|
        invariant 0 <= i <= |components| && parts == Parts()
        invariant out == UnknownKinds(parts[..i])
      {
        assert parts[..i + 1][..i] == parts[..i];
        if components[i].ObjUnknown? {
          out := out + [components[i].u.ctype];
        }
        i := i + 1;
      }
      assert parts[..i] == parts;
      ghost var at := UnknownKindsExact(parts);
    }
  }

  function UnknownKinds(parts: seq<Part>): seq<u32> {
    if parts == [] then []
    else
      var last := parts[|parts| - 1].kind;
      UnknownKinds(parts[..|parts| - 1]) + (if Known(last) then [] else [last])
  }

  /** The indices `at` pick out, in order, exactly the components whose type is not between 1 and 19. */
  ghost predicate PicksUnknown(parts: seq<Part>, at: seq<nat>, out: seq<u32>) {
    && |at| == |out| && (forall j :: 0 <= j < |at| ==> at[j] < |parts| && out[j] == parts[at[j]].kind)
    && (forall j, k :: 0 <= j < k < |at| ==> at[j] < at[k])
    && (forall i: nat :: i < |parts| ==> (i in at <==> !(1 <= parts[i].kind <= 19)))
  }

  /** The unknown types are those of the components of unknown type, in frame order and each as often as it occurs. */
  lemma {:induction false} UnknownKindsExact(parts: seq<Part>) returns (at: seq<nat>)
    ensures PicksUnknown(parts, at, UnknownKinds(parts))
    decreases |parts|
  {
    at := [];
    if parts != [] {
      var n := |parts| - 1;
      var before := UnknownKindsExact(parts[..n]);
      at := before + (if Known(parts[n].kind) then [] else [n]);
      forall i: nat | i < |parts| ensures i in at <==> !(1 <= parts[i].kind <= 19) {
        if i < n {
          assert i in before <==> !(1 <= parts[..n][i].kind <= 19);
        }
      }
    }
  }

  /** Packets without a byte order are little-endian. */
  function Effective(order: Option<Order>): Order { if order == None then Little else order.value }

  method ReadOrder32(o: Order, source: array<u8>, lo: nat, hi: nat, at: nat) returns (v: u32)
    requires lo <= hi <= source.Length && at + 4 <= hi - lo
    ensures v == Get32(o, source[lo..hi], at)
  {
    var i := lo + at;
    if o == Little {
      v := Join(source[i], Join(source[i + 1], Join(source[i + 2], source[i + 3])));
    } else {
      v := Join(source[i + 3], Join(source[i + 2], Join(source[i + 1], source[i])));
    }
  }

  method ReadOrder64(o: Order, source: array<u8>, lo: nat, hi: nat, at: nat) returns (v: u64)
    requires lo <= hi <= source.Length && at + 8 <= hi - lo
    ensures v == Get64(o, source[lo..hi], at)
  {
    var first: int := ReadOrder32(o, source, lo, hi, at);
    var second: int := ReadOrder32(o, source, lo, hi, at + 4);
    v := if o == Little then first + 0x1_0000_0000 * second else second + 0x1_0000_0000 * first;
  }

  ghost function PartOf(o: DataObject): Part
    reads o.Footprint()
  {
    Part(o.TypeOf(), o.Value())
  }

  /** One step of the walk: the component at pos, decoded into a new object from its own bytes alone. */
  method ReadComponent(o: Order, source: array<u8>, lo: nat, hi: nat, pos: nat)
    returns (next: Option<nat>, obj: DataObject)
    requires lo <= hi <= source.Length && pos <= hi - lo
    ensures next.Some? ==> pos < next.value <= hi - lo
    ensures obj.Typed() && fresh(obj.Footprint())
    ensures Took(PartDec(o, DecodePart), source[lo..hi], Some(pos), PartOf(obj), next)
  {
    hide Took, PartDec, DecodePart;
    ghost var b := source[lo..hi];
    if pos + COMPONENT_HEADER_SIZE > hi - lo {
      obj := NewObject(0);
      StepTook(o, DecodePart, b, pos, None, PartOf(obj));
      return None, obj;
    }
    var csize := ReadOrder32(o, source, lo, hi, pos);
    var ctype := ReadOrder32(o, source, lo, hi, pos + 4);
    if csize < COMPONENT_HEADER_SIZE || pos + csize > hi - lo {
      obj := NewObject(ctype);
      StepTook(o, DecodePart, b, pos, None, PartOf(obj));
      return None, obj;
    }
    assert b[pos + 8..pos + csize] == source[lo + pos + 8..lo + pos + csize] by {
      hide *;
    }
    var ok;
    ok, obj := DecodeObject(ctype, source, lo + pos + COMPONENT_HEADER_SIZE, lo + pos + csize);
    next := if ok then Some(pos + csize) else None;
    StepTook(o, DecodePart, b, pos, next, PartOf(obj));
  }

  /** A new object for a type, decoded from source[lo..hi]. */
  method DecodeObject(ctype: u32, source: array<u8>, lo: nat, hi: nat) returns (ok: bool, obj: DataObject)
    requires lo <= hi <= source.Length
    ensures obj.Typed() && fresh(obj.Footprint())
    ensures DecodePart(RawPart(ctype, source[lo..hi])) == if ok then Some(PartOf(obj)) else None
  {
    obj := NewObject(ctype);
    ok := UnmarshalObject(obj, source, lo, hi);
    PartDecoded(ctype, source[lo..hi], ok, PartOf(obj));
  }

  /** When a step of the walk succeeds, and what it answers. */
  lemma StepTook(o: Order, decode: Decoder, b: bytes, p: nat, next: Option<nat>, x: Part)
    requires p <= |b|
    requires !(p + 8 <= |b| && 8 <= Get32(o, b, p) && p + Get32(o, b, p) <= |b|) ==> next == None
    requires p + 8 <= |b| && 8 <= Get32(o, b, p) && p + Get32(o, b, p) <= |b| ==>
      (next.Some? ==> next.value == p + Get32(o, b, p)) &&
      decode(RawPart(Get32(o, b, p + 4), b[p + 8..p + Get32(o, b, p)])) == if next.Some? then Some(x) else None
    ensures Took(PartDec(o, decode), b, Some(p), x, next)
  {
  }

  lemma PartDecoded(kind: u32, payload: bytes, ok: bool, x: Part)
    requires x.kind == kind && DecodeBody(kind, payload) == if ok then Some(x.body) else None
    ensures DecodePart(RawPart(kind, payload)) == if ok then Some(x) else None
  {
  }

  /** The object for a type: an unknown component when the client does not know it. */
  method NewObject(ctype: u32) returns (o: DataObject)
    ensures o.Typed() && o.TypeOf() == ctype && fresh(o.Footprint()) && o.Value() == Zero(ctype)
  {
    var known := GetComponentObject(ctype);
    if known.Some? {
      return known.value;
    }
    var u := new UnknownComponent(ctype);
    o := ObjUnknown(u);
    assert o.Value() == Raw([]);
  }
}
