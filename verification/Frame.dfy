/** The data frame: a header and a walk over sized, typed components. */
module Frames {
  import opened Wire
  import opened Codec
  import opened Components

  const DATA_HEADER_SIZE := 16
  const COMPONENT_HEADER_SIZE := 8

  datatype Part = Part(kind: u32, body: Body)
  datatype FrameValue = FrameValue(timestamp: u64, frame: u32, parts: seq<Part>)

  /** A component as the walk cuts it out: its type and exactly its own bytes. */
  datatype RawPart = RawPart(kind: u32, payload: bytes)

  // Cutting.

  function PartHeader(o: Order): Format<Head<u32>> {
    Format((t: Head<u32>) => t.count + COMPONENT_HEADER_SIZE < 0x1_0000_0000,
      (t: Head<u32>) => PutOrder32(o, Size32(t.count + COMPONENT_HEADER_SIZE)) + PutOrder32(o, t.rest),
      (b: bytes, p: nat) => PartHeaderDec(o, b, p))
  }

  function Size32(n: nat): u32 { if n < 0x1_0000_0000 then n else 0 }

  /** A size, which counts the header itself, and a type. A size below that of the header is invalid. */
  function PartHeaderDec(o: Order, b: bytes, p: nat): Option<(Head<u32>, nat)> {
    if p + COMPONENT_HEADER_SIZE > |b| || Get32(o, b, p) < COMPONENT_HEADER_SIZE then None
    else Some((Head(Get32(o, b, p) - COMPONENT_HEADER_SIZE, Get32(o, b, p + 4)), p + COMPONENT_HEADER_SIZE))
  }

  lemma PartHeaderLaw(o: Order)
    ensures Lawful(PartHeader(o))
  {
    hide Get32, PutOrder32;
    forall b: bytes, p: nat, t: Head<u32>, q: nat ensures LawAt(PartHeader(o), b, p, t, q) {
      if p + 8 <= |b| {
        var size := Size32(t.count + COMPONENT_HEADER_SIZE);
        Word(o, b, p, size);
        Word(o, b, p + 4, t.rest);
        SplitEqual(b[p..p + 8], PutOrder32(o, size) + PutOrder32(o, t.rest), 4);
        assert b[p..p + 8][..4] == b[p..p + 4] && b[p..p + 8][4..] == b[p + 4..p + 8];
      }
    }
  }

  function RawPartShape(o: Order): Shape<u32, u8, RawPart> {
    Shape(PartHeader(o), (h: u32) => Byte(), (h: u32, xs: bytes) => RawPart(h, xs), (r: RawPart) => r.kind,
      (r: RawPart) => r.payload)
  }

  lemma RawPartLaw(o: Order)
    ensures Lawful(List(RawPartShape(o)))
  {
    PartHeaderLaw(o);
    ByteLaw();
    ListLaw(RawPartShape(o));
  }

  lemma RawPartDec(o: Order, b: bytes, p: nat)
    ensures List(RawPartShape(o)).dec(b, p) ==
      match PartHeaderDec(o, b, p)
      case None => None
      case Some((Head(n, kind), m)) => if m + n <= |b| then Some((RawPart(kind, b[m..m + n]), m + n)) else None
  {
    if PartHeaderDec(o, b, p).Some? {
      var (h, m) := PartHeaderDec(o, b, p).value;
      ManyBytes(b, m, h.count);
    }
  }

  datatype FrameHead = FrameHead(timestamp: u64, frame: u32)
  datatype RawFrame = RawFrame(head: FrameHead, parts: seq<RawPart>)

  function FrameHeader(o: Order): Format<Head<FrameHead>> {
    Format((t: Head<FrameHead>) => t.count < 0x1_0000_0000,
      (t: Head<FrameHead>) => PutOrder64(o, t.rest.timestamp) + PutOrder32(o, t.rest.frame)
                              + PutOrder32(o, Size32(t.count)),
      (b: bytes, p: nat) => FrameHeaderDec(o, b, p))
  }

  function FrameHeaderDec(o: Order, b: bytes, p: nat): Option<(Head<FrameHead>, nat)> {
    if p + DATA_HEADER_SIZE > |b| then None
    else Some((Head(Get32(o, b, p + 12), FrameHead(Get64(o, b, p), Get32(o, b, p + 8))), p + DATA_HEADER_SIZE))
  }

  lemma FrameHeaderLaw(o: Order)
    ensures Lawful(FrameHeader(o))
  {
    hide Get32, Get64, PutOrder32, PutOrder64;
    forall b: bytes, p: nat, t: Head<FrameHead>, q: nat ensures LawAt(FrameHeader(o), b, p, t, q) {
      if p + 16 <= |b| {
        var count := Size32(t.count);
        Long(o, b, p, t.rest.timestamp);
        Word(o, b, p + 8, t.rest.frame);
        Word(o, b, p + 12, count);
        Three(b[p..p + 16], PutOrder64(o, t.rest.timestamp), PutOrder32(o, t.rest.frame), PutOrder32(o, count));
        assert b[p..p + 16][..8] == b[p..p + 8];
        assert b[p..p + 16][8..12] == b[p + 8..p + 12];
        assert b[p..p + 16][12..] == b[p + 12..p + 16];
      }
    }
  }

  lemma Three(s: bytes, x: bytes, y: bytes, z: bytes)
    requires |s| == |x| + |y| + |z|
    ensures s == x + y + z <==> s[..|x|] == x && s[|x|..|x| + |y|] == y && s[|x| + |y|..] == z
  {
    var m := |x| + |y|;
    SplitEqual(s, x + y + z, m);
    SplitEqual(s[..m], x + y, |x|);
    assert (x + y + z)[..m] == x + y && (x + y + z)[m..] == z && (x + y)[..|x|] == x && (x + y)[|x|..] == y;
    assert s[..m][..|x|] == s[..|x|] && s[..m][|x|..] == s[|x|..m];
  }

  function FrameShape(o: Order): Shape<FrameHead, RawPart, RawFrame> {
    Shape(FrameHeader(o), (h: FrameHead) => List(RawPartShape(o)), (h: FrameHead, xs: seq<RawPart>) => RawFrame(h, xs),
      (f: RawFrame) => f.head, (f: RawFrame) => f.parts)
  }

  lemma FrameLaw(o: Order)
    ensures Lawful(List(FrameShape(o)))
  {
    FrameHeaderLaw(o);
    RawPartLaw(o);
    ListLaw(FrameShape(o));
  }

  // Decoding. The walk is stated for any way of decoding a piece; the client's way is DecodePart.

  type Decoder = RawPart -> Option<Part>

  function DecodePart(r: RawPart): Option<Part> {
    match DecodeBody(r.kind, r.payload) case None => None case Some(v) => Some(Part(r.kind, v))
  }

  /** One step of the walk: a header, and a payload decoded from its own bytes alone. */
  function PartDec(o: Order, decode: Decoder): Dec<Part> {
    (b: bytes, p: nat) => WalkStep(o, decode, b, p)
  }

  function WalkStep(o: Order, decode: Decoder, b: bytes, p: nat): Option<(Part, nat)> {
    match PartHeaderDec(o, b, p)
    case None => None
    case Some((Head(n, kind), m)) =>
      if m + n > |b| then None
      else match decode(RawPart(kind, b[m..m + n]))
        case None => None
        case Some(x) => Some((x, m + n))
  }

  function WalkFrame(o: Order, decode: Decoder, b: bytes): Option<FrameValue> {
    match FrameHeaderDec(o, b, 0)
    case None => None
    case Some((Head(n, h), m)) =>
      match DecMany(PartDec(o, decode), n, b, m)
      case None => None
      case Some((parts, _)) => Some(FrameValue(h.timestamp, h.frame, parts))
  }

  /** The data frame that a packet payload decodes to. */
  function DecodeFrame(o: Order, b: bytes): Option<FrameValue> { WalkFrame(o, DecodePart, b) }

  function DecodeParts(decode: Decoder, raws: seq<RawPart>): Option<seq<Part>> {
    if raws == [] then Some([])
    else match decode(raws[0])
      case None => None
      case Some(x) =>
        match DecodeParts(decode, raws[1..])
        case None => None
        case Some(xs) => Some([x] + xs)
  }

  /** Walking and decoding at once is cutting first and decoding the pieces after. */
  lemma {:induction false} WalkCuts(o: Order, decode: Decoder, n: nat, b: bytes, p: nat)
    ensures DecMany(PartDec(o, decode), n, b, p) ==
      match DecMany(List(RawPartShape(o)).dec, n, b, p)
      case None => None
      case Some((raws, q)) => match DecodeParts(decode, raws) case None => None case Some(xs) => Some((xs, q))
    decreases n
  {
    hide List, RawPartShape, Get32;
    if n > 0 {
      RawPartDec(o, b, p);
      if List(RawPartShape(o)).dec(b, p).Some? {
        var (r, m) := List(RawPartShape(o)).dec(b, p).value;
        WalkCuts(o, decode, n - 1, b, m);
        if DecMany(List(RawPartShape(o)).dec, n - 1, b, m).Some? {
          var (rest, q) := DecMany(List(RawPartShape(o)).dec, n - 1, b, m).value;
          assert ([r] + rest)[1..] == rest;
        }
      }
    }
  }

  lemma FrameCuts(o: Order, decode: Decoder, b: bytes)
    ensures WalkFrame(o, decode, b) ==
      match List(FrameShape(o)).dec(b, 0)
      case None => None
      case Some((f, _)) =>
        match DecodeParts(decode, f.parts)
        case None => None
        case Some(xs) => Some(FrameValue(f.head.timestamp, f.head.frame, xs))
  {
    if FrameHeaderDec(o, b, 0).Some? {
      var (h, m) := FrameHeaderDec(o, b, 0).value;
      WalkCuts(o, decode, h.count, b, m);
    }
  }

  // Encoding.

  predicate PartWellFormed(x: Part) {
    WellFormed(x.kind, x.body) && |EncodeBody(x.kind, x.body)| + COMPONENT_HEADER_SIZE < 0x1_0000_0000
  }

  predicate FrameWellFormed(f: FrameValue) {
    |f.parts| < 0x1_0000_0000 && forall i :: 0 <= i < |f.parts| ==> PartWellFormed(f.parts[i])
  }

  function EncodePart(x: Part): RawPart
    requires PartWellFormed(x)
  {
    RawPart(x.kind, EncodeBody(x.kind, x.body))
  }

  function Cut(xs: seq<Part>): (raws: seq<RawPart>)
    requires forall i :: 0 <= i < |xs| ==> PartWellFormed(xs[i])
    ensures |raws| == |xs| && forall i :: 0 <= i < |xs| ==> raws[i] == EncodePart(xs[i])
  {
    if xs == [] then [] else [EncodePart(xs[0])] + Cut(xs[1..])
  }

  /** Headers in byte order o; payloads are little-endian whatever o is, as the component readers are. */
  function EncodeFrame(o: Order, f: FrameValue): bytes
    requires FrameWellFormed(f)
  {
    List(FrameShape(o)).enc(RawFrame(FrameHead(f.timestamp, f.frame), Cut(f.parts)))
  }

  lemma PartRoundTrip(x: Part)
    requires PartWellFormed(x)
    ensures DecodePart(EncodePart(x)) == Some(x)
  {
    BodyRoundTrip(x.kind, x.body, []);
    var payload := EncodeBody(x.kind, x.body);
    assert payload + [] == payload;
  }

  lemma {:induction false} PartsRoundTrip(xs: seq<Part>)
    requires forall i :: 0 <= i < |xs| ==> PartWellFormed(xs[i])
    ensures DecodeParts(DecodePart, Cut(xs)) == Some(xs)
    decreases |xs|
  {
    hide DecodePart, EncodePart, PartWellFormed, WellFormed, EncodeBody, DecodeBody, Cut;
    if xs == [] {
      assert Cut(xs) == [];
    } else {
      var raws, rest := Cut(xs), Cut(xs[1..]);
      assert raws[0] == EncodePart(xs[0]) && raws[1..] == rest;
      PartsRoundTrip(xs[1..]);
      PartRoundTrip(xs[0]);
      assert xs == [xs[0]] + xs[1..];
    }
  }

  lemma AllPartsValid(o: Order, raws: seq<RawPart>)
    requires forall i :: 0 <= i < |raws| ==> |raws[i].payload| + COMPONENT_HEADER_SIZE < 0x1_0000_0000
    ensures AllValid(List(RawPartShape(o)), raws)
  {
  }

  /** Any frame of any components, known and unknown, comes back from its encoding in either byte order, and
      bytes after it change nothing. */
  lemma FrameRoundTrip(o: Order, f: FrameValue, tail: bytes)
    requires FrameWellFormed(f)
    ensures DecodeFrame(o, EncodeFrame(o, f) + tail) == Some(f)
  {
    var raw := RawFrame(FrameHead(f.timestamp, f.frame), Cut(f.parts));
    AllPartsValid(o, raw.parts);
    FrameLaw(o);
    RoundTrip(List(FrameShape(o)), raw, tail);
    FrameCuts(o, DecodePart, EncodeFrame(o, f) + tail);
    PartsRoundTrip(f.parts);
  }

  lemma {:induction false} PartsOneByOne(decode: Decoder, raws: seq<RawPart>)
    requires DecodeParts(decode, raws).Some?
    ensures |DecodeParts(decode, raws).value| == |raws|
    ensures forall i :: 0 <= i < |raws| ==> decode(raws[i]) == Some(DecodeParts(decode, raws).value[i])
    decreases |raws|
  {
    if raws != [] {
      PartsOneByOne(decode, raws[1..]);
      var xs := DecodeParts(decode, raws[1..]).value;
      forall i | 0 < i < |raws| ensures decode(raws[i]) == Some(xs[i - 1]) {
        assert raws[1..][i - 1] == raws[i];
      }
    }
  }

  lemma {:induction false} PartBytes(o: Order, raws: seq<RawPart>)
    ensures |EncMany(List(RawPartShape(o)).enc, raws)| >= COMPONENT_HEADER_SIZE * |raws|
    decreases |raws|
  {
    if raws != [] {
      PartBytes(o, raws[1..]);
    }
  }

  /** The pieces tile the payload after the header, and each component comes from its own piece. */
  ghost predicate Sliced(o: Order, decode: Decoder, b: bytes, f: FrameValue, raws: seq<RawPart>) {
    |raws| == |f.parts| && (forall i :: 0 <= i < |raws| ==> decode(raws[i]) == Some(f.parts[i]))
    && FrameHeader(o).enc(Head(|raws|, FrameHead(f.timestamp, f.frame))) + EncMany(List(RawPartShape(o)).enc, raws) <= b
  }

  /** An accepted payload is a header and contiguous slices, as many as the header counts and each at least eight
      bytes; every component is decoded from its own slice alone. */
  lemma FrameSlices(o: Order, decode: Decoder, b: bytes)
    requires WalkFrame(o, decode, b).Some?
    ensures var f := WalkFrame(o, decode, b).value;
      |f.parts| == Get32(o, b, 12) && COMPONENT_HEADER_SIZE * |f.parts| <= |b| - DATA_HEADER_SIZE
      && exists raws :: Sliced(o, decode, b, f, raws)
  {
    FrameCuts(o, decode, b);
    FrameLaw(o);
    Canonical(List(FrameShape(o)), b);
    var (raw, q) := List(FrameShape(o)).dec(b, 0).value;
    PartsOneByOne(decode, raw.parts);
    PartBytes(o, raw.parts);
    var (h, m) := FrameHeaderDec(o, b, 0).value;
    ManyLength(List(RawPartShape(o)).dec, h.count, b, m);
    assert Sliced(o, decode, b, WalkFrame(o, decode, b).value, raw.parts);
  }
}
