/** Whole packets as values: an eight-byte header and a payload whose meaning the packet type decides. */
module PacketValues {
  import opened Wire
  import opened Frames

  const PACKET_HEADER_SIZE := 8

  const ERROR_PACKET := 0
  const COMMAND_PACKET := 1
  const XML_PACKET := 2
  const DATA_PACKET := 3
  const NO_MORE_DATA_PACKET := 4
  const C3D_FILE_PACKET := 5
  const EVENT_PACKET := 6
  const DISCOVER_PACKET := 7
  const QTM_FILE_PACKET := 8
  const NONE_PACKET := 9

  datatype FileValue = FileValue(ftype: u32, size: u32, file: bytes)

  datatype PacketValue = PacketValue(ptype: u32, size: u32, errorResponse: bytes, commandResponse: bytes,
                                     xmlResponse: bytes, event: u8, data: FrameValue, file: FileValue)

  /** A packet nothing was decoded into. */
  function Blank(ptype: u32): PacketValue {
    PacketValue(ptype, 0, [], [], [], 0, FrameValue(0, 0, []), FileValue(0, 0, []))
  }

  function TrimLeft(b: bytes): bytes { if b != [] && b[0] == 0 then TrimLeft(b[1..]) else b }

  function TrimRight(b: bytes): bytes { if b != [] && b[|b| - 1] == 0 then TrimRight(b[..|b| - 1]) else b }

  /** Cuts NUL bytes off both ends. */
  function Trim(b: bytes): bytes { TrimRight(TrimLeft(b)) }

  /** Neither starts nor ends with a NUL. */
  predicate Bare(r: bytes) { r != [] ==> r[0] != 0 && r[|r| - 1] != 0 }

  lemma {:induction false} TrimLeftZeros(i: nat, r: bytes)
    requires r != [] ==> r[0] != 0
    ensures TrimLeft(Zeros(i) + r) == r
    decreases i
  {
    var s := Zeros(i) + r;
    if i == 0 {
      assert s == r;
    } else {
      assert s[0] == 0 && s[1..] == Zeros(i - 1) + r;
      TrimLeftZeros(i - 1, r);
    }
  }

  lemma {:induction false} TrimRightZeros(r: bytes, j: nat)
    requires r != [] ==> r[|r| - 1] != 0
    ensures TrimRight(r + Zeros(j)) == r
    decreases j
  {
    var s := r + Zeros(j);
    if j == 0 {
      assert s == r;
    } else {
      assert s[|s| - 1] == 0 && s[..|s| - 1] == r + Zeros(j - 1);
      TrimRightZeros(r, j - 1);
    }
  }

  /** Whatever stands between two runs of NULs comes back when it neither starts nor ends with one; NULs inside
      survive. */
  lemma TrimBetween(i: nat, r: bytes, j: nat)
    requires Bare(r)
    ensures Trim(Zeros(i) + r + Zeros(j)) == r
  {
    if r == [] {
      assert Zeros(i) + r + Zeros(j) == Zeros(i + j) + [];
      TrimLeftZeros(i + j, []);
    } else {
      assert Zeros(i) + r + Zeros(j) == Zeros(i) + (r + Zeros(j));
      TrimLeftZeros(i, r + Zeros(j));
      TrimRightZeros(r, j);
    }
  }

  lemma {:induction false} TrimLeftSplit(b: bytes)
    ensures var r := TrimLeft(b); |r| <= |b| && b == Zeros(|b| - |r|) + r && (r != [] ==> r[0] != 0)
    decreases |b|
  {
    if b != [] && b[0] == 0 {
      TrimLeftSplit(b[1..]);
      assert b == [0] + b[1..];
    }
  }

  lemma {:induction false} TrimRightSplit(b: bytes)
    ensures var r := TrimRight(b); |r| <= |b| && b == r + Zeros(|b| - |r|) && (r != [] ==> r[|r| - 1] != 0)
    decreases |b|
  {
    if b != [] && b[|b| - 1] == 0 {
      TrimRightSplit(b[..|b| - 1]);
      assert b == b[..|b| - 1] + [0];
    }
  }

  /** What Trim answers is bare, and only NULs were cut off. */
  lemma TrimSplit(b: bytes)
    ensures Bare(Trim(b)) && exists i: nat, j: nat :: b == Zeros(i) + Trim(b) + Zeros(j)
  {
    var l := TrimLeft(b);
    var r := Trim(b);
    TrimLeftSplit(b);
    TrimRightSplit(l);
    assert b == Zeros(|b| - |l|) + r + Zeros(|l| - |r|);
  }

  /** Decoding b into a packet: the fields the type names are set, the others stay as they were. */
  function DecodeInto(o: Order, p: PacketValue, b: bytes): Option<PacketValue> {
    if |b| < PACKET_HEADER_SIZE then None
    else WithPayload(o, p.(size := Get32(o, b, 0), ptype := Get32(o, b, 4)), b[PACKET_HEADER_SIZE..])
  }

  lemma IntoPayload(o: Order, p: PacketValue, b: bytes, h: PacketValue, payload: bytes, r: Option<PacketValue>)
    requires |b| >= PACKET_HEADER_SIZE && payload == b[PACKET_HEADER_SIZE..]
    requires h == p.(size := Get32(o, b, 0), ptype := Get32(o, b, 4)) && WithPayload(o, h, payload) == r
    ensures DecodeInto(o, p, b) == r
  {
  }

  function WithPayload(o: Order, h: PacketValue, payload: bytes): Option<PacketValue> {
    if h.ptype == ERROR_PACKET then Some(h.(errorResponse := Trim(payload)))
    else if h.ptype == COMMAND_PACKET then Some(h.(commandResponse := Trim(payload)))
    else if h.ptype == XML_PACKET then Some(h.(xmlResponse := Trim(payload)))
    else if h.ptype == DATA_PACKET then
      (match DecodeFrame(o, payload) case None => None case Some(f) => Some(h.(data := f)))
    else if h.ptype == C3D_FILE_PACKET || h.ptype == QTM_FILE_PACKET then
      Some(h.(file := FileValue(h.ptype, |payload| % 0x1_0000_0000, payload)))
    else if h.ptype == EVENT_PACKET then if |payload| < 1 then None else Some(h.(event := payload[0]))
    else Some(h)
  }

  function DecodePacket(o: Order, b: bytes): Option<PacketValue> { DecodeInto(o, Blank(0), b) }

  /** The decoder of a client with byte order o. */
  function Decoding(o: Order): bytes -> Option<PacketValue> { (b: bytes) => DecodePacket(o, b) }

  /** What a whole packet decodes to, by its type number: error, command and XML texts, frames, files, events; packets
      of other types are their header. Files are the payload itself. Fields of other types stay blank. */
  lemma PacketFields(o: Order, b: bytes)
    ensures |b| < 8 ==> DecodePacket(o, b) == None
    ensures |b| >= 8 ==>
      var size, t, payload, p := Get32(o, b, 0), Get32(o, b, 4), b[8..], DecodePacket(o, b);
      var noFrame, noFile := FrameValue(0, 0, []), FileValue(0, 0, []);
      && (t == 0 ==> p == Some(PacketValue(0, size, Trim(payload), [], [], 0, noFrame, noFile)))
      && (t == 1 ==> p == Some(PacketValue(1, size, [], Trim(payload), [], 0, noFrame, noFile)))
      && (t == 2 ==> p == Some(PacketValue(2, size, [], [], Trim(payload), 0, noFrame, noFile)))
      && (t == 3 ==> p == if DecodeFrame(o, payload) == None then None
            else Some(PacketValue(3, size, [], [], [], 0, DecodeFrame(o, payload).value, noFile)))
      && (t == 5 || t == 8 ==> p == Some(PacketValue(t, size, [], [], [], 0, noFrame,
            FileValue(t, |payload| % 0x1_0000_0000, payload))))
      && (t == 6 ==> p == if payload == [] then None else Some(PacketValue(6, size, [], [], [], payload[0], noFrame, noFile)))
      && (t == 4 || t == 7 || t > 8 ==> p == Some(PacketValue(t, size, [], [], [], 0, noFrame, noFile)))
  {
    hide Get32, Trim, DecodeFrame;
  }
}
