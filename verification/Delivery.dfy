/** What receiving makes of a stream of packets: order, alignment, the one case that is misread, events skipped,
    and time. */
module Delivery {
  import opened Wire
  import opened Frames
  import opened PacketValues
  import opened Network
  import opened Sessions

  /** A packet on the wire. */
  datatype WirePacket = WirePacket(ptype: u32, payload: bytes)

  function Size(w: WirePacket): nat { PACKET_HEADER_SIZE + |w.payload| }

  predicate Sendable(cfg: Config, w: WirePacket) { Size(w) < 0x1_0000_0000 && Size(w) <= cfg.limit }

  function Header(o: Order, w: WirePacket): (h: bytes)
    requires Size(w) < 0x1_0000_0000
    ensures |h| == PACKET_HEADER_SIZE
  {
    PutOrder32(o, Size(w)) + PutOrder32(o, w.ptype)
  }

  function Encode(o: Order, w: WirePacket): (b: bytes)
    requires Size(w) < 0x1_0000_0000
    ensures |b| == Size(w)
  {
    Header(o, w) + w.payload
  }

  predicate AllSendable(cfg: Config, ws: seq<WirePacket>) { forall i :: 0 <= i < |ws| ==> Sendable(cfg, ws[i]) }

  function EncodeAll(cfg: Config, ws: seq<WirePacket>): bytes
    requires AllSendable(cfg, ws)
  {
    if ws == [] then [] else Encode(cfg.order, ws[0]) + EncodeAll(cfg, ws[1..])
  }

  function Decoded(cfg: Config, b: bytes): Reply {
    match cfg.decode(b)
    case None => Failed(BadPacket)
    case Some(p) => Reply(p, if p.ptype == ERROR_PACKET then ErrorReply else Nil)
  }

  /** The reply the packet on the wire deserves: a packet without payload is handed over undecoded. */
  function Deserved(cfg: Config, w: WirePacket): Reply
    requires Sendable(cfg, w)
  {
    if w.payload == [] then Reply(Blank(w.ptype).(size := PACKET_HEADER_SIZE), Nil)
    else Decoded(cfg, Encode(cfg.order, w))
  }

  /** The reply it gets from a buffer of capacity cap. */
  function Given(cfg: Config, cap: nat, w: WirePacket): Reply
    requires Sendable(cfg, w)
  {
    if w.payload == [] || Size(w) <= cap then Deserved(cfg, w)
    else Decoded(cfg, Zeros(PACKET_HEADER_SIZE) + w.payload)
  }

  function Grown(cap: nat, w: WirePacket): nat { if w.payload == [] then cap else Max(cap, Size(w)) }

  function Admitted(w: WirePacket): nat { if w.payload == [] then 0 else Size(w) }

  function Heard(cfg: Config, cap: nat, w: WirePacket): Option<PacketValue>
    requires Sendable(cfg, w)
  {
    if w.payload == [] then None
    else cfg.decode((if Size(w) <= cap then Header(cfg.order, w) else Zeros(PACKET_HEADER_SIZE)) + w.payload)
  }

  // One packet.

  /** The stream starts with a packet. */
  ghost predicate Next(cfg: Config, net: Net, w: WirePacket) {
    Sendable(cfg, w) && Encode(cfg.order, w) <= Data(net.incoming)
  }

  lemma HeaderFields(cfg: Config, w: WirePacket)
    requires Sendable(cfg, w)
    ensures Get32(cfg.order, Header(cfg.order, w), 0) == Size(w)
    ensures Get32(cfg.order, Header(cfg.order, w), 4) == w.ptype
  {
    var h := Header(cfg.order, w);
    Word(cfg.order, h, 0, Size(w));
    Word(cfg.order, h, 4, w.ptype);
    assert h[0..4] == PutOrder32(cfg.order, Size(w)) && h[4..8] == PutOrder32(cfg.order, w.ptype);
  }

  lemma DataParts(cfg: Config, net: Net, w: WirePacket)
    requires Next(cfg, net, w)
    ensures |net.incoming| >= Size(w) && Data(net.incoming)[..PACKET_HEADER_SIZE] == Header(cfg.order, w)
    ensures Data(net.incoming[PACKET_HEADER_SIZE..])[..|w.payload|] == w.payload
  {
    var e, d := Encode(cfg.order, w), Data(net.incoming);
    assert d[..Size(w)] == e;
    assert d[..PACKET_HEADER_SIZE] == e[..PACKET_HEADER_SIZE];
    assert Data(net.incoming[PACKET_HEADER_SIZE..])[..|w.payload|] == d[PACKET_HEADER_SIZE..Size(w)] == e[PACKET_HEADER_SIZE..];
  }

  /** Neither the header nor the body of the packet is cut short by a deadline. */
  ghost predicate Uncut(cfg: Config, net: Net, d: int, w: WirePacket) {
    var h := Take(net, Until(net.now, d), PACKET_HEADER_SIZE);
    h.status == Full && Take(h.net, Until(h.net.now, cfg.readTimeout), |w.payload|).status == Full
  }

  lemma HeaderTaken(cfg: Config, net: Net, deadline: Option<nat>, w: WirePacket)
    requires Next(cfg, net, w)
    ensures var h := Take(net, deadline, PACKET_HEADER_SIZE);
      h.status == Full ==> h.got == Header(cfg.order, w) && h.net.incoming == net.incoming[PACKET_HEADER_SIZE..]
  {
    DataParts(cfg, net, w);
    TakeConserves(net, deadline, PACKET_HEADER_SIZE);
  }

  lemma BodyTaken(cfg: Config, net: Net, after: Net, deadline: Option<nat>, w: WirePacket)
    requires Next(cfg, net, w) && |net.incoming| >= PACKET_HEADER_SIZE
    requires after.incoming == net.incoming[PACKET_HEADER_SIZE..]
    ensures var b := Take(after, deadline, |w.payload|);
      b.status == Full ==> b.got == w.payload && |net.incoming| >= Size(w) && b.net.incoming == net.incoming[Size(w)..]
  {
    DataParts(cfg, net, w);
    TakeConserves(after, deadline, |w.payload|);
    assert after.incoming[|w.payload|..] == net.incoming[Size(w)..];
  }

  /** The body of an admitted packet, taken whole. */
  lemma BodyGiven(cfg: Config, after: Net, header: bytes, w: WirePacket)
    requires Sendable(cfg, w) && w.payload != []
    requires var b := Take(after, Until(after.now, cfg.readTimeout), |w.payload|);
      b.status == Full && b.got == w.payload
    ensures var out := ReceiveBody(cfg, after, header, Size(w));
      out.reply == Decoded(cfg, header + w.payload) && out.heard == cfg.decode(header + w.payload)
      && out.net == Take(after, Until(after.now, cfg.readTimeout), |w.payload|).net && out.admitted == Size(w)
  {
  }

  /** A packet that is not cut short is consumed whole, decodable or not, and answered as the buffer's capacity
      allows. */
  lemma Delivered(cfg: Config, net: Net, cap: nat, d: int, w: WirePacket)
    requires Next(cfg, net, w) && Uncut(cfg, net, d, w)
    ensures var out := ReceiveOn(cfg, net, cap, d);
      |net.incoming| >= Size(w) && out.reply == Given(cfg, cap, w) && out.net.incoming == net.incoming[Size(w)..]
      && out.admitted == Admitted(w) && out.heard == Heard(cfg, cap, w) && out.net == After(net, Size(w))
  {
    hide Take, Get32, Header;
    var h := Take(net, Until(net.now, d), PACKET_HEADER_SIZE);
    DataParts(cfg, net, w);
    HeaderTaken(cfg, net, Until(net.now, d), w);
    HeaderFields(cfg, w);
    BodyTaken(cfg, net, h.net, Until(h.net.now, cfg.readTimeout), w);
    TakeFull(net, Until(net.now, d), PACKET_HEADER_SIZE);
    TakeFull(h.net, Until(h.net.now, cfg.readTimeout), |w.payload|);
    AfterTwo(net, PACKET_HEADER_SIZE, |w.payload|);
    if w.payload != [] {
      BodyGiven(cfg, h.net, if Size(w) <= cap then h.got else Zeros(PACKET_HEADER_SIZE), w);
    } else {
      TakeConserves(h.net, None, 0);
    }
  }

  /** How much of the packet a receive has taken off the stream. */
  function Taken(net: Net, out: Outcome): int { |net.incoming| - |out.net.incoming| }

  lemma BodyCut(cfg: Config, after: Net, header: bytes, w: WirePacket)
    requires Sendable(cfg, w) && w.payload != []
    requires Take(after, Until(after.now, cfg.readTimeout), |w.payload|).status != Full
    ensures var out := ReceiveBody(cfg, after, header, Size(w));
      (out.reply.err == Truncated || out.reply.err == BodyRead)
      && |after.incoming| - |w.payload| < |out.net.incoming| <= |after.incoming|
  {
    hide Take;
    TakeConserves(after, Until(after.now, cfg.readTimeout), |w.payload|);
  }

  /** Whatever the timing: a receive takes the whole packet, or less than a header with a reply that names no
      packet, or at least the header with an error that says the stream is lost. */
  lemma Alignment(cfg: Config, net: Net, cap: nat, d: int, w: WirePacket)
    requires Next(cfg, net, w)
    ensures var out := ReceiveOn(cfg, net, cap, d);
      if out.reply.err == Truncated || out.reply.err == BodyRead then PACKET_HEADER_SIZE <= Taken(net, out) < Size(w)
      else if out.admitted == 0 && (IsIdle(out.reply) || out.reply.err == Closed || out.reply.err == HeaderRead) then
        Taken(net, out) < PACKET_HEADER_SIZE
      else Taken(net, out) == Size(w) && out.reply == Given(cfg, cap, w)
  {
    hide Take, Get32, Encode, Header;
    var h := Take(net, Until(net.now, d), PACKET_HEADER_SIZE);
    DataParts(cfg, net, w);
    HeaderTaken(cfg, net, Until(net.now, d), w);
    TakeConserves(net, Until(net.now, d), PACKET_HEADER_SIZE);
    HeaderFields(cfg, w);
    if h.status == Full {
      TakeConserves(h.net, Until(h.net.now, cfg.readTimeout), |w.payload|);
      if Uncut(cfg, net, d, w) {
        Delivered(cfg, net, cap, d, w);
      } else {
        BodyCut(cfg, h.net, if Size(w) <= cap then h.got else Zeros(PACKET_HEADER_SIZE), w);
      }
    }
  }

  /** A header whose first k bytes come in time and whose next byte does not: the reply is no-more-data with a nil
      error and k bytes are gone. The stream stays aligned exactly when k is zero. */
  lemma {:induction false} HeaderCut(net: Net, deadline: nat, k: nat, n: nat)
    requires k < n && k < |net.incoming| && InTime(net, k, deadline) && net.incoming[k].at >= deadline
    ensures var t := Take(net, Some(deadline), n);
      t.status == Timeout && |t.got| == k && t.net.incoming == net.incoming[k..]
    decreases k
  {
    if k > 0 {
      HeaderCut(net.(now := NextAt(net), incoming := net.incoming[1..]), deadline, k - 1, n - 1);
    }
  }

  lemma HeaderTimeout(cfg: Config, net: Net, cap: nat, d: int, h: Network.Taken)
    requires h == Take(net, Until(net.now, d), PACKET_HEADER_SIZE) && h.status == Timeout
    ensures ReceiveOn(cfg, net, cap, d) == Outcome(Reply(Blank(NO_MORE_DATA_PACKET), Nil), h.net, 0, None)
  {
  }

  lemma HeaderCutReply(cfg: Config, net: Net, cap: nat, d: int, k: nat)
    requires d > 0 && k < PACKET_HEADER_SIZE && k < |net.incoming|
    requires InTime(net, k, net.now + d) && net.incoming[k].at >= net.now + d
    ensures var out := ReceiveOn(cfg, net, cap, d); IsIdle(out.reply) && out.net.incoming == net.incoming[k..]
  {
    hide ReceiveOn, Take;
    HeaderCut(net, net.now + d, k, PACKET_HEADER_SIZE);
    HeaderTimeout(cfg, net, cap, d, Take(net, Until(net.now, d), PACKET_HEADER_SIZE));
  }

  // The packet that makes the buffer grow.

  /** decode is the client's own decoder. */
  ghost predicate Real(cfg: Config) { cfg.decode == Decoding(cfg.order) }

  lemma DecodedHeader(o: Order, b: bytes, p: PacketValue)
    requires DecodePacket(o, b) == Some(p)
    ensures |b| >= PACKET_HEADER_SIZE && p.size == Get32(o, b, 0) && p.ptype == Get32(o, b, 4)
  {
  }

  /** The size and type of a decoded packet are those on the wire. */
  lemma DecodedFields(cfg: Config, w: WirePacket)
    requires Real(cfg) && Sendable(cfg, w)
    ensures var r := cfg.decode(Encode(cfg.order, w)); r.Some? ==> r.value.size == Size(w) && r.value.ptype == w.ptype
  {
    var b := Encode(cfg.order, w);
    assert cfg.decode(b) == DecodePacket(cfg.order, b);
    if DecodePacket(cfg.order, b).Some? {
      DecodedHeader(cfg.order, b, DecodePacket(cfg.order, b).value);
      HeaderFields(cfg, w);
      SamePrefix(cfg.order, b, Header(cfg.order, w));
    }
  }

  lemma SamePrefix(o: Order, b: bytes, h: bytes)
    requires h <= b && |h| == PACKET_HEADER_SIZE
    ensures Get32(o, b, 0) == Get32(o, h, 0) && Get32(o, b, 4) == Get32(o, h, 4)
  {
  }

  lemma ZeroHeader(o: Order, payload: bytes)
    ensures DecodePacket(o, Zeros(PACKET_HEADER_SIZE) + payload) == Some(Blank(ERROR_PACKET).(errorResponse := Trim(payload)))
  {
    var b := Zeros(PACKET_HEADER_SIZE) + payload;
    assert b[PACKET_HEADER_SIZE..] == payload;
    assert Get32(o, b, 0) == 0 && Get32(o, b, 4) == 0;
  }

  /** A packet gets the reply it deserves exactly when the buffer already has room for it (or it has no payload).
      A larger one is taken for an error packet whose text is its payload, because the header stays behind in the
      buffer that was given up. */
  lemma GivenIsDeserved(cfg: Config, cap: nat, w: WirePacket)
    requires Real(cfg) && Sendable(cfg, w)
    ensures Given(cfg, cap, w) == Deserved(cfg, w) <==> w.payload == [] || Size(w) <= cap
    ensures w.payload != [] && Size(w) > cap ==>
      Given(cfg, cap, w) == Reply(Blank(ERROR_PACKET).(errorResponse := Trim(w.payload)), ErrorReply)
  {
    if w.payload != [] && Size(w) > cap {
      ZeroHeader(cfg.order, w.payload);
      assert cfg.decode(Zeros(PACKET_HEADER_SIZE) + w.payload) == DecodePacket(cfg.order, Zeros(PACKET_HEADER_SIZE) + w.payload);
      DecodedFields(cfg, w);
    }
  }

  /** The smallest packet a new client misreads has 4097 bytes. A command of that size is received as an error packet;
      once the buffer has grown the same packet is received as it should be. */
  lemma FirstMisread(cfg: Config, net: Net, d: int, text: bytes)
    requires Real(cfg) && |text| == 4089 && cfg.limit >= 4097
    requires Next(cfg, net, WirePacket(COMMAND_PACKET, text)) && Uncut(cfg, net, d, WirePacket(COMMAND_PACKET, text))
    ensures var w := WirePacket(COMMAND_PACKET, text);
      && Size(w) == 4097
      && ReceiveOn(cfg, net, START_BUFFER_SIZE, d).reply == Reply(Blank(ERROR_PACKET).(errorResponse := Trim(text)), ErrorReply)
      && ReceiveOn(cfg, net, START_BUFFER_SIZE, d).reply != Deserved(cfg, w)
      && ReceiveOn(cfg, net, Grown(START_BUFFER_SIZE, w), d).reply == Deserved(cfg, w)
    ensures forall v: WirePacket :: Sendable(cfg, v) && Size(v) < 4097 ==> Given(cfg, START_BUFFER_SIZE, v) == Deserved(cfg, v)
  {
    hide ReceiveOn, Uncut, Next, Trim, Decoded;
    var w := WirePacket(COMMAND_PACKET, text);
    GivenIsDeserved(cfg, START_BUFFER_SIZE, w);
    Delivered(cfg, net, START_BUFFER_SIZE, d, w);
    Delivered(cfg, net, Grown(START_BUFFER_SIZE, w), d, w);
  }

  // Packets by type, from the wire to the reply.

  /** The reply a packet with a payload deserves, by its type number: an error packet is an error, all others that
      decode are not. */
  lemma DeservedFields(cfg: Config, w: WirePacket)
    requires Real(cfg) && Sendable(cfg, w) && w.payload != []
    ensures var r, size := Deserved(cfg, w), Size(w);
      var noFrame, noFile := FrameValue(0, 0, []), FileValue(0, 0, []);
      && (w.ptype == 0 ==> r == Reply(PacketValue(0, size, Trim(w.payload), [], [], 0, noFrame, noFile), ErrorReply))
      && (w.ptype == 1 ==> r == Reply(PacketValue(1, size, [], Trim(w.payload), [], 0, noFrame, noFile), Nil))
      && (w.ptype == 2 ==> r == Reply(PacketValue(2, size, [], [], Trim(w.payload), 0, noFrame, noFile), Nil))
      && (w.ptype == 3 && DecodeFrame(cfg.order, w.payload) == None ==> r == Failed(BadPacket))
      && (w.ptype == 5 || w.ptype == 8 ==>
            r == Reply(PacketValue(w.ptype, size, [], [], [], 0, noFrame, FileValue(w.ptype, |w.payload|, w.payload)), Nil))
      && (w.ptype == 6 ==> r == Reply(PacketValue(6, size, [], [], [], w.payload[0], noFrame, noFile), Nil))
      && (w.ptype == 4 || w.ptype == 7 || w.ptype > 8 ==>
            r == Reply(PacketValue(w.ptype, size, [], [], [], 0, noFrame, noFile), Nil))
  {
    hide Get32, Trim, DecodeFrame, DecodePacket;
    var b := Encode(cfg.order, w);
    assert cfg.decode(b) == DecodePacket(cfg.order, b);
    HeaderFields(cfg, w);
    SamePrefix(cfg.order, b, Header(cfg.order, w));
    assert b[8..] == w.payload;
    PacketFields(cfg.order, b);
  }

  /** A file that the buffer has room for, of type 5 or 8, is received as exactly its bytes. */
  lemma FileDelivered(cfg: Config, net: Net, cap: nat, d: int, w: WirePacket)
    requires Real(cfg) && (w.ptype == 5 || w.ptype == 8) && w.payload != []
    requires Next(cfg, net, w) && Uncut(cfg, net, d, w) && Size(w) <= cap
    ensures var r := ReceiveOn(cfg, net, cap, d).reply;
      && r.err == Nil && r.packet.file.file == w.payload && r.packet.file.size == |w.payload|
      && r.packet.file.ftype == r.packet.ptype == w.ptype
  {
    hide ReceiveOn, Uncut, Deserved, Encode;
    Delivered(cfg, net, cap, d, w);
    DeservedFields(cfg, w);
  }

  /** A header whose size is below eight or above the limit is refused: exactly the header is gone, and nothing of the
      client changes but its connection. */
  lemma HeaderRefused(cfg: Config, net: Net, cap: nat, d: int)
    requires var h := Take(net, Until(net.now, d), 8);
      h.status == Full && |h.got| == 8 && (Get32(cfg.order, h.got, 0) < 8 || Get32(cfg.order, h.got, 0) > cfg.limit)
    ensures var h, out := Take(net, Until(net.now, d), 8), ReceiveOn(cfg, net, cap, d);
      && out.reply == Failed(if Get32(cfg.order, h.got, 0) < 8 then BadSize else TooBig)
      && out.admitted == 0 && out.heard == None && out.net == h.net
  {
    hide Take, Get32;
  }

  /** A stream that ends before a header is a closed connection; inside one, or when the connection fails, reading the
      header has failed. */
  lemma HeaderEnds(cfg: Config, net: Net, cap: nat)
    requires |net.incoming| < 8
    ensures ReceiveOn(cfg, net, cap, 0).reply == Failed(if net.end == Eof && net.incoming == [] then Closed else HeaderRead)
  {
    hide Take, Get32;
    TakeEnds(net, 8);
  }

  /** A stream that ends inside a body is a truncated packet; a connection that fails there is a failed read. */
  lemma BodyEnds(cfg: Config, net: Net, cap: nat, w: WirePacket)
    requires Sendable(cfg, w) && w.payload != [] && cfg.readTimeout <= 0 && 8 <= |net.incoming| < Size(w)
    requires Data(net.incoming)[..8] == Header(cfg.order, w)
    ensures ReceiveOn(cfg, net, cap, 0).reply == Failed(if net.end == Eof then Truncated else BodyRead)
  {
    hide Take, Get32, Header, Data;
    TakeWithoutDeadline(net, 8);
    TakeConserves(net, None, 8);
    HeaderFields(cfg, w);
    TakeEnds(Take(net, None, 8).net, |w.payload|);
  }

  lemma {:induction false} TakeEnds(net: Net, n: nat)
    requires |net.incoming| < n
    ensures Take(net, None, n).status == (if net.end == Eof then AtEof else Broken)
    ensures |Take(net, None, n).got| == |net.incoming|
    decreases n
  {
    if net.incoming != [] {
      TakeEnds(net.(now := NextAt(net), incoming := net.incoming[1..]), n - 1);
    }
  }

  // A frame, from its encoding on the wire to the reply.

  lemma FrameDeserved(cfg: Config, f: FrameValue)
    requires Real(cfg) && FrameWellFormed(f) && Sendable(cfg, WirePacket(DATA_PACKET, EncodeFrame(cfg.order, f)))
    ensures var w := WirePacket(DATA_PACKET, EncodeFrame(cfg.order, f));
      w.payload != [] && Deserved(cfg, w) == Reply(Blank(DATA_PACKET).(size := Size(w), data := f), Nil)
  {
    hide Get32, EncodeFrame, DecodeFrame, FrameWellFormed;
    var payload := EncodeFrame(cfg.order, f);
    var w := WirePacket(DATA_PACKET, payload);
    var b := Encode(cfg.order, w);
    FrameRoundTrip(cfg.order, f, []);
    assert payload + [] == payload == b[PACKET_HEADER_SIZE..];
    NoFrame(cfg.order);
    assert cfg.decode(b) == DecodePacket(cfg.order, b);
    HeaderFields(cfg, w);
    SamePrefix(cfg.order, b, Header(cfg.order, w));
  }

  lemma NoFrame(o: Order)
    ensures DecodeFrame(o, []) == None
  {
  }

  /** A well-formed frame that the buffer has room for is received with exactly its timestamp, number and
      components, in either byte order. */
  lemma FrameDelivered(cfg: Config, net: Net, cap: nat, d: int, f: FrameValue)
    requires Real(cfg) && FrameWellFormed(f)
    requires var w := WirePacket(DATA_PACKET, EncodeFrame(cfg.order, f));
      Next(cfg, net, w) && Uncut(cfg, net, d, w) && Size(w) <= cap
    ensures var w, out := WirePacket(DATA_PACKET, EncodeFrame(cfg.order, f)), ReceiveOn(cfg, net, cap, d);
      && out.reply == Reply(Blank(DATA_PACKET).(size := Size(w), data := f), Nil)
      && |net.incoming| >= Size(w) && out.net.incoming == net.incoming[Size(w)..]
  {
    hide ReceiveOn, Uncut, EncodeFrame, FrameWellFormed, Deserved, Encode;
    FrameDeserved(cfg, f);
    Delivered(cfg, net, cap, d, WirePacket(DATA_PACKET, EncodeFrame(cfg.order, f)));
  }

  // What a packet changes.

  predicate IsEvent(w: WirePacket) { w.ptype == EVENT_PACKET }

  /** The buffer has room for the packet, if it needs any. */
  predicate Fits(cap: nat, w: WirePacket) { w.payload == [] || Size(w) <= cap }

  /** An event that is decoded: it has a payload, and the buffer has room for it. */
  predicate Noted(cap: nat, w: WirePacket) { IsEvent(w) && w.payload != [] && Size(w) <= cap }

  /** The client after a packet, apart from its connection. */
  function Passed(cfg: Config, s: Session, w: WirePacket): Session
    requires Sendable(cfg, w)
  {
    s.(cap := Grown(s.cap, w),
       sizes := s.sizes + (if w.payload == [] then [] else [Size(w)]),
       log := s.log + (match Heard(cfg, s.cap, w) case None => [] case Some(p) => [p]),
       last := if Noted(s.cap, w) then w.payload[0] else s.last,
       state := if Noted(s.cap, w) && w.payload[0] != CAMERA_SETTINGS_CHANGED then w.payload[0] else s.state)
  }

  /** The client after the first n packets, apart from its connection. */
  function Through(cfg: Config, s: Session, ws: seq<WirePacket>, n: nat): Session
    requires AllSendable(cfg, ws) && n <= |ws|
    decreases n
  {
    if n == 0 then s else Through(cfg, Passed(cfg, s, ws[0]), ws[1..], n - 1)
  }

  /** The length of the first n packets. */
  function Bytes(ws: seq<WirePacket>, n: nat): nat
    requires n <= |ws|
    decreases n
  {
    if n == 0 then 0 else Size(ws[0]) + Bytes(ws[1..], n - 1)
  }

  /** t is s after exactly the first n of the packets ws: they have been taken off the stream, whole, and have
      changed what packets change. */
  ghost predicate Reached(cfg: Config, s: Session, ws: seq<WirePacket>, n: nat, t: Session) {
    && s.link.Some? && t.link.Some? && AllSendable(cfg, ws) && n <= |ws| && Bytes(ws, n) <= |s.link.value.incoming|
    && t.link.value.incoming == s.link.value.incoming[Bytes(ws, n)..]
    && t == Through(cfg, s, ws, n).(link := t.link)
  }

  /** What is heard of a packet is an event exactly when the packet is one that is noted. */
  lemma HeardEvent(cfg: Config, cap: nat, w: WirePacket)
    requires Real(cfg) && Sendable(cfg, w)
    ensures var p := Heard(cfg, cap, w);
      (p.Some? && p.value.ptype == EVENT_PACKET <==> Noted(cap, w)) && (Noted(cap, w) ==> p.value.event == w.payload[0])
  {
    hide Get32, Encode;
    if w.payload != [] {
      if Size(w) <= cap {
        HeardFields(cfg, w);
      } else {
        ZeroHeader(cfg.order, w.payload);
        assert cfg.decode(Zeros(PACKET_HEADER_SIZE) + w.payload) == DecodePacket(cfg.order, Zeros(PACKET_HEADER_SIZE) + w.payload);
      }
    }
  }

  lemma HeardFields(cfg: Config, w: WirePacket)
    requires Real(cfg) && Sendable(cfg, w)
    ensures var p := cfg.decode(Header(cfg.order, w) + w.payload);
      && (p.Some? ==> p.value.ptype == w.ptype)
      && (IsEvent(w) && w.payload != [] ==> p.Some? && p.value.event == w.payload[0])
  {
    hide Get32, Header;
    var b := Header(cfg.order, w) + w.payload;
    assert cfg.decode(b) == DecodePacket(cfg.order, b);
    HeaderFields(cfg, w);
    SamePrefix(cfg.order, b, Header(cfg.order, w));
    assert b[PACKET_HEADER_SIZE..] == w.payload;
  }

  /** Settling the outcome of a packet changes what packets change. */
  lemma SettlePassed(cfg: Config, s: Session, out: Outcome, w: WirePacket)
    requires Real(cfg) && Sendable(cfg, w) && out.admitted == Admitted(w) && out.heard == Heard(cfg, s.cap, w)
    ensures Settle(s, out) == Passed(cfg, s, w).(link := Some(out.net))
  {
    hide Heard, Noted;
    HeardEvent(cfg, s.cap, w);
  }

  lemma {:induction false} ThroughLink(cfg: Config, s: Session, l: Option<Net>, ws: seq<WirePacket>, n: nat)
    requires AllSendable(cfg, ws) && n <= |ws|
    ensures Through(cfg, s.(link := l), ws, n) == Through(cfg, s, ws, n).(link := l)
    decreases n
  {
    hide Heard, Noted, Grown;
    if n > 0 {
      ThroughLink(cfg, Passed(cfg, s, ws[0]), l, ws[1..], n - 1);
    }
  }

  /** One packet and then n more. */
  lemma ReachedMore(cfg: Config, s: Session, u: Session, ws: seq<WirePacket>, n: nat, t: Session)
    requires ws != [] && AllSendable(cfg, ws) && Reached(cfg, s, ws, 1, u) && Reached(cfg, u, ws[1..], n, t)
    ensures Reached(cfg, s, ws, n + 1, t)
  {
    hide Passed, Sendable;
    var v := Passed(cfg, s, ws[0]);
    assert Bytes(ws, 1) == Size(ws[0]);
    assert Through(cfg, s, ws, 1) == v;
    ThroughLink(cfg, v, u.link, ws[1..], n);
    assert Through(cfg, s, ws, n + 1) == Through(cfg, v, ws[1..], n);
    var all, rest := s.link.value.incoming, u.link.value.incoming;
    assert rest[Bytes(ws[1..], n)..] == all[Bytes(ws, n + 1)..];
  }

  /** Time that passed on the connection before the first packet does not matter. */
  lemma ReachedLater(cfg: Config, s: Session, u: Session, ws: seq<WirePacket>, n: nat, t: Session)
    requires s.link.Some? && u.link.Some? && u == s.(link := u.link) && u.link.value.incoming == s.link.value.incoming
    requires Reached(cfg, u, ws, n, t)
    ensures Reached(cfg, s, ws, n, t)
  {
    hide Sendable;
    ThroughLink(cfg, s, u.link, ws, n);
  }

  /** A receive that gets the first packet reaches one packet further. */
  lemma ReachedOne(cfg: Config, s: Session, out: Outcome, ws: seq<WirePacket>)
    requires Real(cfg) && s.link.Some? && ws != [] && AllSendable(cfg, ws) && |s.link.value.incoming| >= Size(ws[0])
    requires out.admitted == Admitted(ws[0]) && out.heard == Heard(cfg, s.cap, ws[0])
    requires out.net.incoming == s.link.value.incoming[Size(ws[0])..]
    ensures Reached(cfg, s, ws, 1, Settle(s, out))
  {
    hide Settle, Heard, Passed;
    SettlePassed(cfg, s, out, ws[0]);
    assert Bytes(ws, 1) == Size(ws[0]);
    assert Through(cfg, s, ws, 1) == Passed(cfg, s, ws[0]);
  }

  // The events of a stream.

  /** The packets decoded of the first n. */
  function HeardAll(cfg: Config, cap: nat, ws: seq<WirePacket>, n: nat): seq<PacketValue>
    requires AllSendable(cfg, ws) && n <= |ws|
    decreases n
  {
    if n == 0 then []
    else
      (match Heard(cfg, cap, ws[0]) case None => [] case Some(p) => [p])
      + HeardAll(cfg, Grown(cap, ws[0]), ws[1..], n - 1)
  }

  /** The last event with a payload among the first n packets, or else what was there before. */
  function LastEventOn(ws: seq<WirePacket>, n: nat, before: u8): u8
    requires n <= |ws|
    decreases n
  {
    if n == 0 then before
    else if IsEvent(ws[n - 1]) && ws[n - 1].payload != [] then ws[n - 1].payload[0]
    else LastEventOn(ws, n - 1, before)
  }

  /** The last one that is no change of camera settings, which is event 11. */
  function StateEventOn(ws: seq<WirePacket>, n: nat, before: u8): u8
    requires n <= |ws|
    decreases n
  {
    if n == 0 then before
    else if IsEvent(ws[n - 1]) && ws[n - 1].payload != [] && ws[n - 1].payload[0] != 11 then ws[n - 1].payload[0]
    else StateEventOn(ws, n - 1, before)
  }

  lemma {:induction false} ThroughLog(cfg: Config, s: Session, ws: seq<WirePacket>, n: nat)
    requires AllSendable(cfg, ws) && n <= |ws|
    ensures Through(cfg, s, ws, n).log == s.log + HeardAll(cfg, s.cap, ws, n) && Through(cfg, s, ws, n).cap >= s.cap
    decreases n
  {
    hide Heard, Noted;
    if n > 0 {
      ThroughLog(cfg, Passed(cfg, s, ws[0]), ws[1..], n - 1);
    }
  }

  lemma {:induction false} LastEventFirst(ws: seq<WirePacket>, n: nat, before: u8)
    requires 0 < n <= |ws|
    ensures var w := ws[0];
      LastEventOn(ws, n, before)
      == LastEventOn(ws[1..], n - 1, if IsEvent(w) && w.payload != [] then w.payload[0] else before)
    ensures var w := ws[0];
      StateEventOn(ws, n, before)
      == StateEventOn(ws[1..], n - 1,
           if IsEvent(w) && w.payload != [] && w.payload[0] != 11 then w.payload[0] else before)
    decreases n
  {
    if n > 1 {
      LastEventFirst(ws, n - 1, before);
      assert ws[1..][n - 2] == ws[n - 1];
    }
  }

  /** Every event among the first n packets fits the buffer as it is by then. */
  predicate EventsFit(cap: nat, ws: seq<WirePacket>, n: nat)
    requires n <= |ws|
    decreases n
  {
    n == 0 || ((IsEvent(ws[0]) ==> Fits(cap, ws[0])) && EventsFit(Grown(cap, ws[0]), ws[1..], n - 1))
  }

  /** When every event fits the buffer, last event and state are those of the events on the wire. */
  lemma {:induction false} ThroughEvents(cfg: Config, s: Session, ws: seq<WirePacket>, n: nat)
    requires AllSendable(cfg, ws) && n <= |ws| && EventsFit(s.cap, ws, n)
    ensures Through(cfg, s, ws, n).last == LastEventOn(ws, n, s.last)
    ensures Through(cfg, s, ws, n).state == StateEventOn(ws, n, s.state)
    decreases n
  {
    hide Heard, Sendable;
    if n > 0 {
      LastEventFirst(ws, n, s.last);
      LastEventFirst(ws, n, s.state);
      ThroughEvents(cfg, Passed(cfg, s, ws[0]), ws[1..], n - 1);
    }
  }

  /** An event larger than the buffer is lost: it is heard as an error, and neither last event nor state change. */
  lemma EventLost(cfg: Config, s: Session, w: WirePacket)
    requires Real(cfg) && Sendable(cfg, w) && IsEvent(w) && !Fits(s.cap, w)
    ensures var t := Passed(cfg, s, w);
      t.last == s.last && t.state == s.state && t.log == s.log + [Blank(ERROR_PACKET).(errorResponse := Trim(w.payload))]
  {
    ZeroHeader(cfg.order, w.payload);
    assert cfg.decode(Zeros(PACKET_HEADER_SIZE) + w.payload) == DecodePacket(cfg.order, Zeros(PACKET_HEADER_SIZE) + w.payload);
  }

  // Many packets, polled for.

  /** Receives with the waits ds, one after the other, until n packets have come; polls that ran into their
      deadline before anything came are not recorded. */
  function Poll(cfg: Config, s: Session, ds: seq<int>, n: nat): (seq<Reply>, Session)
    decreases |ds|
  {
    if ds == [] || n == 0 then ([], s)
    else
      var (r, t) := Receive(cfg, s, ds[0]);
      if IsIdle(r) then Poll(cfg, t, ds[1..], n)
      else
        var (rs, u) := Poll(cfg, t, ds[1..], n - 1);
        ([r] + rs, u)
  }

  function GivenAll(cfg: Config, cap: nat, ws: seq<WirePacket>): seq<Reply>
    requires AllSendable(cfg, ws)
    decreases |ws|
  {
    if ws == [] then [] else [Given(cfg, cap, ws[0])] + GivenAll(cfg, Grown(cap, ws[0]), ws[1..])
  }

  /** The stream starts with the packets ws, one right after the other. */
  ghost predicate OnWire(cfg: Config, net: Net, ws: seq<WirePacket>) {
    AllSendable(cfg, ws) && EncodeAll(cfg, ws) <= Data(net.incoming)
  }

  /** A poll that a deadline does not cut inside a packet finds nothing and takes nothing, or takes the packet. */
  lemma PollStep(cfg: Config, net: Net, cap: nat, d: int, w: WirePacket)
    requires Next(cfg, net, w) && (Missed(Until(net.now, d), NextAt(net)) || Uncut(cfg, net, d, w))
    ensures var out := ReceiveOn(cfg, net, cap, d);
      |net.incoming| >= Size(w) &&
      if Missed(Until(net.now, d), NextAt(net)) then Idle(net, out, d) && out.net.incoming == net.incoming
      else out.reply == Given(cfg, cap, w) && out.net.incoming == net.incoming[Size(w)..]
           && out.net == After(net, Size(w)) && out.admitted == Admitted(w) && out.heard == Heard(cfg, cap, w)
  {
    hide ReceiveOn, Uncut;
    if Missed(Until(net.now, d), NextAt(net)) {
      DataParts(cfg, net, w);
      HeaderTimeout(cfg, net, cap, d, Take(net, Until(net.now, d), PACKET_HEADER_SIZE));
    } else {
      Delivered(cfg, net, cap, d, w);
    }
  }

  lemma FirstOnWire(cfg: Config, net: Net, ws: seq<WirePacket>)
    requires ws != [] && OnWire(cfg, net, ws)
    ensures Next(cfg, net, ws[0]) && |net.incoming| >= Size(ws[0]) && AllSendable(cfg, ws[1..])
    ensures forall after: Net :: after.incoming == net.incoming[Size(ws[0])..] ==> OnWire(cfg, after, ws[1..])
  {
    hide Encode;
    var first, rest, d := Encode(cfg.order, ws[0]), EncodeAll(cfg, ws[1..]), Data(net.incoming);
    var all := first + rest;
    assert all == d[..|all|];
    assert first == all[..|first|] == d[..|first|];
    assert Data(net.incoming[Size(ws[0])..]) == d[|first|..];
    assert rest == all[|first|..] == d[|first|..][..|rest|];
  }

  lemma {:induction false} GivenLength(cfg: Config, cap: nat, ws: seq<WirePacket>)
    requires AllSendable(cfg, ws)
    ensures |GivenAll(cfg, cap, ws)| == |ws|
    decreases |ws|
  {
    if ws != [] {
      GivenLength(cfg, Grown(cap, ws[0]), ws[1..]);
    }
  }

  /** A packet is never mistaken for a poll that found nothing. */
  lemma NotIdle(cfg: Config, cap: nat, w: WirePacket)
    requires Real(cfg) && Sendable(cfg, w)
    ensures !IsIdle(Given(cfg, cap, w))
  {
    if w.payload != [] {
      GivenIsDeserved(cfg, cap, w);
      DecodedFields(cfg, w);
    }
  }

  /** No deadline of the waits ds falls inside one of the packets ws. */
  ghost predicate Whole(cfg: Config, s: Session, ds: seq<int>, ws: seq<WirePacket>)
    requires s.link.Some?
    decreases |ds|
  {
    ds != [] && ws != [] ==>
      var net, t := s.link.value, Receive(cfg, s, ds[0]).1;
      t.link.Some? &&
      if Missed(Until(net.now, ds[0]), NextAt(net)) then Whole(cfg, t, ds[1..], ws)
      else Uncut(cfg, net, ds[0], ws[0]) && Whole(cfg, t, ds[1..], ws[1..])
  }

  /** What polling for the packets ws answered: the replies to the first of them, in order, from a client that has
      taken exactly those. */
  ghost predicate InOrder(cfg: Config, s: Session, ds: seq<int>, ws: seq<WirePacket>, rs: seq<Reply>, t: Session) {
    AllSendable(cfg, ws) && |rs| <= |ws| && |GivenAll(cfg, s.cap, ws)| == |ws| && rs == GivenAll(cfg, s.cap, ws)[..|rs|]
    && Reached(cfg, s, ws, |rs|, t)
    && ((forall i :: 0 <= i < |ds| ==> ds[i] <= 0) ==> |rs| == if |ds| < |ws| then |ds| else |ws|)
  }

  lemma InOrderMore(cfg: Config, s: Session, u: Session, ds: seq<int>, ws: seq<WirePacket>, rs: seq<Reply>, t: Session)
    requires ds != [] && ws != [] && AllSendable(cfg, ws) && Reached(cfg, s, ws, 1, u) && u.cap == Grown(s.cap, ws[0])
    requires InOrder(cfg, u, ds[1..], ws[1..], rs, t)
    ensures InOrder(cfg, s, ds, ws, [Given(cfg, s.cap, ws[0])] + rs, t)
  {
    hide Given, Sendable, Reached;
    ReachedMore(cfg, s, u, ws, |rs|, t);
    var all, later := GivenAll(cfg, s.cap, ws), GivenAll(cfg, u.cap, ws[1..]);
    assert all == [all[0]] + later;
    assert all[..|rs| + 1] == [all[0]] + later[..|rs|];
  }

  /** However the stream is cut up, and however the polls are timed as long as no deadline falls inside a packet:
      packets come in order, each one once and whole, and the client has taken exactly those, with the events
      among them. A poll without deadline always brings one. */
  lemma {:induction false} PollDelivers(cfg: Config, s: Session, ds: seq<int>, ws: seq<WirePacket>)
    requires Real(cfg) && s.link.Some? && OnWire(cfg, s.link.value, ws) && Whole(cfg, s, ds, ws)
    ensures var (rs, t) := Poll(cfg, s, ds, |ws|); InOrder(cfg, s, ds, ws, rs, t)
    decreases |ds|
  {
    hide ReceiveOn, GivenAll, Given, IsIdle, After, Encode, Uncut, Next, Heard, OnWire, Passed;
    assert AllSendable(cfg, ws) by {
      WireSendable(cfg, s.link.value, ws);
    }
    GivenLength(cfg, s.cap, ws);
    if ds != [] && ws != [] {
      var net := s.link.value;
      FirstOnWire(cfg, net, ws);
      PollStep(cfg, net, s.cap, ds[0], ws[0]);
      var out := ReceiveOn(cfg, net, s.cap, ds[0]);
      var t := Settle(s, out);
      if Missed(Until(net.now, ds[0]), NextAt(net)) {
        SameWire(cfg, net, t.link.value, ws);
        PollDelivers(cfg, t, ds[1..], ws);
        var (rs, u) := Poll(cfg, t, ds[1..], |ws|);
        ReachedLater(cfg, s, t, ws, |rs|, u);
      } else {
        ReachedOne(cfg, s, out, ws);
        SettledCap(s, out, ws[0]);
        NotIdle(cfg, s.cap, ws[0]);
        PollDelivers(cfg, t, ds[1..], ws[1..]);
        var (rs, u) := Poll(cfg, t, ds[1..], |ws| - 1);
        InOrderMore(cfg, s, t, ds, ws, rs, u);
      }
    }
  }

  /** Polling has heard exactly the packets it delivered. When the events among them fit the buffer, last event and
      state are the last ones on the wire. */
  lemma PollHears(cfg: Config, s: Session, ds: seq<int>, ws: seq<WirePacket>)
    requires Real(cfg) && s.link.Some? && OnWire(cfg, s.link.value, ws) && Whole(cfg, s, ds, ws)
    ensures var (rs, t) := Poll(cfg, s, ds, |ws|);
      && AllSendable(cfg, ws) && |rs| <= |ws| && t.log == s.log + HeardAll(cfg, s.cap, ws, |rs|)
      && (EventsFit(s.cap, ws, |rs|) ==>
          t.last == LastEventOn(ws, |rs|, s.last) && t.state == StateEventOn(ws, |rs|, s.state))
  {
    hide Poll, GivenAll, Sendable, Whole;
    PollDelivers(cfg, s, ds, ws);
    var (rs, t) := Poll(cfg, s, ds, |ws|);
    ThroughLog(cfg, s, ws, |rs|);
    if EventsFit(s.cap, ws, |rs|) {
      ThroughEvents(cfg, s, ws, |rs|);
    }
  }

  // A condition on the arrivals alone under which no deadline cuts a packet.

  /** The packets follow each other on the stream, in any number of pieces. The bytes of a header come together,
      and those of a body before the read timeout has passed since. */
  ghost predicate Paced(cfg: Config, incoming: seq<Arrival>, ws: seq<WirePacket>)
    decreases |ws|
  {
    ws != [] ==>
      var w := ws[0];
      Sendable(cfg, w) && Encode(cfg.order, w) <= Data(incoming)
      && (forall i :: 0 <= i < PACKET_HEADER_SIZE ==> incoming[i].at == incoming[0].at)
      && (cfg.readTimeout > 0 ==>
        forall i :: PACKET_HEADER_SIZE <= i < Size(w) ==> incoming[i].at < incoming[0].at + cfg.readTimeout)
      && Paced(cfg, incoming[Size(w)..], ws[1..])
  }

  /** A packet whose first byte comes in time comes whole. */
  lemma PacedUncut(cfg: Config, net: Net, d: int, ws: seq<WirePacket>)
    requires ws != [] && Paced(cfg, net.incoming, ws)
    ensures Next(cfg, net, ws[0]) && |net.incoming| >= Size(ws[0])
    ensures !Missed(Until(net.now, d), NextAt(net)) ==> Uncut(cfg, net, d, ws[0])
  {
    hide Take, Encode, Get32;
    var w, deadline := ws[0], Until(net.now, d);
    assert |Data(net.incoming)| == |net.incoming| >= Size(w);
    if !Missed(deadline, NextAt(net)) {
      TakeArrived(net, deadline, PACKET_HEADER_SIZE);
      var h := Take(net, deadline, PACKET_HEADER_SIZE).net;
      if cfg.readTimeout > 0 {
        assert InTime(h, |w.payload|, h.now + cfg.readTimeout);
        TakeInTime(h, Until(h.now, cfg.readTimeout), |w.payload|, h.now + cfg.readTimeout);
      } else {
        TakeWithoutDeadline(h, |w.payload|);
      }
    }
  }

  /** Then no timing of polls cuts a packet. */
  lemma {:induction false} PacedWhole(cfg: Config, s: Session, ds: seq<int>, ws: seq<WirePacket>)
    requires s.link.Some? && Paced(cfg, s.link.value.incoming, ws)
    ensures Whole(cfg, s, ds, ws)
    decreases |ds|
  {
    hide ReceiveOn, Uncut, Take, Given, After, Encode;
    if ds != [] && ws != [] {
      PacedUncut(cfg, s.link.value, ds[0], ws);
      PollStep(cfg, s.link.value, s.cap, ds[0], ws[0]);
      var t := Receive(cfg, s, ds[0]).1;
      PacedWhole(cfg, t, ds[1..], if Missed(Until(Now(s), ds[0]), NextAt(s.link.value)) then ws else ws[1..]);
    }
  }

  lemma WireSendable(cfg: Config, net: Net, ws: seq<WirePacket>)
    requires OnWire(cfg, net, ws)
    ensures AllSendable(cfg, ws)
  {
  }

  lemma SameWire(cfg: Config, net: Net, after: Net, ws: seq<WirePacket>)
    requires OnWire(cfg, net, ws) && after.incoming == net.incoming
    ensures OnWire(cfg, after, ws)
  {
  }

  /** The capacity after a receive that took a packet. */
  lemma SettledCap(s: Session, out: Outcome, w: WirePacket)
    requires out.admitted == Admitted(w)
    ensures Settle(s, out).cap == Grown(s.cap, w) && Settle(s, out).link == Some(out.net)
  {
  }
}
