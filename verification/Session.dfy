/** The client's session as a state machine on values: receiving, skipping events, sending, negotiating. */
module Sessions {
  import opened Wire
  import opened PacketValues
  import opened Network
  import opened Versions

  const START_BUFFER_SIZE := 4096
  const COMMAND_TIMEOUT := 5_000_000_000
  const CAMERA_SETTINGS_CHANGED := 11
  const EVENT_NONE := 17

  datatype Err =
    | Nil | NotConnected | Closed | HeaderRead | BadSize | TooBig | Truncated | BodyRead | BadPacket | ErrorReply
    | TimedOut | WriteFailed | UnexpectedReply | DialFailed | BadWelcome | VersionNotSupported
    | BadRequest

  /** Settings of a client. decode turns a whole packet, header included, into a value. */
  datatype Config = Config(order: Order, readTimeout: int, connectTimeout: int, limit: int, want: Version,
                           negotiate: bool, decode: bytes -> Option<PacketValue>)

  /** cap is the receive buffer's capacity and sizes the body-carrying packet sizes admitted to it, sent all
      packets written and log all packets decoded, on this connection and earlier ones. Those from `since` on
      have been decoded since the current connection was dialed. */
  datatype Session = Session(link: Option<Net>, cap: nat, sizes: seq<nat>, last: u8, state: u8, version: Version,
                             sent: seq<bytes>, log: seq<PacketValue>, since: nat)

  const START := Session(None, START_BUFFER_SIZE, [], EVENT_NONE, EVENT_NONE, Version(0, 0), [], [], 0)

  datatype Reply = Reply(packet: PacketValue, err: Err)

  // Receiving.

  /** One receive on an open connection: the reply, the connection after it, the size admitted to the buffer (0
      when none was) and the packet decoded, if one was. */
  datatype Outcome = Outcome(reply: Reply, net: Net, admitted: nat, heard: Option<PacketValue>)

  function Failed(e: Err): Reply { Reply(Blank(NONE_PACKET), e) }

  function ReceiveOn(cfg: Config, net: Net, cap: nat, d: int): Outcome {
    var h := Take(net, Until(net.now, d), PACKET_HEADER_SIZE);
    match h.status
    case Timeout => Outcome(Reply(Blank(NO_MORE_DATA_PACKET), Nil), h.net, 0, None)
    case AtEof => Outcome(Failed(if h.got == [] then Closed else HeaderRead), h.net, 0, None)
    case Broken => Outcome(Failed(HeaderRead), h.net, 0, None)
    case Full =>
      TakeConserves(net, Until(net.now, d), PACKET_HEADER_SIZE);
      var size := Get32(cfg.order, h.got, 0);
      if size < PACKET_HEADER_SIZE then Outcome(Failed(BadSize), h.net, 0, None)
      else if size > cfg.limit then Outcome(Failed(TooBig), h.net, 0, None)
      else if size == PACKET_HEADER_SIZE then
        Outcome(Reply(Blank(Get32(cfg.order, h.got, 4)).(size := size), Nil), h.net, 0, None)
      else ReceiveBody(cfg, h.net, if size <= cap then h.got else Zeros(PACKET_HEADER_SIZE), size)
  }

  /** Once the header is read the body must follow. header is what the buffer holds in its first eight bytes: a
      buffer that had to grow is a new one, and the header read into the old one is not copied. */
  function ReceiveBody(cfg: Config, net: Net, header: bytes, size: u32): Outcome
    requires size >= PACKET_HEADER_SIZE
  {
    var b := Take(net, Until(net.now, cfg.readTimeout), size - PACKET_HEADER_SIZE);
    match b.status
    case Timeout => Outcome(Failed(Truncated), b.net, size, None)
    case AtEof => Outcome(Failed(Truncated), b.net, size, None)
    case Broken => Outcome(Failed(BodyRead), b.net, size, None)
    case Full =>
      match cfg.decode(header + b.got)
      case None => Outcome(Failed(BadPacket), b.net, size, None)
      case Some(p) => Outcome(Reply(p, if p.ptype == ERROR_PACKET then ErrorReply else Nil), b.net, size, Some(p))
  }

  function Settle(s: Session, out: Outcome): Session {
    var t := s.(link := Some(out.net));
    var u := if out.admitted == 0 then t else t.(cap := Max(s.cap, out.admitted), sizes := s.sizes + [out.admitted]);
    match out.heard
    case None => u
    case Some(p) =>
      var v := u.(log := s.log + [p]);
      if p.ptype != EVENT_PACKET then v
      else v.(last := p.event, state := if p.event == CAMERA_SETTINGS_CHANGED then s.state else p.event)
  }

  function Receive(cfg: Config, s: Session, d: int): (Reply, Session) {
    match s.link
    case None => (Failed(NotConnected), s)
    case Some(net) =>
      var out := ReceiveOn(cfg, net, s.cap, d);
      (out.reply, Settle(s, out))
  }

  function Pending(s: Session): nat { if s.link == None then 0 else |s.link.value.incoming| }

  function Now(s: Session): nat { if s.link == None then 0 else s.link.value.now }

  lemma BodyProgress(cfg: Config, net: Net, header: bytes, size: u32)
    requires size >= PACKET_HEADER_SIZE
    ensures var out := ReceiveBody(cfg, net, header, size);
      out.net.now >= net.now && |out.net.incoming| <= |net.incoming|
  {
    TakeConserves(net, Until(net.now, cfg.readTimeout), size - PACKET_HEADER_SIZE);
  }

  lemma OutcomeProgress(cfg: Config, net: Net, cap: nat, d: int)
    ensures var out := ReceiveOn(cfg, net, cap, d);
      out.net.now >= net.now && |out.net.incoming| <= |net.incoming|
    ensures var out := ReceiveOn(cfg, net, cap, d);
      out.reply.err == Nil ==> |out.net.incoming| + PACKET_HEADER_SIZE <= |net.incoming| || Idle(net, out, d)
  {
    var h := Take(net, Until(net.now, d), PACKET_HEADER_SIZE);
    TakeConserves(net, Until(net.now, d), PACKET_HEADER_SIZE);
    if h.status == Full && Get32(cfg.order, h.got, 0) > PACKET_HEADER_SIZE {
      var size := Get32(cfg.order, h.got, 0);
      BodyProgress(cfg, h.net, if size <= cap then h.got else Zeros(PACKET_HEADER_SIZE), size);
    }
  }

  /** A receive that ran into its deadline before it had a header. */
  predicate Idle(net: Net, out: Outcome, d: int) {
    IsIdle(out.reply) && d > 0 && out.net.now >= net.now + d
    && out.admitted == 0 && out.heard == None
  }

  predicate IsIdle(r: Reply) { r == Reply(Blank(NO_MORE_DATA_PACKET), Nil) }

  /** A receive with a nil error has taken at least a header, or it has run into its deadline. */
  lemma ReceiveProgress(cfg: Config, s: Session, d: int)
    ensures var (r, t) := Receive(cfg, s, d);
      t.link.Some? == s.link.Some? && Now(t) >= Now(s) && Pending(t) <= Pending(s) && t.version == s.version && t.sent == s.sent
    ensures var (r, t) := Receive(cfg, s, d);
      r.err == Nil ==> Pending(t) + PACKET_HEADER_SIZE <= Pending(s) || (d > 0 && Now(t) >= Now(s) + d && IsIdle(r))
  {
    if s.link.Some? {
      OutcomeProgress(cfg, s.link.value, s.cap, d);
    }
  }

  // Waiting for a reply.

  /** An event, or no more data with time left: not what the caller waits for. */
  predicate Skipped(r: Reply, t: Session, timeout: int, deadline: int) {
    r.err == Nil && (r.packet.ptype == EVENT_PACKET
      || (r.packet.ptype == NO_MORE_DATA_PACKET && (timeout <= 0 || Now(t) < deadline)))
  }

  /** No more data, when not skipped, means that time is up. */
  function Concluded(r: Reply): Reply {
    if r.err == Nil && r.packet.ptype == NO_MORE_DATA_PACKET then r.(err := TimedOut) else r
  }

  /** Receives until something other than an event or no-more-data comes, or the deadline passes. A timeout of
      zero or less means no deadline. */
  function SkipEvents(cfg: Config, s: Session, timeout: int, deadline: int): (Reply, Session)
    decreases Pending(s)
  {
    var wait := if timeout > 0 then deadline - Now(s) else 0;
    if timeout > 0 && wait <= 0 then (Failed(TimedOut), s)
    else
      var (r, t) := Receive(cfg, s, wait);
      ReceiveProgress(cfg, s, wait);
      if Skipped(r, t, timeout, deadline) then SkipEvents(cfg, t, timeout, deadline) else (Concluded(r), t)
  }

  function ReceiveSkippingEvents(cfg: Config, s: Session, timeout: int): (Reply, Session) {
    SkipEvents(cfg, s, timeout, Now(s) + timeout)
  }

  // Sending.

  /** A text packet: size, type, the text and a terminating NUL. The size field holds 32 bits. */
  function EncodeString(o: Order, text: bytes, ptype: u32): bytes {
    PutOrder32(o, (|text| + PACKET_HEADER_SIZE + 1) % 0x1_0000_0000) + PutOrder32(o, ptype) + text + [0]
  }

  function Send(cfg: Config, s: Session, text: bytes, ptype: u32): (Err, Session) {
    if s.link == None then (NotConnected, s)
    else if Missed(s.link.value.severedAt, Now(s)) then (WriteFailed, s)
    else (Nil, s.(sent := s.sent + [EncodeString(cfg.order, text, ptype)]))
  }

  function SendAndWait(cfg: Config, s: Session, text: bytes, ptype: u32, expected: seq<bytes>): (Err, Session) {
    var (e, t) := Send(cfg, s, text, ptype);
    if e != Nil then (e, t)
    else
      var (r, u) := ReceiveSkippingEvents(cfg, t, COMMAND_TIMEOUT);
      if r.err != Nil then (r.err, u)
      else if exists i :: 0 <= i < |expected| && EqualFold(r.packet.commandResponse, expected[i]) then (Nil, u)
      else (UnexpectedReply, u)
  }

  function SetVersion(cfg: Config, s: Session, v: Version): (Err, Session) {
    var (e, t) := SendAndWait(cfg, s, VersionCommand(v), COMMAND_PACKET, [VersionReply(v)]);
    if e != Nil then (e, t) else (Nil, t.(version := v))
  }

  function StateCommand(v: Version): bytes {
    if v.major == 1 && v.minor <= 9 then Ascii("GetLastEvent") else Ascii("GetState")
  }

  /** Every receive that does not end a wait makes this smaller. */
  function Left(s: Session, deadline: nat): nat { if Now(s) < deadline then 1 + Pending(s) else 0 }

  lemma AwaitProgress(cfg: Config, s: Session, deadline: nat)
    requires Now(s) < deadline
    ensures var (r, t) := Receive(cfg, s, deadline - Now(s)); r.err == Nil ==> Left(t, deadline) < Left(s, deadline)
  {
    hide Receive;
    ReceiveProgress(cfg, s, deadline - Now(s));
  }

  /** Receives until a packet comes that stops the wait; other packets are dropped. */
  function Await(cfg: Config, s: Session, deadline: nat, stop: PacketValue -> bool): (Reply, Session)
    decreases Left(s, deadline)
  {
    if Now(s) >= deadline then (Failed(TimedOut), s)
    else
      AwaitProgress(cfg, s, deadline);
      var (r, t) := Receive(cfg, s, deadline - Now(s));
      if r.err != Nil || stop(r.packet) then (r, t) else Await(cfg, t, deadline, stop)
  }

  predicate IsEventPacket(p: PacketValue) { p.ptype == EVENT_PACKET }

  /** An XML packet, or an error packet that is all header: one with a payload is a failed receive. */
  predicate IsSettings(p: PacketValue) { p.ptype == XML_PACKET || p.ptype == ERROR_PACKET }

  function Ask(cfg: Config, s: Session, text: bytes, stop: PacketValue -> bool): (Reply, Session) {
    var (e, t) := Send(cfg, s, text, COMMAND_PACKET);
    if e != Nil then (Failed(e), t) else Await(cfg, t, Now(t) + COMMAND_TIMEOUT, stop)
  }

  function GetState(cfg: Config, s: Session): (Reply, Session) { Ask(cfg, s, StateCommand(s.version), IsEventPacket) }

  // Connecting.

  function Welcome(): bytes { Ascii("QTM RT Interface connected") }

  function Disconnect(s: Session): Session {
    if s.link == None then s else s.(link := None, version := Version(0, 0))
  }

  function Dialed(s: Session, dialed: Option<Net>): Session { s.(link := dialed, since := |s.log|) }

  /** Tries versions in order; the first one confirmed is kept. */
  function Negotiate(cfg: Config, s: Session, vs: seq<Version>): (Err, Session)
    decreases |vs|
  {
    if vs == [] then (VersionNotSupported, Disconnect(s))
    else
      var (e, t) := SetVersion(cfg, s, vs[0]);
      if e == Nil then (Nil, GetState(cfg, t).1) else Negotiate(cfg, t, vs[1..])
  }

  function Connect(cfg: Config, s: Session, dialed: Option<Net>): (Err, Session) {
    var t := Disconnect(s);
    if dialed == None then (DialFailed, t)
    else
      var (r, u) := Receive(cfg, Dialed(t, dialed), cfg.connectTimeout);
      if r.err != Nil then (r.err, Disconnect(u))
      else if r.packet.commandResponse != Welcome() then (BadWelcome, Disconnect(u))
      else Negotiate(cfg, u, Ladder(cfg.want, cfg.negotiate))
  }
}
