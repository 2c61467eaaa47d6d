/** The client object: one connection, one reused receive buffer, and what it remembers. */
module Protocols {
  import opened Wire
  import opened PacketValues
  import opened Frames
  import opened DataPackets
  import opened Packets
  import opened Network
  import opened Versions
  import opened Sessions
  import Delivery
  import StreamTexts

  method PutUint32(data: array<u8>, at: nat, o: Order, v: u32)
    requires at + 4 <= data.Length
    modifies data
    ensures data[at..at + 4] == PutOrder32(o, v)
    ensures forall i :: 0 <= i < data.Length && !(at <= i < at + 4) ==> data[i] == old(data[i])
  {
    var b := PutOrder32(o, v);
    data[at], data[at + 1], data[at + 2], data[at + 3] := b[0], b[1], b[2], b[3];
  }

  class Protocol {
    var conn: Conn?
    var buffer: array<u8>
    var majorVersion: int
    var minorVersion: int
    var lastEvent: u8
    var state: u8

    const wantMajor: int
    const wantMinor: int
    const negotiateVersion: bool
    const order: Order
    const readTimeout: int
    const connectTimeout: int
    const maxPacketSize: int

    /** The settings, the sizes admitted to the buffer, the packets decoded, what was written on connections now
        closed, and how many packets had been decoded when the current one was dialed. */
    ghost const cfg: Config
    ghost var sizes: seq<nat>
    ghost var log: seq<PacketValue>
    ghost var past: seq<bytes>
    ghost var since: nat

    ghost predicate Settings() {
      && cfg.order == order && cfg.readTimeout == readTimeout && cfg.connectTimeout == connectTimeout
      && cfg.limit == maxPacketSize && cfg.want == Version(wantMajor, wantMinor) && cfg.negotiate == negotiateVersion
      && Delivery.Real(cfg)
    }

    ghost predicate Valid()
      reads this
    {
      Settings() && buffer.Length >= START_BUFFER_SIZE
    }

    /** The state machine's view of this client. */
    ghost function View(): Session
      reads this, conn
    {
      Session(if conn == null then None else Some(conn.net), buffer.Length, sizes, lastEvent, state,
        Version(majorVersion, minorVersion), if conn == null then past else past + conn.sent, log, since)
    }

    constructor (order: Order, readTimeout: int, connectTimeout: int, maxPacketSize: int, want: Version, negotiate: bool)
      ensures Valid() && View() == START && fresh(buffer) && buffer.Length == 4096 && lastEvent == state == 17
      ensures cfg.order == order && cfg.readTimeout == readTimeout && cfg.connectTimeout == connectTimeout
      ensures cfg.limit == maxPacketSize && cfg.want == want && cfg.negotiate == negotiate
    {
      conn, buffer := null, new u8[START_BUFFER_SIZE];
      majorVersion, minorVersion, lastEvent, state := 0, 0, EVENT_NONE, EVENT_NONE;
      wantMajor, wantMinor, negotiateVersion := want.major, want.minor, negotiate;
      this.order, this.readTimeout, this.connectTimeout := order, readTimeout, connectTimeout;
      this.maxPacketSize := maxPacketSize;
      cfg := Config(order, readTimeout, connectTimeout, maxPacketSize, want, negotiate, Decoding(order));
      sizes, log, past, since := [], [], [], 0;
    }

    /** The next packet, if its header is there within d (d of zero or less: whenever it comes). The packet is a new object, made of new objects
        only: neither the buffer nor anything handed out before is part of it. */
    method ReceiveTimeout(d: int) returns (p: Packet, err: Err)
      requires Valid()
      modifies this, buffer, conn
      ensures Valid() && conn == old(conn) && (buffer == old(buffer) || fresh(buffer))
      ensures Owned(p) && fresh(p) && fresh(p.Footprint())
      ensures Receive(cfg, old(View()), d) == (Reply(p.Value(), err), View())
    {
      hide Take, Get32, Settle, Sessions.ReceiveBody, ReceiveOn, Delivery.Real;
      if conn == null {
        p := new Packet(NONE_PACKET, None);
        return p, NotConnected;
      }
      ghost var s, net := View(), conn.net;
      conn.SetReadDeadline(d);
      var n, status := ReadFull(conn, buffer, 0, PACKET_HEADER_SIZE);
      ghost var h := Taken(buffer[0..n], status, conn.net);
      if status != Full {
        err := if status == Timeout then Nil else if status == AtEof && n == 0 then Closed else HeaderRead;
        p := new Packet(if status == Timeout then NO_MORE_DATA_PACKET else NONE_PACKET, None);
        NoHeader(cfg, s, net, d, h, p.Value(), err);
        return;
      }
      TakeConserves(net, Until(net.now, d), PACKET_HEADER_SIZE);
      var size := ReadOrder32(order, buffer, 0, PACKET_HEADER_SIZE, 0);
      var ptype := ReadOrder32(order, buffer, 0, PACKET_HEADER_SIZE, 4);
      if size < PACKET_HEADER_SIZE || size > maxPacketSize || size == PACKET_HEADER_SIZE {
        err := if size < PACKET_HEADER_SIZE then BadSize else if size > maxPacketSize then TooBig else Nil;
        if err == Nil {
          p := HeaderOnly(ptype, size);
        } else {
          p := new Packet(NONE_PACKET, None);
        }
        NoBody(cfg, s, net, d, h, size, ptype, p.Value(), err);
        return;
      }
      if buffer.Length < size {
        buffer := new u8[size](_ => 0);
      }
      assert buffer[..PACKET_HEADER_SIZE] == if size <= s.cap then h.got else Zeros(PACKET_HEADER_SIZE);
      WithBody(cfg, s, net, d, h, size, View());
      p, err := ReceiveBody(size);
    }

    /** A packet that is all header is not decoded. */
    method HeaderOnly(ptype: u32, size: u32) returns (p: Packet)
      ensures Owned(p) && fresh(p) && fresh(p.Footprint()) && p.Value() == Blank(ptype).(size := size)
    {
      p := new Packet(ptype, Some(order));
      p.size := size;
      assert p.data.Value() == FrameValue(0, 0, []) && p.file.Value() == FileValue(0, 0, []);
    }

    ghost predicate Owned(p: Packet)
      reads this, p, p.data, p.file, p.data.Repr
    {
      p.Valid() && buffer !in p.Footprint()
    }

    /** The packet in the first size bytes of the buffer, as a new object. */
    method Decode(size: nat) returns (p: Packet, ok: bool)
      requires size <= buffer.Length
      ensures Owned(p) && fresh(p) && fresh(p.Footprint()) && (!ok ==> p.Value() == Blank(NONE_PACKET))
      ensures DecodePacket(order, buffer[0..size]) == if ok then Some(p.Value()) else None
    {
      hide WithPayload;
      p := new Packet(ERROR_PACKET, Some(order));
      ok := p.UnmarshalBinary(buffer, 0, size);
      if !ok {
        p := new Packet(NONE_PACKET, None);
      }
    }

    /** An event changes the last event, and the state too unless it announces changed camera settings. */
    method Remember(ptype: u32, event: u8, ghost p: PacketValue)
      modifies `log, `lastEvent, `state
      ensures log == old(log) + [p] && lastEvent == (if ptype == EVENT_PACKET then event else old(lastEvent))
      ensures state == if ptype == EVENT_PACKET && event != CAMERA_SETTINGS_CHANGED then event else old(state)
    {
      log := log + [p];
      if ptype == EVENT_PACKET {
        lastEvent := event;
        if event != CAMERA_SETTINGS_CHANGED {
          state := event;
        }
      }
    }

    /** Decodes the first size bytes of the buffer, and remembers what was heard. */
    method Accept(size: nat) returns (p: Packet, err: Err)
      requires Valid() && size <= buffer.Length
      modifies `log, `lastEvent, `state
      ensures Owned(p) && fresh(p) && fresh(p.Footprint())
      ensures Accepted(cfg.decode(buffer[0..size]), old(View()), View(), Reply(p.Value(), err))
    {
      hide DecodePacket;
      var ok;
      p, ok := Decode(size);
      if !ok {
        return p, BadPacket;
      }
      Remember(p.ptype, p.event, p.Value());
      err := if p.ptype == ERROR_PACKET then ErrorReply else Nil;
    }

    /** The rest of a packet whose header has been read, and what it means for this client. */
    method ReceiveBody(size: u32) returns (p: Packet, err: Err)
      requires Valid() && conn != null && PACKET_HEADER_SIZE < size <= buffer.Length
      modifies this, buffer, conn
      ensures Valid() && conn == old(conn) && buffer == old(buffer)
      ensures Owned(p) && fresh(p) && fresh(p.Footprint())
      ensures var out := Sessions.ReceiveBody(cfg, old(conn.net), old(buffer[..PACKET_HEADER_SIZE]), size);
        out.reply == Reply(p.Value(), err) && View() == Settle(old(View()), out)
    {
      hide Take, Sessions.ReceiveBody, Delivery.Real, Settle, Accepted;
      ghost var s, net, header := View(), conn.net, buffer[..PACKET_HEADER_SIZE];
      sizes := sizes + [size];
      conn.SetReadDeadline(readTimeout);
      var n, status := ReadFull(conn, buffer, PACKET_HEADER_SIZE, size);
      ghost var b := Taken(buffer[PACKET_HEADER_SIZE..PACKET_HEADER_SIZE + n], status, conn.net);
      if status != Full {
        err := if status == Broken then BodyRead else Truncated;
        p := new Packet(NONE_PACKET, None);
        BodyLost(cfg, s, net, header, size, b, View(), err);
        return;
      }
      TakeConserves(net, Until(net.now, readTimeout), size - PACKET_HEADER_SIZE);
      assert buffer[0..size] == header + b.got;
      ghost var u := View();
      p, err := Accept(size);
      BodyHeard(cfg, s, net, header, size, b, u, View(), Reply(p.Value(), err));
    }

    /** The time, as far as the connection shows it. */
    method Clock() returns (t: nat)
      ensures t == Now(View())
    {
      t := if conn == null then 0 else conn.net.now;
    }

    /** Reads until something other than an event arrives or the deadline passes. */
    method ReceiveSkippingEvents(timeout: int) returns (p: Packet, err: Err)
      requires Valid()
      modifies this, buffer, conn
      ensures Valid() && conn == old(conn) && (buffer == old(buffer) || fresh(buffer))
      ensures Owned(p) && fresh(p) && fresh(p.Footprint())
      ensures Sessions.ReceiveSkippingEvents(cfg, old(View()), timeout) == (Reply(p.Value(), err), View())
    {
      hide SkipEvents, Delivery.Real;
      ghost var start := View();
      var now := Clock();
      var deadline := now + timeout;
      while true
        invariant Valid() && conn == old(conn) && (buffer == old(buffer) || fresh(buffer))
        invariant SkipEvents(cfg, start, timeout, deadline) == SkipEvents(cfg, View(), timeout, deadline)
        decreases Pending(View())
      {
        var again;
        p, err, again := ReceiveUnlessEvent(timeout, deadline);
        if !again {
          return;
        }
      }
    }

    /** One turn of that loop; again says that what came is skipped. */
    method ReceiveUnlessEvent(timeout: int, deadline: int) returns (p: Packet, err: Err, again: bool)
      requires Valid()
      modifies this, buffer, conn
      ensures Valid() && conn == old(conn) && (buffer == old(buffer) || fresh(buffer))
      ensures Owned(p) && fresh(p) && fresh(p.Footprint())
      ensures SkipEvents(cfg, old(View()), timeout, deadline)
              == if again then SkipEvents(cfg, View(), timeout, deadline) else (Reply(p.Value(), err), View())
      ensures again ==> Pending(View()) < Pending(old(View()))
    {
      hide Receive, SkipEvents, Delivery.Real;
      SkipStep(cfg, View(), timeout, deadline);
      var wait := 0;
      var now := Clock();
      if timeout > 0 {
        wait := deadline - now;
        if wait <= 0 {
          p := new Packet(NONE_PACKET, None);
          return p, TimedOut, false;
        }
      }
      p, err := ReceiveTimeout(wait);
      again := false;
      if err == Nil {
        now := Clock();
        if p.ptype == EVENT_PACKET {
          again := true;
        } else if p.ptype == NO_MORE_DATA_PACKET {
          if timeout > 0 && now >= deadline {
            err := TimedOut;
          } else {
            again := true;
          }
        }
      }
    }

    /** Frames a text and writes it. */
    method SendString(text: bytes, ptype: u32) returns (err: Err)
      requires Valid()
      modifies conn
      ensures Valid() && Send(cfg, old(View()), text, ptype) == (err, View())
    {
      hide PutOrder32, Delivery.Real;
      if conn == null {
        return NotConnected;
      }
      var size := |text| + PACKET_HEADER_SIZE + 1;
      var data := new u8[size](_ => 0);
      PutUint32(data, 0, order, size % 0x1_0000_0000);
      PutUint32(data, 4, order, ptype);
      var i := 0;
      while i < |text|
        invariant 0 <= i <= |text|
        invariant data[..PACKET_HEADER_SIZE] == PutOrder32(order, size % 0x1_0000_0000) + PutOrder32(order, ptype)
        invariant data[PACKET_HEADER_SIZE..PACKET_HEADER_SIZE + i] == text[..i]
        invariant data[size - 1] == 0
        modifies data
      {
        data[PACKET_HEADER_SIZE + i] := text[i];
        i := i + 1;
      }
      assert data[..] == data[..PACKET_HEADER_SIZE] + data[PACKET_HEADER_SIZE..PACKET_HEADER_SIZE + i] + [data[size - 1]];
      assert data[..] == EncodeString(order, text, ptype);
      var ok := conn.Write(data[..]);
      err := if ok then Nil else WriteFailed;
      assert ok ==> past + conn.sent == old(past + conn.sent) + [EncodeString(order, text, ptype)];
    }

    /** Asks for a stream of frames; what cannot be asked for is not sent. */
    method StreamFrames(rate: int, value: int, udpPort: int, udpAddr: bytes, opts: StreamTexts.Options, kinds: seq<int>)
      returns (err: Err)
      requires Valid()
      modifies conn
      ensures Valid() && match StreamTexts.Requested(rate, value, udpPort, udpAddr, opts, kinds)
        case None => err == BadRequest && View() == old(View())
        case Some(r) => Send(cfg, old(View()), StreamTexts.StreamCommand(r), COMMAND_PACKET) == (err, View())
    {
      hide StreamTexts.StreamCommand, StreamTexts.Requested, Send, Delivery.Real;
      var command := StreamTexts.StreamFrames(rate, value, udpPort, udpAddr, opts, kinds);
      if command == None {
        return BadRequest;
      }
      err := SendString(command.value, COMMAND_PACKET);
    }

    /** Sends a text and waits for one of the expected responses. */
    method SendAndWaitForResponse(text: bytes, ptype: u32, expected: seq<bytes>) returns (err: Err)
      requires Valid()
      modifies this, buffer, conn
      ensures Valid() && conn == old(conn) && (buffer == old(buffer) || fresh(buffer))
      ensures SendAndWait(cfg, old(View()), text, ptype, expected) == (err, View())
    {
      hide Send, Sessions.ReceiveSkippingEvents, EqualFold, Delivery.Real;
      err := SendString(text, ptype);
      if err != Nil {
        return;
      }
      var p;
      p, err := ReceiveSkippingEvents(COMMAND_TIMEOUT);
      if err != Nil {
        return;
      }
      var i := 0;
      while i < |expected|
        invariant 0 <= i <= |expected|
        invariant forall j :: 0 <= j < i ==> !EqualFold(p.commandResponse, expected[j])
        modifies {}
      {
        if EqualFold(p.commandResponse, expected[i]) {
          return Nil;
        }
        i := i + 1;
      }
      err := UnexpectedReply;
    }

    method SetVersion(major: int, minor: int) returns (err: Err)
      requires Valid()
      modifies this, buffer, conn
      ensures Valid() && conn == old(conn) && (buffer == old(buffer) || fresh(buffer))
      ensures Sessions.SetVersion(cfg, old(View()), Version(major, minor)) == (err, View())
    {
      hide SendAndWait, VersionCommand, VersionReply;
      var v := Version(major, minor);
      err := SendAndWaitForResponse(VersionCommand(v), COMMAND_PACKET, [VersionReply(v)]);
      if err != Nil {
        return;
      }
      majorVersion, minorVersion := major, minor;
    }

    /** Asks for the state and waits for the event that answers. */
    method GetState() returns (event: u8, err: Err)
      requires Valid()
      modifies this, buffer, conn
      ensures Valid() && conn == old(conn) && (buffer == old(buffer) || fresh(buffer))
      ensures var (r, t) := Sessions.GetState(cfg, old(View()));
        t == View() && err == r.err && event == if err == Nil then r.packet.event else EVENT_NONE
    {
      hide Send, Await, Ascii, Delivery.Real, Packet.Footprint, Packet.Valid;
      var command := if majorVersion == 1 && minorVersion <= 9 then Ascii("GetLastEvent") else Ascii("GetState");
      err := SendString(command, COMMAND_PACKET);
      if err != Nil {
        return EVENT_NONE, err;
      }
      ghost var start := View();
      var now := Clock();
      var deadline := now + COMMAND_TIMEOUT;
      while now < deadline
        invariant Valid() && conn == old(conn) && (buffer == old(buffer) || fresh(buffer)) && now == Now(View())
        invariant Await(cfg, start, deadline, IsEventPacket) == Await(cfg, View(), deadline, IsEventPacket)
        decreases Left(View(), deadline)
      {
        var p;
        p, err := AwaitOne(deadline, IsEventPacket);
        if err != Nil {
          return EVENT_NONE, err;
        }
        if p.ptype == EVENT_PACKET {
          return p.event, Nil;
        }
        now := Clock();
      }
      AwaitOver(cfg, View(), deadline, IsEventPacket);
      return EVENT_NONE, TimedOut;
    }

    /** The settings a text asks for. */
    method GetParameters(text: bytes) returns (xml: bytes, err: Err)
      requires Valid()
      modifies this, buffer, conn
      ensures Valid() && conn == old(conn) && (buffer == old(buffer) || fresh(buffer))
      ensures var (r, t) := Ask(cfg, old(View()), text, IsSettings);
        t == View() && err == (if r.err == Nil && r.packet.ptype == ERROR_PACKET then ErrorReply else r.err)
        && xml == if err == Nil then r.packet.xmlResponse else []
    {
      hide Send, Await, Delivery.Real, Packet.Footprint, Packet.Valid;
      err := SendString(text, COMMAND_PACKET);
      if err != Nil {
        return [], err;
      }
      ghost var start := View();
      var now := Clock();
      var deadline := now + COMMAND_TIMEOUT;
      while now < deadline
        invariant Valid() && conn == old(conn) && (buffer == old(buffer) || fresh(buffer)) && now == Now(View())
        invariant Await(cfg, start, deadline, IsSettings) == Await(cfg, View(), deadline, IsSettings)
        decreases Left(View(), deadline)
      {
        var p;
        p, err := AwaitOne(deadline, IsSettings);
        if err != Nil {
          return [], err;
        }
        if p.ptype == XML_PACKET {
          return p.xmlResponse, Nil;
        }
        if p.ptype == ERROR_PACKET {
          return [], ErrorReply;
        }
        now := Clock();
      }
      AwaitOver(cfg, View(), deadline, IsSettings);
      return [], TimedOut;
    }

    /** One receive with the time that is left. */
    method AwaitOne(deadline: nat, ghost stop: PacketValue -> bool) returns (p: Packet, err: Err)
      requires Valid() && Now(View()) < deadline
      modifies this, buffer, conn
      ensures Valid() && conn == old(conn) && (buffer == old(buffer) || fresh(buffer)) && Owned(p)
      ensures Await(cfg, old(View()), deadline, stop)
              == if err != Nil || stop(p.Value()) then (Reply(p.Value(), err), View()) else Await(cfg, View(), deadline, stop)
      ensures err == Nil ==> Left(View(), deadline) < Left(old(View()), deadline)
    {
      hide Receive, Await, Delivery.Real;
      AwaitStep(cfg, View(), deadline, stop);
      var now := Clock();
      p, err := ReceiveTimeout(deadline - now);
    }

    method Disconnect()
      requires Valid()
      modifies this
      ensures Valid() && buffer == old(buffer) && conn == null && View() == Sessions.Disconnect(old(View()))
    {
      if conn == null {
        return;
      }
      past := past + conn.sent;
      conn := null;
      majorVersion, minorVersion := 0, 0;
    }

    method VersionCandidates() returns (candidates: seq<Version>)
      requires Valid()
      ensures candidates == Ladder(cfg.want, cfg.negotiate)
    {
      hide Below;
      candidates := [Version(wantMajor, wantMinor)];
      if !negotiateVersion {
        return;
      }
      var minor := DEFAULT_MINOR;
      while minor >= MIN_SUPPORTED_MINOR
        invariant minor >= MIN_SUPPORTED_MINOR - 1
        invariant candidates + Below(cfg.want, minor) == Ladder(cfg.want, true)
      {
        BelowStep(candidates, cfg.want, minor);
        if !(wantMajor == DEFAULT_MAJOR && minor >= wantMinor) {
          candidates := candidates + [Version(DEFAULT_MAJOR, minor)];
        }
        minor := minor - 1;
      }
      BelowStep(candidates, cfg.want, minor);
    }

    /** Opens the session over a connection just dialed, or none if dialing failed. */
    method Connect(dialed: Conn?) returns (err: Err)
      requires Valid() && (dialed != null ==> dialed != conn && dialed.sent == [])
      modifies this, buffer, conn, dialed
      ensures Valid() && (conn == null || conn == dialed) && (buffer == old(buffer) || fresh(buffer))
      ensures Sessions.Connect(cfg, old(View()), if dialed == null then None else Some(old(dialed.net))) == (err, View())
    {
      hide Receive, Negotiate, Ladder, Delivery.Real;
      if conn != null {
        Disconnect();
      }
      if dialed == null {
        return DialFailed;
      }
      conn, since := dialed, |log|;
      assert View() == Dialed(Sessions.Disconnect(old(View())), Some(dialed.net));
      var p;
      p, err := ReceiveTimeout(connectTimeout);
      if err != Nil {
        Disconnect();
        return;
      }
      if p.commandResponse != Welcome() {
        Disconnect();
        return BadWelcome;
      }
      err := NegotiateVersion();
    }

    /** Tries the candidates in order. */
    method NegotiateVersion() returns (err: Err)
      requires Valid()
      modifies this, buffer, conn
      ensures Valid() && (conn == null || conn == old(conn)) && (buffer == old(buffer) || fresh(buffer))
      ensures Negotiate(cfg, old(View()), Ladder(cfg.want, cfg.negotiate)) == (err, View())
    {
      hide Sessions.SetVersion, Sessions.GetState, Ladder;
      var candidates := VersionCandidates();
      var i := 0;
      while i < |candidates|
        invariant 0 <= i <= |candidates| && Valid() && conn == old(conn) && (buffer == old(buffer) || fresh(buffer))
        invariant Negotiate(cfg, old(View()), candidates) == Negotiate(cfg, View(), candidates[i..])
      {
        err := SetVersion(candidates[i].major, candidates[i].minor);
        if err == Nil {
          var _, _ := GetState();
          return Nil;
        }
        i := i + 1;
      }
      Disconnect();
      err := VersionNotSupported;
    }
  }

  // What the receiver does, as its specification sees it.

  lemma NoHeader(cfg: Config, s: Session, net: Net, d: int, h: Taken, p: PacketValue, err: Err)
    requires s.link == Some(net) && Take(net, Until(net.now, d), PACKET_HEADER_SIZE) == h && h.status != Full
    requires p == Blank(if h.status == Timeout then NO_MORE_DATA_PACKET else NONE_PACKET)
    requires err == if h.status == Timeout then Nil else if h.status == AtEof && h.got == [] then Closed else HeaderRead
    ensures Receive(cfg, s, d) == (Reply(p, err), s.(link := Some(h.net)))
  {
  }

  lemma NoBody(cfg: Config, s: Session, net: Net, d: int, h: Taken, size: u32, ptype: u32, p: PacketValue, err: Err)
    requires s.link == Some(net) && Take(net, Until(net.now, d), PACKET_HEADER_SIZE) == h && h.status == Full
    requires |h.got| == PACKET_HEADER_SIZE && size == Get32(cfg.order, h.got, 0) && ptype == Get32(cfg.order, h.got, 4)
    requires size < PACKET_HEADER_SIZE || size > cfg.limit || size == PACKET_HEADER_SIZE
    requires err == if size < PACKET_HEADER_SIZE then BadSize else if size > cfg.limit then TooBig else Nil
    requires p == if err == Nil then Blank(ptype).(size := size) else Blank(NONE_PACKET)
    ensures Receive(cfg, s, d) == (Reply(p, err), s.(link := Some(h.net)))
  {
  }

  lemma WithBody(cfg: Config, s: Session, net: Net, d: int, h: Taken, size: u32, t: Session)
    requires s.link == Some(net) && Take(net, Until(net.now, d), PACKET_HEADER_SIZE) == h && h.status == Full
    requires |h.got| == PACKET_HEADER_SIZE && size == Get32(cfg.order, h.got, 0) && PACKET_HEADER_SIZE < size <= cfg.limit
    requires t == s.(link := Some(h.net), cap := Max(s.cap, size))
    ensures var out := Sessions.ReceiveBody(cfg, h.net, if size <= s.cap then h.got else Zeros(PACKET_HEADER_SIZE), size);
      Receive(cfg, s, d) == (out.reply, Settle(t, out))
  {
    hide Take, Get32;
  }

  lemma BodyLost(cfg: Config, s: Session, net: Net, header: bytes, size: u32, b: Taken, t: Session, err: Err)
    requires s.link == Some(net) && PACKET_HEADER_SIZE < size <= s.cap
    requires Take(net, Until(net.now, cfg.readTimeout), size - PACKET_HEADER_SIZE) == b && b.status != Full
    requires err == if b.status == Broken then BodyRead else Truncated
    requires t == s.(link := Some(b.net), sizes := s.sizes + [size])
    ensures var out := Sessions.ReceiveBody(cfg, net, header, size); out.reply == Failed(err) && t == Settle(s, out)
  {
    hide Take;
  }

  /** What decoding a packet changes and answers. */
  ghost predicate Accepted(p: Option<PacketValue>, s: Session, t: Session, r: Reply) {
    match p
    case None => t == s && r == Failed(BadPacket)
    case Some(v) =>
      && r == Reply(v, if v.ptype == ERROR_PACKET then ErrorReply else Nil)
      && t == s.(log := s.log + [v], last := if v.ptype == EVENT_PACKET then v.event else s.last,
                 state := if v.ptype == EVENT_PACKET && v.event != CAMERA_SETTINGS_CHANGED then v.event else s.state)
  }

  lemma BodyHeard(cfg: Config, s: Session, net: Net, header: bytes, size: u32, b: Taken, u: Session, t: Session, r: Reply)
    requires s.link == Some(net) && PACKET_HEADER_SIZE < size <= s.cap
    requires Take(net, Until(net.now, cfg.readTimeout), size - PACKET_HEADER_SIZE) == b && b.status == Full
    requires u == s.(link := Some(b.net), sizes := s.sizes + [size]) && Accepted(cfg.decode(header + b.got), u, t, r)
    ensures var out := Sessions.ReceiveBody(cfg, net, header, size); t == Settle(s, out) && out.reply == r
  {
    hide Take;
  }

  lemma SkipStep(cfg: Config, s: Session, timeout: int, deadline: int)
    ensures var wait := if timeout > 0 then deadline - Now(s) else 0;
      if timeout > 0 && wait <= 0 then SkipEvents(cfg, s, timeout, deadline) == (Failed(TimedOut), s)
      else
        var (r, t) := Receive(cfg, s, wait);
        if Skipped(r, t, timeout, deadline) then
          Pending(t) < Pending(s) && SkipEvents(cfg, s, timeout, deadline) == SkipEvents(cfg, t, timeout, deadline)
        else SkipEvents(cfg, s, timeout, deadline) == (Concluded(r), t)
  {
    hide Receive;
    ReceiveProgress(cfg, s, if timeout > 0 then deadline - Now(s) else 0);
  }

  lemma AwaitStep(cfg: Config, s: Session, deadline: nat, stop: PacketValue -> bool)
    requires Now(s) < deadline
    ensures var (r, t) := Receive(cfg, s, deadline - Now(s));
      && Await(cfg, s, deadline, stop)
         == (if r.err != Nil || stop(r.packet) then (r, t) else Await(cfg, t, deadline, stop))
      && (r.err == Nil ==> Left(t, deadline) < Left(s, deadline))
  {
    hide Receive;
    AwaitProgress(cfg, s, deadline);
  }

  lemma AwaitOver(cfg: Config, s: Session, deadline: nat, stop: PacketValue -> bool)
    requires Now(s) >= deadline
    ensures Await(cfg, s, deadline, stop) == (Failed(TimedOut), s)
  {
  }

  lemma BelowStep(vs: seq<Version>, want: Version, minor: int)
    ensures vs + Below(want, minor) ==
      if minor < MIN_SUPPORTED_MINOR then vs
      else if want.major == DEFAULT_MAJOR && minor >= want.minor then vs + Below(want, minor - 1)
      else vs + [Version(DEFAULT_MAJOR, minor)] + Below(want, minor - 1)
  {
  }
}
