/** What holds after any run of a client: the cached state, the version, the buffer; and how long replies take. */
module Runs {
  import opened Wire
  import opened PacketValues
  import opened Network
  import opened Versions
  import opened Sessions

  /** The last event heard. */
  function LastEvent(log: seq<PacketValue>): u8 {
    if log == [] then EVENT_NONE
    else if log[|log| - 1].ptype == EVENT_PACKET then log[|log| - 1].event
    else LastEvent(log[..|log| - 1])
  }

  /** The last event heard that is not a change of camera settings. */
  function StateEvent(log: seq<PacketValue>): u8 {
    if log == [] then EVENT_NONE
    else if log[|log| - 1].ptype == EVENT_PACKET && log[|log| - 1].event != CAMERA_SETTINGS_CHANGED then
      log[|log| - 1].event
    else StateEvent(log[..|log| - 1])
  }

  function Largest(sizes: seq<nat>): nat {
    if sizes == [] then 0 else Max(sizes[|sizes| - 1], Largest(sizes[..|sizes| - 1]))
  }

  /** A packet heard, not counting the first `since`, says the version was set. */
  ghost predicate Confirmed(log: seq<PacketValue>, since: nat, v: Version) {
    exists i :: since <= i < |log| && EqualFold(log[i].commandResponse, VersionReply(v))
  }

  /** A closed connection has version 0.0; any other version was confirmed since the connection was dialed. */
  ghost predicate Versioned(s: Session) {
    && s.since <= |s.log|
    && (s.link == None ==> s.version == Version(0, 0))
    && (s.version == Version(0, 0) || Confirmed(s.log, s.since, s.version))
  }

  /** State and last event are folds over everything heard. */
  ghost predicate Remembered(s: Session) { s.last == LastEvent(s.log) && s.state == StateEvent(s.log) }

  /** The buffer is as large as the largest packet it had to hold, all of them within the limit. */
  ghost predicate Sized(cfg: Config, s: Session) {
    && s.cap == Max(START_BUFFER_SIZE, Largest(s.sizes))
    && forall i :: 0 <= i < |s.sizes| ==> PACKET_HEADER_SIZE < s.sizes[i] <= cfg.limit
  }

  ghost predicate Sound(cfg: Config, s: Session) { Versioned(s) && Remembered(s) && Sized(cfg, s) }

  /** s became t without losing anything heard, sent or admitted. */
  ghost predicate Grew(s: Session, t: Session) { s.log <= t.log && s.sent <= t.sent && s.sizes <= t.sizes && s.cap <= t.cap }

  /** The same connection with the same version, or none as before. */
  predicate Kept(s: Session, t: Session) {
    t.link.Some? == s.link.Some? && t.version == s.version && t.since == s.since
  }

  lemma LimitHolds(cfg: Config, net: Net, cap: nat, d: int)
    ensures var out := ReceiveOn(cfg, net, cap, d); out.admitted == 0 || PACKET_HEADER_SIZE < out.admitted <= cfg.limit
  {
  }

  /** A confirmation stays one when more is heard, or when more of the past counts. */
  lemma StillConfirmed(log: seq<PacketValue>, since: nat, longer: seq<PacketValue>, earlier: nat, v: Version)
    requires log <= longer && earlier <= since && Confirmed(log, since, v)
    ensures Confirmed(longer, earlier, v)
  {
    var i :| since <= i < |log| && EqualFold(log[i].commandResponse, VersionReply(v));
    assert longer[i] == log[i];
  }

  lemma SettleSized(cfg: Config, s: Session, out: Outcome)
    requires Sized(cfg, s) && (out.admitted == 0 || PACKET_HEADER_SIZE < out.admitted <= cfg.limit)
    ensures Sized(cfg, Settle(s, out)) && s.sizes <= Settle(s, out).sizes && s.cap <= Settle(s, out).cap
  {
    var t := Settle(s, out);
    assert out.admitted != 0 ==> t.sizes[..|t.sizes| - 1] == s.sizes;
  }

  lemma SettleRemembers(s: Session, out: Outcome)
    requires Remembered(s)
    ensures Remembered(Settle(s, out)) && s.log <= Settle(s, out).log
  {
    var t := Settle(s, out);
    assert out.heard.Some? ==> t.log[..|t.log| - 1] == s.log;
  }

  lemma SettleSound(cfg: Config, s: Session, out: Outcome)
    requires Sound(cfg, s) && s.link.Some?
    requires out.admitted == 0 || PACKET_HEADER_SIZE < out.admitted <= cfg.limit
    ensures Sound(cfg, Settle(s, out)) && Grew(s, Settle(s, out))
    ensures Kept(s, Settle(s, out)) && Settle(s, out).sent == s.sent
  {
    hide Remembered, Sized, Confirmed;
    SettleSized(cfg, s, out);
    SettleRemembers(s, out);
    if out.heard.Some? && s.version != Version(0, 0) {
      StillConfirmed(s.log, s.since, s.log + [out.heard.value], s.since, s.version);
    }
  }

  lemma ReceiveSound(cfg: Config, s: Session, d: int)
    requires Sound(cfg, s)
    ensures var (r, t) := Receive(cfg, s, d);
      Sound(cfg, t) && Grew(s, t) && Kept(s, t) && t.sent == s.sent
    ensures var (r, t) := Receive(cfg, s, d);
      r.packet.commandResponse != [] ==> |t.log| > |s.log| && t.log[|t.log| - 1] == r.packet
  {
    hide Sound, Take, Get32;
    if s.link.Some? {
      LimitHolds(cfg, s.link.value, s.cap, d);
      SettleSound(cfg, s, ReceiveOn(cfg, s.link.value, s.cap, d));
    }
  }

  /** Receives with the waits ds, one after the other. */
  function Receives(cfg: Config, s: Session, ds: seq<int>): Session
    decreases |ds|
  {
    if ds == [] then s else Receives(cfg, Receive(cfg, s, ds[0]).1, ds[1..])
  }

  lemma {:induction false} ReceivesSound(cfg: Config, s: Session, ds: seq<int>)
    requires Sound(cfg, s)
    ensures var t := Receives(cfg, s, ds);
      Sound(cfg, t) && Grew(s, t) && Kept(s, t) && t.sent == s.sent
    decreases |ds|
  {
    hide Receive, Sound, Settle;
    if ds != [] {
      ReceiveSound(cfg, s, ds[0]);
      ReceivesSound(cfg, Receive(cfg, s, ds[0]).1, ds[1..]);
    }
  }

  /** Skipping events is receiving some number of times; the last reply is the answer. */
  lemma {:induction false} SkipIsReceiving(cfg: Config, s: Session, timeout: int, deadline: int)
    returns (ds: seq<int>, d: int)
    requires s.link.Some?
    ensures SkipEvents(cfg, s, timeout, deadline) == (Failed(TimedOut), Receives(cfg, s, ds))
      || (Receives(cfg, s, ds).link.Some?
          && SkipEvents(cfg, s, timeout, deadline).0 == Concluded(Receive(cfg, Receives(cfg, s, ds), d).0)
          && SkipEvents(cfg, s, timeout, deadline).1 == Receive(cfg, Receives(cfg, s, ds), d).1)
    decreases Pending(s)
  {
    hide Receive;
    d := if timeout > 0 then deadline - Now(s) else 0;
    ds := [];
    if timeout <= 0 || d > 0 {
      ReceiveProgress(cfg, s, d);
      var (r, t) := Receive(cfg, s, d);
      if Skipped(r, t, timeout, deadline) {
        var first := d;
        ds, d := SkipIsReceiving(cfg, t, timeout, deadline);
        assert ([first] + ds)[1..] == ds;
        ds := [first] + ds;
      }
    }
  }

  lemma SkipSound(cfg: Config, s: Session, timeout: int, deadline: int)
    requires Sound(cfg, s) && s.link.Some?
    ensures var (r, t) := SkipEvents(cfg, s, timeout, deadline);
      Sound(cfg, t) && Grew(s, t) && Kept(s, t) && t.sent == s.sent
      && (r.packet.commandResponse != [] ==> |t.log| > |s.log| && t.log[|t.log| - 1] == r.packet)
  {
    hide Receive, SkipEvents, Receives, Sound;
    var ds, d := SkipIsReceiving(cfg, s, timeout, deadline);
    ReceivesSound(cfg, s, ds);
    ReceiveSound(cfg, Receives(cfg, s, ds), d);
  }

  lemma SendSound(cfg: Config, s: Session, text: bytes, ptype: u32)
    requires Sound(cfg, s)
    ensures var (e, t) := Send(cfg, s, text, ptype);
      Sound(cfg, t) && Grew(s, t) && Kept(s, t) && t.link == s.link && t.log == s.log && (e == Nil ==> t.link.Some?)
  {
  }

  /** The text is empty, or the last packet heard, which is not one of the first `since`, answers it. */
  ghost predicate Heard(log: seq<PacketValue>, since: nat, text: bytes) {
    text == [] || (|log| > since && EqualFold(log[|log| - 1].commandResponse, text))
  }

  lemma FoldsEmpty(text: bytes)
    ensures EqualFold([], text) <==> text == []
  {
  }

  lemma SendAndWaitSound(cfg: Config, s: Session, text: bytes, ptype: u32, expected: seq<bytes>)
    requires Sound(cfg, s)
    ensures var (e, t) := SendAndWait(cfg, s, text, ptype, expected);
      Sound(cfg, t) && Grew(s, t) && Kept(s, t)
      && (e == Nil ==> t.link.Some? && exists i :: 0 <= i < |expected| && Heard(t.log, |s.log|, expected[i]))
  {
    hide Send, SkipEvents, Sound, EqualFold;
    SendSound(cfg, s, text, ptype);
    var (e, t) := Send(cfg, s, text, ptype);
    if e == Nil {
      SkipSound(cfg, t, COMMAND_TIMEOUT, Now(t) + COMMAND_TIMEOUT);
      var (r, u) := SkipEvents(cfg, t, COMMAND_TIMEOUT, Now(t) + COMMAND_TIMEOUT);
      if i :| 0 <= i < |expected| && EqualFold(r.packet.commandResponse, expected[i]) {
        FoldsEmpty(expected[i]);
        assert Heard(u.log, |s.log|, expected[i]);
      }
    }
  }

  lemma SetVersionSound(cfg: Config, s: Session, v: Version)
    requires Sound(cfg, s)
    ensures var (e, t) := SetVersion(cfg, s, v);
      Sound(cfg, t) && Grew(s, t) && t.link.Some? == s.link.Some? && t.since == s.since
      && (e == Nil ==> t.version == v && Confirmed(t.log, |s.log|, v)) && (e != Nil ==> t.version == s.version)
  {
    hide SendAndWait, EqualFold;
    SendAndWaitSound(cfg, s, VersionCommand(v), COMMAND_PACKET, [VersionReply(v)]);
    var (e, t) := SendAndWait(cfg, s, VersionCommand(v), COMMAND_PACKET, [VersionReply(v)]);
    assert |Ascii("Version set to ")| == 15;
    if e == Nil {
      assert EqualFold(t.log[|t.log| - 1].commandResponse, VersionReply(v));
      StillConfirmed(t.log, |s.log|, t.log, s.since, v);
    }
  }

  lemma {:induction false} AwaitIsReceiving(cfg: Config, s: Session, deadline: nat, stop: PacketValue -> bool)
    returns (ds: seq<int>)
    ensures Await(cfg, s, deadline, stop).1 == Receives(cfg, s, ds)
    decreases Left(s, deadline)
  {
    hide Receive;
    ds := [];
    if Now(s) < deadline {
      var wait := deadline - Now(s);
      ReceiveProgress(cfg, s, wait);
      var (r, t) := Receive(cfg, s, wait);
      if r.err == Nil && !stop(r.packet) {
        ds := AwaitIsReceiving(cfg, t, deadline, stop);
      }
      assert ([wait] + ds)[1..] == ds;
      ds := [wait] + ds;
    }
  }

  lemma AskSound(cfg: Config, s: Session, text: bytes, stop: PacketValue -> bool)
    requires Sound(cfg, s)
    ensures var (r, t) := Ask(cfg, s, text, stop);
      Sound(cfg, t) && Grew(s, t) && Kept(s, t)
      && (Send(cfg, s, text, COMMAND_PACKET).0 == Nil ==> t.sent == s.sent + [EncodeString(cfg.order, text, COMMAND_PACKET)])
  {
    hide Await, Receives, Sound, EncodeString;
    SendSound(cfg, s, text, COMMAND_PACKET);
    var (e, t) := Send(cfg, s, text, COMMAND_PACKET);
    if e == Nil {
      var ds := AwaitIsReceiving(cfg, t, Now(t) + COMMAND_TIMEOUT, stop);
      ReceivesSound(cfg, t, ds);
    }
  }

  lemma DisconnectSound(cfg: Config, s: Session)
    requires Sound(cfg, s)
    ensures Sound(cfg, Disconnect(s)) && Grew(s, Disconnect(s)) && Disconnect(s).link == None
  {
  }

  lemma {:induction false} NegotiateSound(cfg: Config, s: Session, vs: seq<Version>)
    requires Sound(cfg, s) && s.link.Some?
    ensures var (e, t) := Negotiate(cfg, s, vs);
      Sound(cfg, t) && Grew(s, t) && (e == Nil <==> t.link.Some?) && t.since == s.since
      && (e == Nil ==> t.version in vs && Confirmed(t.log, |s.log|, t.version))
    decreases |vs|
  {
    hide SetVersion, Ask, Sound, Confirmed, StateCommand;
    if vs == [] {
      DisconnectSound(cfg, s);
    } else {
      SetVersionSound(cfg, s, vs[0]);
      var (e, t) := SetVersion(cfg, s, vs[0]);
      if e == Nil {
        AskSound(cfg, t, StateCommand(t.version), IsEventPacket);
        StillConfirmed(t.log, |s.log|, GetState(cfg, t).1.log, |s.log|, vs[0]);
      } else {
        NegotiateSound(cfg, t, vs[1..]);
        var (f, u) := Negotiate(cfg, t, vs[1..]);
        if f == Nil {
          StillConfirmed(u.log, |t.log|, u.log, |s.log|, u.version);
        }
      }
    }
  }

  /** Connect answers nil exactly when it leaves the connection open, and then the version is one of the ladder's
      and was confirmed by a reply on that connection. */
  lemma ConnectSound(cfg: Config, s: Session, dialed: Option<Net>)
    requires Sound(cfg, s)
    ensures var (e, t) := Connect(cfg, s, dialed);
      Sound(cfg, t) && Grew(s, t) && (e == Nil <==> t.link.Some?) && t.since == (if dialed.Some? then |s.log| else s.since)
      && (e == Nil ==> t.version in Ladder(cfg.want, cfg.negotiate) && Confirmed(t.log, |s.log|, t.version))
  {
    hide Receive, Negotiate, Confirmed, Ladder;
    DisconnectSound(cfg, s);
    if dialed.Some? {
      var t := Dialed(Disconnect(s), dialed);
      ReceiveSound(cfg, t, cfg.connectTimeout);
      var (r, u) := Receive(cfg, t, cfg.connectTimeout);
      if r.err == Nil && r.packet.commandResponse == Welcome() {
        NegotiateSound(cfg, u, Ladder(cfg.want, cfg.negotiate));
        var (e, v) := Negotiate(cfg, u, Ladder(cfg.want, cfg.negotiate));
        if e == Nil {
          StillConfirmed(v.log, |u.log|, v.log, |s.log|, v.version);
        }
      } else {
        DisconnectSound(cfg, u);
      }
    }
  }

  // Whole runs.

  datatype Action =
    | DoConnect(dialed: Option<Net>)
    | DoDisconnect
    | DoSetVersion(version: Version)
    | DoSend(text: bytes, ptype: u32)
    | DoSendAndWait(command: bytes, kind: u32, expected: seq<bytes>)
    | DoReceive(wait: int)
    | DoAsk(question: bytes, stop: PacketValue -> bool)

  function Do(cfg: Config, s: Session, a: Action): Session {
    match a
    case DoConnect(dialed) => Connect(cfg, s, dialed).1
    case DoDisconnect => Disconnect(s)
    case DoSetVersion(v) => SetVersion(cfg, s, v).1
    case DoSend(text, ptype) => Send(cfg, s, text, ptype).1
    case DoSendAndWait(text, ptype, expected) => SendAndWait(cfg, s, text, ptype, expected).1
    case DoReceive(d) => Receive(cfg, s, d).1
    case DoAsk(text, stop) => Ask(cfg, s, text, stop).1
  }

  function Run(cfg: Config, s: Session, actions: seq<Action>): Session
    decreases |actions|
  {
    if actions == [] then s else Run(cfg, Do(cfg, s, actions[0]), actions[1..])
  }

  lemma DoSound(cfg: Config, s: Session, a: Action)
    requires Sound(cfg, s)
    ensures Sound(cfg, Do(cfg, s, a)) && Grew(s, Do(cfg, s, a))
  {
    hide Sound, Connect, Disconnect, SetVersion, Send, SendAndWait, Receive, Ask;
    match a
    case DoConnect(dialed) => ConnectSound(cfg, s, dialed);
    case DoDisconnect => DisconnectSound(cfg, s);
    case DoSetVersion(v) => SetVersionSound(cfg, s, v);
    case DoSend(text, ptype) => SendSound(cfg, s, text, ptype);
    case DoSendAndWait(text, ptype, expected) => SendAndWaitSound(cfg, s, text, ptype, expected);
    case DoReceive(d) => ReceiveSound(cfg, s, d);
    case DoAsk(text, stop) => AskSound(cfg, s, text, stop);
  }

  lemma {:induction false} RunFrom(cfg: Config, s: Session, actions: seq<Action>)
    requires Sound(cfg, s)
    ensures Sound(cfg, Run(cfg, s, actions)) && Grew(s, Run(cfg, s, actions))
    decreases |actions|
  {
    hide Do, Sound;
    if actions != [] {
      DoSound(cfg, s, actions[0]);
      RunFrom(cfg, Do(cfg, s, actions[0]), actions[1..]);
    }
  }

  lemma {:induction false} LargestBound(sizes: seq<nat>, limit: int)
    requires forall i :: 0 <= i < |sizes| ==> sizes[i] <= limit
    ensures Largest(sizes) <= Max(0, limit)
    decreases |sizes|
  {
    if sizes != [] {
      LargestBound(sizes[..|sizes| - 1], limit);
    }
  }

  /** After every run from a new client: the session is sound, so a closed connection has version 0.0, any other
      version was confirmed by a reply heard since the connection was dialed, state and last event are the folds over all packets heard, and the buffer
      never exceeds the larger of its first size and the limit. */
  lemma RunSound(cfg: Config, actions: seq<Action>)
    ensures var s := Run(cfg, START, actions);
      Sound(cfg, s) && START_BUFFER_SIZE <= s.cap <= Max(START_BUFFER_SIZE, cfg.limit)
  {
    assert Sound(cfg, START);
    RunFrom(cfg, START, actions);
    LargestBound(Run(cfg, START, actions).sizes, cfg.limit);
  }

  // Time.

  lemma BodyBound(cfg: Config, net: Net, header: bytes, size: u32)
    requires cfg.readTimeout > 0 && size >= PACKET_HEADER_SIZE
    ensures ReceiveBody(cfg, net, header, size).net.now <= net.now + cfg.readTimeout
  {
    TakeBound(net, Until(net.now, cfg.readTimeout), size - PACKET_HEADER_SIZE);
  }

  lemma OutcomeBound(cfg: Config, net: Net, cap: nat, d: int)
    requires d > 0 && cfg.readTimeout > 0
    ensures ReceiveOn(cfg, net, cap, d).net.now <= net.now + d + cfg.readTimeout
  {
    var h := Take(net, Until(net.now, d), PACKET_HEADER_SIZE);
    TakeBound(net, Until(net.now, d), PACKET_HEADER_SIZE);
    TakeConserves(net, Until(net.now, d), PACKET_HEADER_SIZE);
    if h.status == Full && Get32(cfg.order, h.got, 0) > PACKET_HEADER_SIZE {
      var size := Get32(cfg.order, h.got, 0);
      BodyBound(cfg, h.net, if size <= cap then h.got else Zeros(PACKET_HEADER_SIZE), size);
    }
  }

  lemma ReceiveBound(cfg: Config, s: Session, d: int)
    requires d > 0 && cfg.readTimeout > 0
    ensures Now(Receive(cfg, s, d).1) <= Now(s) + d + cfg.readTimeout
  {
    if s.link.Some? {
      OutcomeBound(cfg, s.link.value, s.cap, d);
    }
  }

  lemma {:induction false} SkipBound(cfg: Config, s: Session, timeout: int, deadline: int)
    requires timeout > 0 && cfg.readTimeout > 0 && Now(s) <= deadline + cfg.readTimeout
    ensures Now(SkipEvents(cfg, s, timeout, deadline).1) <= deadline + cfg.readTimeout
    decreases Pending(s)
  {
    hide Receive;
    var wait := deadline - Now(s);
    if wait > 0 {
      ReceiveBound(cfg, s, wait);
      ReceiveProgress(cfg, s, wait);
      var (r, t) := Receive(cfg, s, wait);
      if Skipped(r, t, timeout, deadline) {
        SkipBound(cfg, t, timeout, deadline);
      }
    }
  }

  /** With positive timeouts, waiting for a reply is over within the timeout and one read timeout. */
  lemma ReplyBound(cfg: Config, s: Session, timeout: int)
    requires timeout > 0 && cfg.readTimeout > 0
    ensures Now(ReceiveSkippingEvents(cfg, s, timeout).1) <= Now(s) + timeout + cfg.readTimeout
  {
    hide SkipEvents;
    SkipBound(cfg, s, timeout, Now(s) + timeout);
  }

  /** A command is over within five seconds and one read timeout. */
  lemma CommandBound(cfg: Config, s: Session, text: bytes, ptype: u32, expected: seq<bytes>)
    requires cfg.readTimeout > 0
    ensures Now(SendAndWait(cfg, s, text, ptype, expected).1) <= Now(s) + 5_000_000_000 + cfg.readTimeout
  {
    hide SkipEvents, EncodeString, EqualFold;
    var (e, t) := Send(cfg, s, text, ptype);
    ReplyBound(cfg, t, COMMAND_TIMEOUT);
  }
}
