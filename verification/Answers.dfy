/** Waiting for an answer among other packets. */
module Answers {
  import opened Wire
  import opened PacketValues
  import opened Network
  import opened Sessions
  import opened Delivery

  // Packets on the wire, and when they are there.

  /** The body of each of the first n packets is there within the read timeout after its header. */
  ghost predicate Prompt(cfg: Config, net: Net, ws: seq<WirePacket>, n: nat)
    requires n <= |ws|
    decreases n
  {
    n > 0 ==>
      var h := After(net, PACKET_HEADER_SIZE);
      Take(h, Until(h.now, cfg.readTimeout), |ws[0].payload|).status == Full
      && Prompt(cfg, After(net, Size(ws[0])), ws[1..], n - 1)
  }

  lemma AfterIncoming(net: Net, n: nat)
    requires n <= |net.incoming|
    ensures After(net, n).incoming == net.incoming[n..] && After(net, n).severedAt == net.severedAt
    ensures After(net, n).now >= net.now
  {
    hide Take;
    TakeWithoutDeadline(net, n);
    TakeConserves(net, None, n);
  }

  /** Past the first n packets the stream goes on with the others. */
  lemma {:induction false} WireOn(cfg: Config, net: Net, ws: seq<WirePacket>, n: nat)
    requires OnWire(cfg, net, ws) && n <= |ws|
    ensures Bytes(ws, n) <= |net.incoming| && OnWire(cfg, After(net, Bytes(ws, n)), ws[n..])
    decreases n
  {
    hide OnWire, After;
    if n == 0 {
      AfterIncoming(net, 0);
      SameWire(cfg, net, After(net, 0), ws);
      assert ws[0..] == ws;
    } else {
      FirstOnWire(cfg, net, ws);
      AfterIncoming(net, Size(ws[0]));
      WireOn(cfg, After(net, Size(ws[0])), ws[1..], n - 1);
      AfterTwo(net, Size(ws[0]), Bytes(ws[1..], n - 1));
      assert ws[1..][n - 1..] == ws[n..];
    }
  }

  /** So do the bodies. */
  lemma {:induction false} PromptOn(cfg: Config, net: Net, ws: seq<WirePacket>, n: nat, m: nat)
    requires OnWire(cfg, net, ws) && m + n <= |ws| && Prompt(cfg, net, ws, m + n)
    ensures Bytes(ws, m) <= |net.incoming| && Prompt(cfg, After(net, Bytes(ws, m)), ws[m..], n)
    decreases m
  {
    hide OnWire, After, Take;
    if m == 0 {
      NoneTaken(net);
      assert ws[0..] == ws;
    } else {
      FirstOnWire(cfg, net, ws);
      AfterIncoming(net, Size(ws[0]));
      PromptOn(cfg, After(net, Size(ws[0])), ws[1..], n, m - 1);
      AfterTwo(net, Size(ws[0]), Bytes(ws[1..], m - 1));
      assert ws[1..][m - 1..] == ws[m..];
    }
  }

  lemma NoneTaken(net: Net)
    ensures After(net, 0) == net
  {
  }

  lemma {:induction false} PromptLess(cfg: Config, net: Net, ws: seq<WirePacket>, n: nat, m: nat)
    requires n <= m <= |ws| && Prompt(cfg, net, ws, m)
    ensures Prompt(cfg, net, ws, n)
    decreases n
  {
    hide After, Take;
    if n > 0 {
      PromptLess(cfg, After(net, Size(ws[0])), ws[1..], n - 1, m - 1);
    }
  }

  /** A packet whose header is there before the deadline is not cut. */
  lemma HeaderInTime(cfg: Config, net: Net, d: int, ws: seq<WirePacket>)
    requires ws != [] && OnWire(cfg, net, ws) && Prompt(cfg, net, ws, 1)
    requires d > 0 ==> After(net, PACKET_HEADER_SIZE).now < net.now + d
    ensures Uncut(cfg, net, d, ws[0])
  {
    hide Take, OnWire, After;
    FirstOnWire(cfg, net, ws);
    TakeBefore(net, Until(net.now, d), PACKET_HEADER_SIZE);
    TakeFull(net, Until(net.now, d), PACKET_HEADER_SIZE);
  }

  /** One receive at a packet boundary, with a deadline that does not fall inside the header. */
  lemma FirstReceived(cfg: Config, s: Session, d: int, ws: seq<WirePacket>)
    requires Real(cfg) && s.link.Some? && ws != [] && OnWire(cfg, s.link.value, ws) && Prompt(cfg, s.link.value, ws, 1)
    requires Missed(Until(Now(s), d), NextAt(s.link.value))
             || (d > 0 ==> After(s.link.value, PACKET_HEADER_SIZE).now < Now(s) + d)
    ensures Sendable(cfg, ws[0]) && |s.link.value.incoming| >= Size(ws[0])
    ensures var (r, t) := Receive(cfg, s, d);
      if Missed(Until(Now(s), d), NextAt(s.link.value)) then IsIdle(r) && Reached(cfg, s, ws, 0, t) && Now(t) >= Now(s) + d
      else r == Given(cfg, s.cap, ws[0]) && Reached(cfg, s, ws, 1, t) && t.link == Some(After(s.link.value, Size(ws[0])))
  {
    hide ReceiveOn, Encode, After, Given, OnWire, Prompt, Uncut, Next, Heard;
    var net := s.link.value;
    FirstOnWire(cfg, net, ws);
    WireSendable(cfg, net, ws);
    if !Missed(Until(Now(s), d), NextAt(net)) {
      HeaderInTime(cfg, net, d, ws);
    }
    PollStep(cfg, net, s.cap, d, ws[0]);
    var out := ReceiveOn(cfg, net, s.cap, d);
    if !Missed(Until(Now(s), d), NextAt(net)) {
      ReachedOne(cfg, s, out, ws);
      SettledCap(s, out, ws[0]);
    } else {
      assert net.incoming[0..] == net.incoming;
    }
  }

  // Events and no-more-data first.

  /** Packets of the types that a wait for a reply passes over. */
  predicate IsSkipped(w: WirePacket) { w.ptype == EVENT_PACKET || w.ptype == NO_MORE_DATA_PACKET }

  predicate PassedOver(cap: nat, w: WirePacket) { IsSkipped(w) && Fits(cap, w) }

  /** The k-th packet is the first one that is not passed over: it is of another type, or it is larger than the
      buffer. */
  predicate FirstReply(cap: nat, ws: seq<WirePacket>, k: nat) {
    k < |ws| && (forall i :: 0 <= i < k ==> PassedOver(cap, ws[i])) && !PassedOver(cap, ws[k])
  }

  /** What the client makes of a packet that fits keeps the type on the wire; events and no-more-data are no error. */
  lemma GivenType(cfg: Config, cap: nat, w: WirePacket)
    requires Real(cfg) && Sendable(cfg, w)
    ensures PassedOver(cap, w) ==> Given(cfg, cap, w).err == Nil && Given(cfg, cap, w).packet.ptype == w.ptype
    ensures !PassedOver(cap, w) && Given(cfg, cap, w).err == Nil ==>
      Given(cfg, cap, w).packet.ptype != EVENT_PACKET && Given(cfg, cap, w).packet.ptype != NO_MORE_DATA_PACKET
    ensures !Fits(cap, w) ==> Given(cfg, cap, w) == Reply(Blank(ERROR_PACKET).(errorResponse := Trim(w.payload)), ErrorReply)
  {
    hide Encode, Trim;
    GivenIsDeserved(cfg, cap, w);
    DecodedFields(cfg, w);
    if IsSkipped(w) && w.payload != [] {
      SkippedDecodes(cfg, w);
    }
  }

  lemma SkippedDecodes(cfg: Config, w: WirePacket)
    requires Real(cfg) && Sendable(cfg, w) && IsSkipped(w) && w.payload != []
    ensures cfg.decode(Encode(cfg.order, w)).Some?
  {
    hide Get32;
    var b := Encode(cfg.order, w);
    assert cfg.decode(b) == DecodePacket(cfg.order, b);
    HeaderFields(cfg, w);
    SamePrefix(cfg.order, b, Header(cfg.order, w));
    assert b[PACKET_HEADER_SIZE..] == w.payload;
  }

  /** The deadline does not fall inside the header of any packet up to the k-th. */
  ghost predicate Unsplit(net: Net, deadline: int, ws: seq<WirePacket>, k: nat)
    requires k < |ws|
    decreases k
  {
    (NextAt(net) >= deadline || After(net, PACKET_HEADER_SIZE).now < deadline)
    && (k > 0 ==> Unsplit(After(net, Size(ws[0])), deadline, ws[1..], k - 1))
  }

  /** When the header of the k-th packet is there. */
  function HeaderAt(net: Net, ws: seq<WirePacket>, k: nat): nat
    requires k <= |ws|
  {
    After(net, Bytes(ws, k) + PACKET_HEADER_SIZE).now
  }

  /** What waiting for the k-th packet answers: with its header there before the deadline, what the client makes of
      it, from a client that has taken exactly the packets up to it; otherwise time is up, and some of the packets
      before it have been taken, each one whole. */
  ghost predicate Answered(cfg: Config, s: Session, timeout: int, deadline: int, ws: seq<WirePacket>, k: nat,
                           r: Reply, t: Session)
    requires s.link.Some? && k < |ws| && AllSendable(cfg, ws)
  {
    if timeout <= 0 || HeaderAt(s.link.value, ws, k) < deadline then
      && r == Given(cfg, s.cap, ws[k]) && Reached(cfg, s, ws, k + 1, t)
      && t.link == Some(After(s.link.value, Bytes(ws, k) + Size(ws[k])))
    else r.err == TimedOut && exists j :: 0 <= j <= k && Reached(cfg, s, ws, j, t)
  }

  /** One packet further on, the same holds. */
  lemma OneMore(cfg: Config, s: Session, u: Session, timeout: int, deadline: int, ws: seq<WirePacket>, k: nat,
                r: Reply, t: Session)
    requires s.link.Some? && 0 < k < |ws| && AllSendable(cfg, ws) && Reached(cfg, s, ws, 1, u) && u.cap == s.cap
    requires Bytes(ws, k) + Size(ws[k]) <= |s.link.value.incoming|
    requires u.link == Some(After(s.link.value, Size(ws[0])))
    requires Answered(cfg, u, timeout, deadline, ws[1..], k - 1, r, t)
    ensures Answered(cfg, s, timeout, deadline, ws, k, r, t)
  {
    hide After, Given, Sendable, Reached;
    var net, n, m := s.link.value, Size(ws[0]), Bytes(ws[1..], k - 1);
    AfterTwo(net, n, m + PACKET_HEADER_SIZE);
    AfterTwo(net, n, m + Size(ws[k]));
    if timeout <= 0 || HeaderAt(net, ws, k) < deadline {
      ReachedMore(cfg, s, u, ws, k, t);
    } else {
      var j :| 0 <= j <= k - 1 && Reached(cfg, u, ws[1..], j, t);
      ReachedMore(cfg, s, u, ws, j, t);
      assert Reached(cfg, s, ws, j + 1, t);
    }
  }

  /** The headers come one after the other. */
  lemma HeadersInOrder(cfg: Config, net: Net, ws: seq<WirePacket>, k: nat)
    requires OnWire(cfg, net, ws) && k < |ws|
    ensures AllSendable(cfg, ws) && Bytes(ws, k) + Size(ws[k]) <= |net.incoming|
    ensures net.now <= After(net, PACKET_HEADER_SIZE).now <= HeaderAt(net, ws, k) && NextAt(net) <= HeaderAt(net, ws, k)
    ensures k > 0 ==> Size(ws[0]) <= |net.incoming| && After(net, Size(ws[0])).now <= HeaderAt(net, ws, k)
  {
    hide OnWire, After;
    WireSendable(cfg, net, ws);
    WireOn(cfg, net, ws, k);
    FirstOnWire(cfg, After(net, Bytes(ws, k)), ws[k..]);
    AfterIncoming(net, Bytes(ws, k));
    AfterTwo(net, PACKET_HEADER_SIZE, Bytes(ws, k));
    FirstByte(net);
    AfterIncoming(net, PACKET_HEADER_SIZE);
    if k > 0 {
      AfterTwo(net, Size(ws[0]), Bytes(ws[1..], k - 1) + PACKET_HEADER_SIZE);
    }
  }

  lemma FirstByte(net: Net)
    requires |net.incoming| >= PACKET_HEADER_SIZE
    ensures NextAt(net) <= After(net, PACKET_HEADER_SIZE).now
  {
    hide Take;
    AfterTwo(net, 1, PACKET_HEADER_SIZE - 1);
    TakeArrived(net, None, 1);
  }

  lemma Late(cfg: Config, s: Session, timeout: int, deadline: int, ws: seq<WirePacket>, k: nat, j: nat, r: Reply, t: Session)
    requires s.link.Some? && k < |ws| && AllSendable(cfg, ws) && timeout > 0 && HeaderAt(s.link.value, ws, k) >= deadline
    requires r.err == TimedOut && j <= k && Reached(cfg, s, ws, j, t)
    ensures Answered(cfg, s, timeout, deadline, ws, k, r, t)
  {
    hide HeaderAt, Given, Reached;
  }

  lemma Here(cfg: Config, s: Session, timeout: int, deadline: int, ws: seq<WirePacket>, r: Reply, t: Session)
    requires s.link.Some? && ws != [] && AllSendable(cfg, ws)
    requires timeout > 0 ==> After(s.link.value, PACKET_HEADER_SIZE).now < deadline
    requires r == Given(cfg, s.cap, ws[0]) && t.link == Some(After(s.link.value, Size(ws[0]))) && Reached(cfg, s, ws, 1, t)
    ensures Answered(cfg, s, timeout, deadline, ws, 0, r, t)
  {
    hide After, Given, Reached;
  }

  /** Waiting for a reply that other packets precede. With its header there before the deadline it is answered,
      however the stream is cut and whatever the deadline does to later packets. A deadline that passes earlier, but
      not inside a header, leaves the client at a packet boundary. */
  lemma {:induction false} SkipAnswered(cfg: Config, s: Session, timeout: int, deadline: int, ws: seq<WirePacket>, k: nat)
    requires Real(cfg) && s.link.Some? && OnWire(cfg, s.link.value, ws) && FirstReply(s.cap, ws, k)
    requires Prompt(cfg, s.link.value, ws, k + 1)
    requires timeout <= 0 || HeaderAt(s.link.value, ws, k) < deadline || Unsplit(s.link.value, deadline, ws, k)
    ensures AllSendable(cfg, ws)
    ensures var (r, t) := SkipEvents(cfg, s, timeout, deadline); Answered(cfg, s, timeout, deadline, ws, k, r, t)
    decreases k
  {
    hide Receive, After, Given, Answered, Reached, OnWire, Prompt, Sendable, HeaderAt;
    var net, wait := s.link.value, if timeout > 0 then deadline - Now(s) else 0;
    HeadersInOrder(cfg, net, ws, k);
    PromptLess(cfg, net, ws, 1, k + 1);
    if timeout > 0 && wait <= 0 {
      NoneReached(cfg, s, ws);
      Late(cfg, s, timeout, deadline, ws, k, 0, Failed(TimedOut), s);
    } else {
      ReceiveProgress(cfg, s, wait);
      FirstReceived(cfg, s, wait, ws);
      GivenType(cfg, s.cap, ws[0]);
      var (r, t) := Receive(cfg, s, wait);
      if Missed(Until(Now(s), wait), NextAt(net)) {
        Late(cfg, s, timeout, deadline, ws, k, 0, Concluded(r), t);
      } else if k == 0 {
        AtHead(net, ws);
        Here(cfg, s, timeout, deadline, ws, r, t);
      } else if Skipped(r, t, timeout, deadline) {
        NextOne(cfg, s, ws, t, k);
        SkipAnswered(cfg, t, timeout, deadline, ws[1..], k - 1);
        var (q, u) := SkipEvents(cfg, t, timeout, deadline);
        OneMore(cfg, s, t, timeout, deadline, ws, k, q, u);
      } else {
        Late(cfg, s, timeout, deadline, ws, k, 1, Concluded(r), t);
      }
    }
  }

  /** An event, or any other packet, that is larger than the buffer is not passed over: the wait ends with an error
      reply whose text is its payload. */
  lemma TooLargeEndsWait(cfg: Config, s: Session, timeout: int, deadline: int, ws: seq<WirePacket>, k: nat)
    requires Real(cfg) && s.link.Some? && OnWire(cfg, s.link.value, ws) && FirstReply(s.cap, ws, k) && !Fits(s.cap, ws[k])
    requires Prompt(cfg, s.link.value, ws, k + 1) && (timeout <= 0 || HeaderAt(s.link.value, ws, k) < deadline)
    ensures SkipEvents(cfg, s, timeout, deadline).0
            == Reply(Blank(ERROR_PACKET).(errorResponse := Trim(ws[k].payload)), ErrorReply)
  {
    hide SkipEvents, Reached, HeaderAt, OnWire, Prompt, Given, Trim;
    WireSendable(cfg, s.link.value, ws);
    SkipAnswered(cfg, s, timeout, deadline, ws, k);
    GivenType(cfg, s.cap, ws[k]);
  }

  lemma NoneReached(cfg: Config, s: Session, ws: seq<WirePacket>)
    requires s.link.Some? && AllSendable(cfg, ws)
    ensures Reached(cfg, s, ws, 0, s)
  {
    assert s.link.value.incoming[0..] == s.link.value.incoming;
  }

  lemma AtHead(net: Net, ws: seq<WirePacket>)
    ensures HeaderAt(net, ws, 0) == After(net, PACKET_HEADER_SIZE).now
  {
  }

  /** What holds of the packets ahead holds of those that are left. */
  lemma NextOne(cfg: Config, s: Session, ws: seq<WirePacket>, t: Session, k: nat)
    requires s.link.Some? && 0 < k < |ws| && OnWire(cfg, s.link.value, ws) && AllSendable(cfg, ws) && Fits(s.cap, ws[0])
    requires Reached(cfg, s, ws, 1, t) && t.link == Some(After(s.link.value, Size(ws[0])))
    requires Prompt(cfg, s.link.value, ws, k + 1) && Bytes(ws, k) + Size(ws[k]) <= |s.link.value.incoming|
    ensures OnWire(cfg, t.link.value, ws[1..]) && Prompt(cfg, t.link.value, ws[1..], k) && t.cap == s.cap
    ensures HeaderAt(t.link.value, ws[1..], k - 1) == HeaderAt(s.link.value, ws, k)
  {
    hide OnWire, After, Take, Sendable, Heard, Noted;
    var net := s.link.value;
    FirstOnWire(cfg, net, ws);
    AfterIncoming(net, Size(ws[0]));
    AfterTwo(net, Size(ws[0]), Bytes(ws[1..], k - 1) + PACKET_HEADER_SIZE);
    assert Through(cfg, s, ws, 1) == Passed(cfg, s, ws[0]);
  }

  // Packets of other kinds first.

  /** The k-th packet is the first one that stops a wait, or that the client cannot hand over. */
  ghost predicate FirstStop(cfg: Config, cap: nat, ws: seq<WirePacket>, k: nat, stop: PacketValue -> bool) {
    && k < |ws| && AllSendable(cfg, ws) && (forall i :: 0 <= i < k ==> !Stops(cfg, cap, ws[i], stop))
    && Stops(cfg, cap, ws[k], stop)
  }

  ghost predicate Stops(cfg: Config, cap: nat, w: WirePacket, stop: PacketValue -> bool)
    requires Sendable(cfg, w)
  {
    var r := Given(cfg, cap, w);
    r.err != Nil || stop(r.packet)
  }

  /** Waiting for a packet that stops the wait, among any others: answered in the same way. */
  lemma {:induction false} AwaitAnswered(cfg: Config, s: Session, deadline: nat, stop: PacketValue -> bool,
                                         ws: seq<WirePacket>, k: nat)
    requires Real(cfg) && s.link.Some? && OnWire(cfg, s.link.value, ws) && FirstStop(cfg, s.cap, ws, k, stop)
    requires Prompt(cfg, s.link.value, ws, k + 1) && !stop(Blank(NO_MORE_DATA_PACKET))
    requires HeaderAt(s.link.value, ws, k) < deadline || Unsplit(s.link.value, deadline, ws, k)
    ensures AllSendable(cfg, ws)
    ensures var (r, t) := Await(cfg, s, deadline, stop); Answered(cfg, s, 1, deadline, ws, k, r, t)
    decreases k
  {
    hide Receive, After, Given, Answered, Reached, OnWire, Prompt, Sendable, HeaderAt;
    var net, wait := s.link.value, deadline - Now(s);
    HeadersInOrder(cfg, net, ws, k);
    PromptLess(cfg, net, ws, 1, k + 1);
    if wait <= 0 {
      NoneReached(cfg, s, ws);
      Late(cfg, s, 1, deadline, ws, k, 0, Failed(TimedOut), s);
    } else {
      FirstReceived(cfg, s, wait, ws);
      GivenType(cfg, s.cap, ws[0]);
      var (r, t) := Receive(cfg, s, wait);
      if Missed(Until(Now(s), wait), NextAt(net)) {
        assert Await(cfg, s, deadline, stop) == Await(cfg, t, deadline, stop) == (Failed(TimedOut), t);
        Late(cfg, s, 1, deadline, ws, k, 0, Failed(TimedOut), t);
      } else if k == 0 {
        AtHead(net, ws);
        Here(cfg, s, 1, deadline, ws, r, t);
      } else if Now(t) >= deadline {
        assert Await(cfg, s, deadline, stop) == Await(cfg, t, deadline, stop) == (Failed(TimedOut), t);
        Late(cfg, s, 1, deadline, ws, k, 1, Failed(TimedOut), t);
      } else {
        NextOne(cfg, s, ws, t, k);
        AwaitAnswered(cfg, t, deadline, stop, ws[1..], k - 1);
        var (q, u) := Await(cfg, t, deadline, stop);
        OneMore(cfg, s, t, 1, deadline, ws, k, q, u);
      }
    }
  }

  /** By type number: asking for the state waits for a packet of type 6, asking for settings for one of type 2 or 0, and
      a failed receive ends either wait. */
  lemma StopsByType(cfg: Config, cap: nat, w: WirePacket)
    requires Real(cfg) && Sendable(cfg, w)
    ensures Stops(cfg, cap, w, IsEventPacket) <==> w.ptype == 6 || Given(cfg, cap, w).err != Nil
    ensures Stops(cfg, cap, w, IsSettings) <==> w.ptype == 2 || w.ptype == 0 || Given(cfg, cap, w).err != Nil
  {
    hide Encode, Trim;
    GivenIsDeserved(cfg, cap, w);
    DecodedFields(cfg, w);
  }
}
