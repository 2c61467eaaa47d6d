/** A server that has sent everything by the time the client dials: it meets what the handshake theorems ask of a
    server, and a client gets the version it wants from it. */
module Greetings {
  import opened Wire
  import opened PacketValues
  import opened Network
  import opened Versions
  import opened Sessions
  import opened Delivery
  import opened Answers
  import opened Handshake
  import Runs
  import Texts

  function Arrived(b: bytes): seq<Arrival> { seq(|b|, i requires 0 <= i < |b| => Arrival(0, b[i])) }

  predicate Ready(net: Net) {
    net.now == 0 && net.severedAt == None && forall i :: 0 <= i < |net.incoming| ==> net.incoming[i].at == 0
  }

  function Server(b: bytes): Net { Net(0, Arrived(b), 0, Eof, None) }

  lemma ReadyAfter(net: Net, n: nat)
    requires Ready(net) && n <= |net.incoming|
    ensures Ready(After(net, n)) && After(net, n).incoming == net.incoming[n..]
  {
    if n > 0 {
      TakeArrived(net, None, n);
    }
  }

  lemma {:induction false} ReadyPrompt(cfg: Config, net: Net, ws: seq<WirePacket>, n: nat)
    requires Ready(net) && n <= |ws| && Bytes(ws, n) <= |net.incoming|
    ensures Prompt(cfg, net, ws, n)
    decreases n
  {
    hide After, Take;
    if n > 0 {
      var h := After(net, PACKET_HEADER_SIZE);
      ReadyAfter(net, PACKET_HEADER_SIZE);
      ReadyTaken(h, Until(h.now, cfg.readTimeout), |ws[0].payload|);
      ReadyAfter(net, Size(ws[0]));
      ReadyPrompt(cfg, After(net, Size(ws[0])), ws[1..], n - 1);
    }
  }

  lemma ReadyTaken(net: Net, deadline: Option<nat>, n: nat)
    requires Ready(net) && n <= |net.incoming| && !Missed(deadline, 0)
    ensures Take(net, deadline, n).status == Full
  {
    if n > 0 {
      TakeArrived(net, deadline, n);
    }
  }

  lemma {:induction false} ReadyTimely(cfg: Config, net: Net, cap: nat, xs: seq<Exchange>)
    requires Ready(net) && Sent(cfg, net, Flat(xs)) && AllProper(cap, xs)
    ensures Timely(net, xs)
    decreases |xs|
  {
    hide After, Flat, Bytes, OnWire, Prompt, FirstReply;
    if xs != [] {
      var ws, k := Flat(xs), |xs[0].before|;
      FirstExchange(cap, xs);
      WithinFlat(xs);
      HeadersInOrder(cfg, net, ws, k);
      BytesOneMore(ws, k);
      WireOn(cfg, net, ws, k + 1);
      PromptOn(cfg, net, ws, |ws| - (k + 1), k + 1);
      ReadyAfter(net, Bytes(ws, k) + PACKET_HEADER_SIZE);
      ReadyAfter(net, Bytes(ws, k + 1));
      ReadyTimely(cfg, After(net, Bytes(ws, k + 1)), cap, xs[1..]);
    }
  }

  lemma ServerReady(cfg: Config, ws: seq<WirePacket>)
    requires AllSendable(cfg, ws)
    ensures var net := Server(EncodeAll(cfg, ws)); Ready(net) && Sent(cfg, net, ws)
  {
    hide EncodeAll, Encode, Prompt;
    var net := Server(EncodeAll(cfg, ws));
    assert Data(net.incoming) == EncodeAll(cfg, ws);
    WireOn(cfg, net, ws, |ws|);
    ReadyPrompt(cfg, net, ws, |ws|);
  }

  /** Any welcome and any exchanges that fit the buffer make such a server. */
  lemma ServerGreets(cfg: Config, cap: nat, welcome: WirePacket, xs: seq<Exchange>)
    requires AllSendable(cfg, [welcome] + Flat(xs)) && AllProper(cap, xs) && Fits(cap, welcome)
    requires Sendable(cfg, welcome) && Deserved(cfg, welcome).err == Nil
    requires Deserved(cfg, welcome).packet.commandResponse == Welcome()
    ensures Greets(cfg, cap, Server(EncodeAll(cfg, [welcome] + Flat(xs))), welcome, xs)
  {
    hide After, Flat, Take, Deserved, EncodeAll, Encode, OnWire, Prompt, Ready;
    var ws := [welcome] + Flat(xs);
    var net := Server(EncodeAll(cfg, ws));
    assert ws[1..] == Flat(xs) && |ws| == 1 + |Flat(xs)| && Bytes(ws, 1) == Size(welcome);
    ServerReady(cfg, ws);
    HeadersInOrder(cfg, net, ws, 0);
    ReadyAfter(net, PACKET_HEADER_SIZE);
    ReadyNow(After(net, PACKET_HEADER_SIZE));
    ReadyAfter(net, Size(welcome));
    WireOn(cfg, net, ws, 1);
    PromptOn(cfg, net, ws, |ws| - 1, 1);
    ReadyTimely(cfg, After(net, Size(welcome)), cap, xs);
  }

  lemma ReadyNow(net: Net)
    requires Ready(net)
    ensures net.now == 0
  {
  }

  function TextPacket(text: bytes): WirePacket { WirePacket(COMMAND_PACKET, text + [0]) }

  /** A text from the server is heard as it was sent. */
  lemma TextHeard(cfg: Config, text: bytes)
    requires Real(cfg) && |text| <= 4000 && cfg.limit >= START_BUFFER_SIZE && Bare(text)
    ensures Sendable(cfg, TextPacket(text)) && Deserved(cfg, TextPacket(text)).err == Nil
    ensures Deserved(cfg, TextPacket(text)).packet.commandResponse == text
  {
    hide EncodeString, Encode, DecodePacket, Trim;
    var w := TextPacket(text);
    Texts.TextFramed(cfg.order, text, COMMAND_PACKET);
    Texts.TextRoundTrip(cfg.order, text, COMMAND_PACKET);
    assert cfg.decode(Encode(cfg.order, w)) == DecodePacket(cfg.order, EncodeString(cfg.order, text, COMMAND_PACKET));
  }

  lemma ReplyBare(v: Version)
    ensures Bare(VersionReply(v)) && Bare(Welcome())
  {
    ItoaNumeral(v.minor);
    DigitsAreDigits(if v.minor < 0 then -v.minor else v.minor);
    assert VersionReply(v)[|VersionReply(v)| - 1] == Itoa(v.minor)[|Itoa(v.minor)| - 1];
    assert Ascii("Version set to ")[0] == 86;
    assert |Welcome()| == 26 && Welcome()[0] == 81 && Welcome()[25] == 100;
  }

  /** A new client gets the version it wants from a server that confirms it. */
  lemma FirstTry(cfg: Config)
    requires Real(cfg) && cfg.limit >= START_BUFFER_SIZE && |VersionReply(cfg.want)| <= 4000
    ensures var welcome, reply := TextPacket(Welcome()), TextPacket(VersionReply(cfg.want));
      AllSendable(cfg, [welcome, reply]) &&
      var (e, t) := Connect(cfg, START, Some(Server(EncodeAll(cfg, [welcome, reply]))));
      e == Nil && t.link.Some? && t.version == cfg.want
  {
    hide Deserved, EqualFold, VersionReply, Connect, EncodeAll, Greets, Bare, Runs.LastEvent, Runs.StateEvent;
    var welcome, reply := TextPacket(Welcome()), TextPacket(VersionReply(cfg.want));
    var xs := [Exchange([], reply)];
    ReplyBare(cfg.want);
    WelcomeLength();
    TextHeard(cfg, Welcome());
    TextHeard(cfg, VersionReply(cfg.want));
    ReplyConfirms(cfg.want);
    assert Flat(xs[1..]) == [] && Flat(xs) == [reply];
    assert [welcome] + Flat(xs) == [welcome, reply];
    ServerGreets(cfg, START_BUFFER_SIZE, welcome, xs);
    StartSound(cfg);
    assert Ladder(cfg.want, cfg.negotiate)[0] == cfg.want;
    assert Confirms(cfg, reply, cfg.want);
    ConnectSettles(cfg, START, Server(EncodeAll(cfg, [welcome, reply])), welcome, xs, true);
  }

  lemma WelcomeLength()
    ensures |Welcome()| == 26
  {
  }

  lemma StartSound(cfg: Config)
    ensures Runs.Sound(cfg, START)
  {
  }
}
