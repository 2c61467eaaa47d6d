/** Connecting to a server that answers every version command once and in time, whatever the pieces its packets
    come in. */
module Handshake {
  import opened Wire
  import opened PacketValues
  import opened Network
  import opened Versions
  import opened Sessions
  import opened Delivery
  import opened Answers
  import opened Runs

  /** What the server sends between one command and the next: any number of events and no-more-data packets, then its
      answer. */
  datatype Exchange = Exchange(before: seq<WirePacket>, answer: WirePacket)

  function Flat(xs: seq<Exchange>): seq<WirePacket> {
    if xs == [] then [] else xs[0].before + [xs[0].answer] + Flat(xs[1..])
  }

  /** Every answer is one, and what stands before it is passed over. */
  predicate Proper(cap: nat, x: Exchange) {
    !IsSkipped(x.answer) && forall i :: 0 <= i < |x.before| ==> PassedOver(cap, x.before[i])
  }

  predicate AllProper(cap: nat, xs: seq<Exchange>) { forall i :: 0 <= i < |xs| ==> Proper(cap, xs[i]) }

  /** The exchanges stand on the stream, each body within the read timeout after its header. */
  ghost predicate Sent(cfg: Config, net: Net, ws: seq<WirePacket>) {
    OnWire(cfg, net, ws) && Prompt(cfg, net, ws, |ws|)
  }

  function Ahead(xs: seq<Exchange>): nat
    requires xs != []
  {
    Bytes(Flat(xs), |xs[0].before|)
  }

  /** The header of each answer is there within five seconds after the one before it has been read. */
  ghost predicate Timely(net: Net, xs: seq<Exchange>)
    decreases |xs|
  {
    xs != [] ==>
      HeaderAt(net, Flat(xs), |xs[0].before|) < net.now + 5_000_000_000
      && Timely(After(net, Ahead(xs) + Size(xs[0].answer)), xs[1..])
  }

  ghost predicate Confirms(cfg: Config, w: WirePacket, v: Version) {
    Sendable(cfg, w) && Deserved(cfg, w).err == Nil && EqualFold(Deserved(cfg, w).packet.commandResponse, VersionReply(v))
  }

  function Command(cfg: Config, v: Version): bytes { EncodeString(cfg.order, VersionCommand(v), COMMAND_PACKET) }

  function Commands(cfg: Config, vs: seq<Version>): seq<bytes> {
    if vs == [] then [] else [Command(cfg, vs[0])] + Commands(cfg, vs[1..])
  }

  lemma FirstExchange(cap: nat, xs: seq<Exchange>)
    requires xs != [] && AllProper(cap, xs)
    ensures var ws, k := Flat(xs), |xs[0].before|;
      FirstReply(cap, ws, k) && ws[k] == xs[0].answer && ws[k + 1..] == Flat(xs[1..])
  {
  }

  lemma {:induction false} BytesOneMore(ws: seq<WirePacket>, k: nat)
    requires k < |ws|
    ensures Bytes(ws, k + 1) == Bytes(ws, k) + Size(ws[k])
    decreases k
  {
    if k > 0 {
      BytesOneMore(ws[1..], k - 1);
    }
  }

  /** A command whose reply is there within five seconds: it succeeds exactly when the reply is no error and its text is
      one of those expected, whatever the case of letters. */
  lemma CommandAnswered(cfg: Config, s: Session, text: bytes, ptype: u32, expected: seq<bytes>, ws: seq<WirePacket>, k: nat)
    requires Real(cfg) && s.link.Some? && s.link.value.severedAt == None && OnWire(cfg, s.link.value, ws)
    requires FirstReply(s.cap, ws, k) && Prompt(cfg, s.link.value, ws, k + 1)
    requires HeaderAt(s.link.value, ws, k) < Now(s) + 5_000_000_000
    ensures AllSendable(cfg, ws)
    ensures var (e, t), r := SendAndWait(cfg, s, text, ptype, expected), Given(cfg, s.cap, ws[k]);
      && t.link == Some(After(s.link.value, Bytes(ws, k) + Size(ws[k])))
      && e == if r.err != Nil then r.err
              else if exists i :: 0 <= i < |expected| && EqualFold(r.packet.commandResponse, expected[i]) then Nil
              else UnexpectedReply
  {
    hide SkipEvents, After, Given, EqualFold, Bytes, EncodeString, FirstReply, Sendable, OnWire, Prompt, Reached;
    var t := Send(cfg, s, text, ptype).1;
    SkipAnswered(cfg, t, COMMAND_TIMEOUT, Now(t) + COMMAND_TIMEOUT, ws, k);
  }

  /** A version command that is answered in time: the version is set exactly when the answer confirms it and fits
      the buffer, and the stream stands behind the answer. */
  lemma VersionAnswered(cfg: Config, s: Session, v: Version, xs: seq<Exchange>)
    requires Real(cfg) && Sound(cfg, s) && s.link.Some? && s.link.value.severedAt == None && xs != []
    requires Sent(cfg, s.link.value, Flat(xs)) && AllProper(s.cap, xs) && Timely(s.link.value, xs)
    ensures var (e, t) := SetVersion(cfg, s, v);
      && (e == Nil <==> Confirms(cfg, xs[0].answer, v) && Fits(s.cap, xs[0].answer))
      && t.version == (if e == Nil then v else s.version)
      && t.link == Some(After(s.link.value, Ahead(xs) + Size(xs[0].answer))) && t.cap >= s.cap
      && t.sent == s.sent + [Command(cfg, v)]
    ensures Sound(cfg, SetVersion(cfg, s, v).1)
  {
    hide SkipEvents, After, Deserved, Encode, EqualFold, Sound, Bytes, Flat, Timely, VersionReply, VersionCommand,
      EncodeString, FirstReply, Sendable, OnWire, Prompt, Reached, Trim;
    var ws, k := Flat(xs), |xs[0].before|;
    FirstExchange(s.cap, xs);
    SetVersionSound(cfg, s, v);
    SendSound(cfg, s, VersionCommand(v), COMMAND_PACKET);
    var t := Send(cfg, s, VersionCommand(v), COMMAND_PACKET).1;
    TimelyFirst(s.link.value, xs);
    WithinFlat(xs);
    PromptLess(cfg, s.link.value, ws, k + 1, |ws|);
    SkipAnswered(cfg, t, COMMAND_TIMEOUT, Now(t) + COMMAND_TIMEOUT, ws, k);
    SkipSound(cfg, t, COMMAND_TIMEOUT, Now(t) + COMMAND_TIMEOUT);
    GivenType(cfg, s.cap, xs[0].answer);
    assert [VersionReply(v)][0] == VersionReply(v);
  }

  lemma TimelyFirst(net: Net, xs: seq<Exchange>)
    requires xs != [] && Timely(net, xs)
    ensures HeaderAt(net, Flat(xs), |xs[0].before|) < net.now + 5_000_000_000
    ensures Timely(After(net, Ahead(xs) + Size(xs[0].answer)), xs[1..])
  {
  }

  /** After an exchange the connection is ready for the next one. */
  lemma Onward(cfg: Config, net: Net, cap: nat, xs: seq<Exchange>)
    requires xs != [] && net.severedAt == None
    requires Sent(cfg, net, Flat(xs)) && AllProper(cap, xs) && Timely(net, xs)
    ensures var after := After(net, Ahead(xs) + Size(xs[0].answer));
      after.severedAt == None && Sent(cfg, after, Flat(xs[1..])) && Timely(after, xs[1..])
  {
    hide After, Flat, Bytes, Timely, OnWire, Prompt, Take, FirstReply;
    var ws, k := Flat(xs), |xs[0].before|;
    FirstExchange(cap, xs);
    WithinFlat(xs);
    TimelyFirst(net, xs);
    WireOn(cfg, net, ws, k + 1);
    PromptOn(cfg, net, ws, |ws| - (k + 1), k + 1);
    BytesOneMore(ws, k);
    AfterIncoming(net, Bytes(ws, k + 1));
  }

  lemma WithinFlat(xs: seq<Exchange>)
    requires xs != []
    ensures |xs[0].before| < |Flat(xs)|
  {
  }

  /** Asking for the state sends one command and changes neither version nor connection. */
  lemma StateAsked(cfg: Config, s: Session)
    requires Sound(cfg, s) && s.link.Some? && s.link.value.severedAt == None
    ensures var t := GetState(cfg, s).1;
      t.link.Some? && t.version == s.version
      && t.sent == s.sent + [EncodeString(cfg.order, StateCommand(s.version), COMMAND_PACKET)]
  {
    hide Ask, Sound, StateCommand, EncodeString;
    AskSound(cfg, s, StateCommand(s.version), IsEventPacket);
  }

  /** The answers xs to the versions vs, as far as they are asked for: none but the last accepts, and the last one
      does so, in a packet that fits the buffer, unless no version is left. */
  ghost predicate Served(cfg: Config, cap: nat, vs: seq<Version>, xs: seq<Exchange>, accepted: bool) {
    && |xs| <= |vs| && (if accepted then xs != [] && Fits(cap, xs[|xs| - 1].answer) else |xs| == |vs|)
    && forall i :: 0 <= i < |xs| ==> (Confirms(cfg, xs[i].answer, vs[i]) <==> accepted && i == |xs| - 1)
  }

  lemma {:induction false} NegotiateAnswered(cfg: Config, s: Session, vs: seq<Version>, xs: seq<Exchange>, accepted: bool)
    requires Real(cfg) && Sound(cfg, s) && s.link.Some? && s.link.value.severedAt == None && s.version == Version(0, 0)
    requires Sent(cfg, s.link.value, Flat(xs)) && AllProper(s.cap, xs) && Timely(s.link.value, xs)
    requires Served(cfg, s.cap, vs, xs, accepted)
    ensures var (e, t) := Negotiate(cfg, s, vs);
      if accepted then
        e == Nil && t.link.Some? && t.version == vs[|xs| - 1]
        && t.sent == s.sent + Commands(cfg, vs[..|xs|]) + [EncodeString(cfg.order, StateCommand(t.version), COMMAND_PACKET)]
      else e == VersionNotSupported && t.link == None && t.version == Version(0, 0) && t.sent == s.sent + Commands(cfg, vs)
    decreases |vs|
  {
    hide SetVersion, GetState, Sound, Confirms, Flat, Sent, Timely, After, EncodeString, StateCommand, Command;
    if xs != [] {
      VersionAnswered(cfg, s, vs[0], xs);
      Onward(cfg, s.link.value, s.cap, xs);
      var (e, t) := SetVersion(cfg, s, vs[0]);
      assert vs[..|xs|][1..] == vs[1..][..|xs| - 1];
      if e == Nil {
        assert |xs| == 1;
        StateAsked(cfg, t);
        assert Commands(cfg, vs[..1]) == [Command(cfg, vs[0])];
      } else {
        NegotiateAnswered(cfg, t, vs[1..], xs[1..], accepted);
        assert s.sent + [Command(cfg, vs[0])] + Commands(cfg, vs[1..]) == s.sent + Commands(cfg, vs);
      }
    }
  }

  lemma ServedLater(cfg: Config, cap: nat, larger: nat, vs: seq<Version>, xs: seq<Exchange>, accepted: bool)
    requires Served(cfg, cap, vs, xs, accepted) && AllProper(cap, xs) && larger >= cap
    ensures Served(cfg, larger, vs, xs, accepted) && AllProper(larger, xs)
  {
    hide Confirms;
    forall i | 0 <= i < |xs| ensures Proper(larger, xs[i]) {
      assert Proper(cap, xs[i]);
    }
  }

  /** The header of the welcome is there within the connect timeout, and then the versions are asked for. */
  ghost predicate Greets(cfg: Config, cap: nat, net: Net, welcome: WirePacket, xs: seq<Exchange>) {
    && net.severedAt == None && Sent(cfg, net, [welcome] + Flat(xs)) && Fits(cap, welcome)
    && Sendable(cfg, welcome) && Deserved(cfg, welcome).err == Nil
    && Deserved(cfg, welcome).packet.commandResponse == Welcome()
    && !Missed(Until(net.now, cfg.connectTimeout), After(net, PACKET_HEADER_SIZE).now)
    && AllProper(cap, xs) && Timely(After(net, Size(welcome)), xs)
  }

  lemma Welcomed(cfg: Config, s: Session, net: Net, welcome: WirePacket, xs: seq<Exchange>)
    requires Real(cfg) && Sound(cfg, s) && s.link == Some(net) && Greets(cfg, s.cap, net, welcome, xs)
    ensures var (r, t) := Receive(cfg, s, cfg.connectTimeout);
      && r == Deserved(cfg, welcome) && t.link == Some(After(net, Size(welcome))) && t.cap >= s.cap
      && t.version == s.version && t.sent == s.sent && Sound(cfg, t)
      && t.link.value.severedAt == None && Sent(cfg, t.link.value, Flat(xs))
  {
    hide Receive, After, Deserved, Flat, Sound, Take, Timely, Encode, Sendable, OnWire, Reached, Prompt;
    var ws := [welcome] + Flat(xs);
    assert ws[1..] == Flat(xs) && |ws| == 1 + |Flat(xs)|;
    PromptLess(cfg, net, ws, 1, |ws|);
    HeadersInOrder(cfg, net, ws, 0);
    FirstReceived(cfg, s, cfg.connectTimeout, ws);
    ReceiveSound(cfg, s, cfg.connectTimeout);
    WireOn(cfg, net, ws, 1);
    PromptOn(cfg, net, ws, |ws| - 1, 1);
    assert Bytes(ws, 1) == Size(welcome);
    AfterIncoming(net, Size(welcome));
  }

  /** Connecting to such a server: the version kept is the first on the ladder that the server accepts, and no
      version command follows it; when it accepts none, connecting fails with the unsupported-version error and
      leaves nothing open. */
  lemma ConnectSettles(cfg: Config, s: Session, net: Net, welcome: WirePacket, xs: seq<Exchange>, accepted: bool)
    requires Real(cfg) && Sound(cfg, s) && Greets(cfg, s.cap, net, welcome, xs)
    requires Served(cfg, s.cap, Ladder(cfg.want, cfg.negotiate), xs, accepted)
    ensures var (e, t) := Connect(cfg, s, Some(net));
      var ladder := Ladder(cfg.want, cfg.negotiate);
      if accepted then
        e == Nil && t.link.Some? && t.version == ladder[|xs| - 1]
        && t.sent == s.sent + Commands(cfg, ladder[..|xs|])
                     + [EncodeString(cfg.order, StateCommand(t.version), COMMAND_PACKET)]
      else
        e == VersionNotSupported && t.link == None && t.version == Version(0, 0)
        && t.sent == s.sent + Commands(cfg, ladder)
  {
    hide Receive, After, Deserved, Flat, Sent, Timely, Ladder, Negotiate, Commands, EncodeString, StateCommand, Served,
      Sendable, Confirmed;
    DisconnectSound(cfg, s);
    var t := Dialed(Disconnect(s), Some(net));
    Welcomed(cfg, t, net, welcome, xs);
    ServedLater(cfg, s.cap, Receive(cfg, t, cfg.connectTimeout).1.cap, Ladder(cfg.want, cfg.negotiate), xs, accepted);
    NegotiateAnswered(cfg, Receive(cfg, t, cfg.connectTimeout).1, Ladder(cfg.want, cfg.negotiate), xs, accepted);
  }

  /** The answers of a server that accepts a fixed set of versions, up to the first acceptance, which fits the
      buffer. */
  ghost predicate Accepts(cfg: Config, cap: nat, vs: seq<Version>, xs: seq<Exchange>, accepts: set<Version>) {
    && |xs| <= |vs| && (xs != [] && vs[|xs| - 1] in accepts ==> Fits(cap, xs[|xs| - 1].answer))
    && (|xs| == |vs| || (xs != [] && vs[|xs| - 1] in accepts))
    && (forall i :: 0 <= i < |xs| - 1 ==> vs[i] !in accepts)
    && (forall i :: 0 <= i < |xs| ==> (Confirms(cfg, xs[i].answer, vs[i]) <==> vs[i] in accepts))
  }

  /** A server that accepts a fixed set of versions: with a requested major version of 1 or more, the client keeps
      the greatest of its candidates that the server accepts. */
  lemma BestVersion(cfg: Config, s: Session, net: Net, welcome: WirePacket, xs: seq<Exchange>, accepts: set<Version>)
    requires Real(cfg) && Sound(cfg, s) && Greets(cfg, s.cap, net, welcome, xs)
    requires Accepts(cfg, s.cap, Ladder(cfg.want, cfg.negotiate), xs, accepts)
    ensures var (e, t) := Connect(cfg, s, Some(net));
      var ladder := Ladder(cfg.want, cfg.negotiate);
      && (e == Nil <==> exists v :: v in ladder && v in accepts)
      && (e == Nil ==> t.version in ladder && t.version in accepts)
      && (e == Nil && cfg.want.major >= DEFAULT_MAJOR ==>
          forall v :: v in ladder && v in accepts && v != t.version ==> Less(v, t.version))
      && (e != Nil ==> e == VersionNotSupported && t.link == None)
  {
    hide Connect, Ladder, Greets, Sound, Confirms;
    var ladder := Ladder(cfg.want, cfg.negotiate);
    LadderExact(cfg.want, cfg.negotiate);
    LadderDescends(cfg.want, cfg.negotiate);
    var accepted := xs != [] && ladder[|xs| - 1] in accepts;
    ConnectSettles(cfg, s, net, welcome, xs, accepted);
  }
}
