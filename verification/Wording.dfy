/** The texts the client sends and expects, letter by letter. */
module Wording {
  import opened Wire
  import opened PacketValues
  import opened Network
  import opened Versions
  import opened Sessions
  import opened Delivery
  import opened StreamTexts
  import Texts

  // Decimal numerals.

  /** The decimal numeral of n: digits, no leading zero, a minus sign exactly for negative numbers. */
  predicate Decimal(b: bytes, n: int) {
    if n < 0 then b != [] && b[0] == 45 && NatDecimal(b[1..], -n) else NatDecimal(b, n)
  }

  predicate NatDecimal(b: bytes, n: int) {
    b != [] && (forall i :: 0 <= i < |b| ==> 48 <= b[i] <= 57) && (|b| > 1 ==> b[0] != 48) && ParseNat(b) == n
  }

  lemma {:induction false} DigitsDecimal(n: nat)
    ensures NatDecimal(Versions.Digits(n), n) && (n > 0 ==> Versions.Digits(n)[0] != 48)
    decreases n
  {
    hide ParseNat;
    ParseDigits(n);
    DigitsAreDigits(n);
    if n >= 10 {
      DigitsDecimal(n / 10);
      assert Versions.Digits(n)[0] == Versions.Digits(n / 10)[0];
    }
  }

  lemma ItoaDecimal(n: int)
    ensures Decimal(Itoa(n), n)
  {
    hide NatDecimal;
    DigitsDecimal(if n < 0 then -n else n);
    if n < 0 {
      assert Itoa(n)[1..] == Versions.Digits(-n);
    }
  }

  // The version command and its reply.

  const VERSION := [86, 101, 114, 115, 105, 111, 110]
  const VERSION_SET_TO := [86, 101, 114, 115, 105, 111, 110, 32, 115, 101, 116, 32, 116, 111, 32]

  /** Two decimal numerals with a dot between them. */
  predicate NamesVersion(b: bytes, v: Version) {
    var major := Field(b, 46);
    |major| < |b| && Decimal(major, v.major) && Decimal(b[|major| + 1..], v.minor)
  }

  /** "Version", a space, and the version. */
  predicate AsksForVersion(text: bytes, v: Version) {
    Field(text, 32) == VERSION && |text| > 7 && NamesVersion(text[8..], v)
  }

  /** "Version set to ", and the version. */
  predicate GrantsVersion(text: bytes, v: Version) { VERSION_SET_TO <= text && NamesVersion(text[15..], v) }

  lemma RenderNames(v: Version)
    ensures NamesVersion(Render(v), v) && 32 !in Render(v) && Bare(Render(v)) && Render(v) != []
  {
    hide Decimal, Itoa;
    ItoaDecimal(v.major);
    ItoaDecimal(v.minor);
    ItoaNumeral(v.major);
    ItoaNumeral(v.minor);
    ParseItoa(v.major);
    var rest := [46] + Itoa(v.minor);
    assert Render(v) == Itoa(v.major) + rest;
    FieldOf(Itoa(v.major), 46, rest);
    assert Render(v)[|Itoa(v.major)| + 1..] == Itoa(v.minor);
    NotEmpty(v.major);
    NotEmpty(v.minor);
    assert Render(v)[|Render(v)| - 1] == Itoa(v.minor)[|Itoa(v.minor)| - 1];
  }

  lemma NotEmpty(n: int)
    ensures Itoa(n) != []
  {
    DigitsAreDigits(if n < 0 then -n else n);
  }

  lemma VersionWords()
    ensures Ascii("Version ") == VERSION + [32] && Ascii("Version set to ") == VERSION_SET_TO
  {
  }

  lemma CommandAsks(v: Version)
    ensures AsksForVersion(VersionCommand(v), v) && Bare(VersionCommand(v))
  {
    hide NamesVersion, Render, Ascii;
    var text, tail := VersionCommand(v), Render(v);
    VersionWords();
    RenderNames(v);
    assert text == VERSION + ([32] + tail);
    FieldOf(VERSION, 32, [32] + tail);
    assert text[8..] == tail;
    assert text[|text| - 1] == tail[|tail| - 1];
  }

  lemma ReplyGrants(v: Version)
    ensures GrantsVersion(VersionReply(v), v)
  {
    hide NamesVersion, Render, Ascii;
    VersionWords();
    RenderNames(v);
    assert VersionReply(v)[15..] == Render(v);
  }

  /** The packet m is a command with the text. */
  predicate IsCommand(o: Order, m: bytes, text: bytes) {
    var p := DecodePacket(o, m);
    p.Some? && p.value.ptype == 1 && p.value.commandResponse == text
  }

  lemma CommandSent(o: Order, text: bytes)
    requires Bare(text)
    ensures IsCommand(o, EncodeString(o, text, 1), text)
  {
    hide DecodePacket, EncodeString, Trim;
    Texts.TextRoundTrip(o, text, 1);
  }

  lemma {:induction false} SkipSendsNothing(cfg: Config, s: Session, timeout: int, deadline: int)
    ensures SkipEvents(cfg, s, timeout, deadline).1.sent == s.sent
    decreases Pending(s)
  {
    hide Receive;
    var wait := if timeout > 0 then deadline - Now(s) else 0;
    if timeout <= 0 || wait > 0 {
      ReceiveProgress(cfg, s, wait);
      var (r, t) := Receive(cfg, s, wait);
      if Skipped(r, t, timeout, deadline) {
        SkipSendsNothing(cfg, t, timeout, deadline);
      }
    }
  }

  lemma {:induction false} AwaitSendsNothing(cfg: Config, s: Session, deadline: nat, stop: PacketValue -> bool)
    ensures Await(cfg, s, deadline, stop).1.sent == s.sent
    decreases Left(s, deadline)
  {
    hide Receive;
    if Now(s) < deadline {
      ReceiveProgress(cfg, s, deadline - Now(s));
      AwaitProgress(cfg, s, deadline);
      var (r, t) := Receive(cfg, s, deadline - Now(s));
      if r.err == Nil && !stop(r.packet) {
        AwaitSendsNothing(cfg, t, deadline, stop);
      }
    }
  }

  /** Connected, and writing works. */
  predicate CanSend(s: Session) { s.link.Some? && !Missed(s.link.value.severedAt, Now(s)) }

  /** Setting a version sends one packet, a command that asks for exactly that version, and succeeds exactly when the
      reply within five seconds is one, in whatever case, that grants exactly that version. */
  lemma SetVersionAsks(cfg: Config, s: Session, v: Version)
    requires CanSend(s)
    ensures exists m: bytes, text: bytes, grant: bytes ::
      && AsksForVersion(text, v) && IsCommand(cfg.order, m, text) && GrantsVersion(grant, v)
      && SetVersion(cfg, s, v).1.sent == s.sent + [m]
      && var r := SkipEvents(cfg, s.(sent := s.sent + [m]), 5_000_000_000, Now(s) + 5_000_000_000).0;
         (SetVersion(cfg, s, v).0 == Nil <==> r.err == Nil && EqualFold(r.packet.commandResponse, grant))
  {
    hide SkipEvents, VersionCommand, VersionReply, EncodeString, EqualFold, AsksForVersion, GrantsVersion, Bare, IsCommand;
    var text, grant := VersionCommand(v), VersionReply(v);
    var m := EncodeString(cfg.order, text, 1);
    CommandAsks(v);
    ReplyGrants(v);
    CommandSent(cfg.order, text);
    SkipSendsNothing(cfg, s.(sent := s.sent + [m]), 5_000_000_000, Now(s) + 5_000_000_000);
    assert [grant][0] == grant;
    SetVersionParts(cfg, s, v, m, text, grant);
  }

  lemma SetVersionParts(cfg: Config, s: Session, v: Version, m: bytes, text: bytes, grant: bytes)
    requires CanSend(s) && text == VersionCommand(v) && grant == VersionReply(v) && m == EncodeString(cfg.order, text, 1)
    ensures var (r, t) := SkipEvents(cfg, s.(sent := s.sent + [m]), 5_000_000_000, Now(s) + 5_000_000_000);
      && (SetVersion(cfg, s, v).0 == Nil <==> r.err == Nil && EqualFold(r.packet.commandResponse, grant))
      && SetVersion(cfg, s, v).1.sent == t.sent
  {
    hide SkipEvents, VersionCommand, VersionReply, EncodeString, EqualFold;
    assert [grant][0] == grant;
  }

  // Asking for the state.

  const GET_LAST_EVENT := [71, 101, 116, 76, 97, 115, 116, 69, 118, 101, 110, 116]
  const GET_STATE := [71, 101, 116, 83, 116, 97, 116, 101]

  lemma StateWords()
    ensures Ascii("GetLastEvent") == GET_LAST_EVENT && Ascii("GetState") == GET_STATE
  {
  }

  /** The state is asked for with "GetLastEvent" exactly in versions 1.9 and below with major version 1, and with
      "GetState" in all others. */
  lemma StateAsks(cfg: Config, s: Session)
    requires CanSend(s)
    ensures exists m: bytes ::
      && IsCommand(cfg.order, m, if s.version.major == 1 && s.version.minor <= 9 then GET_LAST_EVENT else GET_STATE)
      && GetState(cfg, s).1.sent == s.sent + [m]
  {
    hide Await, EncodeString, IsCommand, Ascii;
    StateWords();
    var text := StateCommand(s.version);
    var m := EncodeString(cfg.order, text, 1);
    CommandSent(cfg.order, text);
    var t := Send(cfg, s, text, 1).1;
    AwaitSendsNothing(cfg, t, Now(t) + COMMAND_TIMEOUT, IsEventPacket);
    assert IsCommand(cfg.order, m, text);
  }

  // The welcome.

  /** "QTM RT Interface connected" */
  const WELCOME := [81, 84, 77, 32, 82, 84, 32, 73, 110, 116, 101, 114, 102, 97, 99, 101, 32,
                    99, 111, 110, 110, 101, 99, 116, 101, 100]

  lemma WelcomeWords()
    ensures Welcome() == WELCOME
  {
  }

  /** Connecting where the first packet is not the welcome: its error, or a welcome that is not the expected one, ends
      the attempt; nothing has been sent and nothing is left open. */
  lemma ConnectRefused(cfg: Config, s: Session, net: Net, w: WirePacket)
    requires Next(cfg, net, w) && Uncut(cfg, net, cfg.connectTimeout, w) && Fits(s.cap, w)
    requires Deserved(cfg, w).err != Nil || Deserved(cfg, w).packet.commandResponse != WELCOME
    ensures var (e, t) := Connect(cfg, s, Some(net));
      && e == (if Deserved(cfg, w).err != Nil then Deserved(cfg, w).err else BadWelcome)
      && t.link == None && t.version == Version(0, 0) && t.sent == s.sent
  {
    hide ReceiveOn, Uncut, Next, Deserved, Negotiate, Ladder;
    WelcomeWords();
    Delivered(cfg, net, s.cap, cfg.connectTimeout, w);
  }

  /** Without a connection there is nothing to greet. */
  lemma ConnectUndialed(cfg: Config, s: Session)
    ensures var (e, t) := Connect(cfg, s, None);
      e == DialFailed && t.link == None && t.sent == s.sent && (s.link.Some? ==> t.version == Version(0, 0))
  {
  }
}
