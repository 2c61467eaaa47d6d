/** The stream command: how a request is written, and that it can be read back. */
module StreamTexts {
  import opened Wire
  import opened Components
  import opened Versions

  const SPACE := 32
  const COLON := 58

  // Fields and separators.

  /** What stands before the first separator. */
  function Field(b: bytes, sep: u8): (r: bytes)
    ensures r <= b && sep !in r && (|r| < |b| ==> b[|r|] == sep)
  {
    if b == [] || b[0] == sep then [] else [b[0]] + Field(b[1..], sep)
  }

  /** What stands after the last separator. */
  function LastField(b: bytes, sep: u8): (r: bytes)
    ensures |r| <= |b| && b[|b| - |r|..] == r && sep !in r && (|r| < |b| ==> b[|b| - |r| - 1] == sep)
  {
    if b == [] || b[|b| - 1] == sep then [] else LastField(b[..|b| - 1], sep) + [b[|b| - 1]]
  }

  function Split(b: bytes, sep: u8): seq<bytes>
    decreases |b|
  {
    var f := Field(b, sep);
    if |f| == |b| then [b] else [f] + Split(b[|f| + 1..], sep)
  }

  function Joined(parts: seq<bytes>, sep: u8): bytes
    decreases |parts|
  {
    if parts == [] then []
    else if |parts| == 1 then parts[0] else parts[0] + [sep] + Joined(parts[1..], sep)
  }

  lemma {:induction false} FieldOf(a: bytes, sep: u8, rest: bytes)
    requires sep !in a && (rest != [] ==> rest[0] == sep)
    ensures Field(a + rest, sep) == a
    decreases |a|
  {
    if a == [] {
      assert a + rest == rest;
    } else {
      assert (a + rest)[1..] == a[1..] + rest;
      FieldOf(a[1..], sep, rest);
    }
  }

  lemma {:induction false} LastFieldOf(rest: bytes, sep: u8, a: bytes)
    requires sep !in a && (rest != [] ==> rest[|rest| - 1] == sep)
    ensures LastField(rest + a, sep) == a
    decreases |a|
  {
    if a == [] {
      assert rest + a == rest;
    } else {
      assert (rest + a)[..|rest + a| - 1] == rest + a[..|a| - 1];
      LastFieldOf(rest, sep, a[..|a| - 1]);
    }
  }

  /** Splitting undoes joining exactly when no part holds the separator. */
  lemma {:induction false} SplitJoined(parts: seq<bytes>, sep: u8)
    requires parts != []
    ensures Split(Joined(parts, sep), sep) == parts <==> forall i :: 0 <= i < |parts| ==> sep !in parts[i]
    decreases |parts|
  {
    SplitClean(Joined(parts, sep), sep);
    if forall i :: 0 <= i < |parts| ==> sep !in parts[i] {
      if |parts| == 1 {
        FieldOf(parts[0], sep, []);
        assert parts[0] + [] == parts[0];
      } else {
        var rest := [sep] + Joined(parts[1..], sep);
        FieldOf(parts[0], sep, rest);
        assert Joined(parts, sep) == parts[0] + rest;
        assert (parts[0] + rest)[|parts[0]| + 1..] == Joined(parts[1..], sep);
        SplitJoined(parts[1..], sep);
      }
    }
  }

  lemma {:induction false} SplitClean(b: bytes, sep: u8)
    ensures forall i :: 0 <= i < |Split(b, sep)| ==> sep !in Split(b, sep)[i]
    decreases |b|
  {
    var f := Field(b, sep);
    if |f| < |b| {
      SplitClean(b[|f| + 1..], sep);
    }
  }

  // Numbers.

  function ParseNat(b: bytes): int {
    if b == [] then 0
    else
      var last: int := b[|b| - 1];
      10 * ParseNat(b[..|b| - 1]) + last - 48
  }

  function ParseInt(b: bytes): int { if b != [] && b[0] == 45 then -ParseNat(b[1..]) else ParseNat(b) }

  lemma {:induction false} ParseDigits(n: nat)
    ensures ParseNat(Versions.Digits(n)) == n
    decreases n
  {
    if n < 10 {
      assert ParseNat([48 + n]) == 10 * ParseNat([]) + n;
    } else {
      ParseDigits(n / 10);
      assert (Versions.Digits(n / 10) + [48 + n % 10])[..|Versions.Digits(n / 10)|] == Versions.Digits(n / 10);
    }
  }

  lemma ParseItoa(n: int)
    ensures ParseInt(Itoa(n)) == n && SPACE !in Itoa(n) && COLON !in Itoa(n)
  {
    var m := if n < 0 then -n else n;
    ParseDigits(m);
    DigitsAreDigits(m);
    ItoaNumeral(n);
    if n < 0 {
      assert Itoa(n)[1..] == Versions.Digits(m);
    }
  }

  // Component names.

  function Name(kind: int): string {
    if kind == TYPE_3D then "3D"
    else if kind == TYPE_3D_NO_LABELS then "3DNoLabels"
    else if kind == TYPE_ANALOG then "Analog"
    else if kind == TYPE_FORCE then "Force"
    else if kind == TYPE_6D then "6D"
    else if kind == TYPE_6D_EULER then "6DEuler"
    else if kind == TYPE_2D then "2D"
    else if kind == TYPE_2D_LINEARIZED then "2DLin"
    else if kind == TYPE_3D_RESIDUAL then "3DRes"
    else if kind == TYPE_3D_NO_LABELS_RESIDUAL then "3DNoLabelsRes"
    else if kind == TYPE_6D_RESIDUAL then "6DRes"
    else if kind == TYPE_6D_EULER_RESIDUAL then "6DEulerRes"
    else if kind == TYPE_ANALOG_SINGLE then "AnalogSingle"
    else if kind == TYPE_IMAGE then "Image"
    else if kind == TYPE_FORCE_SINGLE then "ForceSingle"
    else if kind == TYPE_GAZE_VECTOR then "GazeVector"
    else if kind == TYPE_TIMECODE then "Timecode"
    else if kind == TYPE_SKELETON then "Skeleton"
    else if kind == TYPE_EYE_TRACKER then "EyeTracker"
    else ""
  }

  /** Length and first letter tell the names apart. */
  function Mark(kind: int): (int, char) {
    match kind
    case 1 => (2, '3')   case 2 => (10, '3')  case 3 => (6, 'A')   case 4 => (5, 'F')   case 5 => (2, '6')
    case 6 => (7, '6')   case 7 => (2, '2')   case 8 => (5, '2')   case 9 => (5, '3')   case 10 => (13, '3')
    case 11 => (5, '6')  case 12 => (10, '6') case 13 => (12, 'A') case 14 => (5, 'I')  case 15 => (11, 'F')
    case 16 => (10, 'G') case 17 => (8, 'T')  case 18 => (8, 'S')  case 19 => (10, 'E')
    case _ => (0, ' ')
  }

  lemma NameMarked(kind: int)
    ensures |Name(kind)| == Mark(kind).0 && (Name(kind) != "" ==> Name(kind)[0] == Mark(kind).1)
    ensures Name(kind) != "" <==> 1 <= kind <= 19
  {
  }

  lemma NamesDiffer(j: int, k: int)
    requires Ascii(Name(j)) == Ascii(Name(k)) && Name(j) != ""
    ensures j == k
  {
    NameMarked(j);
    NameMarked(k);
    assert Ascii(Name(j))[0] == Ascii(Name(k))[0];
    assert |Ascii(Name(j))| == |Ascii(Name(k))|;
  }

  /** Letters and digits only, so neither separator. */
  predicate IsWord(s: string) {
    forall i :: 0 <= i < |s| ==> '0' <= s[i] <= '9' || 'A' <= s[i] <= 'Z' || 'a' <= s[i] <= 'z'
  }

  lemma NameIsWord(kind: int)
    ensures IsWord(Name(kind))
  {
    hide IsWord, Name;
    if kind <= 11 {
      EarlyNames(kind);
    } else {
      LateNames(kind);
    }
  }

  lemma EarlyNames(kind: int)
    requires kind <= 11
    ensures IsWord(Name(kind))
  {
  }

  lemma LateNames(kind: int)
    requires kind > 11
    ensures IsWord(Name(kind))
  {
  }

  lemma WordPlain(s: string)
    requires IsWord(s)
    ensures SPACE !in Ascii(s) && COLON !in Ascii(s)
  {
  }

  function KindFrom(name: bytes, kind: nat): Option<int>
    decreases 20 - kind
  {
    if kind > 19 then None else if Ascii(Name(kind)) == name then Some(kind) else KindFrom(name, kind + 1)
  }

  function KindOf(name: bytes): Option<int> { KindFrom(name, 1) }

  lemma {:induction false} KindFound(kind: int, from: nat)
    requires 1 <= from <= kind <= 19
    ensures KindFrom(Ascii(Name(kind)), from) == Some(kind)
    decreases kind - from
  {
    hide Name;
    NameMarked(from);
    if Ascii(Name(from)) == Ascii(Name(kind)) {
      NamesDiffer(from, kind);
    } else {
      KindFound(kind, from + 1);
    }
  }

  // Requests.

  datatype Options = Options(analogChannels: bytes, skeletonGlobal: bool)
  datatype Rate = AllFrames | Frequency(value: int) | FrequencyDivisor(value: int)
  datatype Udp = Udp(addr: bytes, port: int)

  /** A component with the options that apply to it. */
  datatype Component = Component(kind: int, channels: bytes, global: bool)
  datatype Request = Request(rate: Rate, udp: Option<Udp>, components: seq<Component>)

  predicate IsAnalog(kind: int) { kind == TYPE_ANALOG || kind == TYPE_ANALOG_SINGLE }

  predicate Applies(c: Component) {
    1 <= c.kind <= 19 && (c.channels != [] ==> IsAnalog(c.kind)) && (c.global ==> c.kind == TYPE_SKELETON)
  }

  predicate WellFormedRequest(r: Request) {
    && r.components != [] && (r.udp.Some? ==> r.udp.value.port > 0)
    && forall i :: 0 <= i < |r.components| ==> Applies(r.components[i])
  }

  predicate SpaceFree(r: Request) {
    && (r.udp.Some? ==> SPACE !in r.udp.value.addr)
    && forall i :: 0 <= i < |r.components| ==> SPACE !in r.components[i].channels
  }

  function RateToken(r: Rate): bytes {
    match r
    case AllFrames => Ascii("AllFrames")
    case Frequency(v) => Ascii("Frequency") + [COLON] + Itoa(v)
    case FrequencyDivisor(v) => Ascii("FrequencyDivisor") + [COLON] + Itoa(v)
  }

  function UdpToken(u: Udp): bytes {
    Ascii("UDP") + (if u.addr != [] then [COLON] + u.addr else []) + [COLON] + Itoa(u.port)
  }

  function ComponentToken(c: Component): bytes {
    Ascii(Name(c.kind)) + (if c.channels != [] then [COLON] + c.channels else if c.global then [COLON] + Ascii("global") else [])
  }

  function ComponentTokens(cs: seq<Component>): (ts: seq<bytes>)
    ensures |ts| == |cs| && forall i :: 0 <= i < |cs| ==> ts[i] == ComponentToken(cs[i])
  {
    if cs == [] then [] else [ComponentToken(cs[0])] + ComponentTokens(cs[1..])
  }

  function CommandTokens(r: Request): seq<bytes> {
    [Ascii("StreamFrames"), RateToken(r.rate)] + (if r.udp.Some? then [UdpToken(r.udp.value)] else [])
    + ComponentTokens(r.components)
  }

  function StreamCommand(r: Request): bytes { Joined(CommandTokens(r), SPACE) }

  // Reading a command.

  function AfterField(b: bytes, sep: u8): bytes {
    var f := Field(b, sep);
    if |f| < |b| then b[|f| + 1..] else []
  }

  function ParseRate(t: bytes): Option<Rate> {
    var f := Field(t, COLON);
    if f == Ascii("AllFrames") then Some(AllFrames)
    else if f == Ascii("Frequency") then Some(Frequency(ParseInt(AfterField(t, COLON))))
    else if f == Ascii("FrequencyDivisor") then Some(FrequencyDivisor(ParseInt(AfterField(t, COLON))))
    else None
  }

  /** The text after "UDP:" is a port, or an address and a port. */
  function ParseUdp(t: bytes): Option<Udp> {
    if Field(t, COLON) != Ascii("UDP") then None
    else
      var rest := AfterField(t, COLON);
      var port := LastField(rest, COLON);
      Some(Udp(if |port| < |rest| then rest[..|rest| - |port| - 1] else [], ParseInt(port)))
  }

  function ParseComponent(t: bytes): Option<Component> {
    var f := Field(t, COLON);
    var rest := AfterField(t, COLON);
    match KindOf(f)
    case None => None
    case Some(kind) =>
      if |f| == |t| then Some(Component(kind, [], false))
      else if IsAnalog(kind) then Some(Component(kind, rest, false))
      else if kind == TYPE_SKELETON && rest == Ascii("global") then Some(Component(kind, [], true))
      else None
  }

  function ParseComponents(ts: seq<bytes>): Option<seq<Component>> {
    if ts == [] then Some([])
    else
      match ParseComponent(ts[0])
      case None => None
      case Some(c) =>
        match ParseComponents(ts[1..])
        case None => None
        case Some(cs) => Some([c] + cs)
  }

  function ParseTokens(ts: seq<bytes>): Option<Request> {
    if |ts| < 3 || ts[0] != Ascii("StreamFrames") then None
    else
      var rate, udp := ParseRate(ts[1]), ParseUdp(ts[2]);
      var components := ParseComponents(if udp.Some? then ts[3..] else ts[2..]);
      if rate.None? || components.None? then None else Some(Request(rate.value, udp, components.value))
  }

  function Parse(command: bytes): Option<Request> { ParseTokens(Split(command, SPACE)) }

  // Each token reads back.

  lemma TokenSplit(head: string, rest: bytes)
    requires IsWord(head)
    ensures Field(Ascii(head) + [COLON] + rest, COLON) == Ascii(head)
    ensures AfterField(Ascii(head) + [COLON] + rest, COLON) == rest
    ensures Field(Ascii(head), COLON) == Ascii(head)
  {
    var h := Ascii(head);
    WordPlain(head);
    FieldOf(h, COLON, [COLON] + rest);
    assert h + [COLON] + rest == h + ([COLON] + rest);
    assert (h + [COLON] + rest)[|h| + 1..] == rest;
    FieldOf(h, COLON, []);
    assert h + [] == h;
  }

  lemma RateReads(r: Rate)
    ensures ParseRate(RateToken(r)) == Some(r) && SPACE !in RateToken(r)
  {
    var name := if r.AllFrames? then "AllFrames" else if r.Frequency? then "Frequency" else "FrequencyDivisor";
    assert IsWord(name);
    assert |Ascii("AllFrames")| == 9 && |Ascii("Frequency")| == 9 && |Ascii("FrequencyDivisor")| == 16;
    assert Ascii("AllFrames")[0] == 65 && Ascii("Frequency")[0] == 70;
    WordPlain(name);
    if r.AllFrames? {
      TokenSplit(name, []);
    } else {
      TokenSplit(name, Itoa(r.value));
      ParseItoa(r.value);
    }
  }

  lemma UdpParts(u: Udp)
    ensures var rest := (if u.addr != [] then u.addr + [COLON] else []) + Itoa(u.port);
      UdpToken(u) == Ascii("UDP") + [COLON] + rest && LastField(rest, COLON) == Itoa(u.port)
  {
    hide LastField, Ascii;
    ParseItoa(u.port);
    LastFieldOf(if u.addr != [] then u.addr + [COLON] else [], COLON, Itoa(u.port));
  }

  lemma UdpSpaces(u: Udp)
    ensures SPACE in UdpToken(u) <==> SPACE in u.addr
  {
    hide Ascii, Itoa, Field, LastField;
    assert IsWord("UDP");
    WordPlain("UDP");
    ParseItoa(u.port);
  }

  lemma UdpReads(u: Udp)
    ensures ParseUdp(UdpToken(u)) == Some(u)
  {
    hide LastField, Field, AfterField, Itoa, UdpToken, Ascii;
    assert IsWord("UDP");
    ParseItoa(u.port);
    UdpParts(u);
    var head, port := if u.addr != [] then u.addr + [COLON] else [], Itoa(u.port);
    TokenSplit("UDP", head + port);
    PortSplit(u.addr, head, port);
  }

  lemma PortSplit(addr: bytes, head: bytes, port: bytes)
    requires head == if addr != [] then addr + [COLON] else []
    ensures var rest := head + port;
      addr == (if |port| < |rest| then rest[..|rest| - |port| - 1] else [])
  {
  }

  lemma ComponentParts(c: Component)
    requires Applies(c)
    ensures var t, name := ComponentToken(c), Ascii(Name(c.kind));
      Field(t, COLON) == name && (|t| == |name| <==> c.channels == [] && !c.global)
      && AfterField(t, COLON) == (if c.channels != [] then c.channels else if c.global then Ascii("global") else [])
  {
    hide Name, Field;
    NameIsWord(c.kind);
    TokenSplit(Name(c.kind), if c.channels != [] then c.channels else Ascii("global"));
    if c.channels == [] && !c.global {
      assert ComponentToken(c) == Ascii(Name(c.kind));
    } else {
      assert ComponentToken(c)
          == Ascii(Name(c.kind)) + [COLON] + (if c.channels != [] then c.channels else Ascii("global"));
    }
  }

  lemma ComponentSpaces(c: Component)
    ensures SPACE in ComponentToken(c) <==> SPACE in c.channels
  {
    hide Name, Ascii;
    NameIsWord(c.kind);
    WordPlain(Name(c.kind));
    assert IsWord("global");
    WordPlain("global");
  }

  lemma ComponentReads(c: Component)
    requires Applies(c)
    ensures ParseComponent(ComponentToken(c)) == Some(c) && ParseUdp(ComponentToken(c)) == None
  {
    hide Name, Field, AfterField, ComponentToken, KindFrom;
    ComponentParts(c);
    KindFound(c.kind, 1);
    NotUdp(c.kind);
  }

  lemma NotUdp(kind: int)
    requires 1 <= kind <= 19
    ensures Ascii(Name(kind)) != Ascii("UDP")
  {
    hide Name;
    NameMarked(kind);
    assert Ascii("UDP")[0] == 85 && Ascii(Name(kind))[0] == (Name(kind)[0] as int) % 0x80;
  }

  // The whole command reads back.

  lemma {:induction false} ComponentsRead(cs: seq<Component>)
    requires forall i :: 0 <= i < |cs| ==> Applies(cs[i])
    ensures ParseComponents(ComponentTokens(cs)) == Some(cs)
    decreases |cs|
  {
    hide ParseComponent, ComponentToken, Applies, ParseUdp, UdpToken;
    if cs != [] {
      ComponentReads(cs[0]);
      ComponentsRead(cs[1..]);
      assert ComponentTokens(cs)[1..] == ComponentTokens(cs[1..]);
      assert [cs[0]] + cs[1..] == cs;
    }
  }

  lemma TokensRead(r: Request)
    requires WellFormedRequest(r)
    ensures ParseTokens(CommandTokens(r)) == Some(r)
  {
    hide ParseRate, RateToken, ParseUdp, UdpToken, ComponentToken, Applies, Ascii;
    var ts, cs := CommandTokens(r), ComponentTokens(r.components);
    RateReads(r.rate);
    ComponentsRead(r.components);
    if r.udp.Some? {
      UdpReads(r.udp.value);
      assert ts[3..] == cs;
    } else {
      assert Applies(r.components[0]);
      ComponentReads(r.components[0]);
      assert ts[2..] == cs;
    }
  }

  lemma TokensClean(r: Request)
    ensures (forall i :: 0 <= i < |CommandTokens(r)| ==> SPACE !in CommandTokens(r)[i]) <==> SpaceFree(r)
  {
    hide RateToken, UdpToken, ComponentToken, ParseRate, ParseUdp;
    var ts, k := CommandTokens(r), if r.udp.Some? then 3 else 2;
    assert IsWord("StreamFrames");
    WordPlain("StreamFrames");
    RateReads(r.rate);
    if r.udp.Some? {
      UdpSpaces(r.udp.value);
      assert ts[2] == UdpToken(r.udp.value);
    }
    forall i | 0 <= i < |r.components|
      ensures SPACE in ts[k + i] <==> SPACE in r.components[i].channels
    {
      ComponentSpaces(r.components[i]);
      assert ts[k + i] == ComponentTokens(r.components)[i];
    }
    if forall i :: 0 <= i < |ts| ==> SPACE !in ts[i] {
      forall i | 0 <= i < |r.components| ensures SPACE !in r.components[i].channels {
        assert SPACE !in ts[k + i];
      }
    }
    if SpaceFree(r) {
      forall i | 0 <= i < |ts| ensures SPACE !in ts[i] {
        if i >= k {
          assert SPACE in ts[k + (i - k)] <==> SPACE in r.components[i - k].channels;
        }
      }
    }
  }

  lemma FieldClean(t: bytes, sep: u8)
    requires SPACE !in t
    ensures SPACE !in Field(t, sep) && SPACE !in AfterField(t, sep)
  {
  }

  lemma {:induction false} ComponentsClean(ts: seq<bytes>)
    requires (forall i :: 0 <= i < |ts| ==> SPACE !in ts[i]) && ParseComponents(ts).Some?
    ensures forall i :: 0 <= i < |ParseComponents(ts).value| ==> SPACE !in ParseComponents(ts).value[i].channels
    decreases |ts|
  {
    hide Field, AfterField, KindOf, Ascii;
    if ts != [] {
      FieldClean(ts[0], COLON);
      ComponentsClean(ts[1..]);
    }
  }

  /** Nothing a command is read as holds a space. */
  lemma ParseClean(command: bytes)
    ensures Parse(command).Some? ==> SpaceFree(Parse(command).value)
  {
    hide Split, Field, AfterField, LastField, ParseComponents, ParseRate, Ascii;
    var ts := Split(command, SPACE);
    SplitClean(command, SPACE);
    if Parse(command).Some? {
      var udp := ParseUdp(ts[2]);
      FieldClean(ts[2], COLON);
      ComponentsClean(if udp.Some? then ts[3..] else ts[2..]);
    }
  }

  /** The text of a stream command says what was asked for: rate and value, UDP endpoint, components in order and
      every option that applies, exactly when neither the address nor a channel list holds a space. */
  lemma CommandReads(r: Request)
    requires WellFormedRequest(r)
    ensures Parse(StreamCommand(r)) == Some(r) <==> SpaceFree(r)
  {
    hide Split, Joined, CommandTokens, ParseTokens, SpaceFree, WellFormedRequest;
    ParseClean(StreamCommand(r));
    TokensClean(r);
    TokensRead(r);
    SomeTokens(r);
    SplitJoined(CommandTokens(r), SPACE);
  }

  lemma {:induction false} JoinedEnds(parts: seq<bytes>, sep: u8)
    requires parts != [] && parts[|parts| - 1] != []
    ensures var b, last := Joined(parts, sep), parts[|parts| - 1]; b != [] && b[|b| - 1] == last[|last| - 1]
    decreases |parts|
  {
    if |parts| > 1 {
      JoinedEnds(parts[1..], sep);
    }
  }

  /** The byte a component's token ends with. */
  lemma TokenEnds(c: Component)
    requires Applies(c)
    ensures var t := ComponentToken(c); t != [] && (t[|t| - 1] == 0 <==> c.channels != [] && c.channels[|c.channels| - 1] == 0)
  {
    hide Name;
    NameIsWord(c.kind);
    NameMarked(c.kind);
    assert |Ascii("global")| == 6 && Ascii("global")[5] == 108;
  }

  /** A command never starts with a NUL, and ends with one exactly when the channel list of its last component
      does. */
  lemma CommandEnds(r: Request)
    requires WellFormedRequest(r)
    ensures var b, c := StreamCommand(r), r.components[|r.components| - 1];
      b != [] && b[0] != 0 && (b[|b| - 1] == 0 <==> c.channels != [] && c.channels[|c.channels| - 1] == 0)
  {
    hide ComponentToken, Applies, RateToken, UdpToken;
    var ts, n := CommandTokens(r), |r.components|;
    assert Applies(r.components[n - 1]);
    TokenEnds(r.components[n - 1]);
    assert ts[|ts| - 1] == ComponentTokens(r.components)[n - 1];
    JoinedEnds(ts, SPACE);
    assert StreamCommand(r) == ts[0] + [SPACE] + Joined(ts[1..], SPACE);
    assert Ascii("StreamFrames")[0] == 83;
  }

  lemma {:induction false} SplitEnds(b: bytes, sep: u8)
    ensures var ts := Split(b, sep);
      ts != [] && |ts[|ts| - 1]| <= |b| && ts[|ts| - 1] == b[|b| - |ts[|ts| - 1]|..]
    decreases |b|
  {
    hide Field;
    var f := Field(b, sep);
    if |f| < |b| {
      var rest := b[|f| + 1..];
      SplitEnds(rest, sep);
      var ts := Split(rest, sep);
      var n := |ts[|ts| - 1]|;
      assert rest[|rest| - n..] == b[|b| - n..];
    }
  }

  lemma {:induction false} ComponentsEnd(ts: seq<bytes>)
    requires ts != [] && ParseComponents(ts).Some?
    ensures var cs := ParseComponents(ts).value; cs != [] && ParseComponent(ts[|ts| - 1]) == Some(cs[|cs| - 1])
    decreases |ts|
  {
    hide ParseComponent;
    if |ts| > 1 {
      ComponentsEnd(ts[1..]);
    }
  }

  /** A channel list read at the end of a text ends as the text does. */
  lemma ParsedEnds(command: bytes)
    requires Parse(command).Some? && Parse(command).value.components != []
    ensures var cs := Parse(command).value.components;
      var c := cs[|cs| - 1];
      c.channels != [] ==> command != [] && c.channels[|c.channels| - 1] == command[|command| - 1]
  {
    hide Split, Field, KindOf, ParseRate, ParseUdp, Ascii;
    var ts := Split(command, SPACE);
    SplitEnds(command, SPACE);
    var udp := ParseUdp(ts[2]);
    ComponentsEnd(if udp.Some? then ts[3..] else ts[2..]);
  }

  lemma SomeTokens(r: Request)
    ensures CommandTokens(r) != []
  {
  }

  /** So two requests without spaces never share a text. */
  lemma CommandInjective(q: Request, r: Request)
    requires WellFormedRequest(q) && WellFormedRequest(r) && SpaceFree(q) && SpaceFree(r)
    requires StreamCommand(q) == StreamCommand(r)
    ensures q == r
  {
    hide StreamCommand, Parse, WellFormedRequest, SpaceFree;
    CommandReads(q);
    CommandReads(r);
  }

  /** With a space they can: channels "1 3D" of an analog stream are channel 1 and a second component. */
  lemma SpaceConfuses()
    ensures var q := Request(AllFrames, None, [Component(TYPE_ANALOG, [49, SPACE, 51, 68], false)]);
      var r := Request(AllFrames, None, [Component(TYPE_ANALOG, [49], false), Component(TYPE_3D, [], false)]);
      WellFormedRequest(q) && WellFormedRequest(r) && q != r && StreamCommand(q) == StreamCommand(r)
  {
    hide Ascii;
    var a, c := Component(TYPE_ANALOG, [49], false), Component(TYPE_3D, [], false);
    var q := Request(AllFrames, None, [Component(TYPE_ANALOG, [49, SPACE, 51, 68], false)]);
    var r := Request(AllFrames, None, [a, c]);
    ThreeD();
    assert CommandTokens(r) == [Ascii("StreamFrames"), Ascii("AllFrames"), ComponentToken(a), ComponentToken(c)];
    assert ComponentTokens(q.components) == [ComponentToken(q.components[0])];
    assert CommandTokens(q) == [Ascii("StreamFrames"), Ascii("AllFrames"), ComponentToken(q.components[0])];
    assert ComponentToken(q.components[0]) == ComponentToken(a) + [SPACE] + ComponentToken(c);
    var ts := [Ascii("StreamFrames"), Ascii("AllFrames")];
    JoinLast(ts, ComponentToken(a), ComponentToken(c));
    assert CommandTokens(r) == ts + [ComponentToken(a), ComponentToken(c)];
    assert CommandTokens(q) == ts + [ComponentToken(q.components[0])];
    assert q.components != r.components;
  }

  lemma ThreeD()
    ensures Ascii("3D") == [51, 68]
  {
  }

  lemma JoinLast(ts: seq<bytes>, a: bytes, c: bytes)
    requires |ts| == 2
    ensures Joined(ts + [a, c], SPACE) == Joined(ts + [a + [SPACE] + c], SPACE)
  {
    var x := Joined([a, c], SPACE);
    assert [a, c][1..] == [c];
    assert Joined([c], SPACE) == c && Joined([x], SPACE) == x;
    assert (ts + [a, c])[1..][1..] == [a, c] && (ts + [x])[1..][1..] == [x];
  }

  // How the client writes it.

  function Asked(opts: Options, kind: int): Component {
    Component(kind, if IsAnalog(kind) then opts.analogChannels else [], kind == TYPE_SKELETON && opts.skeletonGlobal)
  }

  function AllAsked(opts: Options, kinds: seq<int>): (cs: seq<Component>)
    ensures |cs| == |kinds| && forall i :: 0 <= i < |cs| ==> cs[i] == Asked(opts, kinds[i])
  {
    if kinds == [] then [] else [Asked(opts, kinds[0])] + AllAsked(opts, kinds[1..])
  }

  predicate AllKnown(kinds: seq<int>) { forall i :: 0 <= i < |kinds| ==> 1 <= kinds[i] <= 19 }

  function RateOf(rate: int, value: int): Option<Rate> {
    if rate == 0 then Some(AllFrames) else if rate == 1 then Some(Frequency(value))
    else if rate == 2 then Some(FrequencyDivisor(value)) else None
  }

  /** The request a call of streamFrames makes, if it is one. */
  function Requested(rate: int, value: int, udpPort: int, udpAddr: bytes, opts: Options, kinds: seq<int>): Option<Request> {
    if RateOf(rate, value).None? || !AllKnown(kinds) || kinds == [] then None
    else
      Some(Request(RateOf(rate, value).value, if udpPort > 0 then Some(Udp(udpAddr, udpPort)) else None,
        AllAsked(opts, kinds)))
  }

  lemma RequestedWell(rate: int, value: int, udpPort: int, udpAddr: bytes, opts: Options, kinds: seq<int>)
    ensures var r := Requested(rate, value, udpPort, udpAddr, opts, kinds); r.Some? ==> WellFormedRequest(r.value)
  {
  }

  /** The text a call writes reads back as what the call asked for, when its address and channel list hold no
      space. */
  lemma CallReads(rate: int, value: int, udpPort: int, udpAddr: bytes, opts: Options, kinds: seq<int>)
    requires SPACE !in udpAddr && SPACE !in opts.analogChannels
    ensures var r := Requested(rate, value, udpPort, udpAddr, opts, kinds);
      r.Some? ==> Parse(StreamCommand(r.value)) == r
  {
    hide Parse, StreamCommand;
    RequestedWell(rate, value, udpPort, udpAddr, opts, kinds);
    var r := Requested(rate, value, udpPort, udpAddr, opts, kinds);
    if r.Some? {
      CommandReads(r.value);
    }
  }

  // The same text, spelt out by number: rates 0, 1 and 2, component types 1 to 19.

  const NAMES := ["3D", "3DNoLabels", "Analog", "Force", "6D", "6DEuler", "2D", "2DLin", "3DRes", "3DNoLabelsRes", "6DRes",
                  "6DEulerRes", "AnalogSingle", "Image", "ForceSingle", "GazeVector", "Timecode", "Skeleton", "EyeTracker"]

  /** A component's name, and after a colon the channel list for types 3 and 13 if there is one, or "global" for type 18
      if asked for. */
  function SpeltComponent(channels: bytes, global: bool, kind: int): bytes
    requires 1 <= kind <= 19
  {
    Ascii(NAMES[kind - 1]) +
    (if (kind == 3 || kind == 13) && channels != [] then [58] + channels
     else if kind == 18 && global then [58] + Ascii("global") else [])
  }

  function SpeltRate(rate: int, value: int): bytes {
    if rate == 0 then Ascii("AllFrames")
    else if rate == 1 then Ascii("Frequency") + [58] + Itoa(value)
    else Ascii("FrequencyDivisor") + [58] + Itoa(value)
  }

  ghost predicate SpeltComponents(tokens: seq<bytes>, channels: bytes, global: bool, kinds: seq<int>) {
    |tokens| == |kinds| && forall i :: 0 <= i < |kinds| ==>
      1 <= kinds[i] <= 19 && tokens[i] == SpeltComponent(channels, global, kinds[i])
  }

  /** "StreamFrames", the rate, "UDP" with address and port when there is a port, and the components in order, with single
      spaces between them. */
  ghost predicate Spelt(command: bytes, rate: int, value: int, udpPort: int, udpAddr: bytes, channels: bytes, global: bool,
                        kinds: seq<int>) {
    exists tokens: seq<bytes> :: SpeltComponents(tokens, channels, global, kinds) &&
      command == Joined([Ascii("StreamFrames"), SpeltRate(rate, value)]
        + (if udpPort > 0 then [Ascii("UDP") + (if udpAddr != [] then [58] + udpAddr else []) + [58] + Itoa(udpPort)] else [])
        + tokens, 32)
  }

  predicate ValidCall(rate: int, kinds: seq<int>) {
    0 <= rate <= 2 && kinds != [] && forall i :: 0 <= i < |kinds| ==> 1 <= kinds[i] <= 19
  }

  lemma NamesListed(kind: int)
    requires 1 <= kind <= 19
    ensures Name(kind) == NAMES[kind - 1]
  {
  }

  lemma ComponentSpelt(opts: Options, kind: int)
    requires 1 <= kind <= 19
    ensures ComponentToken(Asked(opts, kind)) == SpeltComponent(opts.analogChannels, opts.skeletonGlobal, kind)
  {
    hide Name, Ascii;
    NamesListed(kind);
  }

  lemma TokensSpelt(opts: Options, kinds: seq<int>)
    requires forall i :: 0 <= i < |kinds| ==> 1 <= kinds[i] <= 19
    ensures SpeltComponents(ComponentTokens(AllAsked(opts, kinds)), opts.analogChannels, opts.skeletonGlobal, kinds)
  {
    hide ComponentToken, Asked, SpeltComponent;
    var tokens := ComponentTokens(AllAsked(opts, kinds));
    forall i | 0 <= i < |kinds|
      ensures tokens[i] == SpeltComponent(opts.analogChannels, opts.skeletonGlobal, kinds[i])
    {
      ComponentSpelt(opts, kinds[i]);
    }
  }

  lemma CallSpelt(rate: int, value: int, udpPort: int, udpAddr: bytes, opts: Options, kinds: seq<int>)
    ensures var r := Requested(rate, value, udpPort, udpAddr, opts, kinds);
      && (r.Some? <==> ValidCall(rate, kinds))
      && (r.Some? ==> Spelt(StreamCommand(r.value), rate, value, udpPort, udpAddr, opts.analogChannels, opts.skeletonGlobal,
                        kinds))
  {
    hide Name, Ascii, Itoa, Joined, ComponentTokens, AllAsked, SpeltComponents;
    var r := Requested(rate, value, udpPort, udpAddr, opts, kinds);
    if r.Some? {
      TokensSpelt(opts, kinds);
      var tokens := ComponentTokens(AllAsked(opts, kinds));
      assert CommandTokens(r.value) == [Ascii("StreamFrames"), SpeltRate(rate, value)]
        + (if udpPort > 0 then [Ascii("UDP") + (if udpAddr != [] then [58] + udpAddr else []) + [58] + Itoa(udpPort)] else [])
        + tokens;
    }
  }

  /** The component list with its options, or None when a component is unknown. */
  method ComponentString(opts: Options, kinds: seq<int>) returns (text: Option<bytes>)
    ensures text == if AllKnown(kinds) then Some(Joined(ComponentTokens(AllAsked(opts, kinds)), SPACE)) else None
    ensures text.Some? <==> forall i :: 0 <= i < |kinds| ==> 1 <= kinds[i] <= 19
    ensures text.Some? ==> exists tokens: seq<bytes> ::
      SpeltComponents(tokens, opts.analogChannels, opts.skeletonGlobal, kinds) && text.value == Joined(tokens, 32)
  {
    hide Name, Ascii;
    var parts: seq<bytes> := [];
    var i := 0;
    while i < |kinds|
      invariant 0 <= i <= |kinds| && |parts| == i
      invariant forall j :: 0 <= j < i ==> 1 <= kinds[j] <= 19 && parts[j] == ComponentToken(Asked(opts, kinds[j]))
    {
      var c := kinds[i];
      NameMarked(c);
      var name := Ascii(Name(c));
      if Name(c) == "" {
        return None;
      }
      if c == TYPE_ANALOG || c == TYPE_ANALOG_SINGLE {
        if opts.analogChannels != [] {
          name := name + ([COLON] + opts.analogChannels);
        }
      } else if c == TYPE_SKELETON {
        if opts.skeletonGlobal {
          name := name + ([COLON] + Ascii("global"));
        }
      }
      assert name == ComponentToken(Asked(opts, c));
      parts := parts + [name];
      i := i + 1;
    }
    assert parts == ComponentTokens(AllAsked(opts, kinds));
    TokensSpelt(opts, kinds);
    text := Some(Joined(parts, SPACE));
  }

  lemma JoinedFront(a: bytes, rest: seq<bytes>, sep: u8)
    requires rest != []
    ensures Joined([a] + rest, sep) == a + [sep] + Joined(rest, sep)
  {
    assert ([a] + rest)[1..] == rest;
  }

  /** Three joints in a row. */
  lemma Chained(a: bytes, b: bytes, mid: Option<bytes>, c: bytes, sep: bytes, j1: bytes, j2: bytes, j3: bytes)
    requires j1 == a + sep + j2 && j2 == b + sep + j3 && j3 == if mid.Some? then mid.value + sep + c else c
    ensures j1 == a + sep + b + (if mid.Some? then sep + mid.value else []) + sep + c
  {
  }

  /** The pieces of a command, in order. */
  lemma CommandPieces(r: Request)
    requires r.components != []
    ensures StreamCommand(r) == Ascii("StreamFrames") + [SPACE] + RateToken(r.rate)
      + (if r.udp.Some? then [SPACE] + UdpToken(r.udp.value) else []) + [SPACE] + Joined(ComponentTokens(r.components), SPACE)
  {
    hide Ascii, RateToken, UdpToken, ComponentTokens, Joined;
    var first, rate, cs := Ascii("StreamFrames"), RateToken(r.rate), ComponentTokens(r.components);
    var rest := (if r.udp.Some? then [UdpToken(r.udp.value)] else []) + cs;
    assert CommandTokens(r) == [first] + ([rate] + rest);
    JoinedFront(first, [rate] + rest, SPACE);
    JoinedFront(rate, rest, SPACE);
    if r.udp.Some? {
      JoinedFront(UdpToken(r.udp.value), cs, SPACE);
    } else {
      assert rest == cs;
    }
    Chained(first, rate, if r.udp.Some? then Some(UdpToken(r.udp.value)) else None, Joined(cs, SPACE), [SPACE],
      StreamCommand(r), Joined([rate] + rest, SPACE), Joined(rest, SPACE));
  }

  lemma SomeComponents(cs: seq<Component>)
    requires forall i :: 0 <= i < |cs| ==> 1 <= cs[i].kind <= 19
    ensures Joined(ComponentTokens(cs), SPACE) == [] <==> cs == []
  {
    hide Name;
    if cs != [] {
      NameMarked(cs[0].kind);
      assert ComponentToken(cs[0]) != [];
    }
  }

  /** When a call is understood, and what it writes then. */
  lemma Understood(rate: int, value: int, udpPort: int, udpAddr: bytes, opts: Options, kinds: seq<int>)
    ensures Requested(rate, value, udpPort, udpAddr, opts, kinds).Some?
      <==> RateOf(rate, value).Some? && AllKnown(kinds) && Joined(ComponentTokens(AllAsked(opts, kinds)), SPACE) != []
    ensures var r := Requested(rate, value, udpPort, udpAddr, opts, kinds);
      r.None? || StreamCommand(r.value) == Ascii("StreamFrames") + [SPACE] + RateToken(RateOf(rate, value).value)
        + (if udpPort > 0 then [SPACE] + UdpToken(Udp(udpAddr, udpPort)) else [])
        + [SPACE] + Joined(ComponentTokens(AllAsked(opts, kinds)), SPACE)
  {
    hide Ascii, RateToken, UdpToken, ComponentTokens, Joined, StreamCommand, Name;
    if RateOf(rate, value).Some? && AllKnown(kinds) {
      SomeComponents(AllAsked(opts, kinds));
      if kinds != [] {
        CommandPieces(Requested(rate, value, udpPort, udpAddr, opts, kinds).value);
      }
    }
  }

  lemma UdpWritten(start: bytes, addr: bytes, port: int)
    ensures (if addr != [] then start + [SPACE] + Ascii("UDP") + ([COLON] + addr) else start + [SPACE] + Ascii("UDP"))
            + ([COLON] + Itoa(port))
            == start + ([SPACE] + UdpToken(Udp(addr, port)))
  {
    hide Ascii, Itoa;
  }

  /** Writes the command piece by piece. */
  method StreamFrames(rate: int, value: int, udpPort: int, udpAddr: bytes, opts: Options, kinds: seq<int>)
    returns (command: Option<bytes>)
    ensures var r := Requested(rate, value, udpPort, udpAddr, opts, kinds);
      command == if r.Some? then Some(StreamCommand(r.value)) else None
    ensures command.Some? <==> ValidCall(rate, kinds)
    ensures command.Some? ==>
      Spelt(command.value, rate, value, udpPort, udpAddr, opts.analogChannels, opts.skeletonGlobal, kinds)
    ensures SPACE !in udpAddr && SPACE !in opts.analogChannels && command.Some? ==>
      Parse(command.value) == Requested(rate, value, udpPort, udpAddr, opts, kinds)
  {
    hide Ascii, Itoa, ComponentTokens, Joined, StreamCommand, Name, Requested, CommandTokens,
      AllKnown, AllAsked, SpaceFree, Parse, UdpToken, ValidCall, Spelt;
    CallSpelt(rate, value, udpPort, udpAddr, opts, kinds);
    if SPACE !in udpAddr && SPACE !in opts.analogChannels {
      CallReads(rate, value, udpPort, udpAddr, opts, kinds);
    }
    Understood(rate, value, udpPort, udpAddr, opts, kinds);
    var b := Ascii("StreamFrames");
    if rate == 0 {
      b := b + [SPACE] + Ascii("AllFrames");
    } else if rate == 1 {
      b := b + [SPACE] + (Ascii("Frequency") + [COLON] + Itoa(value));
    } else if rate == 2 {
      b := b + [SPACE] + (Ascii("FrequencyDivisor") + [COLON] + Itoa(value));
    } else {
      return None;
    }
    ghost var start := b;
    assert b == Ascii("StreamFrames") + [SPACE] + RateToken(RateOf(rate, value).value);
    if udpPort > 0 {
      b := b + [SPACE] + Ascii("UDP");
      if udpAddr != [] {
        b := b + ([COLON] + udpAddr);
      }
      b := b + ([COLON] + Itoa(udpPort));
      UdpWritten(start, udpAddr, udpPort);
    } else {
      assert b == start + [];
    }
    var cs := ComponentString(opts, kinds);
    if cs == None || cs.value == [] {
      return None;
    }
    b := b + [SPACE] + cs.value;
    command := Some(b);
  }
}
