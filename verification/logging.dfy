/**
  `logging::Logger`: its configuration record, its constructors and setters,
  and the dispatch of one formatted message to the serial stream and to the
  syslog collector.

  A logger is an immutable value; a setter returns the updated value.  The
  dispatch is a pure function from the logger, the level table, the level,
  the module, the message and the result `beginPacket` reports to the trace
  of transport calls the logger makes.  It takes the logger and does not
  return one: a log call changes no configuration field.
*/
module Logging {
  import opened Wrappers
  import opened Levels
  import opened Transport
  import opened Syslog
  import opened CStrings

  /** `unsigned int`, 32 bits wide on the target. */
  type UInt = x: int | 0 <= x < 0x1_0000_0000

  /** `int`, 32 bits wide on the target. */
  type Int = x: int | -0x8000_0000 <= x < 0x8000_0000

  /** The implicit conversion of the port from `unsigned int` to the `int` member: modulo 2^32. */
  function StorePort(port: UInt): (r: Int)
    ensures (r - port) % 0x1_0000_0000 == 0
  {
    if port < 0x8000_0000 then port else port - 0x1_0000_0000
  }

  /** The conversion of the `int` member to the `uint16_t` that `beginPacket` takes: modulo 2^16. */
  function WirePort(port: Int): (r: Port16)
    ensures (r - port) % 0x1_0000 == 0
  {
    port % 0x1_0000
  }

  /** The port on the wire is the configured port modulo 2^16; ports below 2^16 arrive unchanged. */
  lemma WirePortOfConfigured(port: UInt)
    ensures WirePort(StorePort(port)) == port % 0x1_0000
    ensures port < 0x1_0000 ==> WirePort(StorePort(port)) == port
  {
  }

  datatype Logger = Logger(
    serial: Sink,
    level: Level,
    isSyslogSet: bool,
    syslogServer: string,
    syslogIp: IpAddress,
    syslogPort: Int,
    syslogHostname: string)

  // ------------------------------------------------------ construction

  /**
    The state every constructor leaves: syslog unset, server and hostname
    empty strings, address `INADDR_NONE`.  The port member is left
    uninitialised by the constructors; it is 0 here, and
    `UnsetSyslogIsInert` shows that no value of it is observable before a
    setter writes it.
  */
  function Unconfigured(serial: Sink, level: Level): Logger
  {
    Logger(serial, level, false, "", InaddrNone, 0, "")
  }

  /** `Logger()`. */
  function Create(): (r: Logger)
    ensures r.serial == DefaultSerial && r.level == LogDebug
    ensures !r.isSyslogSet && r.syslogIp == InaddrNone && r.syslogServer == ""
  {
    Unconfigured(DefaultSerial, LogDebug)
  }

  /** `Logger(level)`. */
  function CreateAt(level: Level): (r: Logger)
    ensures r.serial == DefaultSerial && r.level == level
    ensures !r.isSyslogSet && r.syslogIp == InaddrNone && r.syslogServer == ""
  {
    Unconfigured(DefaultSerial, level)
  }

  /** `Logger(serial)`. */
  function CreateOn(serial: Sink): (r: Logger)
    ensures r.serial == serial && r.level == LogDebug
    ensures !r.isSyslogSet && r.syslogIp == InaddrNone && r.syslogServer == ""
  {
    Unconfigured(serial, LogDebug)
  }

  /** `Logger(serial, level)`. */
  function CreateOnAt(serial: Sink, level: Level): (r: Logger)
    ensures r.serial == serial && r.level == level
    ensures !r.isSyslogSet && r.syslogIp == InaddrNone && r.syslogServer == ""
  {
    Unconfigured(serial, level)
  }

  // ---------------------------------------------------------- setters

  /** `setSerial`: the stream changes and every other field is kept. */
  function SetSerial(s: Logger, serial: Sink): (r: Logger)
    ensures r.serial == serial
    ensures r.(serial := s.serial) == s
  {
    s.(serial := serial)
  }

  /** `setDebugLevel`: the threshold changes and every other field is kept. */
  function SetDebugLevel(s: Logger, level: Level): (r: Logger)
    ensures r.level == level
    ensures r.(level := s.level) == s
  {
    s.(level := level)
  }

  /**
    `setSyslogServer(const String &server, port, hostname)`: stores the name
    even while an address is set, and keeps the stream, the threshold and the
    address.
  */
  function SetSyslogServer(s: Logger, server: string, port: UInt, hostname: string): (r: Logger)
    ensures r.isSyslogSet && r.syslogServer == server && r.syslogHostname == hostname
    ensures WirePort(r.syslogPort) == port % 0x1_0000
    ensures r.serial == s.serial && r.level == s.level && r.syslogIp == s.syslogIp
  {
    s.(syslogServer := server, syslogPort := StorePort(port), syslogHostname := hostname, isSyslogSet := true)
  }

  /**
    `setSyslogServer(IPAddress ip, port, hostname)`: stores the address and
    keeps the stream, the threshold and the server name, which a later
    `INADDR_NONE` falls back to.
  */
  function SetSyslogAddress(s: Logger, ip: IpAddress, port: UInt, hostname: string): (r: Logger)
    ensures r.isSyslogSet && r.syslogIp == ip && r.syslogHostname == hostname
    ensures WirePort(r.syslogPort) == port % 0x1_0000
    ensures r.serial == s.serial && r.level == s.level && r.syslogServer == s.syslogServer
  {
    s.(syslogIp := ip, syslogPort := StorePort(port), syslogHostname := hostname, isSyslogSet := true)
  }

  // --------------------------------------------------------- dispatch

  /**
    The packet goes to the address unless it is `INADDR_NONE`, and to the
    server name otherwise, read through `c_str()` and so cut at its first NUL.
  */
  function PacketDestination(s: Logger): (r: Destination)
    ensures r.ByAddress? <==> s.syslogIp != InaddrNone
    ensures r.ByAddress? ==> r.ip == s.syslogIp
    ensures r.ByName? ==> r.host <= s.syslogServer && '\0' !in r.host
    ensures r.ByName? && |r.host| < |s.syslogServer| ==> s.syslogServer[|r.host|] == '\0'
    ensures r.ByName? && '\0' !in s.syslogServer ==> r.host == s.syslogServer
  {
    if s.syslogIp == InaddrNone then ByName(CString(s.syslogServer)) else ByAddress(s.syslogIp)
  }

  function PrintHeader(s: Logger, t: LevelTable, level: Level, moduleName: string): seq<Effect>
  {
    [Serial(s.serial, Emit("[")), Serial(s.serial, Emit(t.name(level))), Serial(s.serial, Emit("][")),
     Serial(s.serial, Emit(moduleName)), Serial(s.serial, Emit("] "))]
  }

  /** One datagram attempt; nothing is written when `beginPacket` does not report 1. */
  function SyslogLog(s: Logger, t: LevelTable, level: Level, moduleName: string, text: string, beginResult: int)
    : seq<Effect>
  {
    [Udp(BeginPacket(PacketDestination(s), WirePort(s.syslogPort)))]
    + (if beginResult != 1 then [] else Puts(SyslogWrites(s, t, level, moduleName, text)) + [Udp(EndPacket)])
  }

  /** The serial writes of one call that passes the level filter. */
  function ColouredLine(s: Logger, t: LevelTable, level: Level, moduleName: string, text: string): seq<Effect>
  {
    [Serial(s.serial, Emit(t.lineColor(level)))] + PrintHeader(s, t, level, moduleName)
    + [Serial(s.serial, Emit(text)), Serial(s.serial, EmitLine(t.resetColor(level)))]
  }

  /** `println(level, moduleName, text)`: the filtered local line, then the unfiltered syslog attempt. */
  function Println(s: Logger, t: LevelTable, level: Level, moduleName: string, text: string, beginResult: int)
    : (r: seq<Effect>)
    ensures r == [] <==> !AtMost(t, level, s.level) && !s.isSyslogSet
  {
    (if AtMost(t, level, s.level) then ColouredLine(s, t, level, moduleName, text) else [])
    + (if s.isSyslogSet then SyslogLog(s, t, level, moduleName, text, beginResult) else [])
  }

  // ------------------------------------------------------- reference

  /** The local line as a reader sees it: colour, `[LEVEL][module] `, message, reset, line end. */
  function LocalLine(t: LevelTable, level: Level, moduleName: string, text: string, eol: string): string
  {
    t.lineColor(level) + Header(t, level, moduleName) + text + t.resetColor(level) + eol
  }

  /** `[LEVEL][module] `, the module inserted as it is, brackets and all. */
  function Header(t: LevelTable, level: Level, moduleName: string): string
  {
    "[" + t.name(level) + "][" + moduleName + "] "
  }

  // ------------------------------------------------------- properties

  lemma HeaderShows(s: Logger, t: LevelTable, level: Level, moduleName: string, eol: string)
    ensures SerialText(PrintHeader(s, t, level, moduleName), eol) == Header(t, level, moduleName)
  {
    var w := ["[", t.name(level), "][", moduleName, "] "];
    var e := seq(5, i requires 0 <= i < 5 => Serial(s.serial, Emit(w[i])));
    assert PrintHeader(s, t, level, moduleName) == [e[0]] + ([e[1]] + ([e[2]] + ([e[3]] + ([e[4]] + []))));
    SerialTextCons(e[4], [], eol);
    SerialTextCons(e[3], [e[4]] + [], eol);
    SerialTextCons(e[2], [e[3]] + ([e[4]] + []), eol);
    SerialTextCons(e[1], [e[2]] + ([e[3]] + ([e[4]] + [])), eol);
    SerialTextCons(e[0], [e[1]] + ([e[2]] + ([e[3]] + ([e[4]] + []))), eol);
    Regroup5(w[0], w[1], w[2], w[3], w[4]);
  }

  lemma Regroup5(a: string, b: string, c: string, d: string, e: string)
    ensures a + (b + (c + (d + (e + "")))) == a + b + c + d + e
  {
  }

  lemma ColouredLineShows(s: Logger, t: LevelTable, level: Level, moduleName: string, text: string, eol: string)
    ensures SerialText(ColouredLine(s, t, level, moduleName, text), eol) == LocalLine(t, level, moduleName, text, eol)
    ensures SerialOnly(ColouredLine(s, t, level, moduleName, text))
    ensures AllTo(ColouredLine(s, t, level, moduleName, text), s.serial)
  {
    ColouredLineIsSerial(s, t, level, moduleName, text);
    ColouredLineText(s, t, level, moduleName, text, eol);
  }

  lemma ColouredLineIsSerial(s: Logger, t: LevelTable, level: Level, moduleName: string, text: string)
    ensures SerialOnly(ColouredLine(s, t, level, moduleName, text))
    ensures AllTo(ColouredLine(s, t, level, moduleName, text), s.serial)
  {
  }

  lemma ColouredLineText(s: Logger, t: LevelTable, level: Level, moduleName: string, text: string, eol: string)
    ensures SerialText(ColouredLine(s, t, level, moduleName, text), eol) == LocalLine(t, level, moduleName, text, eol)
  {
    var c, r := t.lineColor(level), t.resetColor(level);
    var header := PrintHeader(s, t, level, moduleName);
    var e0, e6, e7 := Serial(s.serial, Emit(c)), Serial(s.serial, Emit(text)), Serial(s.serial, EmitLine(r));
    assert ColouredLine(s, t, level, moduleName, text) == [e0] + header + [e6, e7];
    FramedText(e0, header, e6, e7, eol);
    HeaderShows(s, t, level, moduleName, eol);
    assert Shown(e0, eol) == c && Shown(e6, eol) == text && Shown(e7, eol) == r + eol;
    Regroup4(c, Header(t, level, moduleName), text, r + eol);
  }

  /** The text of one write, a run of writes and two more writes. */
  lemma FramedText(e0: Effect, middle: seq<Effect>, e6: Effect, e7: Effect, eol: string)
    ensures SerialText([e0] + middle + [e6, e7], eol)
         == (Shown(e0, eol) + SerialText(middle, eol)) + (Shown(e6, eol) + Shown(e7, eol))
  {
    SerialTextAppend([e0] + middle, [e6, e7], eol);
    SerialTextCons(e0, middle, eol);
    SerialTextCons(e6, [e7], eol);
    SerialTextCons(e7, [], eol);
    assert [e6] + [e7] == [e6, e7] && [e7] + [] == [e7];
  }

  lemma Regroup4(a: string, b: string, c: string, d: string)
    ensures (a + b) + (c + d) == a + b + c + d
  {
  }

  lemma SyslogLogIsUdp(s: Logger, t: LevelTable, level: Level, moduleName: string, text: string, beginResult: int)
    ensures UdpOnly(SyslogLog(s, t, level, moduleName, text, beginResult))
    ensures Attempts(SyslogLog(s, t, level, moduleName, text, beginResult)) == [(PacketDestination(s), WirePort(s.syslogPort))]
  {
    var trace := SyslogLog(s, t, level, moduleName, text, beginResult);
    assert trace == [trace[0]] + trace[1..];
    AttemptsAppend([trace[0]], trace[1..]);
    AttemptsWithoutBegin(trace[1..]);
  }

  /** The eight writes of `syslogLog`, in order. */
  function SyslogWrites(s: Logger, t: LevelTable, level: Level, moduleName: string, text: string): seq<string>
  {
    ["<", Decimal(BitOr(LogKern, t.value(level))), ">1 - ", s.syslogHostname, " ", moduleName, " - - - " + Bom, text]
  }

  /** The writes of a successful attempt fill the packet `beginPacket` opened, and `endPacket` sends it. */
  lemma SyslogWritesFill(s: Logger, t: LevelTable, level: Level, moduleName: string, text: string)
    ensures var w := SyslogWrites(s, t, level, moduleName, text);
      var d := Datagram(PacketDestination(s), WirePort(s.syslogPort), "");
      PacketsFrom(SyslogLog(s, t, level, moduleName, text, 1)[1..], Some(d))
      == [d.(payload := "" + w[0] + w[1] + w[2] + w[3] + w[4] + w[5] + w[6] + w[7])]
  {
    var w := SyslogWrites(s, t, level, moduleName, text);
    var d := Datagram(PacketDestination(s), WirePort(s.syslogPort), "");
    assert SyslogLog(s, t, level, moduleName, text, 1)[1..] == Puts(w) + [Udp(EndPacket)];
    PutsFill(w, d);
    ConcatEight(w);
    assert d.payload + Concat(w) == Concat(w);
  }

  lemma ConcatEight(w: seq<string>)
    requires |w| == 8
    ensures Concat(w) == "" + w[0] + w[1] + w[2] + w[3] + w[4] + w[5] + w[6] + w[7]
  {
    forall k | 0 <= k < 8
      ensures Concat(w[k..]) == w[k] + Concat(w[k + 1..])
    {
      assert w[k..][1..] == w[k + 1..];
    }
    assert w[8..] == [];
    Regroup8(w[0], w[1], w[2], w[3], w[4], w[5], w[6], w[7]);
  }

  lemma Regroup8(a: string, b: string, c: string, d: string, e: string, f: string, g: string, h: string)
    ensures a + (b + (c + (d + (e + (f + (g + (h + ""))))))) == "" + a + b + c + d + e + f + g + h
  {
  }

  lemma PayloadOfWrites(pri: string, host: string, app: string, msg: string, version: string, nil: string)
    requires version == ">" + VersionAndTimestamp && nil == " " + NilFieldsAndBom
    ensures "" + "<" + pri + version + host + " " + app + nil + msg
         == "<" + pri + ">" + VersionAndTimestamp + (host + " " + app + " " + NilFieldsAndBom + msg)
  {
  }

  /** The datagram a successful attempt sends carries the RFC 5424 payload; a failed one sends nothing. */
  lemma SyslogLogSends(s: Logger, t: LevelTable, level: Level, moduleName: string, text: string, beginResult: int)
    ensures Packets(SyslogLog(s, t, level, moduleName, text, beginResult))
         == if beginResult == 1
            then [Datagram(PacketDestination(s), WirePort(s.syslogPort), Payload(t.value(level), s.syslogHostname, moduleName, text))]
            else []
  {
    var trace := SyslogLog(s, t, level, moduleName, text, beginResult);
    var d := Datagram(PacketDestination(s), WirePort(s.syslogPort), "");
    if beginResult == 1 {
      var w := SyslogWrites(s, t, level, moduleName, text);
      SyslogWritesFill(s, t, level, moduleName, text);
      KernelPriIsValue(t.value(level));
      assert w[2] == ">" + VersionAndTimestamp;
      assert w[6] == " " + NilFieldsAndBom;
      PayloadOfWrites(w[1], s.syslogHostname, moduleName, text, w[2], w[6]);
      PayloadShape(t.value(level), s.syslogHostname, moduleName, text);
    } else {
      assert trace == [Udp(BeginPacket(PacketDestination(s), WirePort(s.syslogPort)))];
      assert PacketsFrom(trace[1..], Some(d)) == [];
    }
  }

  /**
    The serial stream shows the coloured line exactly when the level passes
    the threshold, with the module inserted verbatim, whatever the syslog
    configuration and whatever `beginPacket` reports; every serial write goes
    to the configured stream.
  */
  lemma LocalOutput(s: Logger, t: LevelTable, level: Level, moduleName: string, text: string, beginResult: int, eol: string)
    ensures SerialText(Println(s, t, level, moduleName, text, beginResult), eol)
         == if AtMost(t, level, s.level) then LocalLine(t, level, moduleName, text, eol) else ""
    ensures AllTo(Println(s, t, level, moduleName, text, beginResult), s.serial)
  {
    var local := if AtMost(t, level, s.level) then ColouredLine(s, t, level, moduleName, text) else [];
    var remote := if s.isSyslogSet then SyslogLog(s, t, level, moduleName, text, beginResult) else [];
    assert Println(s, t, level, moduleName, text, beginResult) == local + remote;
    ColouredLineShows(s, t, level, moduleName, text, eol);
    SyslogLogIsUdp(s, t, level, moduleName, text, beginResult);
    SerialTextAppend(local, remote, eol);
    SerialTextOfUdp(remote, eol);
  }

  /**
    A syslog send is attempted, once, exactly when syslog is set, whatever the
    threshold; the one datagram sent when `beginPacket` reports 1 carries the
    RFC 5424 payload whose PRI is the level value, and nothing is sent otherwise.
  */
  lemma SyslogOutput(s: Logger, t: LevelTable, level: Level, moduleName: string, text: string, beginResult: int)
    ensures Attempts(Println(s, t, level, moduleName, text, beginResult))
         == if s.isSyslogSet then [(PacketDestination(s), WirePort(s.syslogPort))] else []
    ensures Packets(Println(s, t, level, moduleName, text, beginResult))
         == if s.isSyslogSet && beginResult == 1
            then [Datagram(PacketDestination(s), WirePort(s.syslogPort), Payload(t.value(level), s.syslogHostname, moduleName, text))]
            else []
  {
    var local := if AtMost(t, level, s.level) then ColouredLine(s, t, level, moduleName, text) else [];
    var remote := if s.isSyslogSet then SyslogLog(s, t, level, moduleName, text, beginResult) else [];
    ColouredLineShows(s, t, level, moduleName, text, "");
    SyslogLogIsUdp(s, t, level, moduleName, text, beginResult);
    SyslogLogSends(s, t, level, moduleName, text, beginResult);
    AttemptsAppend(local, remote);
    AttemptsOfSerial(local);
    PacketsSkipSerial(local, remote, None);
  }

  /** The local write comes before the syslog attempt: no serial effect follows a UDP one. */
  lemma LocalPrecedesSyslog(s: Logger, t: LevelTable, level: Level, moduleName: string, text: string, beginResult: int)
    ensures var trace := Println(s, t, level, moduleName, text, beginResult);
      forall i, j :: 0 <= i < j < |trace| && trace[i].Udp? ==> trace[j].Udp?
  {
    var local := if AtMost(t, level, s.level) then ColouredLine(s, t, level, moduleName, text) else [];
    var remote := if s.isSyslogSet then SyslogLog(s, t, level, moduleName, text, beginResult) else [];
    ColouredLineShows(s, t, level, moduleName, text, "");
    SyslogLogIsUdp(s, t, level, moduleName, text, beginResult);
    assert SerialOnly(local) && UdpOnly(remote);
  }

  /**
    A packet that cannot be opened only loses the datagram: the serial output
    and the attempt are what they would have been, and nothing is sent.
  */
  lemma FailedOpenIsSilent(s: Logger, t: LevelTable, level: Level, moduleName: string, text: string, beginResult: int, eol: string)
    requires beginResult != 1
    ensures SerialText(Println(s, t, level, moduleName, text, beginResult), eol)
         == SerialText(Println(s, t, level, moduleName, text, 1), eol)
    ensures Attempts(Println(s, t, level, moduleName, text, beginResult))
         == Attempts(Println(s, t, level, moduleName, text, 1))
    ensures Packets(Println(s, t, level, moduleName, text, beginResult)) == []
  {
    LocalOutput(s, t, level, moduleName, text, beginResult, eol);
    LocalOutput(s, t, level, moduleName, text, 1, eol);
    SyslogOutput(s, t, level, moduleName, text, beginResult);
    SyslogOutput(s, t, level, moduleName, text, 1);
  }

  /** While syslog is unset no syslog field is observable, the uninitialised port included. */
  lemma UnsetSyslogIsInert(s: Logger, t: LevelTable, level: Level, moduleName: string, text: string, beginResult: int,
                           server: string, ip: IpAddress, port: Int, hostname: string)
    requires !s.isSyslogSet
    ensures Println(s.(syslogServer := server, syslogIp := ip, syslogPort := port, syslogHostname := hostname),
                    t, level, moduleName, text, beginResult)
         == Println(s, t, level, moduleName, text, beginResult)
    ensures SerialOnly(Println(s, t, level, moduleName, text, beginResult))
  {
    ColouredLineShows(s, t, level, moduleName, text, "");
  }

  /** No constructor sets syslog: a fresh logger never touches the UDP socket. */
  lemma ConstructorsStartUnset(t: LevelTable, serial: Sink, threshold: Level,
                               level: Level, moduleName: string, text: string, beginResult: int)
    ensures SerialOnly(Println(Create(), t, level, moduleName, text, beginResult))
    ensures SerialOnly(Println(CreateAt(threshold), t, level, moduleName, text, beginResult))
    ensures SerialOnly(Println(CreateOn(serial), t, level, moduleName, text, beginResult))
    ensures SerialOnly(Println(CreateOnAt(serial, threshold), t, level, moduleName, text, beginResult))
  {
    var s0, s1, s2, s3 := Create(), CreateAt(threshold), CreateOn(serial), CreateOnAt(serial, threshold);
    UnsetSyslogIsInert(s0, t, level, moduleName, text, beginResult, s0.syslogServer, s0.syslogIp, s0.syslogPort, "");
    UnsetSyslogIsInert(s1, t, level, moduleName, text, beginResult, s1.syslogServer, s1.syslogIp, s1.syslogPort, "");
    UnsetSyslogIsInert(s2, t, level, moduleName, text, beginResult, s2.syslogServer, s2.syslogIp, s2.syslogPort, "");
    UnsetSyslogIsInert(s3, t, level, moduleName, text, beginResult, s3.syslogServer, s3.syslogIp, s3.syslogPort, "");
  }

  /**
    No constructor holds an address or a server name: the first by-name
    configuration of a fresh logger sends to the server name, cut at its
    first NUL, and the address overload given `INADDR_NONE` sends to the
    empty name.
  */
  lemma ConstructorsHoldNoAddress(serial: Sink, threshold: Level, server: string, port: UInt, hostname: string)
    ensures PacketDestination(SetSyslogServer(Create(), server, port, hostname)) == ByName(CString(server))
    ensures PacketDestination(SetSyslogServer(CreateAt(threshold), server, port, hostname)) == ByName(CString(server))
    ensures PacketDestination(SetSyslogServer(CreateOn(serial), server, port, hostname)) == ByName(CString(server))
    ensures PacketDestination(SetSyslogServer(CreateOnAt(serial, threshold), server, port, hostname)) == ByName(CString(server))
    ensures PacketDestination(SetSyslogAddress(Create(), InaddrNone, port, hostname)) == ByName("")
    ensures PacketDestination(SetSyslogAddress(CreateAt(threshold), InaddrNone, port, hostname)) == ByName("")
    ensures PacketDestination(SetSyslogAddress(CreateOn(serial), InaddrNone, port, hostname)) == ByName("")
    ensures PacketDestination(SetSyslogAddress(CreateOnAt(serial, threshold), InaddrNone, port, hostname)) == ByName("")
  {
  }

  /**
    The constructors without a level filter at `LOG_DEBUG`, which under an
    ordered table admits every level; the others filter at the level given.
    The stream ones write to the stream given, the others to `Serial`.
  */
  lemma ConstructorThresholds(t: LevelTable, serial: Sink, threshold: Level,
                              level: Level, moduleName: string, text: string, beginResult: int, eol: string)
    ensures Ordered(t) ==> SerialText(Println(Create(), t, level, moduleName, text, beginResult), eol)
                           == LocalLine(t, level, moduleName, text, eol)
    ensures Ordered(t) ==> SerialText(Println(CreateOn(serial), t, level, moduleName, text, beginResult), eol)
                           == LocalLine(t, level, moduleName, text, eol)
    ensures SerialText(Println(CreateAt(threshold), t, level, moduleName, text, beginResult), eol)
         == if AtMost(t, level, threshold) then LocalLine(t, level, moduleName, text, eol) else ""
    ensures SerialText(Println(CreateOnAt(serial, threshold), t, level, moduleName, text, beginResult), eol)
         == if AtMost(t, level, threshold) then LocalLine(t, level, moduleName, text, eol) else ""
    ensures AllTo(Println(Create(), t, level, moduleName, text, beginResult), DefaultSerial)
    ensures AllTo(Println(CreateAt(threshold), t, level, moduleName, text, beginResult), DefaultSerial)
    ensures AllTo(Println(CreateOn(serial), t, level, moduleName, text, beginResult), serial)
    ensures AllTo(Println(CreateOnAt(serial, threshold), t, level, moduleName, text, beginResult), serial)
  {
    LocalOutput(Create(), t, level, moduleName, text, beginResult, eol);
    LocalOutput(CreateAt(threshold), t, level, moduleName, text, beginResult, eol);
    LocalOutput(CreateOn(serial), t, level, moduleName, text, beginResult, eol);
    LocalOutput(CreateOnAt(serial, threshold), t, level, moduleName, text, beginResult, eol);
    if Ordered(t) {
      FilterFollowsRank(t, level, LogDebug);
    }
  }

  /** `setSerial` moves the serial output to the new stream and changes nothing else that is observable. */
  lemma SetSerialRedirects(s: Logger, t: LevelTable, serial: Sink,
                           level: Level, moduleName: string, text: string, beginResult: int, eol: string)
    ensures var before := Println(s, t, level, moduleName, text, beginResult);
      var after := Println(SetSerial(s, serial), t, level, moduleName, text, beginResult);
      && SetSerial(s, serial).(serial := s.serial) == s
      && AllTo(after, serial)
      && SerialText(after, eol) == SerialText(before, eol)
      && Attempts(after) == Attempts(before)
      && Packets(after) == Packets(before)
  {
    LocalOutput(s, t, level, moduleName, text, beginResult, eol);
    LocalOutput(SetSerial(s, serial), t, level, moduleName, text, beginResult, eol);
    SyslogOutput(s, t, level, moduleName, text, beginResult);
    SyslogOutput(SetSerial(s, serial), t, level, moduleName, text, beginResult);
  }

  /** `setDebugLevel` moves the threshold of the serial output and leaves the syslog side alone. */
  lemma SetDebugLevelOnlyFilters(s: Logger, t: LevelTable, threshold: Level,
                                 level: Level, moduleName: string, text: string, beginResult: int, eol: string)
    ensures var before := Println(s, t, level, moduleName, text, beginResult);
      var after := Println(SetDebugLevel(s, threshold), t, level, moduleName, text, beginResult);
      && SetDebugLevel(s, threshold).(level := s.level) == s
      && SerialText(after, eol) == (if AtMost(t, level, threshold) then LocalLine(t, level, moduleName, text, eol) else "")
      && AllTo(after, s.serial)
      && Attempts(after) == Attempts(before)
      && Packets(after) == Packets(before)
  {
    LocalOutput(SetDebugLevel(s, threshold), t, level, moduleName, text, beginResult, eol);
    SyslogOutput(s, t, level, moduleName, text, beginResult);
    SyslogOutput(SetDebugLevel(s, threshold), t, level, moduleName, text, beginResult);
  }

  /**
    Configuring syslog by name leaves the serial output alone, makes every
    call attempt a send to the new port with the new hostname, and sends to
    the server name only if no address was set before: an earlier address
    keeps winning.
  */
  lemma SetSyslogServerSends(s: Logger, t: LevelTable, server: string, port: UInt, hostname: string,
                             level: Level, moduleName: string, text: string, beginResult: int, eol: string)
    ensures var before := Println(s, t, level, moduleName, text, beginResult);
      var after := Println(SetSyslogServer(s, server, port, hostname), t, level, moduleName, text, beginResult);
      var dest := if s.syslogIp != InaddrNone then ByAddress(s.syslogIp) else ByName(CString(server));
      && SetSyslogServer(s, server, port, hostname).syslogServer == server
      && SetSyslogServer(s, server, port, hostname).syslogIp == s.syslogIp
      && SerialText(after, eol) == SerialText(before, eol)
      && AllTo(after, s.serial)
      && Attempts(after) == [(dest, port % 0x1_0000)]
      && Packets(after) == if beginResult == 1
                           then [Datagram(dest, port % 0x1_0000, Payload(t.value(level), hostname, moduleName, text))]
                           else []
  {
    var s' := SetSyslogServer(s, server, port, hostname);
    LocalOutput(s, t, level, moduleName, text, beginResult, eol);
    LocalOutput(s', t, level, moduleName, text, beginResult, eol);
    SyslogOutput(s', t, level, moduleName, text, beginResult);
    WirePortOfConfigured(port);
  }

  /**
    Configuring syslog by address leaves the serial output alone and sends to
    that address; given `INADDR_NONE` it falls back to whatever server name
    was stored before.
  */
  lemma SetSyslogAddressSends(s: Logger, t: LevelTable, ip: IpAddress, port: UInt, hostname: string,
                              level: Level, moduleName: string, text: string, beginResult: int, eol: string)
    ensures var before := Println(s, t, level, moduleName, text, beginResult);
      var after := Println(SetSyslogAddress(s, ip, port, hostname), t, level, moduleName, text, beginResult);
      var dest := if ip != InaddrNone then ByAddress(ip) else ByName(CString(s.syslogServer));
      && SetSyslogAddress(s, ip, port, hostname).syslogServer == s.syslogServer
      && SerialText(after, eol) == SerialText(before, eol)
      && AllTo(after, s.serial)
      && Attempts(after) == [(dest, port % 0x1_0000)]
      && Packets(after) == if beginResult == 1
                           then [Datagram(dest, port % 0x1_0000, Payload(t.value(level), hostname, moduleName, text))]
                           else []
  {
    var s' := SetSyslogAddress(s, ip, port, hostname);
    LocalOutput(s, t, level, moduleName, text, beginResult, eol);
    LocalOutput(s', t, level, moduleName, text, beginResult, eol);
    SyslogOutput(s', t, level, moduleName, text, beginResult);
    WirePortOfConfigured(port);
  }

  // -------------------------------------------------------- scenarios

  /** An `INFO` call from module `net` with message `up` shows `[INFO][net] up` on the stream. */
  lemma InfoLineScenario(t: LevelTable, s: Logger, beginResult: int, eol: string)
    requires t.name(LogInfo) == "INFO"
    requires AtMost(t, LogInfo, s.level)
    ensures var shown := SerialText(Println(s, t, LogInfo, "net", "up", beginResult), eol);
      shown == t.lineColor(LogInfo) + "[INFO][net] up" + t.resetColor(LogInfo) + eol
  {
    LocalOutput(s, t, LogInfo, "net", "up", beginResult, eol);
    InfoNetHeader(t);
    LocalLineRegroup(t.lineColor(LogInfo), "[INFO][net] ", "up", t.resetColor(LogInfo), eol);
  }

  lemma InfoNetHeader(t: LevelTable)
    requires t.name(LogInfo) == "INFO"
    ensures Header(t, LogInfo, "net") + "up" == "[INFO][net] up"
  {
    assert Header(t, LogInfo, "net") == "[INFO][net] ";
  }

  lemma LocalLineRegroup(c: string, h: string, text: string, r: string, eol: string)
    ensures c + h + text + r + eol == c + (h + text) + r + eol
  {
  }

  /**
    Syslog set to server `host1`, port 514, hostname `device1` on a fresh
    logger: a `WARN` call from module `sys` saying `low battery` sends one
    datagram to `host1:514` reading `<PRI>1 - device1 sys - - - BOM low battery`
    with PRI the warning value.
  */
  lemma WarnDatagramScenario(t: LevelTable)
    ensures var s := SetSyslogServer(Create(), "host1", 514, "device1");
      Packets(Println(s, t, LogWarn, "sys", "low battery", 1))
      == [Datagram(ByName("host1"), 514, Payload(t.value(LogWarn), "device1", "sys", "low battery"))]
  {
    var s := SetSyslogServer(Create(), "host1", 514, "device1");
    HostNameWhole();
    assert PacketDestination(s) == ByName("host1");
    assert WirePort(s.syslogPort) == 514;
    SyslogOutput(s, t, LogWarn, "sys", "low battery", 1);
  }

  lemma HostNameWhole()
    ensures CString("host1") == "host1"
  {
    CStringOfNulFree("host1");
  }

  /** A server name holding a NUL is resolved only up to it: `"a\0b"` is looked up as `"a"`. */
  lemma ServerNameEndsAtNul(t: LevelTable, level: Level, moduleName: string, text: string, beginResult: int)
    ensures var s := SetSyslogServer(Create(), "a\0b", 514, "device1");
      Attempts(Println(s, t, level, moduleName, text, beginResult)) == [(ByName("a"), 514)]
  {
    var s := SetSyslogServer(Create(), "a\0b", 514, "device1");
    HostNameCut();
    assert PacketDestination(s) == ByName("a");
    assert WirePort(s.syslogPort) == 514;
    SyslogOutput(s, t, level, moduleName, text, beginResult);
  }

  lemma HostNameCut()
    ensures CString("a\0b") == "a"
  {
    assert "a\0b"[1..] == "\0b";
  }
}
