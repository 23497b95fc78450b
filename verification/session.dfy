/**
  A sequence of calls on one logger: the setters change its configuration
  and the log calls add to the trace of transport calls.  The message of a
  log call is the text `vlogf` hands to `println`.
*/
module Session {
  import opened Levels
  import opened Transport
  import opened Logging
  import opened CStrings

  datatype Call =
    | SetSerialCall(serial: Sink)
    | SetDebugLevelCall(threshold: Level)
    | SetSyslogServerCall(server: string, port: UInt, hostname: string)
    | SetSyslogAddressCall(ip: IpAddress, port: UInt, hostname: string)
    | LogCall(level: Level, moduleName: string, message: string, beginResult: int)

  /** The logger after one call; a log call leaves it as it was. */
  function Apply(s: Logger, c: Call): Logger
  {
    match c
    case SetSerialCall(serial) => SetSerial(s, serial)
    case SetDebugLevelCall(threshold) => SetDebugLevel(s, threshold)
    case SetSyslogServerCall(server, port, hostname) => SetSyslogServer(s, server, port, hostname)
    case SetSyslogAddressCall(ip, port, hostname) => SetSyslogAddress(s, ip, port, hostname)
    case LogCall(_, _, _, _) => s
  }

  /** The transport calls one call makes. */
  function Emitted(s: Logger, t: LevelTable, c: Call): seq<Effect>
  {
    match c
    case LogCall(level, moduleName, message, beginResult) => Println(s, t, level, moduleName, message, beginResult)
    case _ => []
  }

  /** The final logger and the whole trace of a sequence of calls. */
  function Run(s: Logger, t: LevelTable, calls: seq<Call>): (Logger, seq<Effect>)
    decreases |calls|
  {
    if calls == [] then (s, [])
    else
      var rest := Run(Apply(s, calls[0]), t, calls[1..]);
      (rest.0, Emitted(s, t, calls[0]) + rest.1)
  }

  /**
    Log calls change no configuration field, however many there are.  This
    holds by construction: `Apply` returns the logger unchanged for a log
    call, because the dispatch returns a trace and no logger, so the
    induction only carries that one step along the history.
  */
  lemma {:induction false} LogCallsKeepConfiguration(s: Logger, t: LevelTable, calls: seq<Call>)
    requires forall i :: 0 <= i < |calls| ==> calls[i].LogCall?
    ensures Run(s, t, calls).0 == s
    decreases |calls|
  {
    if calls != [] {
      LogCallsKeepConfiguration(s, t, calls[1..]);
    }
  }

  /**
    Repeating a log call repeats its output exactly: no counter or clock
    enters it.  Like the lemma above it holds by construction, since the
    first call leaves the logger as it was.
  */
  lemma RepeatedLogIsIdentical(s: Logger, t: LevelTable, c: Call)
    requires c.LogCall?
    ensures Run(s, t, [c, c]).1 == Emitted(s, t, c) + Emitted(s, t, c)
    ensures Emitted(s, t, c) == Println(s, t, c.level, c.moduleName, c.message, c.beginResult)
  {
    assert [c, c][1..] == [c];
    assert [c][1..] == [];
    assert Apply(s, c) == s;
    assert Run(s, t, [c]) == (s, Emitted(s, t, c) + []);
  }

  /**
    Once an address other than `INADDR_NONE` is set, no later call short of
    another address overload moves the destination: every `beginPacket` the
    calls make, however many times syslog is reconfigured by server name, goes
    to that address.
  */
  lemma {:induction false} AddressKeepsWinning(s: Logger, t: LevelTable, calls: seq<Call>)
    requires s.syslogIp != InaddrNone
    requires forall i :: 0 <= i < |calls| ==> !calls[i].SetSyslogAddressCall?
    ensures Run(s, t, calls).0.syslogIp == s.syslogIp
    ensures PacketDestination(Run(s, t, calls).0) == ByAddress(s.syslogIp)
    ensures forall a :: a in Attempts(Run(s, t, calls).1) ==> a.0 == ByAddress(s.syslogIp)
    decreases |calls|
  {
    if calls != [] {
      var c := calls[0];
      var s' := Apply(s, c);
      assert s'.syslogIp == s.syslogIp;
      AddressKeepsWinning(s', t, calls[1..]);
      var rest := Run(s', t, calls[1..]);
      AttemptsAppend(Emitted(s, t, c), rest.1);
      if c.LogCall? {
        SyslogOutput(s, t, c.level, c.moduleName, c.message, c.beginResult);
      } else {
        assert Attempts(Emitted(s, t, c)) == [];
      }
    }
  }

  /** The server name survives every call but the by-name configuration. */
  lemma {:induction false} ServerNameKept(s: Logger, t: LevelTable, calls: seq<Call>)
    requires forall i :: 0 <= i < |calls| ==> !calls[i].SetSyslogServerCall?
    ensures Run(s, t, calls).0.syslogServer == s.syslogServer
    decreases |calls|
  {
    if calls != [] {
      var s' := Apply(s, calls[0]);
      assert s'.syslogServer == s.syslogServer;
      ServerNameKept(s', t, calls[1..]);
    }
  }

  /**
    A name configured once is still there after any calls short of another
    by-name configuration, addresses included: handing the address overload
    `INADDR_NONE` afterwards sends to that name again.
  */
  lemma FallbackToStoredName(s: Logger, t: LevelTable, server: string, port: UInt, hostname: string,
                             calls: seq<Call>, port': UInt, hostname': string)
    requires forall i :: 0 <= i < |calls| ==> !calls[i].SetSyslogServerCall?
    ensures var configured := Run(SetSyslogServer(s, server, port, hostname), t, calls).0;
      PacketDestination(SetSyslogAddress(configured, InaddrNone, port', hostname')) == ByName(CString(server))
  {
    ServerNameKept(SetSyslogServer(s, server, port, hostname), t, calls);
  }
}
