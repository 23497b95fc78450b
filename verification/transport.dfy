/**
  The two transports the logger writes to, modelled as the sequence of calls
  it makes on them.  A serial `Stream` receives `print` and `println` calls; a
  `WiFiUDP` receives `beginPacket`, `print` and `endPacket` calls.  What
  arrives at either end is computed from that trace: `SerialText` is what the
  stream shows, `Packets` is the list of datagrams handed to `endPacket`, which
  is taken always to send them.
*/
module Transport {
  import opened Wrappers

  type Octet = x: int | 0 <= x < 256

  type Port16 = x: int | 0 <= x < 0x1_0000

  /** The `Stream *` a logger writes to; `DefaultSerial` is the board's `Serial`. */
  datatype Sink = DefaultSerial | Stream(id: nat)

  /**
    An `IPAddress`, split by the one comparison the logger makes on it.
    `InaddrNone` is the value equal to `INADDR_NONE`, whatever octets that
    constant has on a given core; an address member holds it before anything
    is assigned.  `Address` stands for every other value, so its four octets
    never spell `INADDR_NONE`'s own pattern: passing that pattern is passing
    `InaddrNone`.
  */
  datatype IpAddress = InaddrNone | Address(a: Octet, b: Octet, c: Octet, d: Octet)

  /** The two `beginPacket` overloads: by host name, or by address. */
  datatype Destination = ByName(host: string) | ByAddress(ip: IpAddress)

  /** `print(x)` and `println(x)` on a stream. */
  datatype SerialOp = Emit(text: string) | EmitLine(text: string)

  /** `beginPacket(dest, port)`, `print(x)` and `endPacket()` on the UDP socket. */
  datatype UdpOp = BeginPacket(dest: Destination, port: Port16) | Put(text: string) | EndPacket

  datatype Effect = Serial(sink: Sink, op: SerialOp) | Udp(udp: UdpOp)

  datatype Datagram = Datagram(dest: Destination, port: Port16, payload: string)

  /** What a stream shows for one effect; `println` adds the platform's line terminator `eol`. */
  function Shown(e: Effect, eol: string): string
  {
    match e
    case Serial(_, Emit(x)) => x
    case Serial(_, EmitLine(x)) => x + eol
    case Udp(_) => ""
  }

  /** Everything the serial side of a trace writes, in order. */
  function SerialText(trace: seq<Effect>, eol: string): string
  {
    if trace == [] then "" else Shown(trace[0], eol) + SerialText(trace[1..], eol)
  }

  /** Datagrams a trace hands to `endPacket`, given the packet opened so far: `print` fills it and `endPacket` sends it. */
  function PacketsFrom(trace: seq<Effect>, open: Option<Datagram>): seq<Datagram>
  {
    if trace == [] then []
    else match trace[0]
      case Serial(_, _) => PacketsFrom(trace[1..], open)
      case Udp(BeginPacket(d, p)) => PacketsFrom(trace[1..], Some(Datagram(d, p, "")))
      case Udp(Put(x)) =>
        PacketsFrom(trace[1..], if open.Some? then Some(open.value.(payload := open.value.payload + x)) else None)
      case Udp(EndPacket) => (if open.Some? then [open.value] else []) + PacketsFrom(trace[1..], None)
  }

  /** One `print` on the socket per string, in order. */
  function Puts(ws: seq<string>): seq<Effect>
  {
    seq(|ws|, i requires 0 <= i < |ws| => Udp(Put(ws[i])))
  }

  /** The strings joined in order. */
  function Concat(ws: seq<string>): string
  {
    if ws == [] then "" else ws[0] + Concat(ws[1..])
  }

  /** A run of `print`s into an open packet appends the strings to it in order, and `endPacket` sends it. */
  lemma {:induction false} PutsFill(ws: seq<string>, d: Datagram)
    ensures PacketsFrom(Puts(ws) + [Udp(EndPacket)], Some(d)) == [d.(payload := d.payload + Concat(ws))]
  {
    var trace := Puts(ws) + [Udp(EndPacket)];
    if ws == [] {
      assert trace == [Udp(EndPacket)];
      assert trace[1..] == [];
      assert PacketsFrom(trace, Some(d)) == [d] + PacketsFrom(trace[1..], None);
      assert d.payload + Concat(ws) == d.payload;
    } else {
      var d' := d.(payload := d.payload + ws[0]);
      assert trace[0] == Udp(Put(ws[0]));
      assert trace[1..] == Puts(ws[1..]) + [Udp(EndPacket)];
      assert PacketsFrom(trace, Some(d)) == PacketsFrom(trace[1..], Some(d'));
      PutsFill(ws[1..], d');
      assert d'.payload + Concat(ws[1..]) == d.payload + Concat(ws);
    }
  }

  function Packets(trace: seq<Effect>): seq<Datagram>
  {
    PacketsFrom(trace, None)
  }

  /** Every `beginPacket` of a trace, successful or not. */
  function Attempts(trace: seq<Effect>): seq<(Destination, Port16)>
  {
    if trace == [] then []
    else (if trace[0].Udp? && trace[0].udp.BeginPacket? then [(trace[0].udp.dest, trace[0].udp.port)] else [])
         + Attempts(trace[1..])
  }

  /** Every serial effect of a trace goes to `sink`. */
  predicate AllTo(trace: seq<Effect>, sink: Sink)
  {
    forall i :: 0 <= i < |trace| && trace[i].Serial? ==> trace[i].sink == sink
  }

  predicate SerialOnly(trace: seq<Effect>)
  {
    forall i :: 0 <= i < |trace| ==> trace[i].Serial?
  }

  predicate UdpOnly(trace: seq<Effect>)
  {
    forall i :: 0 <= i < |trace| ==> trace[i].Udp?
  }

  lemma {:induction false} SerialTextAppend(a: seq<Effect>, b: seq<Effect>, eol: string)
    ensures SerialText(a + b, eol) == SerialText(a, eol) + SerialText(b, eol)
  {
    if a != [] {
      assert (a + b)[1..] == a[1..] + b;
      SerialTextAppend(a[1..], b, eol);
    } else {
      assert a + b == b;
    }
  }

  lemma SerialTextCons(e: Effect, rest: seq<Effect>, eol: string)
    ensures SerialText([e] + rest, eol) == Shown(e, eol) + SerialText(rest, eol)
  {
    assert ([e] + rest)[1..] == rest;
  }

  lemma {:induction false} SerialTextOfUdp(a: seq<Effect>, eol: string)
    requires UdpOnly(a)
    ensures SerialText(a, eol) == ""
  {
    if a != [] {
      SerialTextOfUdp(a[1..], eol);
    }
  }

  lemma {:induction false} AttemptsAppend(a: seq<Effect>, b: seq<Effect>)
    ensures Attempts(a + b) == Attempts(a) + Attempts(b)
  {
    if a != [] {
      assert (a + b)[1..] == a[1..] + b;
      AttemptsAppend(a[1..], b);
    } else {
      assert a + b == b;
    }
  }

  lemma {:induction false} AttemptsWithoutBegin(a: seq<Effect>)
    requires forall i :: 0 <= i < |a| ==> !(a[i].Udp? && a[i].udp.BeginPacket?)
    ensures Attempts(a) == []
  {
    if a != [] {
      AttemptsWithoutBegin(a[1..]);
    }
  }

  lemma {:induction false} AttemptsOfSerial(a: seq<Effect>)
    requires SerialOnly(a)
    ensures Attempts(a) == []
  {
    if a != [] {
      AttemptsOfSerial(a[1..]);
    }
  }

  /** Serial effects leave the UDP socket as it was. */
  lemma {:induction false} PacketsSkipSerial(a: seq<Effect>, b: seq<Effect>, open: Option<Datagram>)
    requires SerialOnly(a)
    ensures PacketsFrom(a + b, open) == PacketsFrom(b, open)
  {
    if a != [] {
      assert (a + b)[1..] == a[1..] + b;
      PacketsSkipSerial(a[1..], b, open);
    } else {
      assert a + b == b;
    }
  }
}
