# esp_logger dispatch, modelled in Dafny

This project models `logging::Logger` from `src/logger.cpp`. The logger is a leveled logger for
Arduino-style boards. It writes a coloured `[LEVEL][module] message` line to a serial stream when the level passes
a threshold. Once syslog is configured, it also attempts to send every message, filtered or
not, as one UDP datagram laid out as an RFC 5424 header. When `beginPacket` fails, nothing is sent.

The model is functional:

- **Logger value.** A `Logger` is an immutable record of the fields declared in
  `include/logger.h:36-48`. The four constructors and four setters are pure functions.
- **Traces.** Dispatching one message (`println`, `printHeader`, `syslogLog`) is a pure
  function. It returns the trace of calls the logger makes on its two transports:
  `print`/`println` on the stream, and `beginPacket`/`print`/`endPacket` on the socket.
- **Rendering.** `SerialText` computes what the stream shows, `Packets` the datagrams
  handed to `endPacket`, and `Attempts` every `beginPacket`.
- **Reference definitions.** The theorems relate those traces to `LocalLine`
  (colour, `[LEVEL][module] `, message, reset, line end) and to `Syslog.Payload`
  (`<PRI>1 - HOSTNAME APP-NAME - - - BOM MSG`). `Syslog.Parse` is an inverse of the
  payload, proved in both directions.
- **`vlogf`.** The two-pass buffer sizing is an imperative method over Dafny arrays.
  The buffer is proved never to truncate the formatted text. `println` receives that text up to its
  first NUL, which is all of it when it holds none.
- **Call histories.** `Session` runs sequences of setter and log calls. It proves that
  an address set earlier keeps winning over later by-name configurations, and that log
  calls change no configuration.

Modules: `Wrappers` (Option), `Levels`, `Transport`, `CStrings` (NUL-terminated strings), `Syslog`, `Logging`,
`Formatting`, `Session`.

## Assumptions about code outside the model

- **Level class.** The header that defines the level class (`logger_level.h`) is not
  part of this model. A `LevelTable` holds its four lookups as arbitrary functions:
  `getValue` (a natural number), `toString`, `getLineColor` and `resetColor`. Every
  result holds for every table.
- **Level comparison.** The `<=` of `src/logger.cpp:73` is assumed to compare `getValue`
  (`Levels.AtMost`). Results that need the usual order ERROR < WARN < INFO < DEBUG say
  so through `Levels.Ordered`.
- **Line terminator.** The terminator Arduino's `println` appends is a parameter, `eol`.
- **IP addresses.** The logger only ever asks whether an `IPAddress` equals
  `INADDR_NONE` (`src/logger.cpp:94`). So `Transport.IpAddress` has one value,
  `InaddrNone`, for `INADDR_NONE` and one constructor, `Address`, for every other
  value. `INADDR_NONE` is itself some octet pattern on each core. That pattern is
  the `InaddrNone` value and no `Address` value: passing it to the address overload
  falls back to the server name, as in the source. A default-constructed
  `_syslogIp` (the constructors never set it) is taken to equal `INADDR_NONE`.
- **Streams.** A `Stream *` is never null: a logger built or redirected with a
  null stream is outside the model (see "Left out").
- **Integer widths.** `unsigned int` and `int` are 32 bits wide. `beginPacket` takes a
  `uint16_t` port, so the port on the wire is the configured port modulo 2^16.
- **UDP buffering.** Writes on a `WiFiUDP` accumulate into the packet opened by
  `beginPacket`, and only `endPacket` sends it. `endPacket` is taken always to send the
  packet: the source ignores its result (`src/logger.cpp:114`), so the model has no
  failed send after a successful open.
- **Characters as bytes.** Strings are `seq<char>`, one char per byte. The BOM is the
  three chars 0xEF, 0xBB, 0xBF.

## Behaviour worth noting

- **Name and address are not exclusive.** The by-name `setSyslogServer` does not clear
  an address set earlier. That address keeps being used until the address overload is
  called again (`Logging.SetSyslogServerSends`, `Session.AddressKeepsWinning`).
- **Server names end at a NUL.** `beginPacket` receives the server name through
  `c_str()`, so a name holding a NUL is resolved only up to it
  (`Logging.ServerNameEndsAtNul`).
- **Buffer size.** When the formatted text is longer than the template, the second
  buffer holds the formatted length plus one for the terminating NUL.
- **Header fields.** The fields after the version `1` are a nil TIMESTAMP, the
  configured hostname as HOSTNAME, the module as APP-NAME, then nil PROCID, MSGID and
  STRUCTURED-DATA.
- **Threshold.** A message passes when its level compares `<=` the threshold, so a
  threshold at the most restrictive level still passes messages of that level
  (`Levels.FilterFollowsRank`).

## Model

| member | source | states |
|---|---|---|
| Logging.Println | src/logger.cpp:72-82 | nothing happens exactly when the level is filtered out and syslog is unset; its full output is stated by `Logging.LocalOutput`, `Logging.SyslogOutput` and `Logging.LocalPrecedesSyslog` |
| Logging.ColouredLine | src/logger.cpp:73-78 | the local writes of one call; `Logging.ColouredLineShows` states what they show and where |
| Logging.PrintHeader | src/logger.cpp:84-90 | the five header writes; `Logging.HeaderShows` states what they show |
| Logging.SyslogLog | src/logger.cpp:92-115 | one syslog attempt; `Logging.SyslogLogIsUdp`, `Logging.SyslogWritesFill` and `Logging.SyslogLogSends` state its calls and the datagram it sends |
| Logging.PacketDestination | src/logger.cpp:94-98 | the address when it is not `INADDR_NONE`, and otherwise the server name cut at its first NUL, which is the whole name when it holds none |
| Logging.StorePort | src/logger.cpp:36-49 | the `int` member holds the configured `unsigned int` port modulo 2^32 |
| Logging.WirePort | src/logger.cpp:95-97 | `beginPacket` gets the `int` member modulo 2^16 |
| Logging.Create | src/logger.cpp:10-11 | `Logger()` writes to `Serial`, filters at `LOG_DEBUG`, has syslog unset, holds no address and an empty server name; `Logging.ConstructorThresholds`, `Logging.ConstructorsStartUnset` and `Logging.ConstructorsHoldNoAddress` state what that shows |
| Logging.CreateAt | src/logger.cpp:13-14 | `Logger(level)` writes to `Serial`, filters at the level given, has syslog unset holds no address and an empty server name |
| Logging.CreateOn | src/logger.cpp:16-17 | `Logger(serial)` writes to the stream given, filters at `LOG_DEBUG`, has syslog unset holds no address and an empty server name |
| Logging.CreateOnAt | src/logger.cpp:19-20 | `Logger(serial, level)` writes to the stream given, filters at the level given, has syslog unset holds no address and an empty server name |
| Logging.SetSerial | src/logger.cpp:26-28 | `setSerial` changes the stream and keeps every other field; `Logging.SetSerialRedirects` states what that shows |
| Logging.SetDebugLevel | src/logger.cpp:31-33 | `setDebugLevel` changes the threshold and keeps every other field; `Logging.SetDebugLevelOnlyFilters` states what that shows |
| Logging.SetSyslogServer | src/logger.cpp:36-41 | the by-name `setSyslogServer` sets syslog, stores the name and hostname even while an address is set, puts the port modulo 2^16 on the wire, and keeps the stream, threshold and address |
| Logging.SetSyslogAddress | src/logger.cpp:44-49 | the by-address `setSyslogServer` sets syslog, stores the address and hostname, puts the port modulo 2^16 on the wire, and keeps the stream, threshold and server name |
| Syslog.Payload | src/logger.cpp:104-113 | the text the eight writes put in the packet; `Syslog.ParsePayload` and `Syslog.PayloadOfParse` prove `Syslog.Parse` its inverse |
| Levels.FilterFollowsRank | src/logger.cpp:73 | under an ordered table the filter passes a level exactly when it is no more verbose than the threshold, for all 16 pairs |
| Syslog.BitOrLowBits | src/logger.cpp:104-107 | or-ing a value below 2^k into a number whose lowest k bits are zero adds it, so bitwise or and addition agree on the PRI |
| Syslog.PriEncodesFacilityAndSeverity | src/logger.cpp:104-107 | PRI is facility times eight plus severity, and facility and severity can be read back from it (section 6.2.1 of RFC 5424) |
| Syslog.KernelPriIsValue | src/logger.cpp:104-107 | with the kernel facility 0 the PRI written is the level value itself, of any size |
| Syslog.Decimal | src/logger.cpp:107 | the number is printed as a non-empty string of decimal digits with a leading zero only for 0 |
| Syslog.DecimalRoundTrip | src/logger.cpp:107 | the printed number is canonical and reads back as the number |
| Syslog.DigitsRoundTrip | src/logger.cpp:107 | every canonical numeral is the printed form of the number it denotes |
| Syslog.ParsePayload | src/logger.cpp:106-113 | parsing a payload gives back PRI, hostname, module and message whenever hostname and module hold no space |
| Syslog.PayloadOfParse | src/logger.cpp:106-113 | any text that parses is exactly the payload of the fields it parses to |
| Syslog.PayloadInjective | src/logger.cpp:106-113 | two payloads with space-free hostname and module are equal only if all four fields are |
| Syslog.SpaceInModuleIsAmbiguous | src/logger.cpp:109-111 | hostname and module are not escaped, so a space moves text between them without changing the datagram |
| Logging.WirePortOfConfigured | src/logger.cpp:36-49 | the port used by `beginPacket` is the configured `unsigned int` port modulo 2^16, and any port below 2^16 arrives unchanged |
| Logging.HeaderShows | src/logger.cpp:84-90 | the five header writes show `[LEVEL][module] ` with the module verbatim |
| Logging.ColouredLineShows | src/logger.cpp:74-77 | the local writes show colour, header, message, reset and line end, all on the configured stream |
| Logging.SyslogLogIsUdp | src/logger.cpp:92-98 | a syslog attempt touches only the socket and calls `beginPacket` once, with the destination and port of the configuration |
| Logging.SyslogWritesFill | src/logger.cpp:106-114 | after a successful open the eight writes fill the packet in order and `endPacket` sends it |
| Transport.PutsFill | src/logger.cpp:106-114 | any run of `print`s into an open packet appends the strings in order, and `endPacket` hands over exactly that one packet |
| Logging.SyslogLogSends | src/logger.cpp:92-115 | a successful attempt sends exactly one datagram carrying the RFC 5424 payload, and a failed one sends none |
| Logging.LocalOutput | src/logger.cpp:72-78 | the stream shows the coloured line exactly when the level passes the threshold and nothing otherwise, whatever the syslog configuration or transport result, and only on the configured stream |
| Logging.SyslogOutput | src/logger.cpp:79-115 | a send is attempted once exactly when syslog is set, whatever the threshold, and the one datagram sent on a successful open carries the payload with PRI equal to the level value |
| Logging.LocalPrecedesSyslog | src/logger.cpp:72-82 | no serial write comes after a UDP call within one message |
| Logging.FailedOpenIsSilent | src/logger.cpp:100-102 | when the packet cannot be opened nothing is sent, while the stream output and the attempt are unchanged |
| Logging.UnsetSyslogIsInert | src/logger.cpp:79-81 | while syslog is unset, no syslog field is observable, the uninitialised port included |
| Logging.ConstructorsStartUnset | src/logger.cpp:10-20 | a logger from any constructor never touches the socket |
| Logging.ConstructorsHoldNoAddress | src/logger.cpp:10-20 | for a logger from any constructor, the first by-name configuration sends to that name, cut at its first NUL, and the address overload given `INADDR_NONE` sends to the empty name |
| Logging.ConstructorThresholds | src/logger.cpp:10-20 | constructors without a level filter at `LOG_DEBUG`, which passes every level under an ordered table; the others filter at the given level; each writes to the given stream or to `Serial` |
| Logging.SetSerialRedirects | src/logger.cpp:26-28 | `setSerial` changes no field but the stream, moves every serial write to the new stream, and changes no text, attempt or datagram |
| Logging.SetDebugLevelOnlyFilters | src/logger.cpp:31-33 | `setDebugLevel` changes no field but the threshold: the stream shows the line exactly when the level passes the new threshold, and the syslog side is unchanged |
| Logging.SetSyslogServerSends | src/logger.cpp:36-41 | by-name configuration stores the name and keeps the address, leaves the stream and its output alone, and sends to the new port with the new hostname; the destination is the server name, up to its first NUL, only if no address was set before |
| Logging.SetSyslogAddressSends | src/logger.cpp:44-49 | by-address configuration keeps the stored server name, leaves the stream and its output alone, and sends to that address, or to the stored server name up to its first NUL when given `INADDR_NONE` |
| Logging.InfoLineScenario | src/logger.cpp:72-90 | an INFO call from `net` saying `up` shows `[INFO][net] up` between colour and reset |
| Logging.WarnDatagramScenario | src/logger.cpp:36-41 | with server `host1`, port 514 and hostname `device1`, a WARN call from `sys` saying `low battery` sends one datagram to `host1:514` with that payload |
| CStrings.CString | src/logger.cpp:67 | the string read from a buffer is its longest NUL-free prefix |
| CStrings.CStringOfTerminated | src/logger.cpp:61-67 | a buffer holding a text followed by a NUL reads back as that text does |
| CStrings.CStringOfNulFree | src/logger.cpp:95 | `c_str()` of a string leaves it whole exactly when it holds no NUL |
| Logging.ServerNameEndsAtNul | src/logger.cpp:95 | with server name `a`, NUL, `b` the packet is opened for host `a` |
| Formatting.FormatInto | src/logger.cpp:60-61 | a buffer of the given size holds at most size - 1 characters of the text followed by a NUL, and the full length is returned |
| Formatting.ReadCString | src/logger.cpp:67 | reading a NUL-terminated buffer yields its C string |
| Formatting.VLogF | src/logger.cpp:58-69 | reallocation happens exactly when the formatted text is longer than `strlen(fmt)`; the final buffer holds the whole text and its NUL, so nothing is truncated, and `println` receives the text up to its first NUL, all of it when it holds none |
| Formatting.Log | src/logger.cpp:51-56 | `log` dispatches the formatted message at the given level |
| Formatting.Debug | src/logger.cpp:117-122 | `debug` is `vlogf` at `LOG_DEBUG` |
| Formatting.Info | src/logger.cpp:124-129 | `info` is `vlogf` at `LOG_INFO` |
| Formatting.Error | src/logger.cpp:131-136 | `error` is `vlogf` at `LOG_ERROR` |
| Formatting.Warn | src/logger.cpp:138-143 | `warn` is `vlogf` at `LOG_WARN` |
| Session.LogCallsKeepConfiguration | src/logger.cpp:51-82 | any number of log calls leave every configuration field unchanged |
| Session.RepeatedLogIsIdentical | src/logger.cpp:72-115 | repeating a log call repeats its transport calls exactly |
| Session.AddressKeepsWinning | src/logger.cpp:94-98 | after an address other than `INADDR_NONE` is set, every later `beginPacket` goes to it, whatever by-name configurations, threshold changes or log calls follow, until the address overload is called again |
| Session.ServerNameKept | src/logger.cpp:36-49 | only the by-name configuration writes the server name: any calls without it keep the name, address configurations included |
| Session.FallbackToStoredName | src/logger.cpp:94-95 | a name configured once, followed by any calls short of another by-name configuration and then the address overload with `INADDR_NONE`, sends to that name again, cut at its first NUL |

## Left out

- The global `logger` instance (`src/logger.cpp:4-6`) and the empty destructor have no behaviour to model.
- The `Stream` and `WiFiUDP` classes are not part of this model. Their calls are recorded in a trace, with the result of `beginPacket` taken as an input and that of `endPacket` dropped.
- printf formatting is not modelled. The complete formatted text is an input to `vlogf`.
- Formatting.VLogF: assumes both passes yield the same text. The second `vsnprintf` (`src/logger.cpp:65`) reuses a `va_list` the first pass already consumed, without `va_copy`. That is undefined behaviour in C, so the source promises nothing there. On ABIs whose `va_list` is an array, the second pass can read past the arguments.
- Formatting.VLogF: does not model a negative `vsnprintf` result converted to `size_t` (`src/logger.cpp:61`).
- Heap allocation and release of the buffers (`src/logger.cpp:60-68`) are not modelled. Only their sizes and contents are.
- Concrete level values, labels, ANSI colour sequences and the line terminator are not modelled, because their definitions are not part of this model.
- Which octet pattern `INADDR_NONE` has on a given core is not modelled. The model only distinguishes `INADDR_NONE` from every other address, which is the one comparison the code makes.
- A null `Stream *` passed to a constructor or to `setSerial` is not modelled. The source dereferences `_serial` unchecked (`src/logger.cpp:74-77`, `src/logger.cpp:85-89`), so the first call that passes the filter would crash; `Transport.Sink` has no null value.
- RFC 5424 field rules (printable US-ASCII without spaces in HOSTNAME and APP-NAME, length limits) are not modelled, because the code enforces none of them. `Syslog.SpaceInModuleIsAmbiguous` shows the consequence.
- Concurrency is not modelled: the logger has no locking and is used from one thread.
