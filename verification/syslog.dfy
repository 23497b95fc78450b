/**
  The text of one syslog datagram as the logger writes it: the header layout
  of section 6 of RFC 5424 with every optional field nil, and a parser that
  recovers the fields from such a datagram.
*/
module Syslog {
  import opened Wrappers

  // ---------------------------------------------------------------- PRI

  function Pow2(k: nat): (r: nat)
    ensures r >= 1
  {
    if k == 0 then 1 else 2 * Pow2(k - 1)
  }

  /** C's `|` on non-negative integers, one binary digit at a time. */
  function BitOr(a: nat, b: nat): nat
    decreases a + b
  {
    if a == 0 then b
    else if b == 0 then a
    else 2 * BitOr(a / 2, b / 2) + (if a % 2 == 1 || b % 2 == 1 then 1 else 0)
  }

  /** The facility code `f << 3`. */
  function FacilityCode(f: nat): nat
  {
    f * 8
  }

  /** `LOG_KERN`, the kernel facility code `0 << 3`. */
  const LogKern: nat := FacilityCode(0)

  /** The PRI value the logger writes: the facility code or-ed with the severity value. */
  function Pri(facility: nat, severity: nat): nat
  {
    BitOr(FacilityCode(facility), severity)
  }

  /** The lowest `k` binary digits of `x` are zero. */
  predicate LowBitsZero(x: nat, k: nat)
  {
    k == 0 || (x % 2 == 0 && LowBitsZero(x / 2, k - 1))
  }

  /** Or-ing a value into low bits that are all zero adds it. */
  lemma {:induction false} BitOrLowBits(x: nat, k: nat, s: nat)
    requires LowBitsZero(x, k) && s < Pow2(k)
    ensures BitOr(x, s) == x + s
  {
    if k == 0 {
      assert s == 0;
    } else if x != 0 && s != 0 {
      BitOrLowBits(x / 2, k - 1, s / 2);
      assert BitOr(x, s) == 2 * BitOr(x / 2, s / 2) + s % 2;
    }
  }

  /** Section 6.2.1 of RFC 5424: PRI is facility times eight plus severity, and both can be read back. */
  lemma PriEncodesFacilityAndSeverity(facility: nat, severity: nat)
    requires severity < 8
    ensures Pri(facility, severity) == 8 * facility + severity
    ensures Pri(facility, severity) / 8 == facility
    ensures Pri(facility, severity) % 8 == severity
  {
    assert Pow2(3) == 8;
    assert LowBitsZero(facility * 8, 3) by {
      assert LowBitsZero(facility, 0);
      assert (facility * 2) / 2 == facility && LowBitsZero(facility * 2, 1);
      assert (facility * 4) / 2 == facility * 2 && LowBitsZero(facility * 4, 2);
      assert (facility * 8) / 2 == facility * 4;
    }
    BitOrLowBits(facility * 8, 3, severity);
  }

  /** With the kernel facility the PRI is the level value itself, whatever its size. */
  lemma KernelPriIsValue(value: nat)
    ensures Pri(0, value) == value
    ensures BitOr(LogKern, value) == value
  {
  }

  // ------------------------------------------------------------ decimal

  predicate IsDigit(c: char)
  {
    '0' <= c <= '9'
  }

  predicate AllDigits(s: string)
  {
    forall i :: 0 <= i < |s| ==> IsDigit(s[i])
  }

  function DigitChar(d: nat): (c: char)
    requires d < 10
    ensures IsDigit(c)
  {
    (d + '0' as int) as char
  }

  function DigitValue(c: char): (d: nat)
    requires IsDigit(c)
    ensures d < 10
  {
    c as int - '0' as int
  }

  /** `Print::print(n)` in base ten: the shortest decimal numeral of `n`. */
  function Decimal(n: nat): (s: string)
    ensures |s| > 0 && AllDigits(s)
    ensures s[0] == '0' <==> n == 0
    decreases n
  {
    if n < 10 then [DigitChar(n)] else Decimal(n / 10) + [DigitChar(n % 10)]
  }

  /** The number a string of decimal digits denotes. */
  function DigitsValue(s: string): nat
    requires AllDigits(s)
    decreases |s|
  {
    if s == [] then 0 else 10 * DigitsValue(s[..|s| - 1]) + DigitValue(s[|s| - 1])
  }

  /** A numeral without superfluous leading zeros. */
  predicate Canonical(s: string)
  {
    |s| > 0 && AllDigits(s) && (s[0] == '0' ==> |s| == 1)
  }

  lemma {:induction false} DecimalRoundTrip(n: nat)
    ensures Canonical(Decimal(n))
    ensures DigitsValue(Decimal(n)) == n
  {
    var s := Decimal(n);
    if n >= 10 {
      DecimalRoundTrip(n / 10);
      assert s[..|s| - 1] == Decimal(n / 10);
    }
  }

  lemma {:induction false} DigitsRoundTrip(s: string)
    requires Canonical(s)
    ensures Decimal(DigitsValue(s)) == s
    decreases |s|
  {
    if |s| > 1 {
      var init := s[..|s| - 1];
      assert init[0] == s[0];
      DigitsRoundTrip(init);
      var v := DigitsValue(init);
      assert v != 0;
      assert DigitsValue(s) / 10 == v;
      assert DigitsValue(s) % 10 == DigitValue(s[|s| - 1]);
      assert DigitChar(DigitValue(s[|s| - 1])) == s[|s| - 1];
      assert s == init + [s[|s| - 1]];
    }
  }

  // ------------------------------------------------------------ payload

  /** The UTF-8 byte order mark, one char per byte. */
  const Bom: string := [0xEF as char, 0xBB as char, 0xBF as char]

  /** VERSION `1` and a nil TIMESTAMP, each followed by a space. */
  const VersionAndTimestamp: string := "1 - "

  /** Nil PROCID, MSGID and STRUCTURED-DATA, each followed by a space, then the BOM that opens MSG. */
  const NilFieldsAndBom: string := "- - - " + Bom

  /**
    `<PRI>1 - HOSTNAME APP-NAME - - - BOM MSG`: the header of section 6 of
    RFC 5424 with TIMESTAMP, PROCID, MSGID and STRUCTURED-DATA nil, and a
    UTF-8 MSG marked by a BOM as section 6.4 asks.
  */
  function Payload(pri: nat, hostname: string, appName: string, msg: string): string
  {
    "<" + Decimal(pri) + ">" + VersionAndTimestamp + hostname + " " + appName + " " + NilFieldsAndBom + msg
  }

  /** The fields a payload carries. */
  datatype Fields = Fields(pri: nat, hostname: string, appName: string, msg: string)

  /** The text before the first `c` and the text after it. */
  function Split(s: string, c: char): (r: Option<(string, string)>)
    ensures r.Some? ==> s == r.value.0 + [c] + r.value.1 && c !in r.value.0
    ensures r.None? <==> c !in s
  {
    if s == [] then None
    else if s[0] == c then Some(([], s[1..]))
    else match Split(s[1..], c)
      case None => None
      case Some(parts) => Some(([s[0]] + parts.0, parts.1))
  }

  lemma {:induction false} SplitAtFirst(a: string, c: char, b: string)
    requires c !in a
    ensures Split(a + [c] + b, c) == Some((a, b))
  {
    if a != [] {
      assert (a + [c] + b)[1..] == a[1..] + [c] + b;
      SplitAtFirst(a[1..], c, b);
      assert [a[0]] + a[1..] == a;
    } else {
      assert (a + [c] + b)[1..] == b;
    }
  }

  /** Reads a payload back into its fields, or `None` when the text is not laid out as `Payload` lays it out. */
  function Parse(p: string): Option<Fields>
  {
    if |p| == 0 || p[0] != '<' then None
    else match Split(p[1..], '>')
      case None => None
      case Some(parts) => ParseAfterPri(parts.0, parts.1)
  }

  /** The PRI numeral has been cut off; checks it and the fixed version and timestamp fields. */
  function ParseAfterPri(digits: string, rest: string): Option<Fields>
  {
    if !Canonical(digits) || |rest| < |VersionAndTimestamp|
       || rest[..|VersionAndTimestamp|] != VersionAndTimestamp then None
    else ParseNames(DigitsValue(digits), rest[|VersionAndTimestamp|..])
  }

  /** Cuts HOSTNAME and APP-NAME at the next two spaces, then checks the nil fields and the BOM. */
  function ParseNames(pri: nat, rest: string): Option<Fields>
  {
    match Split(rest, ' ')
    case None => None
    case Some(afterHost) =>
      match Split(afterHost.1, ' ')
      case None => None
      case Some(afterApp) =>
        var tail := afterApp.1;
        if |tail| < |NilFieldsAndBom| || tail[..|NilFieldsAndBom|] != NilFieldsAndBom then None
        else Some(Fields(pri, afterHost.0, afterApp.0, tail[|NilFieldsAndBom|..]))
  }

  /** Decoding an encoded payload gives its fields back, when HOSTNAME and APP-NAME hold no space. */
  lemma ParsePayload(pri: nat, hostname: string, appName: string, msg: string)
    requires ' ' !in hostname && ' ' !in appName
    ensures Parse(Payload(pri, hostname, appName, msg)) == Some(Fields(pri, hostname, appName, msg))
  {
    var d := Decimal(pri);
    DecimalRoundTrip(pri);
    var names := hostname + " " + appName + " " + NilFieldsAndBom + msg;
    var rest := VersionAndTimestamp + names;
    var p := Payload(pri, hostname, appName, msg);
    PayloadShape(pri, hostname, appName, msg);
    SplitPayload(p, d, VersionAndTimestamp, names);
    assert !IsDigit('>');
    SplitAtFirst(d, '>', rest);
    assert Parse(p) == ParseAfterPri(d, rest);
    assert rest[..|VersionAndTimestamp|] == VersionAndTimestamp;
    assert rest[|VersionAndTimestamp|..] == names;
    assert ParseAfterPri(d, rest) == ParseNames(pri, names);
    ParseNamesOfJoin(pri, hostname, appName, msg);
  }

  lemma SplitPayload(p: string, d: string, version: string, names: string)
    requires p == "<" + d + ">" + version + names
    ensures |p| > 0 && p[0] == '<' && p[1..] == d + ['>'] + (version + names)
  {
  }

  lemma ParseNamesOfJoin(pri: nat, hostname: string, appName: string, msg: string)
    requires ' ' !in hostname && ' ' !in appName
    ensures ParseNames(pri, hostname + " " + appName + " " + NilFieldsAndBom + msg)
         == Some(Fields(pri, hostname, appName, msg))
  {
    var tail := NilFieldsAndBom + msg;
    var afterHost := appName + [' '] + tail;
    JoinNames(hostname, appName, NilFieldsAndBom, msg, hostname + [' '] + afterHost, afterHost);
    SplitAtFirst(hostname, ' ', afterHost);
    SplitAtFirst(appName, ' ', tail);
    assert tail[..|NilFieldsAndBom|] == NilFieldsAndBom;
    assert tail[|NilFieldsAndBom|..] == msg;
  }

  lemma NamesOfParse(pri: nat, rest: string)
    requires ParseNames(pri, rest).Some?
    ensures var f := ParseNames(pri, rest).value;
      && f.pri == pri && ' ' !in f.hostname && ' ' !in f.appName
      && rest == f.hostname + " " + f.appName + " " + NilFieldsAndBom + f.msg
  {
    var afterHost := Split(rest, ' ').value;
    var afterApp := Split(afterHost.1, ' ').value;
    var tail := afterApp.1;
    var msg := tail[|NilFieldsAndBom|..];
    assert ParseNames(pri, rest) == Some(Fields(pri, afterHost.0, afterApp.0, msg));
    assert tail == NilFieldsAndBom + msg;
    JoinNames(afterHost.0, afterApp.0, NilFieldsAndBom, msg, rest, afterHost.1);
  }

  lemma JoinNames(host: string, app: string, nil: string, msg: string, rest: string, afterHost: string)
    requires rest == host + [' '] + afterHost
    requires afterHost == app + [' '] + (nil + msg)
    ensures rest == host + " " + app + " " + nil + msg
  {
  }

  lemma AfterPriOfParse(digits: string, rest: string)
    requires ParseAfterPri(digits, rest).Some?
    ensures var f := ParseAfterPri(digits, rest).value;
      && ' ' !in f.hostname && ' ' !in f.appName
      && "<" + digits + ">" + rest == Payload(f.pri, f.hostname, f.appName, f.msg)
  {
    DigitsRoundTrip(digits);
    var pri := DigitsValue(digits);
    var names := rest[|VersionAndTimestamp|..];
    assert ParseAfterPri(digits, rest) == ParseNames(pri, names);
    NamesOfParse(pri, names);
    var f := ParseNames(pri, names).value;
    assert rest == VersionAndTimestamp + names;
    PayloadShape(f.pri, f.hostname, f.appName, f.msg);
    JoinPri(digits, VersionAndTimestamp, names, rest);
  }

  lemma JoinPri(digits: string, version: string, names: string, rest: string)
    requires rest == version + names
    ensures "<" + digits + ">" + rest == "<" + digits + ">" + version + names
  {
  }

  /** Whatever parses is exactly the payload of the fields it parses to, and those fields hold no space. */
  lemma PayloadOfParse(p: string)
    ensures Parse(p).Some? ==>
      var f := Parse(p).value;
      && ' ' !in f.hostname && ' ' !in f.appName
      && p == Payload(f.pri, f.hostname, f.appName, f.msg)
  {
    if Parse(p).None? {
      return;
    }
    var parts := Split(p[1..], '>').value;
    assert Parse(p) == ParseAfterPri(parts.0, parts.1);
    AfterPriOfParse(parts.0, parts.1);
    Rejoin(p, parts.0, parts.1);
  }

  lemma Rejoin(p: string, digits: string, rest: string)
    requires |p| > 0 && p[0] == '<' && p[1..] == digits + ['>'] + rest
    ensures p == "<" + digits + ">" + rest
  {
    assert p == [p[0]] + p[1..];
  }

  lemma PayloadShape(pri: nat, hostname: string, appName: string, msg: string)
    ensures Payload(pri, hostname, appName, msg)
         == "<" + Decimal(pri) + ">" + VersionAndTimestamp + (hostname + " " + appName + " " + NilFieldsAndBom + msg)
  {
  }

  /** Two calls with space-free hostname and module send the same payload only if every field agrees. */
  lemma PayloadInjective(pri: nat, hostname: string, appName: string, msg: string,
                         pri': nat, hostname': string, appName': string, msg': string)
    requires ' ' !in hostname && ' ' !in appName && ' ' !in hostname' && ' ' !in appName'
    requires Payload(pri, hostname, appName, msg) == Payload(pri', hostname', appName', msg')
    ensures pri == pri' && hostname == hostname' && appName == appName' && msg == msg'
  {
    ParsePayload(pri, hostname, appName, msg);
    ParsePayload(pri', hostname', appName', msg');
  }

  /** Nothing escapes a space: a module name holding one reads as part of the hostname. */
  lemma SpaceInModuleIsAmbiguous(pri: nat, msg: string)
    ensures Payload(pri, "a", "b c", msg) == Payload(pri, "a b", "c", msg)
  {
  }
}
