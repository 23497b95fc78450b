/**
  `vlogf` and the entry points that call it.

  printf formatting is not modelled: `formatted` stands for the complete text
  `vsnprintf` produces from the template and its arguments, and both passes
  of the two-pass sizing are taken to produce that same text.  What is
  modelled is the C side: `strlen`, the buffers, `vsnprintf`'s truncation
  and terminator, and the conversion of the buffer back to a string, which
  stops at the first NUL.
*/
module Formatting {
  import opened Levels
  import opened Transport
  import opened Logging
  import opened CStrings

  /**
    `new char[size]` followed by `vsnprintf(buffer, size, fmt, args)`: the
    first `size - 1` characters of the text at most are stored, a NUL follows
    them, and the length of the whole text is returned.
  */
  method FormatInto(size: nat, formatted: string) returns (buffer: array<char>, len: nat)
    ensures buffer.Length == size
    ensures len == |formatted|
    ensures size > 0 ==>
      var stored := if |formatted| < size then |formatted| else size - 1;
      buffer[..stored] == formatted[..stored] && buffer[stored] == '\0'
  {
    buffer := new char[size](_ => '\0');
    len := |formatted|;
    if size > 0 {
      var stored := if |formatted| < size then |formatted| else size - 1;
      var i := 0;
      while i < stored
        invariant 0 <= i <= stored
        invariant buffer[..i] == formatted[..i]
      {
        buffer[i] := formatted[i];
        i := i + 1;
      }
      buffer[stored] := '\0';
    }
  }

  /** `String(buffer)`: the characters up to the first NUL, which the buffer must hold. */
  method ReadCString(buffer: array<char>) returns (s: string)
    requires '\0' in buffer[..]
    ensures s == CString(buffer[..])
  {
    var i := 0;
    while buffer[i] != '\0'
      invariant 0 <= i < buffer.Length
      invariant '\0' !in buffer[..i]
      invariant '\0' in buffer[i..]
      decreases buffer.Length - i
    {
      assert buffer[..i + 1] == buffer[..i] + [buffer[i]];
      i := i + 1;
    }
    s := buffer[..i];
    CStringOfTerminated(buffer[..], s);
    assert CString(s) == s;
  }

  /**
    `vlogf`: sizes the buffer to the template, grows it to the formatted
    length plus one when the text is longer than the template, and hands the
    buffer's string to `println`.  `capacity` is the size of the buffer that
    is finally read and `reallocated` whether the second pass ran.
  */
  method VLogF(s: Logger, t: LevelTable, level: Level, moduleName: string, fmt: seq<char>, formatted: string,
               beginResult: int)
    returns (trace: seq<Effect>, capacity: nat, reallocated: bool)
    ensures reallocated <==> |formatted| > StrLen(fmt)
    ensures capacity == (if reallocated then |formatted| else StrLen(fmt)) + 1
    ensures capacity > |formatted|
    ensures trace == Println(s, t, level, moduleName, CString(formatted), beginResult)
  {
    var initialLen := StrLen(fmt);
    var message, len := FormatInto(initialLen + 1, formatted);
    reallocated := len > initialLen;
    if reallocated {
      message, len := FormatInto(len + 1, formatted);
    }
    capacity := message.Length;
    CStringOfTerminated(message[..], formatted);
    var text := ReadCString(message);
    trace := Println(s, t, level, moduleName, text, beginResult);
  }

  /** `log(level, module, fmt, ...)`. */
  method Log(s: Logger, t: LevelTable, level: Level, moduleName: string, fmt: seq<char>, formatted: string,
             beginResult: int)
    returns (trace: seq<Effect>)
    ensures trace == Println(s, t, level, moduleName, CString(formatted), beginResult)
  {
    var capacity, reallocated;
    trace, capacity, reallocated := VLogF(s, t, level, moduleName, fmt, formatted, beginResult);
  }

  /** `debug(name, fmt, ...)`. */
  method Debug(s: Logger, t: LevelTable, name: string, fmt: seq<char>, formatted: string, beginResult: int)
    returns (trace: seq<Effect>)
    ensures trace == Println(s, t, LogDebug, name, CString(formatted), beginResult)
  {
    var capacity, reallocated;
    trace, capacity, reallocated := VLogF(s, t, LogDebug, name, fmt, formatted, beginResult);
  }

  /** `info(name, fmt, ...)`. */
  method Info(s: Logger, t: LevelTable, name: string, fmt: seq<char>, formatted: string, beginResult: int)
    returns (trace: seq<Effect>)
    ensures trace == Println(s, t, LogInfo, name, CString(formatted), beginResult)
  {
    var capacity, reallocated;
    trace, capacity, reallocated := VLogF(s, t, LogInfo, name, fmt, formatted, beginResult);
  }

  /** `error(name, fmt, ...)`. */
  method Error(s: Logger, t: LevelTable, name: string, fmt: seq<char>, formatted: string, beginResult: int)
    returns (trace: seq<Effect>)
    ensures trace == Println(s, t, LogError, name, CString(formatted), beginResult)
  {
    var capacity, reallocated;
    trace, capacity, reallocated := VLogF(s, t, LogError, name, fmt, formatted, beginResult);
  }

  /** `warn(name, fmt, ...)`. */
  method Warn(s: Logger, t: LevelTable, name: string, fmt: seq<char>, formatted: string, beginResult: int)
    returns (trace: seq<Effect>)
    ensures trace == Println(s, t, LogWarn, name, CString(formatted), beginResult)
  {
    var capacity, reallocated;
    trace, capacity, reallocated := VLogF(s, t, LogWarn, name, fmt, formatted, beginResult);
  }
}
