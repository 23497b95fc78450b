/**
  C strings: a character sequence read as a `const char *` ends at its first
  NUL.  Both `String(const char *)` and the host name handed to
  `beginPacket` through `c_str()` are read this way.
*/
module CStrings {

  /** The C string held by a character sequence: everything before the first NUL. */
  function CString(s: seq<char>): (r: seq<char>)
    ensures r <= s
    ensures '\0' !in r
    ensures |r| < |s| ==> s[|r|] == '\0'
  {
    if s == [] || s[0] == '\0' then [] else [s[0]] + CString(s[1..])
  }

  /** `strlen`. */
  function StrLen(s: seq<char>): nat
  {
    |CString(s)|
  }

  /** A buffer holding `text` followed by a NUL reads back as `text` does. */
  lemma {:induction false} CStringOfTerminated(buf: seq<char>, text: seq<char>)
    requires |text| < |buf| && buf[..|text|] == text && buf[|text|] == '\0'
    ensures CString(buf) == CString(text)
  {
    if text != [] && text[0] != '\0' {
      assert buf[1..][..|text| - 1] == text[1..];
      CStringOfTerminated(buf[1..], text[1..]);
    }
  }

  /** A sequence without a NUL is its own C string, and only such a sequence is. */
  lemma {:induction false} CStringOfNulFree(s: seq<char>)
    ensures CString(s) == s <==> '\0' !in s
  {
    if s != [] && s[0] != '\0' {
      CStringOfNulFree(s[1..]);
      assert s == [s[0]] + s[1..];
    }
  }
}
