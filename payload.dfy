/** The bounded copy `snprintf(payload, MESSAGE_MAX_LEN, "%s", serialized)` of
    Device/utility.cpp, with the semantics of ISO C99 section 7.19.6.5: `%s` reads
    its argument only up to its first NUL, at most MESSAGE_MAX_LEN - 1 characters
    are stored, and a NUL always follows them. */
module Payload {
  import opened Config

  /** The C string a character sequence denotes: everything before its first NUL. */
  function CStr(s: string): (r: string)
    ensures |r| <= |s| && r == s[..|r|]
    ensures '\0' !in r
    ensures |r| < |s| ==> s[|r|] == '\0'
  {
    if s == [] || s[0] == '\0' then []
    else [s[0]] + CStr(s[1..])
  }

  /** The characters stored before the terminating NUL when `s` is printed into a
      buffer of MESSAGE_MAX_LEN characters. */
  function PayloadText(s: string): (p: string)
    ensures |p| <= MESSAGE_MAX_LEN - 1
    ensures |p| == if |CStr(s)| < MESSAGE_MAX_LEN then |CStr(s)| else MESSAGE_MAX_LEN - 1
    ensures p == s[..|p|]
    ensures '\0' !in p
  {
    var c := CStr(s);
    if |c| < MESSAGE_MAX_LEN then c else c[..MESSAGE_MAX_LEN - 1]
  }

  /** A NUL-free text that fits is stored whole. */
  lemma PayloadWholeWhenFits(s: string)
    requires '\0' !in s && |s| < MESSAGE_MAX_LEN
    ensures PayloadText(s) == s
  {
  }

  /** A NUL-free text that does not fit is cut to its first MESSAGE_MAX_LEN - 1 characters. */
  lemma PayloadTruncatedWhenLong(s: string)
    requires '\0' !in s && |s| >= MESSAGE_MAX_LEN
    ensures PayloadText(s) == s[..MESSAGE_MAX_LEN - 1]
  {
  }

  /** Print `s` into `buf` as `snprintf(buf, MESSAGE_MAX_LEN, "%s", s)` does: the
      payload text, then a NUL; the rest of the buffer is left alone. Returns what
      snprintf returns, the length the whole string would have needed. */
  method PrintBounded(buf: array<char>, s: string) returns (needed: int)
    requires buf.Length >= MESSAGE_MAX_LEN
    modifies buf
    ensures buf[..|PayloadText(s)|] == PayloadText(s)
    ensures buf[|PayloadText(s)|] == '\0'
    ensures forall i :: |PayloadText(s)| < i < buf.Length ==> buf[i] == old(buf[i])
    ensures needed == |CStr(s)|
  {
    var p := PayloadText(s);
    forall i | 0 <= i < |p| {
      buf[i] := p[i];
    }
    buf[|p|] := '\0';
    needed := |CStr(s)|;
  }
}
