/** Character classes, methods and versions of HTTP messages. */
module HttpConsts {
  import opened CString

  predicate IsCtlChar(c: char) { c <= '\U{1F}' || c == '\U{7F}' }

  predicate IsWhiteSpace(c: char) { c == ' ' || c == '\t' }

  predicate IsLwfChar(c: char) { c == ' ' || c == '\t' || c == '\r' || c == '\n' }

  predicate IsSeparatorChar(c: char) {
    || c == '\t' || c == ' ' || c == '\"' || c == '(' || c == ')' || c == ',' || c == '/'
    || ':' <= c <= '@'
    || '[' <= c <= ']'
    || c == '{' || c == '|'
  }

  /** The separators of section 2.2 of RFC 2616. */
  predicate IsRfcSeparator(c: char) {
    c in ['(', ')', '<', '>', '@', ',', ';', ':', '\\', '\"', '/', '[', ']', '?', '=', '{', '}', ' ', '\t']
  }

  /** The character table follows the standard for all characters but two. */
  lemma SeparatorsAgreeIff(c: char)
    ensures (IsSeparatorChar(c) <==> IsRfcSeparator(c)) <==> c != '|' && c != '}'
    ensures IsSeparatorChar('|') && !IsRfcSeparator('|') && !IsSeparatorChar('}') && IsRfcSeparator('}')
  {
    if '[' <= c <= ']' {
      assert c == '[' || c == '\\' || c == ']';
    }
    if ':' <= c <= '@' {
      assert c == ':' || c == ';' || c == '<' || c == '=' || c == '>' || c == '?' || c == '@';
    }
  }

  predicate IsTokenChar(c: char) { c <= '\U{7F}' && !IsCtlChar(c) && !IsSeparatorChar(c) }

  predicate IsUpper(c: char) { 'A' <= c <= 'Z' }

  predicate IsLower(c: char) { 'a' <= c <= 'z' }

  predicate IsAlpha(c: char) { IsUpper(c) || IsLower(c) }

  function ToUpper(c: char): char { if IsLower(c) then c - 32 as char else c }

  function ToLower(c: char): char { if IsUpper(c) then c + 32 as char else c }

  function LowerCase(s: string): (r: string)
    ensures |r| == |s| && forall i :: 0 <= i < |s| ==> r[i] == ToLower(s[i])
  {
    seq(|s|, i requires 0 <= i < |s| => ToLower(s[i]))
  }

  /** `strcasecmp(s.c_str(), name) == 0`. */
  predicate EqualsNoCase(s: string, name: string) {
    LowerCase(CStr(s)) == LowerCase(name)
  }

  /** `StrCasePrefix(StrTrim(s).c_str(), prefix)` for a prefix that starts with no blank.
      Only the front is affected by the trimming: an interior NUL ends the text. */
  predicate TrimmedHasPrefix(s: string, prefix: string) {
    HasPrefix(SkipSpaces(s), prefix)
  }

  /** `StrCasePrefix(s.c_str(), prefix)`. */
  predicate HasPrefix(s: string, prefix: string) {
    var t := CStr(s);
    |prefix| <= |t| && LowerCase(t[..|prefix|]) == LowerCase(prefix)
  }

  /** `StrTrim(s).empty()`. */
  predicate TrimmedIsEmpty(s: string) {
    SkipSpaces(s) == ""
  }

  datatype Method = METHOD_UNKNOWN | METHOD_OPTIONS | METHOD_GET | METHOD_HEAD | METHOD_POST
                  | METHOD_PUT | METHOD_DELETE | METHOD_TRACE | METHOD_CONNECT

  function MethodName(m: Method): (s: string)
    ensures s != "" && forall i :: 0 <= i < |s| ==> IsUpper(s[i])
  {
    match m
    case METHOD_UNKNOWN => "UNKNOWN"
    case METHOD_OPTIONS => "OPTIONS"
    case METHOD_GET => "GET"
    case METHOD_HEAD => "HEAD"
    case METHOD_POST => "POST"
    case METHOD_PUT => "PUT"
    case METHOD_DELETE => "DELETE"
    case METHOD_TRACE => "TRACE"
    case METHOD_CONNECT => "CONNECT"
  }

  function GetMethod(s: string): Method {
    if EqualsNoCase(s, "OPTIONS") then METHOD_OPTIONS
    else if EqualsNoCase(s, "GET") then METHOD_GET
    else if EqualsNoCase(s, "HEAD") then METHOD_HEAD
    else if EqualsNoCase(s, "POST") then METHOD_POST
    else if EqualsNoCase(s, "PUT") then METHOD_PUT
    else if EqualsNoCase(s, "DELETE") then METHOD_DELETE
    else if EqualsNoCase(s, "TRACE") then METHOD_TRACE
    else if EqualsNoCase(s, "CONNECT") then METHOD_CONNECT
    else METHOD_UNKNOWN
  }

  /** Versions are ordered, as the source compares them. */
  type Version = v: nat | v <= 3
  const VERSION_UNKNOWN: Version := 0
  const VERSION_0_9: Version := 1
  const VERSION_1_0: Version := 2
  const VERSION_1_1: Version := 3

  function VersionName(v: Version): (s: string)
    ensures '\n' !in s && ' ' !in s && '\0' !in s && s != ""
  {
    if v == VERSION_0_9 then "HTTP/0.9"
    else if v == VERSION_1_0 then "HTTP/1.0"
    else if v == VERSION_1_1 then "HTTP/1.1"
    else "HTTP/unknown"
  }

  function GetVersion(s: string): Version {
    if EqualsNoCase(s, "HTTP/1.1") then VERSION_1_1
    else if EqualsNoCase(s, "HTTP/1.0") then VERSION_1_0
    else if EqualsNoCase(s, "HTTP/0.9") then VERSION_0_9
    else VERSION_UNKNOWN
  }

  /** Reading a printed method or version name gives it back, known or not. */
  lemma MethodRoundTrip(m: Method)
    ensures GetMethod(MethodName(m)) == m
  {
    var s := MethodName(m);
    assert CStr(s) == s;
    var l := LowerCase(s);
    match m
    case METHOD_UNKNOWN => assert l[0] == 'u';
    case METHOD_OPTIONS =>
    case METHOD_GET => assert l[0] == 'g';
    case METHOD_HEAD => assert l[0] == 'h';
    case METHOD_POST => assert l[1] == 'o' && l[0] == 'p';
    case METHOD_PUT => assert l[1] == 'u' && l[0] == 'p';
    case METHOD_DELETE => assert l[0] == 'd';
    case METHOD_TRACE => assert l[0] == 't';
    case METHOD_CONNECT => assert l[0] == 'c';
  }

  lemma VersionRoundTrip(v: Version)
    ensures GetVersion(VersionName(v)) == v
  {
    var s := VersionName(v);
    assert CStr(s) == s;
    var l := LowerCase(s);
    if v == VERSION_UNKNOWN {
      assert l[5] == 'u';
    } else {
      assert l[5] == s[5] && l[7] == s[7];
    }
  }

  const HEADER_ACCEPT_ENCODING := "Accept-Encoding"
  const HEADER_CONTENT_ENCODING := "Content-Encoding"
  const HEADER_CONTENT_LENGTH := "Content-Length"
  const HEADER_CONTENT_TYPE := "Content-Type"
  const HEADER_TRANSFER_ENCODING := "Transfer-Encoding"
}
