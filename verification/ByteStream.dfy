/** Byte streams as the HTTP code sees them: bytes are read from the front, one
    CRLF-terminated line or one run of bytes at a time, and appended at the back. */
module ByteStream {

  const CRLF: string := "\r\n"

  /** A CRLF ends just before position `i`. */
  predicate EndsLine(s: string, i: nat)
    requires 2 <= i <= |s|
  {
    s[i - 2] == '\r' && s[i - 1] == '\n'
  }

  /** The position just after the first CRLF of `s`, or 0 when there is none. */
  function LineEnd(s: string): (n: nat)
    ensures n == 0 || 2 <= n <= |s|
    ensures n == 0 ==> forall i :: 2 <= i <= |s| ==> !EndsLine(s, i)
    ensures n != 0 ==> EndsLine(s, n) && forall i :: 2 <= i < n ==> !EndsLine(s, i)
  {
    LineEndFrom(s, 2)
  }

  function LineEndFrom(s: string, from: nat): (n: nat)
    requires 2 <= from
    requires forall i :: 2 <= i < from && i <= |s| ==> !EndsLine(s, i)
    ensures n == 0 || 2 <= n <= |s|
    ensures n == 0 ==> forall i :: 2 <= i <= |s| ==> !EndsLine(s, i)
    ensures n != 0 ==> EndsLine(s, n) && forall i :: 2 <= i < n ==> !EndsLine(s, i)
    decreases |s| - from
  {
    if from > |s| then 0
    else if EndsLine(s, from) then from
    else LineEndFrom(s, from + 1)
  }

  /** The first line end is a local property: it does not depend on what follows it. */
  lemma LineEndAppend(s: string, t: string)
    ensures LineEnd(s) != 0 ==> LineEnd(s + t) == LineEnd(s)
    ensures LineEnd(s) == 0 && LineEnd(s + t) != 0 ==> LineEnd(s + t) > |s|
  {
    assert forall i :: 2 <= i <= |s| ==> EndsLine(s + t, i) == EndsLine(s, i);
  }

  lemma LineEndTake(s: string, k: nat)
    requires k <= |s|
    ensures 0 < LineEnd(s) <= k ==> LineEnd(s[..k]) == LineEnd(s)
    ensures k < LineEnd(s) ==> LineEnd(s[..k]) == 0
  {
    assert s == s[..k] + s[k..];
    LineEndAppend(s[..k], s[k..]);
    if 0 < LineEnd(s) <= k {
      assert EndsLine(s[..k], LineEnd(s));
    }
  }

  lemma LineEndOfLine(line: string, t: string)
    requires '\n' !in line
    ensures LineEnd(line + CRLF + t) == |line| + 2
    ensures (line + CRLF + t)[..|line|] == line
    ensures (line + CRLF + t)[|line| + 2..] == t
  {
    var s := line + CRLF + t;
    assert EndsLine(s, |line| + 2);
    assert forall i :: 2 <= i < |line| + 2 ==> !EndsLine(s, i);
  }

  /** The part of `io::MemoryStream` that the HTTP code uses. */
  class MemoryStream {
    var data: string

    constructor (bytes: string)
      ensures data == bytes
    {
      data := bytes;
    }

    method ReadCRLFLine() returns (found: bool, line: string)
      modifies this
      ensures found == (LineEnd(old(data)) != 0)
      ensures found ==> line == old(data)[..LineEnd(old(data))] && data == old(data)[LineEnd(old(data))..]
      ensures !found ==> data == old(data)
    {
      var last := '\0';
      var pos := 0;
      while pos < |data|
        invariant 0 <= pos <= |data|
        invariant last == if pos == 0 then '\0' else data[pos - 1]
        invariant forall i :: 2 <= i <= pos ==> !EndsLine(data, i)
        invariant data == old(data)
      {
        var p := data[pos];
        pos := pos + 1;
        if p == '\n' && last == '\r' {
          assert EndsLine(data, pos);
          found, line := true, data[..pos];
          data := data[pos..];
          return;
        }
        last := p;
      }
      found, line := false, "";
    }

    method Skip(len: nat)
      requires len <= |data|
      modifies this
      ensures data == old(data)[len..]
    {
      data := data[len..];
    }

    method Write(bytes: string)
      modifies this
      ensures data == old(data) + bytes
    {
      data := data + bytes;
    }

    /** Moves the first `len` bytes of `other` to the end of this stream. */
    method AppendStream(other: MemoryStream, len: nat)
      requires other != this && len <= |other.data|
      modifies this, other
      ensures data == old(data) + old(other.data)[..len]
      ensures other.data == old(other.data)[len..]
    {
      data := data + other.data[..len];
      other.Skip(len);
    }

    method Clear()
      modifies this
      ensures data == ""
    {
      data := "";
    }
  }
}
