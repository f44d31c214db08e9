/** Operations on UTF-8 strings: counting, cutting and comparing characters. */
module Utf8Text {
  import opened Utf8

  // ------------------------------------------------------------------ valid characters

  /** The greatest value from which `left` more groups of six bits give a code point. */
  function Room(left: nat): bv32 {
    match left
    case 0 => 0x7FFF_FFFF
    case 1 => 0x1FF_FFFF
    case 2 => 0x7_FFFF
    case 3 => 0x1FFF
    case 4 => 0x7F
    case _ => 0x1
  }

  lemma PushFits(bits: bv32, more: bv32, left: nat)
    requires 0 < left <= 5 && bits <= Room(left)
    ensures Push(bits, more) <= Room(left - 1)
  {
  }

  lemma LeadFits(p: bv8)
    ensures var (n, bits) := CharLen(p); 0 <= n <= 6 && (n > 0 ==> bits as bv32 <= Room(n - 1))
  {
  }

  ghost predicate Whole(s: seq<bv8>, i: nat, left: nat) {
    forall k :: i <= k < i + left ==> Continues(s, k)
  }

  /** A character is undecodable exactly when a continuation byte is missing. */
  lemma {:induction false} RestIsValid(s: seq<bv8>, i: nat, left: nat, bits: bv32)
    requires i <= |s| && left <= 5 && bits <= Room(left)
    ensures var r := DecodeRest(s, i, left, bits);
            && (Whole(s, i, left) <==> r.codepoint != WEOF)
            && (Whole(s, i, left) ==> r.codepoint <= MAX_CODE_POINT && r.next == i + left)
    decreases left
  {
    hide Push, Continues;
    if left > 0 {
      if Continues(s, i) {
        assert i < |s| by {
          ContinuesInside(s, i);
        }
        PushFits(bits, s[i] as bv32, left);
        RestIsValid(s, i + 1, left - 1, Push(bits, s[i] as bv32));
      }
    }
  }

  lemma ContinuesInside(s: seq<bv8>, i: nat)
    requires Continues(s, i)
    ensures i < |s|
  {
  }

  /** What decoding says about one position. */
  lemma ValidAt(s: seq<bv8>, i: nat)
    requires i < |s|
    ensures var n, r := CharLen(s[i]).0, DecodeAt(s, i);
            && (r.codepoint != WEOF <==> n > 0 && Whole(s, i + 1, n - 1))
            && (r.codepoint != WEOF ==> r.codepoint <= MAX_CODE_POINT && r.next == i + n)
  {
    LeadFits(s[i]);
    var (n, bits) := CharLen(s[i]);
    hide CharLen, Room;
    if n > 0 {
      RestIsValid(s, i + 1, n - 1, bits as bv32);
    }
  }

  /** The first bytes of a character of `n` bytes. */
  predicate Announces(p: bv8, n: int) {
    match n
    case 1 => p <= 0x7F
    case 2 => 0xC0 <= p <= 0xDF
    case 3 => 0xE0 <= p <= 0xEF
    case 4 => 0xF0 <= p <= 0xF7
    case 5 => 0xF8 <= p <= 0xFB
    case 6 => 0xFC <= p <= 0xFD
    case _ => false
  }

  lemma FirstByteMeans(p: bv8)
    ensures var n := CharLen(p).0; if n == 0 then 0x80 <= p <= 0xBF || p >= 0xFE else Announces(p, n)
    ensures forall n: int :: Announces(p, n) ==> n == CharLen(p).0
  {
  }

  lemma ContinuesMeans(s: seq<bv8>, i: nat)
    ensures Continues(s, i) <==> i < |s| && 0x80 <= s[i] <= 0xBF
  {
  }

  /** Exactly the byte strings that can be decoded: a first byte and as many continuation bytes as it announces. */
  lemma DecodesExactly(s: seq<bv8>, i: nat)
    requires i < |s|
    ensures DecodeAt(s, i).codepoint != WEOF <==>
            exists n: int :: Announces(s[i], n) && i + n <= |s| && forall k :: i < k < i + n ==> 0x80 <= s[k] <= 0xBF
  {
    var n := CharLen(s[i]).0;
    ValidAt(s, i);
    FirstByteMeans(s[i]);
    hide CharLen, DecodeAt, Announces, Continues;
    forall k: nat ensures Continues(s, k) <==> k < |s| && 0x80 <= s[k] <= 0xBF {
      ContinuesMeans(s, k);
    }
    if n > 1 && Whole(s, i + 1, n - 1) {
      assert Continues(s, i + n - 1);
    }
    if n > 0 && DecodeAt(s, i).codepoint != WEOF {
      assert Announces(s[i], n);
    }
  }

  // ------------------------------------------------------------------ going on after an error

  /** Where a continuation byte is missing, decoding goes on at the byte that stands in its place. */
  lemma {:induction false} GapEnds(s: seq<bv8>, i: nat, left: nat, bits: bv32, m: nat)
    requires i + m <= |s| && m < left && Whole(s, i, m) && !Continues(s, i + m)
    ensures DecodeRest(s, i, left, bits) == Decoded(WEOF, i + m)
    decreases m
  {
    hide Push, Continues;
    if m > 0 {
      assert Continues(s, i + 0);
      GapEnds(s, i + 1, left - 1, Push(bits, s[i] as bv32), m - 1);
    }
  }

  lemma FirstByteContinuesNothing(cs: seq<bv32>)
    requires Encodable(cs)
    ensures !Continues(EncodeAll(cs), 0)
  {
    if cs != [] {
      EncodeNonempty(cs[0]);
      EncodedGroups(cs[0]);
      LeadByteContinuesNothing(Encode(cs[0])[0]);
      hide Encode;
      assert EncodeAll(cs)[0] == Encode(cs[0])[0];
    }
  }

  lemma LeadByteContinuesNothing(p: bv8)
    ensures CharLen(p).0 > 0 ==> p & 0xC0 != 0x80
  {
  }

  lemma ContinuationContinues(c: bv32)
    ensures Continuation(c) & 0xC0 == 0x80
  {
  }

  /** A first byte that announces the length, and continuation bytes. */
  ghost predicate IsCharacter(e: seq<bv8>) {
    e != [] && CharLen(e[0]).0 == |e| && forall j :: 1 <= j < |e| ==> Continues(e, j)
  }

  lemma EncodedIsCharacter(c: bv32)
    requires c <= MAX_CODE_POINT
    ensures IsCharacter(Encode(c))
  {
    EncodedGroups(c);
    hide Encode, Groups, CharLen, Continuation, FirstBits;
    forall j | 1 <= j < |Encode(c)| ensures Continues(Encode(c), j) {
      assert Encode(c)[(j - 1) + 1] == Continuation(Groups(c)[j - 1]);
      ContinuationContinues(Groups(c)[j - 1]);
    }
  }

  lemma TruncatedAt(before: seq<bv8>, e: seq<bv8>, k: nat, more: seq<bv8>)
    requires IsCharacter(e) && 0 < k < |e| && !Continues(more, 0)
    ensures DecodeAt(before + e[..k] + more, |before|) == Decoded(WEOF, |before| + k)
  {
    hide CharLen;
    var s, i := before + e[..k] + more, |before|;
    assert s[i] == e[0] && forall j :: 1 <= j < k ==> s[i + j] == e[j];
    forall j | i + 1 <= j < i + 1 + (k - 1) ensures Continues(s, j) {
      assert s[i + (j - i)] == e[j - i] && Continues(e, j - i);
    }
    assert more != [] ==> s[i + k] == more[0];
    var (n, bits) := CharLen(s[i]);
    GapEnds(s, i + 1, n - 1, bits as bv32, k - 1);
  }

  /** A character that is cut short costs only itself: what follows it is decoded. */
  lemma TruncatedIsSkipped(before: seq<bv8>, c: bv32, k: nat, cs: seq<bv32>)
    requires c <= MAX_CODE_POINT && 0 < k < |Encode(c)| && Encodable(cs)
    ensures CodePoints(before + Encode(c)[..k] + EncodeAll(cs), |before|) == [WEOF] + cs
  {
    EncodedIsCharacter(c);
    TruncatedThen(before, Encode(c), k, cs);
  }

  lemma TruncatedThen(before: seq<bv8>, e: seq<bv8>, k: nat, cs: seq<bv32>)
    requires IsCharacter(e) && 0 < k < |e| && Encodable(cs)
    ensures CodePoints(before + e[..k] + EncodeAll(cs), |before|) == [WEOF] + cs
  {
    FirstByteContinuesNothing(cs);
    hide EncodeAll, CodePoints, DecodeAt, IsCharacter, Continues, Encodable;
    var head, i := before + e[..k], |before|;
    TruncatedAt(before, e, k, EncodeAll(cs));
    RoundTrip(head, cs);
    SkippedFront(head + EncodeAll(cs), i, |head|, cs);
  }

  lemma SkippedFront(s: seq<bv8>, i: nat, next: nat, cs: seq<bv32>)
    requires i < |s| && next <= |s| && DecodeAt(s, i) == Decoded(WEOF, next) && CodePoints(s, next) == cs
    ensures CodePoints(s, i) == [WEOF] + cs
  {
    hide DecodeAt;
  }

  /** So does a byte with which no character begins. */
  lemma StrayByteIsSkipped(before: seq<bv8>, b: bv8, cs: seq<bv32>)
    requires CharLen(b).0 == 0 && Encodable(cs)
    ensures CodePoints(before + [b] + EncodeAll(cs), |before|) == [WEOF] + cs
  {
    hide CharLen, EncodeAll, CodePoints;
    var s := before + [b] + EncodeAll(cs);
    assert s[|before|] == b;
    RoundTrip(before + [b], cs);
    SkippedFront(s, |before|, |before| + 1, cs);
  }

  // ------------------------------------------------------------------ decoding and encoding strings

  method Utf8ToCodePoint(s: seq<bv8>, start: nat) returns (codepoint: bv32, next: nat)
    requires start < |s|
    ensures Decoded(codepoint, next) == DecodeAt(s, start) && start < next <= |s|
  {
    hide Push, CharLen;
    var (n, bits) := CharLen(s[start]);
    if n == 0 {
      return WEOF, start + 1;
    }
    var left := n - 1;
    next, codepoint := start + 1, bits as bv32;
    while left > 0
      invariant start < next <= |s| && DecodeRest(s, next, left, codepoint) == DecodeAt(s, start)
    {
      if !Continues(s, next) {
        return WEOF, next;
      }
      codepoint := Push(codepoint, s[next] as bv32);
      next, left := next + 1, left - 1;
    }
  }

  function Valid(cs: seq<bv32>): seq<bv32> {
    if cs == [] then [] else (if cs[0] == WEOF then [] else [cs[0]]) + Valid(cs[1..])
  }

  /** Decodes a string, leaving out what cannot be decoded. */
  method Utf8ToWcharWithLen(s: seq<bv8>) returns (ws: seq<bv32>)
    ensures ws == Valid(CodePoints(s, 0))
  {
    hide DecodeAt;
    ws := [];
    var p := 0;
    while p < |s|
      invariant p <= |s| && ws + Valid(CodePoints(s, p)) == Valid(CodePoints(s, 0))
      decreases |s| - p
    {
      var codepoint, next := Utf8ToCodePoint(s, p);
      assert CodePoints(s, p) == [codepoint] + CodePoints(s, next);
      assert ([codepoint] + CodePoints(s, next))[1..] == CodePoints(s, next);
      if codepoint != WEOF {
        ws := ws + [codepoint];
      }
      p := next;
    }
  }

  /** Encodes characters up to a NUL, or up to `len` of them. */
  method WcharToUtf8StringSetWithLen(ws: seq<bv32>, len: nat, start: seq<bv8>) returns (result: seq<bv8>)
    ensures result == start + EncodeAll(if len < |ws| then ws[..len] else ws)
  {
    hide Encode;
    var cs := if len < |ws| then ws[..len] else ws;
    result := start;
    var i := 0;
    assert cs[0..] == cs;
    while i < |cs| && cs[i] != 0
      invariant i <= |cs| && result + EncodeAll(cs[i..]) == start + EncodeAll(cs)
      decreases |cs| - i
    {
      assert cs[i..][0] == cs[i] && cs[i..][1..] == cs[i + 1..];
      result := result + Encode(cs[i]);
      i := i + 1;
    }
  }

  /** Every string of characters comes back from its encoding. */
  lemma {:induction false} AllValid(cs: seq<bv32>)
    requires Encodable(cs)
    ensures Valid(cs) == cs
  {
    if cs != [] {
      assert cs == [cs[0]] + cs[1..];
      assert 0 < cs[0] <= MAX_CODE_POINT;
      AllValid(cs[1..]);
    }
  }

  lemma {:induction false} ValidTogether(cs: seq<bv32>, ds: seq<bv32>)
    ensures Valid(cs + ds) == Valid(cs) + Valid(ds)
  {
    if cs == [] {
      assert cs + ds == ds;
    } else {
      assert (cs + ds)[1..] == cs[1..] + ds;
      ValidTogether(cs[1..], ds);
    }
  }

  /** Of a character that is cut short only what stands around it comes back. */
  lemma TruncatedIsLeftOut(cs: seq<bv32>, c: bv32, k: nat, ds: seq<bv32>)
    requires Encodable(cs) && c <= MAX_CODE_POINT && 0 < k < |Encode(c)| && Encodable(ds)
    ensures Valid(CodePoints(EncodeAll(cs) + Encode(c)[..k] + EncodeAll(ds), 0)) == cs + ds
  {
    hide Encode, Valid, CodePoints, EncodeAll;
    TruncatedIsSkipped(EncodeAll(cs), c, k, ds);
    LeftOut(cs, Encode(c)[..k], ds);
  }

  /** So of a byte with which no character begins. */
  lemma StrayByteIsLeftOut(cs: seq<bv32>, b: bv8, ds: seq<bv32>)
    requires Encodable(cs) && (0x80 <= b <= 0xBF || b >= 0xFE) && Encodable(ds)
    ensures Valid(CodePoints(EncodeAll(cs) + [b] + EncodeAll(ds), 0)) == cs + ds
  {
    FirstByteMeans(b);
    hide CharLen, Valid, CodePoints, EncodeAll;
    StrayByteIsSkipped(EncodeAll(cs), b, ds);
    LeftOut(cs, [b], ds);
  }

  lemma LeftOut(cs: seq<bv32>, bad: seq<bv8>, ds: seq<bv32>)
    requires Encodable(cs) && Encodable(ds)
    requires CodePoints(EncodeAll(cs) + bad + EncodeAll(ds), |EncodeAll(cs)|) == [WEOF] + ds
    ensures Valid(CodePoints(EncodeAll(cs) + bad + EncodeAll(ds), 0)) == cs + ds
  {
    hide Valid, CodePoints, EncodeAll;
    var s := EncodeAll(cs) + bad + EncodeAll(ds);
    assert s == EncodeAll(cs) + (bad + EncodeAll(ds));
    SplitFront(cs, bad + EncodeAll(ds), s);
    ValidTogether(cs, [WEOF] + ds);
    ValidTogether([WEOF], ds);
    AllValid(cs);
    AllValid(ds);
    NoneValid();
  }

  lemma NoneValid()
    ensures Valid([WEOF]) == []
  {
  }

  lemma {:induction false} DecodedFront(before: seq<bv8>, cs: seq<bv32>, more: seq<bv8>)
    requires Encodable(cs)
    ensures var at := |before| + |EncodeAll(cs)|;
            CodePoints(before + EncodeAll(cs) + more, |before|) == cs + CodePoints(before + EncodeAll(cs) + more, at)
    decreases |cs|
  {
    hide Encode, DecodeAt;
    var s := before + EncodeAll(cs) + more;
    if cs != [] {
      var c, rest := cs[0], cs[1..];
      assert 0 < c <= MAX_CODE_POINT;
      EncodeNonempty(c);
      assert s == before + Encode(c) + EncodeAll(rest) + more;
      assert s == before + Encode(c) + (EncodeAll(rest) + more);
      DecodeEncoded(s, |before|, c);
      DecodedFront(before + Encode(c), rest, more);
      assert cs == [c] + rest;
    }
  }

  /** A code point that is out of range is left out of an encoding, and a NUL ends it. */
  lemma {:induction false} EncodesUpToNul(cs: seq<bv32>, c: bv32, ds: seq<bv32>)
    requires Encodable(cs) && (c == 0 || c > MAX_CODE_POINT)
    ensures EncodeAll(cs + [c] + ds) == EncodeAll(if c == 0 then cs else cs + ds)
  {
    hide Encode;
    if cs == [] {
      assert cs + [c] + ds == [c] + ds && ([c] + ds)[1..] == ds && cs + ds == ds;
      NothingEncoded(c);
    } else {
      var all := cs + [c] + ds;
      assert 0 < cs[0];
      assert all[0] == cs[0] && all[1..] == cs[1..] + [c] + ds && (cs + ds)[1..] == cs[1..] + ds;
      EncodesUpToNul(cs[1..], c, ds);
    }
  }

  lemma NothingEncoded(c: bv32)
    ensures c > MAX_CODE_POINT ==> Encode(c) == []
  {
  }

  method EncodeThenDecode(cs: seq<bv32>) returns (back: seq<bv32>)
    requires Encodable(cs)
    ensures back == cs
  {
    var bytes := WcharToUtf8StringSetWithLen(cs, |cs|, []);
    assert bytes == [] + EncodeAll(cs);
    RoundTrip([], cs);
    AllValid(cs);
    back := Utf8ToWcharWithLen(bytes);
  }

  // ------------------------------------------------------------------ counting

  function BeforeNul(s: seq<bv8>): seq<bv8> {
    if s == [] || s[0] == 0 then [] else [s[0]] + BeforeNul(s[1..])
  }

  /** The number of characters, or 0 if one of them is undecodable. */
  ghost function CharCount(cs: seq<bv32>): nat {
    if WEOF in cs then 0 else |cs|
  }

  /** Counts the characters of a string that ends at its first NUL or with its last byte. */
  method Utf8Strlen(s: seq<bv8>) returns (len: nat)
    ensures len == CharCount(CodePoints(BeforeNul(s), 0))
  {
    hide CharLen, DecodeAt;
    var t := BeforeNul(s);
    len := 0;
    var p := 0;
    while p < |t|
      invariant p <= |t| && (WEOF in CodePoints(t, 0) <==> WEOF in CodePoints(t, p))
      invariant |CodePoints(t, 0)| == len + |CodePoints(t, p)|
      decreases |t| - p
    {
      ValidAt(t, p);
      var left, first := CharLen(t[p]).0, p;
      if left == 0 {
        return 0;
      }
      left, p := left - 1, p + 1;
      while left > 0 && p < |t|
        invariant first < p <= |t| && p + left == first + CharLen(t[first]).0
        invariant forall k :: first < k < p ==> Continues(t, k)
      {
        if t[p] & 0xC0 != 0x80 {
          assert !Continues(t, p);
          return 0;
        }
        p, left := p + 1, left - 1;
      }
      if left > 0 {
        assert !Continues(t, p);
        return 0;
      }
      len := len + 1;
    }
  }

  /** The length of an encoded string is that of what it encodes. */
  method EncodedLength(cs: seq<bv32>) returns (len: nat)
    requires Encodable(cs)
    ensures len == |cs|
  {
    NoNulInside(cs);
    RoundTrip([], cs);
    assert [] + EncodeAll(cs) == EncodeAll(cs);
    len := Utf8Strlen(EncodeAll(cs));
  }

  lemma EncodeHasNoNul(c: bv32)
    requires 0 < c <= MAX_CODE_POINT
    ensures 0 !in Encode(c)
  {
    NoNulByte(c);
    hide Continuation;
  }

  lemma NoNulByte(c: bv32)
    ensures forall x :: Continuation(x) != 0
    ensures 0xC0 | (((c >> 6) & 0x1F) as bv8) != 0 && 0xE0 | (((c >> 12) & 0x0F) as bv8) != 0
    ensures 0xF0 | (((c >> 18) & 0x07) as bv8) != 0 && 0xF8 | (((c >> 24) & 0x03) as bv8) != 0
    ensures 0xFC | (((c >> 30) & 0x01) as bv8) != 0
    ensures 0 < c <= 0x7F ==> (c & 0x7F) as bv8 != 0
  {
  }

  lemma {:induction false} NoNulInside(cs: seq<bv32>)
    requires Encodable(cs)
    ensures 0 !in EncodeAll(cs) && BeforeNul(EncodeAll(cs)) == EncodeAll(cs)
  {
    hide Encode;
    if cs != [] {
      NoNulInside(cs[1..]);
      assert 0 < cs[0];
      EncodeHasNoNul(cs[0]);
      BeforeNulOf(Encode(cs[0]), EncodeAll(cs[1..]));
    }
  }

  lemma {:induction false} BeforeNulOf(a: seq<bv8>, b: seq<bv8>)
    requires 0 !in a
    ensures BeforeNul(a + b) == a + BeforeNul(b)
  {
    if a == [] {
      assert a + b == b;
    } else {
      assert a[0] in a && (a + b)[1..] == a[1..] + b;
      BeforeNulOf(a[1..], b);
    }
  }

  /** Nothing is counted in a text with a character that is cut short, wherever that is, nor beyond a NUL. */
  lemma TruncatedCountsNothing(cs: seq<bv32>, c: bv32, k: nat, ds: seq<bv32>, rest: seq<bv8>)
    requires Encodable(cs) && 0 < c <= MAX_CODE_POINT && 0 < k < |Encode(c)| && Encodable(ds)
    ensures CharCount(CodePoints(BeforeNul(EncodeAll(cs) + Encode(c)[..k] + EncodeAll(ds) + [0] + rest), 0)) == 0
  {
    EncodeHasNoNul(c);
    NoNulInside(cs);
    NoNulInside(ds);
    hide *;
    var bad := Encode(c)[..k];
    NoNulTogether(EncodeAll(cs), Encode(c), k, EncodeAll(ds));
    TruncatedIsSkipped(EncodeAll(cs), c, k, ds);
    var s := EncodeAll(cs) + bad + EncodeAll(ds);
    GarbledCountsNothing(s, cs, bad + EncodeAll(ds), rest);
  }

  lemma GarbledCountsNothing(s: seq<bv8>, cs: seq<bv32>, more: seq<bv8>, rest: seq<bv8>)
    requires Encodable(cs) && s == EncodeAll(cs) + more && 0 !in s
    requires var left := CodePoints(s, |EncodeAll(cs)|); left != [] && left[0] == WEOF
    ensures CharCount(CodePoints(BeforeNul(s + [0] + rest), 0)) == 0
  {
    hide *;
    EndsAtNul(s, rest);
    SplitFront(cs, more, s);
    NoneCounted(cs, CodePoints(s, |EncodeAll(cs)|));
  }

  lemma NoNulTogether(a: seq<bv8>, e: seq<bv8>, k: nat, b: seq<bv8>)
    requires 0 !in a && 0 !in e && k <= |e| && 0 !in b
    ensures 0 !in a + e[..k] + b && a + e[..k] + b == a + (e[..k] + b)
  {
  }

  lemma NoneCounted(cs: seq<bv32>, rest: seq<bv32>)
    requires rest != [] && rest[0] == WEOF
    ensures CharCount(cs + rest) == 0
  {
    assert (cs + rest)[|cs|] == WEOF;
  }

  lemma SplitFront(cs: seq<bv32>, more: seq<bv8>, s: seq<bv8>)
    requires Encodable(cs) && s == EncodeAll(cs) + more
    ensures |EncodeAll(cs)| <= |s| && CodePoints(s, 0) == cs + CodePoints(s, |EncodeAll(cs)|)
  {
    hide CodePoints, EncodeAll;
    assert [] + EncodeAll(cs) + more == s;
    DecodedFront([], cs, more);
  }

  /** What is encoded in front of a NUL is counted whatever stands behind it. */
  lemma CountedUpToNul(cs: seq<bv32>, rest: seq<bv8>)
    requires Encodable(cs)
    ensures CharCount(CodePoints(BeforeNul(EncodeAll(cs) + [0] + rest), 0)) == |cs|
  {
    NoNulInside(cs);
    hide CodePoints, EncodeAll, BeforeNul;
    EndsAtNul(EncodeAll(cs), rest);
    RoundTrip([], cs);
    assert [] + EncodeAll(cs) == EncodeAll(cs);
  }

  lemma EndsAtNul(s: seq<bv8>, rest: seq<bv8>)
    requires 0 !in s
    ensures BeforeNul(s + [0] + rest) == s
  {
    assert s + [0] + rest == s + ([0] + rest);
    BeforeNulOf(s, [0] + rest);
  }

  // ------------------------------------------------------------------ cutting

  /** Where the first `n` characters end, by their first bytes alone; past the end if the last of
      them is cut short, and nowhere if a first byte is invalid. */
  function PrefixEnd(s: seq<bv8>, i: nat, n: nat): int
    decreases n
  {
    if i >= |s| || n == 0 then i
    else if CharLen(s[i]).0 == 0 then -1
    else PrefixEnd(s, i + CharLen(s[i]).0, n - 1)
  }

  method Utf8StrPrefix(s: seq<bv8>, size: nat) returns (prefix: seq<bv8>)
    ensures var e := PrefixEnd(s, 0, size); prefix == if 0 <= e <= |s| then s[..e] else []
  {
    hide CharLen;
    var p, num := 0, 0;
    while p < |s| && num < size
      invariant num <= size && PrefixEnd(s, p, size - num) == PrefixEnd(s, 0, size)
    {
      var n := CharLen(s[p]).0;
      if n == 0 {
        return [];
      }
      p, num := p + n, num + 1;
    }
    return if p > |s| then [] else s[..p];
  }

  /** From one position in a text to the next, as far as the first byte says. */
  ghost predicate Hop(s: seq<bv8>, p: nat, q: nat) {
    p < |s| && Announces(s[p], q - p)
  }

  ghost predicate Hops(s: seq<bv8>, ps: seq<nat>) {
    ps != [] && forall j :: 0 <= j < |ps| - 1 ==> Hop(s, ps[j], ps[j + 1])
  }

  /** Where no further character begins: at the end, or past it, or at a byte with which none does. */
  ghost predicate NoMore(s: seq<bv8>, p: nat) {
    p < |s| ==> 0x80 <= s[p] <= 0xBF || s[p] >= 0xFE
  }

  /** In any text the first `n` characters end where the first bytes say; a text with fewer is taken whole,
      unless it goes on with a byte that begins no character. */
  lemma {:induction false} PrefixMeans(s: seq<bv8>, ps: seq<nat>, n: nat)
    requires Hops(s, ps)
    ensures n < |ps| ==> PrefixEnd(s, ps[0], n) == ps[n]
    ensures var last := ps[|ps| - 1];
            n >= |ps| && NoMore(s, last) ==> PrefixEnd(s, ps[0], n) == if last < |s| then -1 else last
    decreases |ps|
  {
    hide CharLen, Announces;
    if ps[0] < |s| {
      FirstByteMeans(s[ps[0]]);
    }
    if |ps| > 1 && n > 0 {
      assert Hop(s, ps[0], ps[0 + 1]);
      HopMeans(s, ps[0], ps[1], n);
      var rest := ps[1..];
      assert forall j :: 0 <= j < |rest| ==> rest[j] == ps[j + 1];
      PrefixMeans(s, rest, n - 1);
    }
  }

  lemma HopMeans(s: seq<bv8>, p: nat, q: nat, n: nat)
    requires Hop(s, p, q) && n > 0
    ensures PrefixEnd(s, p, n) == PrefixEnd(s, q, n - 1)
  {
    FirstByteMeans(s[p]);
    hide CharLen, Announces;
  }

  /** A prefix of an encoded string encodes a prefix. */
  lemma {:induction false} PrefixOfEncoded(before: seq<bv8>, cs: seq<bv32>, n: nat)
    requires Encodable(cs)
    ensures var taken := if n < |cs| then cs[..n] else cs;
            PrefixEnd(before + EncodeAll(cs), |before|, n) == |before| + |EncodeAll(taken)|
            && EncodeAll(taken) <= EncodeAll(cs)
    decreases |cs|
  {
    hide Encode, CharLen;
    var s := before + EncodeAll(cs);
    if cs != [] && n > 0 {
      var c, rest := cs[0], cs[1..];
      assert 0 < c <= MAX_CODE_POINT;
      EncodeNonempty(c);
      EncodedGroups(c);
      assert s == before + Encode(c) + EncodeAll(rest);
      assert s[|before|] == Encode(c)[0];
      PrefixOfEncoded(before + Encode(c), rest, n - 1);
      var taken := if n < |cs| then cs[..n] else cs;
      assert taken[0] == c && taken[1..] == if n - 1 < |rest| then rest[..n - 1] else rest;
    }
  }

  method EncodedPrefix(cs: seq<bv32>, n: nat) returns (prefix: seq<bv8>)
    requires Encodable(cs)
    ensures prefix == EncodeAll(if n < |cs| then cs[..n] else cs)
  {
    PrefixOfEncoded([], cs, n);
    assert [] + EncodeAll(cs) == EncodeAll(cs);
    prefix := Utf8StrPrefix(EncodeAll(cs), n);
  }

  // ------------------------------------------------------------------ comparing

  predicate Below(a: bv32, b: bv32) {
    a < b
  }

  /** Lexicographic order of code points and of bytes. */
  function CompareCodes(a: seq<bv32>, b: seq<bv32>): int {
    if a == [] then (if b == [] then 0 else -1)
    else if b == [] then 1
    else if Below(a[0], b[0]) then -1 else if Below(b[0], a[0]) then 1
    else CompareCodes(a[1..], b[1..])
  }

  function CompareBytes(a: seq<bv8>, b: seq<bv8>): int {
    if a == [] then (if b == [] then 0 else -1)
    else if b == [] then 1
    else if a[0] < b[0] then -1 else if a[0] > b[0] then 1
    else CompareBytes(a[1..], b[1..])
  }

  /** Compares two strings by their code points, of which undecodable ones are the greatest. */
  method Utf8Compare(s1: seq<bv8>, s2: seq<bv8>) returns (r: int)
    ensures r == CompareCodes(CodePoints(s1, 0), CodePoints(s2, 0))
  {
    hide DecodeAt, Below;
    var p1, p2 := 0, 0;
    while p1 < |s1| && p2 < |s2|
      invariant p1 <= |s1| && p2 <= |s2|
      invariant CompareCodes(CodePoints(s1, p1), CodePoints(s2, p2)) == CompareCodes(CodePoints(s1, 0), CodePoints(s2, 0))
      decreases |s1| - p1
    {
      var c1, e1 := Utf8ToCodePoint(s1, p1);
      var c2, e2 := Utf8ToCodePoint(s2, p2);
      assert CodePoints(s1, p1)[1..] == CodePoints(s1, e1) && CodePoints(s2, p2)[1..] == CodePoints(s2, e2);
      if Below(c1, c2) {
        return -1;
      }
      if Below(c2, c1) {
        return 1;
      }
      p1, p2 := e1, e2;
    }
    return if p1 == |s1| then (if p2 == |s2| then 0 else -1) else 1;
  }

  /** Where two encodings differ first, the lesser code point has the lesser byte. */
  ghost predicate LessAt(a: seq<bv8>, b: seq<bv8>, k: nat) {
    k < |a| && k < |b| && a[k] < b[k] && forall j :: 0 <= j < k ==> a[j] == b[j]
  }

  lemma {:induction false} LessAtCompares(a: seq<bv8>, b: seq<bv8>, k: nat)
    requires LessAt(a, b, k)
    ensures CompareBytes(a, b) == -1 && CompareBytes(b, a) == 1
    decreases k
  {
    if k > 0 {
      assert a[0] == b[0];
      assert forall j :: 0 <= j < k - 1 ==> a[1..][j] == a[j + 1] && b[1..][j] == b[j + 1];
      LessAtCompares(a[1..], b[1..], k - 1);
    }
  }

  lemma {:induction false} EqualPrefixCompares(a: seq<bv8>, x: seq<bv8>, y: seq<bv8>)
    ensures CompareBytes(a + x, a + y) == CompareBytes(x, y)
  {
    if a == [] {
      assert a + x == x && a + y == y;
    } else {
      assert (a + x)[1..] == a[1..] + x && (a + y)[1..] == a[1..] + y;
      EqualPrefixCompares(a[1..], x, y);
    }
  }

  // ------------------------------------------------------------------ byte order is code point order

  /** The four bytes of a code point, the highest first. */
  function Byte3(c: bv32): bv8 { ((c >> 24) & 0xFF) as bv8 }
  function Byte2(c: bv32): bv8 { ((c >> 16) & 0xFF) as bv8 }
  function Byte1(c: bv32): bv8 { ((c >> 8) & 0xFF) as bv8 }
  function Byte0(c: bv32): bv8 { (c & 0xFF) as bv8 }

  lemma ByByte3(c: bv32, d: bv32)
    requires Byte3(c) < Byte3(d)
    ensures Below(c, d)
  {
  }

  lemma ByByte2(c: bv32, d: bv32)
    requires Byte3(c) == Byte3(d) && Byte2(c) < Byte2(d)
    ensures Below(c, d)
  {
  }

  lemma ByByte1(c: bv32, d: bv32)
    requires Byte3(c) == Byte3(d) && Byte2(c) == Byte2(d) && Byte1(c) < Byte1(d)
    ensures Below(c, d)
  {
  }

  lemma ByByte0(c: bv32, d: bv32)
    requires Byte3(c) == Byte3(d) && Byte2(c) == Byte2(d) && Byte1(c) == Byte1(d)
    ensures (Byte0(c) < Byte0(d) ==> Below(c, d)) && (Byte0(c) == Byte0(d) ==> c == d)
  {
  }

  /** Order is decided by the first byte that differs. */
  lemma Trichotomy(c: bv32, d: bv32)
    ensures Below(c, d) || Below(d, c) || c == d
  {
    hide Below, Byte0, Byte1, Byte2, Byte3;
    if Byte3(c) < Byte3(d) {
      ByByte3(c, d);
    } else if Byte3(d) < Byte3(c) {
      ByByte3(d, c);
    } else if Byte2(c) < Byte2(d) {
      ByByte2(c, d);
    } else if Byte2(d) < Byte2(c) {
      ByByte2(d, c);
    } else if Byte1(c) < Byte1(d) {
      ByByte1(c, d);
    } else if Byte1(d) < Byte1(c) {
      ByByte1(d, c);
    } else {
      ByByte0(c, d);
      ByByte0(d, c);
    }
  }

  lemma BelowOrEqual(c: bv32, d: bv32)
    ensures Below(c, d) || Below(d, c) || c == d
    ensures !(Below(c, d) && Below(d, c)) && !Below(c, c)
  {
    assert !(Below(c, d) && Below(d, c)) && !Below(c, c);
    hide Below;
    Trichotomy(c, d);
  }

  lemma DroppedIsMonotone(a: bv32, b: bv32)
    requires Below(Dropped(a), Dropped(b))
    ensures Below(a, b)
  {
  }

  lemma LowestGroup(a: bv32, b: bv32)
    requires Below(a, b) && Dropped(a) == Dropped(b)
    ensures Continuation(a) < Continuation(b)
  {
    assert a & 0x3F < b & 0x3F;
  }

  lemma DroppedOrder(a: bv32, b: bv32)
    requires Below(a, b)
    ensures Dropped(a) == Dropped(b) || Below(Dropped(a), Dropped(b))
    ensures Dropped(a) == Dropped(b) ==> Continuation(a) < Continuation(b)
  {
    hide Below, Dropped, Continuation;
    BelowOrEqual(Dropped(a), Dropped(b));
    BelowOrEqual(a, b);
    if Below(Dropped(b), Dropped(a)) {
      DroppedIsMonotone(b, a);
    }
    if Dropped(a) == Dropped(b) {
      LowestGroup(a, b);
    }
  }

  lemma {:induction false} ChainEqual(a: seq<bv32>, b: seq<bv32>, i: nat, j: nat)
    requires Chain(a) && Chain(b) && j <= i < |a| == |b| && a[i] == b[i]
    ensures a[j] == b[j]
    decreases i
  {
    hide Dropped;
    if j < i {
      assert a[i - 1] == Dropped(a[i]) && b[i - 1] == Dropped(b[i]);
      ChainEqual(a, b, i - 1, j);
    }
  }

  /** Two chains differ first where the one that ends lower is lower. */
  lemma {:induction false} ChainOrder(a: seq<bv32>, b: seq<bv32>, i: nat) returns (k: nat)
    requires Chain(a) && Chain(b) && i < |a| == |b| && Below(a[i], b[i])
    ensures k <= i && Below(a[k], b[k]) && forall j :: 0 <= j < k ==> a[j] == b[j]
    ensures k > 0 ==> Continuation(a[k]) < Continuation(b[k])
    decreases i
  {
    hide Dropped, Below, Continuation;
    DroppedOrder(a[i], b[i]);
    if i == 0 {
      k := 0;
    } else {
      assert a[i - 1] == Dropped(a[i]) && b[i - 1] == Dropped(b[i]);
      if a[i - 1] == b[i - 1] {
        k := i;
        forall j | 0 <= j < k ensures a[j] == b[j] {
          ChainEqual(a, b, i - 1, j);
        }
      } else {
        k := ChainOrder(a, b, i - 1);
      }
    }
  }

  /** First bytes tell the length of an encoding. */
  lemma LeadRange(c: bv32)
    requires c <= MAX_CODE_POINT
    ensures |Encode(c)| > 0
    ensures var b, n := Encode(c)[0], |Groups(c)|;
            && (n == 0 ==> b <= 0x7F) && (n == 1 ==> 0xC0 <= b <= 0xDF) && (n == 2 ==> 0xE0 <= b <= 0xEF)
            && (n == 3 ==> 0xF0 <= b <= 0xF7) && (n == 4 ==> 0xF8 <= b <= 0xFB) && (n == 5 ==> 0xFC <= b) && n <= 5
  {
    hide Continuation, Dropped;
  }

  /** The first byte of an encoding with `n` more bytes. */
  function LeadByte(n: nat, bits: bv32): bv8 {
    match n
    case 0 => (bits & 0x7F) as bv8
    case 1 => 0xC0 | ((bits & 0x1F) as bv8)
    case 2 => 0xE0 | ((bits & 0x0F) as bv8)
    case 3 => 0xF0 | ((bits & 0x07) as bv8)
    case 4 => 0xF8 | ((bits & 0x03) as bv8)
    case _ => 0xFC | ((bits & 0x01) as bv8)
  }

  predicate FitsLead(n: nat, bits: bv32) {
    bits <= match n case 0 => 0x7F case 1 => 0x1F case 2 => 0x0F case 3 => 0x07 case 4 => 0x03 case _ => 0x01
  }

  lemma LeadIs(c: bv32)
    requires c <= MAX_CODE_POINT
    ensures |Encode(c)| > 0 && Encode(c)[0] == LeadByte(|Groups(c)|, FirstBits(c)) && FitsLead(|Groups(c)|, FirstBits(c))
  {
    hide Continuation, Dropped;
  }

  lemma LeadMonotone(n: nat, a: bv32, b: bv32)
    requires FitsLead(n, a) && FitsLead(n, b) && Below(a, b)
    ensures LeadByte(n, a) < LeadByte(n, b)
  {
  }

  lemma LeadByBits(c: bv32, d: bv32)
    requires c <= MAX_CODE_POINT && d <= MAX_CODE_POINT && |Groups(c)| == |Groups(d)|
    ensures |Encode(c)| > 0 && |Encode(d)| > 0
    ensures FirstBits(c) == FirstBits(d) ==> Encode(c)[0] == Encode(d)[0]
    ensures Below(FirstBits(c), FirstBits(d)) ==> Encode(c)[0] < Encode(d)[0]
  {
    hide Encode, Groups, FirstBits, Below, LeadByte, FitsLead;
    LeadIs(c);
    LeadIs(d);
    if Below(FirstBits(c), FirstBits(d)) {
      LeadMonotone(|Groups(c)|, FirstBits(c), FirstBits(d));
    }
  }

  lemma LengthOrder(c: bv32, d: bv32)
    requires Below(c, d) && d <= MAX_CODE_POINT
    ensures c <= MAX_CODE_POINT && |Groups(c)| <= |Groups(d)|
  {
    hide Dropped;
  }

  /** Encodings are ordered byte by byte as their code points are, and none begins another. */
  lemma EncodeOrder(c: bv32, d: bv32) returns (k: nat)
    requires Below(c, d) && d <= MAX_CODE_POINT
    ensures LessAt(Encode(c), Encode(d), k)
  {
    hide Encode, Groups, Below;
    LengthOrder(c, d);
    if |Groups(c)| < |Groups(d)| {
      LeadRange(c);
      LeadRange(d);
      return 0;
    }
    k := SameLengthOrder(c, d);
  }

  lemma SameLengthOrder(c: bv32, d: bv32) returns (k: nat)
    requires Below(c, d) && c <= MAX_CODE_POINT && d <= MAX_CODE_POINT && |Groups(c)| == |Groups(d)|
    ensures LessAt(Encode(c), Encode(d), k)
  {
    hide Encode, Groups, FirstBits, Below, Continuation, CharLen, Chain;
    EncodedGroups(c);
    EncodedGroups(d);
    LeadByBits(c, d);
    GroupsAreChain(c);
    GroupsAreChain(d);
    var a, b := [FirstBits(c)] + Groups(c), [FirstBits(d)] + Groups(d);
    k := ChainOrder(a, b, |Groups(c)|);
    AsContinued(Encode(c), Groups(c), a, k);
    AsContinued(Encode(d), Groups(d), b, k);
    assert a[0] == FirstBits(c) && b[0] == FirstBits(d);
    hide LessAt;
    ContinuedOrder(Encode(c), Encode(d), a, b, k);
  }

  /** The first difference decides, whether it is in the first byte or in a continuation. */
  lemma ContinuedOrder(x: seq<bv8>, y: seq<bv8>, a: seq<bv32>, b: seq<bv32>, k: nat)
    requires |x| == |a| == |b| == |y| && k < |a| && forall j :: 0 <= j < k ==> a[j] == b[j]
    requires forall j :: 0 < j <= k ==> x[j] == Continuation(a[j]) && y[j] == Continuation(b[j])
    requires if k == 0 then x[0] < y[0] else x[0] == y[0] && Continuation(a[k]) < Continuation(b[k])
    ensures LessAt(x, y, k)
  {
    hide Continuation;
  }

  /** Behind the first byte, encodings are made of continuations. */
  lemma AsContinued(text: seq<bv8>, groups: seq<bv32>, chain: seq<bv32>, k: nat)
    requires |chain| == |groups| + 1 == |text| && k <= |groups| && chain[1..] == groups
    requires forall j :: 0 <= j < |groups| ==> text[j + 1] == Continuation(groups[j])
    ensures forall j :: 0 < j <= k ==> text[j] == Continuation(chain[j])
  {
    forall j | 0 < j <= k ensures text[j] == Continuation(chain[j]) {
      assert text[(j - 1) + 1] == Continuation(groups[j - 1]);
    }
  }

  /** Byte order of encoded strings is the order of their code points. */
  lemma {:induction false} EncodingKeepsOrder(cs: seq<bv32>, ds: seq<bv32>)
    requires Encodable(cs) && Encodable(ds)
    ensures CompareBytes(EncodeAll(cs), EncodeAll(ds)) == CompareCodes(cs, ds)
    decreases |cs|
  {
    hide Encode, Below;
    if cs != [] {
      EncodeNonempty(cs[0]);
    }
    if ds != [] {
      EncodeNonempty(ds[0]);
    }
    if cs != [] && ds != [] {
      var c, d := cs[0], ds[0];
      var x, y := EncodeAll(cs[1..]), EncodeAll(ds[1..]);
      BelowOrEqual(c, d);
      if Below(c, d) {
        var k := EncodeOrder(c, d);
        LessAtCompares(Encode(c) + x, Encode(d) + y, k);
      } else if Below(d, c) {
        var k := EncodeOrder(d, c);
        LessAtCompares(Encode(d) + y, Encode(c) + x, k);
      } else {
        EqualPrefixCompares(Encode(c), x, y);
        EncodingKeepsOrder(cs[1..], ds[1..]);
      }
    }
  }

  /** On encoded strings, comparing is the order of the code points and also that of the bytes. */
  method CompareEncoded(cs: seq<bv32>, ds: seq<bv32>) returns (r: int)
    requires Encodable(cs) && Encodable(ds)
    ensures r == CompareCodes(cs, ds) == CompareBytes(EncodeAll(cs), EncodeAll(ds))
  {
    RoundTrip([], cs);
    RoundTrip([], ds);
    assert [] + EncodeAll(cs) == EncodeAll(cs) && [] + EncodeAll(ds) == EncodeAll(ds);
    EncodingKeepsOrder(cs, ds);
    r := Utf8Compare(EncodeAll(cs), EncodeAll(ds));
  }
}
