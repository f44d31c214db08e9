/** UTF-8 in the form of up to six bytes (section 2 of RFC 2279). A string is followed by a NUL
    that is not part of it, and reading stops there at the latest. */
module Utf8 {

  /** What stands for an undecodable character. */
  const WEOF: bv32 := 0xFFFF_FFFF

  const MAX_CODE_POINT: bv32 := 0x7FFF_FFFF

  // ------------------------------------------------------------------ encoding

  /** A byte that continues a character, from the lowest six bits. */
  function Continuation(c: bv32): bv8 {
    0x80 | ((c & 0x3F) as bv8)
  }

  /** The bytes of a code point; none for what is out of range. */
  function Encode(c: bv32): seq<bv8> {
    if c <= 0x7F then [(c & 0x7F) as bv8]
    else if c <= 0x7FF then [0xC0 | (((c >> 6) & 0x1F) as bv8), Continuation(c)]
    else if c <= 0xFFFF then [0xE0 | (((c >> 12) & 0x0F) as bv8), Continuation(c >> 6), Continuation(c)]
    else if c <= 0x1F_FFFF then
      [0xF0 | (((c >> 18) & 0x07) as bv8), Continuation(c >> 12), Continuation(c >> 6), Continuation(c)]
    else if c <= 0x3FF_FFFF then
      [0xF8 | (((c >> 24) & 0x03) as bv8), Continuation(c >> 18), Continuation(c >> 12), Continuation(c >> 6), Continuation(c)]
    else if c <= MAX_CODE_POINT then
      [0xFC | (((c >> 30) & 0x01) as bv8), Continuation(c >> 24), Continuation(c >> 18), Continuation(c >> 12),
       Continuation(c >> 6), Continuation(c)]
    else []
  }

  /** Encodes up to the first NUL. */
  function EncodeAll(cs: seq<bv32>): seq<bv8> {
    if cs == [] || cs[0] == 0 then [] else Encode(cs[0]) + EncodeAll(cs[1..])
  }

  // ------------------------------------------------------------------ decoding

  /** The length announced by a first byte, and the bits it contributes. Length 0 is invalid. */
  function CharLen(p: bv8): (nat, bv8) {
    if p <= 0x7F then (1, p & 0x7F)
    else if p & 0xE0 == 0xC0 then (2, p & 0x1F)
    else if p & 0xF0 == 0xE0 then (3, p & 0x0F)
    else if p & 0xF8 == 0xF0 then (4, p & 0x07)
    else if p & 0xFC == 0xF8 then (5, p & 0x03)
    else if p & 0xFE == 0xFC then (6, p & 0x01)
    else (0, 0)
  }

  datatype Decoded = Decoded(codepoint: bv32, next: nat)

  predicate Continues(s: seq<bv8>, i: nat) {
    i < |s| && s[i] & 0xC0 == 0x80
  }

  /** Six more bits. */
  function Push(bits: bv32, more: bv32): bv32 {
    (bits << 6) | (more & 0x3F)
  }

  function DecodeRest(s: seq<bv8>, i: nat, left: nat, bits: bv32): (r: Decoded)
    requires i <= |s|
    ensures i <= r.next <= |s|
    decreases left
  {
    if left == 0 then Decoded(bits, i)
    else if !Continues(s, i) then Decoded(WEOF, i)
    else DecodeRest(s, i + 1, left - 1, Push(bits, s[i] as bv32))
  }

  /** Decoding moves on by at least one byte and never past the end. */
  function DecodeAt(s: seq<bv8>, i: nat): (r: Decoded)
    requires i < |s|
    ensures i < r.next <= |s|
  {
    var (n, bits) := CharLen(s[i]);
    if n == 0 then Decoded(WEOF, i + 1) else DecodeRest(s, i + 1, n - 1, bits as bv32)
  }

  /** All code points, with WEOF for what could not be decoded. */
  function CodePoints(s: seq<bv8>, i: nat): seq<bv32>
    requires i <= |s|
    decreases |s| - i
  {
    if i == |s| then [] else [DecodeAt(s, i).codepoint] + CodePoints(s, DecodeAt(s, i).next)
  }

  // ------------------------------------------------------------------ decoding undoes encoding

  lemma ContinuationBits(c: bv32)
    ensures Continuation(c) & 0xC0 == 0x80
    ensures forall bits :: Push(bits, Continuation(c) as bv32) == Push(bits, c)
  {
  }

  /** Some bytes of a string are the encoding of a code point. */
  ghost predicate EncodedAt(s: seq<bv8>, i: nat, c: bv32) {
    i + |Encode(c)| <= |s| && s[i..i + |Encode(c)|] == Encode(c)
  }

  lemma StepOne(s: seq<bv8>, i: nat, left: nat, bits: bv32, c: bv32)
    requires i < |s| && left > 0 && s[i] == Continuation(c)
    ensures DecodeRest(s, i, left, bits) == DecodeRest(s, i + 1, left - 1, Push(bits, c))
  {
    ContinuationBits(c);
    hide Push, Continuation;
  }

  lemma Lead(c: bv32)
    ensures var b := 0xC0 | (((c >> 6) & 0x1F) as bv8); CharLen(b) == (2, ((c >> 6) & 0x1F) as bv8)
    ensures var b := 0xE0 | (((c >> 12) & 0x0F) as bv8); CharLen(b) == (3, ((c >> 12) & 0x0F) as bv8)
    ensures var b := 0xF0 | (((c >> 18) & 0x07) as bv8); CharLen(b) == (4, ((c >> 18) & 0x07) as bv8)
    ensures var b := 0xF8 | (((c >> 24) & 0x03) as bv8); CharLen(b) == (5, ((c >> 24) & 0x03) as bv8)
    ensures var b := 0xFC | (((c >> 30) & 0x01) as bv8); CharLen(b) == (6, ((c >> 30) & 0x01) as bv8)
  {
  }

  /** The lowest six bits can be split off and pushed back. */
  lemma PushBack(c: bv32)
    ensures Push(Dropped(c), c) == c
  {
  }

  lemma Shifts(c: bv32)
    ensures Dropped(c) == c >> 6 && Dropped(Dropped(c)) == c >> 12 && Dropped(Dropped(Dropped(c))) == c >> 18
    ensures Dropped(Dropped(Dropped(Dropped(c)))) == c >> 24
  {
  }

  /** The bits of a character's first byte, and the groups of six that follow. */
  function FirstBits(c: bv32): bv32 {
    if c <= 0x7F then c
    else if c <= 0x7FF then (c >> 6) & 0x1F
    else if c <= 0xFFFF then (c >> 12) & 0x0F
    else if c <= 0x1F_FFFF then (c >> 18) & 0x07
    else if c <= 0x3FF_FFFF then (c >> 24) & 0x03
    else (c >> 30) & 0x01
  }

  function Groups(c: bv32): seq<bv32> {
    var d1 := Dropped(c);
    var d2 := Dropped(d1);
    var d3 := Dropped(d2);
    var d4 := Dropped(d3);
    if c <= 0x7F then [] else if c <= 0x7FF then [c] else if c <= 0xFFFF then [d1, c]
    else if c <= 0x1F_FFFF then [d2, d1, c] else if c <= 0x3FF_FFFF then [d3, d2, d1, c] else [d4, d3, d2, d1, c]
  }

  function Gather(bits: bv32, groups: seq<bv32>): bv32
    decreases |groups|
  {
    if groups == [] then bits else Gather(Push(bits, groups[0]), groups[1..])
  }

  lemma EncodedGroups(c: bv32)
    requires c <= MAX_CODE_POINT
    ensures |Encode(c)| == |Groups(c)| + 1 && CharLen(Encode(c)[0]).0 == |Encode(c)|
    ensures CharLen(Encode(c)[0]).1 as bv32 == FirstBits(c)
    ensures forall k :: 0 <= k < |Groups(c)| ==> Encode(c)[k + 1] == Continuation(Groups(c)[k])
  {
    Lead(c);
    Shifts(c);
    hide Continuation, Dropped;
  }

  lemma FirstBitsShifted(c: bv32)
    requires c <= MAX_CODE_POINT
    ensures FirstBits(c) == if |Groups(c)| == 0 then c else Dropped(Groups(c)[0])
  {
  }

  /** Each value is the next one without its lowest six bits. */
  ghost predicate Chain(values: seq<bv32>) {
    forall k {:trigger values[k]} :: 0 < k < |values| ==> values[k - 1] == Dropped(values[k])
  }

  function Dropped(c: bv32): bv32 {
    c >> 6
  }

  lemma {:induction false} GatherChain(bits: bv32, groups: seq<bv32>)
    requires Chain([bits] + groups)
    ensures Gather(bits, groups) == ([bits] + groups)[|groups|]
    decreases |groups|
  {
    if groups != [] {
      var values, next := [bits] + groups, groups[1..];
      assert values[1] == groups[0];
      PushBack(groups[0]);
      hide Push, Dropped;
      forall k | 0 < k < |groups| ensures groups[k - 1] == Dropped(groups[k]) {
        assert values[k + 1] == groups[k] && values[k] == groups[k - 1];
      }
      assert [groups[0]] + next == groups;
      GatherChain(groups[0], next);
    }
  }

  lemma GroupsAreChain(c: bv32)
    requires c <= MAX_CODE_POINT
    ensures Chain([FirstBits(c)] + Groups(c)) && ([FirstBits(c)] + Groups(c))[|Groups(c)|] == c
  {
    FirstBitsShifted(c);
    hide FirstBits, Dropped;
  }

  lemma GatheredGroups(c: bv32)
    requires c <= MAX_CODE_POINT
    ensures Gather(FirstBits(c), Groups(c)) == c
  {
    GroupsAreChain(c);
    hide FirstBits, Groups;
    GatherChain(FirstBits(c), Groups(c));
  }

  lemma {:induction false} DecodeGroups(s: seq<bv8>, i: nat, bits: bv32, groups: seq<bv32>)
    requires i + |groups| <= |s| && forall k :: 0 <= k < |groups| ==> s[i + k] == Continuation(groups[k])
    ensures DecodeRest(s, i, |groups|, bits) == Decoded(Gather(bits, groups), i + |groups|)
    decreases |groups|
  {
    hide Push, Continuation, Continues;
    if groups != [] {
      assert s[i + 0] == Continuation(groups[0]);
      StepOne(s, i, |groups|, bits, groups[0]);
      assert forall k :: 0 <= k < |groups| - 1 ==> s[i + 1 + k] == s[i + (k + 1)] && groups[1..][k] == groups[k + 1];
      DecodeGroups(s, i + 1, Push(bits, groups[0]), groups[1..]);
    }
  }

  /** Decoding undoes encoding, whatever stands before and after. */
  lemma DecodeEncoded(s: seq<bv8>, i: nat, c: bv32)
    requires c <= MAX_CODE_POINT && EncodedAt(s, i, c)
    ensures DecodeAt(s, i) == Decoded(c, i + |Encode(c)|)
  {
    EncodedGroups(c);
    GatheredGroups(c);
    hide Encode, Groups, FirstBits, CharLen, Gather, Continuation, DecodeRest;
    var e, groups := Encode(c), Groups(c);
    assert forall k :: 0 <= k < |e| ==> s[i + k] == s[i..i + |e|][k] == e[k];
    assert s[i + 0] == e[0];
    forall k | 0 <= k < |groups| ensures s[i + 1 + k] == Continuation(groups[k]) {
      assert s[i + (k + 1)] == e[k + 1];
    }
    DecodeGroups(s, i + 1, FirstBits(c), groups);
  }

  // ------------------------------------------------------------------ strings

  /** Code points that can be encoded and that do not end a string. */
  ghost predicate Encodable(cs: seq<bv32>) {
    forall k :: 0 <= k < |cs| ==> 0 < cs[k] <= MAX_CODE_POINT
  }

  lemma {:induction false} EncodeNonempty(c: bv32)
    requires c <= MAX_CODE_POINT
    ensures 1 <= |Encode(c)| <= 6
  {
    hide Continuation;
  }

  /** Decoding a string gives back the code points it was made of, and uses up all its bytes. */
  lemma {:induction false} RoundTrip(before: seq<bv8>, cs: seq<bv32>)
    requires Encodable(cs)
    ensures CodePoints(before + EncodeAll(cs), |before|) == cs
    decreases |cs|
  {
    hide Encode, DecodeAt;
    var s := before + EncodeAll(cs);
    if cs != [] {
      var c, rest := cs[0], cs[1..];
      EncodeNonempty(c);
      assert s == before + Encode(c) + EncodeAll(rest);
      assert s[|before|..|before| + |Encode(c)|] == Encode(c);
      DecodeEncoded(s, |before|, c);
      RoundTrip(before + Encode(c), rest);
      assert cs == [c] + rest;
    }
  }
}
