/** C string conversions: `strtol` as the C library defines it for a 64-bit `long`, the
    `%x` conversion used for chunk sizes, and the decimal printer behind Content-Length. */
module CString {

  const LONG_MAX: int := 0x7FFF_FFFF_FFFF_FFFF
  const LONG_MIN: int := -0x8000_0000_0000_0000
  const UINT_RANGE: int := 0x1_0000_0000
  const INT_MAX: int := 0x7FFF_FFFF

  /** What a `c_str()` reader sees: everything before the first NUL. */
  function CStr(s: string): (r: string)
    ensures r <= s && '\0' !in r
    ensures '\0' !in s ==> r == s
  {
    if s == "" || s[0] == '\0' then "" else [s[0]] + CStr(s[1..])
  }

  lemma {:induction false} CStrMeans(s: string, rest: string)
    requires '\0' !in s
    ensures CStr(s + ['\0'] + rest) == s
  {
    if s != "" {
      assert (s + ['\0'] + rest)[1..] == s[1..] + ['\0'] + rest;
      CStrMeans(s[1..], rest);
    }
  }

  predicate IsSpace(c: char) {
    c == ' ' || '\t' <= c <= '\r'
  }

  function SkipSpaces(s: string): (r: string)
    ensures |r| <= |s| && (r == "" || !IsSpace(r[0]))
    ensures s == "" || !IsSpace(s[0]) ==> r == s
  {
    if s != "" && IsSpace(s[0]) then SkipSpaces(s[1..]) else s
  }

  /** The value of a digit in any base up to 36; 36 when `c` is no digit. */
  function DigitValue(c: char): (v: nat)
    ensures v <= 36
  {
    if '0' <= c <= '9' then (c as int) - ('0' as int)
    else if 'a' <= c <= 'z' then (c as int) - ('a' as int) + 10
    else if 'A' <= c <= 'Z' then (c as int) - ('A' as int) + 10
    else 36
  }

  predicate AllDigits(s: string, base: nat) {
    forall i :: 0 <= i < |s| ==> DigitValue(s[i]) < base
  }

  /** The longest prefix made of digits. */
  function LeadingDigits(s: string, base: nat): (r: string)
    ensures r <= s && AllDigits(r, base)
    ensures |r| < |s| ==> DigitValue(s[|r|]) >= base
  {
    if s == "" || DigitValue(s[0]) >= base then "" else [s[0]] + LeadingDigits(s[1..], base)
  }

  /** The number that a digit string spells. */
  function Spelled(s: string, base: nat): (v: nat) {
    if s == "" then 0 else Spelled(s[..|s| - 1], base) * base + DigitValue(s[|s| - 1])
  }

  lemma {:induction false} LeadingDigitsOf(s: string, t: string, base: nat)
    requires AllDigits(s, base) && (t == "" || DigitValue(t[0]) >= base)
    ensures LeadingDigits(s + t, base) == s
  {
    if s != "" {
      assert (s + t)[1..] == s[1..] + t;
      LeadingDigitsOf(s[1..], t, base);
    } else {
      assert s + t == t;
    }
  }

  lemma {:induction false} SpelledZero(s: string, base: nat)
    ensures Spelled("0" + s, base) == Spelled(s, base)
  {
    if s == "" {
      assert ("0" + s)[..0] == "";
    } else {
      var z := "0" + s;
      assert z[..|z| - 1] == "0" + s[..|s| - 1];
      SpelledZero(s[..|s| - 1], base);
    }
  }

  /** The result of `strtol`, with `overflow` standing for a non-zero `errno`. */
  datatype Long = Long(value: int, overflow: bool)

  function Strtol(text: string, base: nat): (r: Long)
    ensures LONG_MIN <= r.value <= LONG_MAX
  {
    var t := SkipSpaces(CStr(text));
    var negative := t != "" && t[0] == '-';
    var u := if t != "" && (t[0] == '-' || t[0] == '+') then t[1..] else t;
    var digits := if base == 16 && |u| >= 3 && u[0] == '0' && (u[1] == 'x' || u[1] == 'X') && DigitValue(u[2]) < 16
                  then u[2..] else u;
    var n: int := Spelled(LeadingDigits(digits, base), base);
    if negative then (if (-n) < LONG_MIN then Long(LONG_MIN, true) else Long(-n, false))
    else (if n > LONG_MAX then Long(LONG_MAX, true) else Long(n, false))
  }

  function Digit(v: nat): (c: char)
    requires v < 16
    ensures DigitValue(c) == v
  {
    if v < 10 then '0' + (v as char) else 'a' + ((v - 10) as char)
  }

  lemma DivMod(n: nat, base: nat)
    requires 2 <= base <= n
    ensures 1 <= n / base < n
    ensures n == (n / base) * base + n % base && n % base < base
  {
    var q := n / base;
    assert q * base == q + q * (base - 1);
    assert q <= 0 ==> q * base <= 0;
    assert q >= 0 ==> q * (base - 1) >= q;
  }

  /** The shortest spelling of `n`, most significant digit first. */
  function Spell(n: nat, base: nat): (s: string)
    requires 2 <= base <= 16
    ensures s != "" && AllDigits(s, base)
    ensures PlainDigits(s)
    decreases n
  {
    if n < base then [Digit(n)]
    else
      DivMod(n, base);
      Spell(n / base, base) + [Digit(n % base)]
  }

  lemma {:induction false} SpelledSpell(n: nat, base: nat)
    requires 2 <= base <= 16
    ensures Spelled(Spell(n, base), base) == n
    decreases n
  {
    var s := Spell(n, base);
    if n < base {
      assert s[..0] == "";
    } else {
      DivMod(n, base);
      assert s[..|s| - 1] == Spell(n / base, base);
      SpelledSpell(n / base, base);
    }
  }

  predicate PlainDigits(s: string) {
    forall i :: 0 <= i < |s| ==> '0' <= s[i] <= '9' || 'a' <= s[i] <= 'f'
  }

  /** `strtol` on text that is nothing but digits. */
  lemma StrtolDigits(s: string, base: nat)
    requires s != "" && PlainDigits(s) && AllDigits(s, base)
    ensures var n := Spelled(s, base);
            Strtol(s, base) == if n <= LONG_MAX then Long(n, false) else Long(LONG_MAX, true)
  {
    hide Spelled;
    assert '\0' !in s && CStr(s) == s;
    assert SkipSpaces(s) == s;
    assert s + "" == s;
    LeadingDigitsOf(s, "", base);
  }

  /** `strtol` undoes the decimal printer on every value that fits a `long`. */
  lemma DecimalRoundTrip(n: nat)
    ensures Strtol(Spell(n, 10), 10) == if n <= LONG_MAX then Long(n, false) else Long(LONG_MAX, true)
  {
    hide Strtol;
    StrtolDigits(Spell(n, 10), 10);
    SpelledSpell(n, 10);
  }

  /** The text that `StringPrintf("0%x", static_cast<int>(size))` produces: the cast keeps
      the low 32 bits and `%x` reads them back as unsigned. */
  function HexSize(size: nat): (s: string)
    ensures PlainDigits(s)
    ensures AllDigits(s, 16)
  {
    "0" + Spell(size % UINT_RANGE, 16)
  }

  /** What `strtol` base 16 reads back: the size modulo 2^32. */
  lemma HexSizeValue(size: nat)
    ensures Strtol(HexSize(size), 16) == Long(size % UINT_RANGE, false)
  {
    hide Strtol, Spell, Spelled;
    var digits := Spell(size % UINT_RANGE, 16);
    StrtolDigits("0" + digits, 16);
    SpelledZero(digits, 16);
    SpelledSpell(size % UINT_RANGE, 16);
  }

  /** A chunk size survives printing and parsing exactly when it fits 32 bits. */
  lemma HexRoundTrip(size: nat)
    ensures Strtol(HexSize(size), 16) == Long(size, false) <==> size < UINT_RANGE
  {
    hide Strtol, HexSize;
    HexSizeValue(size);
    assert size % UINT_RANGE == size <==> size < UINT_RANGE;
  }

  // ------------------------------------------------------------------ signed numbers

  /** A number in decimal, as "%d" prints it. */
  function SignedText(n: int): string {
    if n < 0 then "-" + Spell(-n, 10) else Spell(n, 10)
  }

  lemma StrtolNegative(s: string)
    requires s != "" && PlainDigits(s) && AllDigits(s, 10) && Spelled(s, 10) <= -LONG_MIN
    ensures var n: int := Spelled(s, 10); Strtol("-" + s, 10) == Long(-n, false)
  {
    hide Spelled;
    var t := "-" + s;
    assert '\0' !in t && CStr(t) == t;
    assert SkipSpaces(t) == t && t[1..] == s && s + "" == s;
    LeadingDigitsOf(s, "", 10);
  }

  /** `strtol` undoes the printing of every value that fits a `long`. */
  lemma SignedRoundTrip(n: int)
    requires LONG_MIN <= n <= LONG_MAX
    ensures Strtol(SignedText(n), 10) == Long(n, false)
  {
    hide Strtol, Spelled;
    if n < 0 {
      SpelledSpell(-n, 10);
      StrtolNegative(Spell(-n, 10));
    } else {
      DecimalRoundTrip(n);
    }
  }

  /** Writes the digits of a value back to front into a buffer that is large enough for 64 bits;
      they begin at `it`. */
  method FillDigits(outbuf: array<char>, value: nat) returns (it: nat)
    requires outbuf.Length == 3 * 8 + 1 && value < 0x1_0000_0000_0000_0000
    modifies outbuf
    ensures 1 < it <= outbuf.Length && outbuf[it..] == Spell(value, 10)
  {
    hide DigitValue, Pow10, Spell, PlainDigits, AllDigits;
    var res := value;
    it := outbuf.Length;
    ghost var k := 0;
    Pow10Covers64Bits();
    while true
      invariant 0 <= k <= 20 && it == outbuf.Length - k
      invariant k > 0 ==> res > 0
      invariant res < Pow10(20 - k)
      invariant k == 0 ==> res == value
      invariant k > 0 ==> Spell(value, 10) == Spell(res, 10) + outbuf[it..]
      decreases res
    {
      it := it - 1;
      var digit := Digit(res % 10);
      ghost var before := outbuf[it + 1..];
      outbuf[it] := digit;
      assert outbuf[it..] == [digit] + before;
      SpellStep(res);
      FewerDigits(res, k);
      ghost var was := res;
      res := res / 10;
      k := k + 1;
      if res == 0 {
        return;
      }
      assert Spell(was, 10) + before == Spell(res, 10) + ([digit] + before);
    }
  }

  lemma SpellStep(n: nat)
    ensures Spell(n, 10) == if n / 10 == 0 then [Digit(n % 10)] else Spell(n / 10, 10) + [Digit(n % 10)]
  {
  }

  /** The decimal printer for signed and unsigned 64-bit values: digits and sign are written back to
      front into a fixed buffer, and the used tail is returned. */
  method IntToString(value: int) returns (s: string)
    requires -LONG_MAX <= value < 0x1_0000_0000_0000_0000
    ensures s == SignedText(value)
    ensures value <= LONG_MAX ==> Strtol(s, 10) == Long(value, false)
  {
    hide Spell, Strtol;
    if value <= LONG_MAX {
      SignedRoundTrip(value);
    }
    var outbuf := new char[3 * 8 + 1](_ => '\0');
    var it := FillDigits(outbuf, if value < 0 then -value else value);
    if value < 0 {
      ghost var digits := outbuf[it..];
      it := it - 1;
      outbuf[it] := '-';
      assert outbuf[it..] == ['-'] + digits;
    }
    return outbuf[it..];
  }

  ghost function Pow10(n: nat): nat {
    if n == 0 then 1 else 10 * Pow10(n - 1)
  }

  lemma FewerDigits(n: nat, k: nat)
    requires k <= 20 && n < Pow10(20 - k)
    ensures n / 10 > 0 ==> k < 20 && n / 10 < Pow10(19 - k)
  {
  }

  lemma Pow10Covers64Bits()
    ensures Pow10(20) > 0x1_0000_0000_0000_0000
  {
    assert Pow10(5) == 100_000;
    assert Pow10(10) == 10_000_000_000;
    assert Pow10(15) == 1_000_000_000_000_000;
  }

  // ------------------------------------------------------------------ any text of a number

  predicate Spaces(s: string) { forall i :: 0 <= i < |s| ==> IsSpace(s[i]) }

  lemma {:induction false} SpacesSkipped(spaces: string, s: string)
    requires Spaces(spaces) && (s == "" || !IsSpace(s[0]))
    ensures SkipSpaces(spaces + s) == s
  {
    if spaces == "" {
      assert spaces + s == s;
    } else {
      assert (spaces + s)[1..] == spaces[1..] + s;
      SpacesSkipped(spaces[1..], s);
    }
  }

  /** What `strtol` makes of any text in decimal: blanks and a sign may stand in front of the digits, what
      follows them is ignored, and a value beyond the range of a `long` is an overflow. */
  lemma StrtolMeans(spaces: string, sign: string, digits: string, rest: string)
    requires Spaces(spaces) && (sign == "" || sign == "+" || sign == "-") && AllDigits(digits, 10)
    requires '\0' !in spaces + sign + digits + rest && (rest == "" || DigitValue(rest[0]) >= 10)
    requires sign + digits != "" || rest == "" || (!IsSpace(rest[0]) && rest[0] != '-' && rest[0] != '+')
    ensures var n: int := Spelled(digits, 10);
            Strtol(spaces + sign + digits + rest, 10) ==
            if sign == "-" then (if n > LONG_MAX + 1 then Long(LONG_MIN, true) else Long(-n, false))
            else if n > LONG_MAX then Long(LONG_MAX, true) else Long(n, false)
  {
    hide Spelled, Spaces, LeadingDigits, AllDigits, SkipSpaces, CStr, Strtol, DigitValue, IsSpace;
    Regrouped(spaces, sign, digits, rest);
    var u := digits + rest;
    NumberFront(sign, digits, rest);
    SpacesSkipped(spaces, sign + u);
    LeadingDigitsOf(digits, rest, 10);
    SignTaken(spaces + (sign + u), sign, u);
  }

  lemma Regrouped(a: string, b: string, c: string, d: string)
    ensures a + b + c + d == a + (b + (c + d))
  {
  }

  lemma SignTaken(text: string, sign: string, u: string)
    requires (sign == "" || sign == "+" || sign == "-") && SkipSpaces(CStr(text)) == sign + u
    requires sign == "" && u != "" ==> u[0] != '-' && u[0] != '+'
    ensures var n: int := Spelled(LeadingDigits(u, 10), 10);
            Strtol(text, 10) ==
            if sign == "-" then (if n > LONG_MAX + 1 then Long(LONG_MIN, true) else Long(-n, false))
            else if n > LONG_MAX then Long(LONG_MAX, true) else Long(n, false)
  {
    hide Spelled, LeadingDigits, SkipSpaces, CStr;
    var t := sign + u;
    assert sign != "" ==> t[1..] == u && t[0] == sign[0];
    assert sign == "" ==> t == u;
  }

  /** No blank and, without a sign, no sign stands in front of the digits. */
  lemma NumberFront(sign: string, digits: string, rest: string)
    requires (sign == "" || sign == "+" || sign == "-") && AllDigits(digits, 10)
    requires sign + digits != "" || rest == "" || (!IsSpace(rest[0]) && rest[0] != '-' && rest[0] != '+')
    ensures var t := sign + (digits + rest);
            && (t == "" || !IsSpace(t[0])) && (sign == "" && t != "" ==> t[0] != '-' && t[0] != '+')
  {
    var t := sign + (digits + rest);
    if sign != "" {
      assert t[0] == sign[0];
    } else if digits != "" {
      assert t[0] == digits[0];
      DigitIsNoSpace(digits[0], 10);
    } else {
      assert t == rest;
    }
  }

  lemma DigitIsNoSpace(c: char, base: nat)
    requires DigitValue(c) < base <= 36
    ensures !IsSpace(c) && c != '-' && c != '+'
  {
  }
}
