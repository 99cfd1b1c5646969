/** Character classes and number texts of the JSON dialect: `std::isspace`, `std::isdigit`, printf's `%d`,
    `strtol` base 10 and `strtoul` base 16. A byte is the `char` with that code. */
module Chars {

  datatype Option<+T> = None | Some(value: T)

  // ---- C strings --------------------------------------------------------------------------------

  predicate IsCString(s: string) {
    forall k :: 0 <= k < |s| ==> s[k] != '\0'
  }

  /** The bytes of a `const char*` argument: those before its NUL. */
  type CString = s: string | IsCString(s)

  /** What a `const char*` reader sees of a byte string: everything before the first NUL. */
  function CStr(s: string): (r: string)
    ensures r <= s && IsCString(r)
    ensures |r| < |s| ==> s[|r|] == '\0'
  {
    if s == [] || s[0] == '\0' then [] else [s[0]] + CStr(s[1..])
  }

  // ---- Whitespace -------------------------------------------------------------------------------

  /** `std::isspace` in the C locale. */
  predicate IsSpace(c: char) {
    c == ' ' || 9 <= c as int <= 13
  }

  /** The whitespace of RFC 8259, section 2, with vertical tab and form feed. */
  lemma SpacesAre(c: char)
    ensures IsSpace(c) <==> c == ' ' || c == '\t' || c == '\n' || c == '\r' || c as int == 0x0b || c as int == 0x0c
  {
  }

  predicate AllSpace(s: string) {
    forall k :: 0 <= k < |s| ==> IsSpace(s[k])
  }

  function SkipSpace(t: string): (r: string)
    ensures |r| <= |t|
    ensures r == [] || !IsSpace(r[0])
  {
    if t != [] && IsSpace(t[0]) then SkipSpace(t[1..]) else t
  }

  lemma SkipsNothing(t: string)
    requires t == [] || !IsSpace(t[0])
    ensures SkipSpace(t) == t
  {
  }

  lemma {:induction false} SkipSpaceDrops(ws: string, t: string)
    requires AllSpace(ws)
    ensures SkipSpace(ws + t) == SkipSpace(t)
  {
    if ws == [] {
      assert ws + t == t;
    } else {
      assert (ws + t)[1..] == ws[1..] + t;
      SkipSpaceDrops(ws[1..], t);
    }
  }

  // ---- Machine integers -------------------------------------------------------------------------

  const TWO_31: int := 0x8000_0000
  const TWO_32: int := 0x1_0000_0000
  const TWO_63: int := 0x8000_0000_0000_0000

  predicate IsInt32(n: int) {
    -TWO_31 <= n < TWO_31
  }

  /** Conversion of any integer to the 32-bit two's complement `int`. */
  function ToInt32(n: int): (r: int)
    ensures IsInt32(r)
    ensures IsInt32(n) ==> r == n
    ensures (r - n) % TWO_32 == 0
  {
    (n + TWO_31) % TWO_32 - TWO_31
  }

  /** `(uint32_t)` of an `int`. */
  function ToUint32(n: int): (r: int)
    ensures 0 <= r < TWO_32
    ensures (r - n) % TWO_32 == 0
  {
    n % TWO_32
  }

  /** A 32-bit word read as an `int` keeps its bits. */
  lemma WordReadsBack(u: nat)
    requires u < TWO_32
    ensures ToUint32(ToInt32(u)) == u
  {
    var n := ToInt32(u);
    assert n == u || n == u - TWO_32;
  }

  /** `(int16_t)` of an `int`. */
  function ToInt16(n: int): (r: int)
    ensures -0x8000 <= r < 0x8000
    ensures -0x8000 <= n < 0x8000 ==> r == n
    ensures (r - n) % 0x1_0000 == 0
  {
    (n + 0x8000) % 0x1_0000 - 0x8000
  }

  /** `long` saturation of `strtol` on a 64-bit host. */
  function ClampLong(n: int): int {
    if n < -TWO_63 then -TWO_63 else if n >= TWO_63 then TWO_63 - 1 else n
  }

  // ---- Decimal ----------------------------------------------------------------------------------

  predicate IsDigit(c: char) {
    '0' <= c <= '9'
  }

  predicate AllDigits(s: string) {
    forall k :: 0 <= k < |s| ==> IsDigit(s[k])
  }

  function DigitChar(d: nat): (c: char)
    requires d < 10
    ensures IsDigit(c) && DigitValue(c) == d
  {
    ('0' as int + d) as char
  }

  function DigitValue(c: char): (d: nat)
    requires IsDigit(c)
    ensures d < 10
  {
    c as int - '0' as int
  }

  function NatText(n: nat): (s: string)
    ensures s != [] && AllDigits(s)
  {
    if n < 10 then [DigitChar(n)] else NatText(n / 10) + [DigitChar(n % 10)]
  }

  /** What `%d` prints. */
  function IntText(n: int): (s: string)
    ensures s != [] && (IsDigit(s[0]) || s[0] == '-') && IsCString(s)
  {
    if n < 0 then "-" + NatText(-n) else NatText(n)
  }

  function DigitsValue(s: string): nat
    requires AllDigits(s)
  {
    if s == [] then 0 else 10 * DigitsValue(s[..|s| - 1]) + DigitValue(s[|s| - 1])
  }

  /** A digit counts for its place in the row of digits. */
  lemma DigitsAre(c: char)
    ensures IsDigit(c) <==> c in "0123456789"
    ensures IsDigit(c) ==> "0123456789"[DigitValue(c)] == c
  {
    var digits := "0123456789";
    assert IsDigit(c) ==> digits[DigitValue(c)] == c;
    assert forall k :: 0 <= k < 10 ==> IsDigit(digits[k]);
  }

  function Pow10(k: nat): nat {
    if k == 0 then 1 else 10 * Pow10(k - 1)
  }

  /** The first of several digits has the highest weight. */
  lemma {:induction false} DigitsArePositional(c: char, t: string)
    requires IsDigit(c) && AllDigits(t)
    ensures DigitsValue([c] + t) == DigitValue(c) * Pow10(|t|) + DigitsValue(t)
    decreases t
  {
    var s := [c] + t;
    if t == [] {
      assert s[..0] == [] && DigitsValue([]) == 0;
    } else {
      var front := t[..|t| - 1];
      assert s[..|s| - 1] == [c] + front;
      DigitsArePositional(c, front);
      assert DigitValue(c) * Pow10(|t|) == 10 * (DigitValue(c) * Pow10(|front|));
    }
  }

  /** `%d` prints no sign for a natural number, and no zero in front. */
  lemma {:induction false} NoLeadingZero(n: nat)
    ensures IntText(n) == NatText(n) && (NatText(n)[0] == '0' <==> n == 0) && |NatText(0)| == 1
  {
    if n >= 10 {
      NoLeadingZero(n / 10);
    }
  }

  lemma {:induction false} DigitsValueInvertsNatText(n: nat)
    ensures DigitsValue(NatText(n)) == n
  {
    var s := NatText(n);
    if n < 10 {
      assert s[..0] == [];
    } else {
      DigitsValueInvertsNatText(n / 10);
      assert s[..|s| - 1] == NatText(n / 10);
    }
  }

  function LeadingDigits(s: string): (r: string)
    ensures AllDigits(r)
  {
    if s != [] && IsDigit(s[0]) then [s[0]] + LeadingDigits(s[1..]) else []
  }

  lemma {:induction false} LeadingDigitsOfDigits(s: string)
    requires AllDigits(s)
    ensures LeadingDigits(s) == s
  {
    if s != [] {
      LeadingDigitsOfDigits(s[1..]);
    }
  }

  /** `(int)std::strtol(s, nullptr, 10)` for a text that starts with neither a space nor a second sign. */
  function DecimalToInt32(s: string): (r: int)
    ensures IsInt32(r)
  {
    var neg := s != [] && s[0] == '-';
    var body := if s != [] && (s[0] == '-' || s[0] == '+') then s[1..] else s;
    var n: int := DigitsValue(LeadingDigits(body));
    ToInt32(ClampLong(if neg then -n else n))
  }

  /** The number of a digit text, with or without a sign, is that of its digits modulo 2^32, and that of the largest or the
      smallest `long` where it does not fit one. */
  lemma DecimalOfDigits(s: string)
    requires AllDigits(s)
    ensures var n := DigitsValue(s);
      && DecimalToInt32("+" + s) == DecimalToInt32(s)
      && (if n < TWO_63 then (DecimalToInt32(s) - n) % TWO_32 == 0 else DecimalToInt32(s) == -1)
      && (if n < TWO_63 then (DecimalToInt32("-" + s) + n) % TWO_32 == 0 else DecimalToInt32("-" + s) == 0)
  {
    hide DigitsValue, LeadingDigits;
    LeadingDigitsOfDigits(s);
    assert ("+" + s)[1..] == s && ("-" + s)[1..] == s;
    assert s != [] ==> s[0] != '-' && s[0] != '+';
  }

  lemma DecimalInvertsIntText(n: int)
    requires IsInt32(n)
    ensures DecimalToInt32(IntText(n)) == n
  {
    var m := if n < 0 then -n else n;
    assert IntText(n) == if n < 0 then "-" + NatText(m) else NatText(m);
    LeadingDigitsOfDigits(NatText(m));
    DigitsValueInvertsNatText(m);
    if n < 0 {
      assert IntText(n)[1..] == NatText(m);
    }
  }

  /** `%d` prints different numbers differently. */
  lemma IntTextInjective(m: int, n: int)
    requires IsInt32(m) && IsInt32(n)
    ensures IntText(m) == IntText(n) <==> m == n
  {
    DecimalInvertsIntText(m);
    DecimalInvertsIntText(n);
  }

  // ---- Hexadecimal ------------------------------------------------------------------------------

  predicate IsHexDigit(c: char) {
    IsDigit(c) || 'a' <= c <= 'f' || 'A' <= c <= 'F'
  }

  function HexValue(c: char): (d: nat)
    requires IsHexDigit(c)
    ensures d < 16
  {
    if IsDigit(c) then c as int - '0' as int
    else if 'a' <= c then c as int - 'a' as int + 10
    else c as int - 'A' as int + 10
  }

  function HexChar(d: nat): (c: char)
    requires d < 16
    ensures IsHexDigit(c) && HexValue(c) == d && c != 'x' && c != 'X'
  {
    if d < 10 then ('0' as int + d) as char else ('a' as int + d - 10) as char
  }

  function LeadingHexValue(s: string, acc: nat): nat {
    if s != [] && IsHexDigit(s[0]) then LeadingHexValue(s[1..], 16 * acc + HexValue(s[0])) else acc
  }

  /** `(unsigned)std::strtoul(s, nullptr, 16)` of a text of at most four characters (so nothing saturates):
      leading spaces, one sign and a `0x` before a hex digit are all accepted; a minus sign negates modulo 2^32. */
  function HexToUnsigned(s: string): (r: nat)
    ensures r < TWO_32
  {
    var t := SkipSpace(s);
    var neg := t != [] && t[0] == '-';
    var u := if t != [] && (t[0] == '-' || t[0] == '+') then t[1..] else t;
    var body := if |u| > 2 && u[0] == '0' && (u[1] == 'x' || u[1] == 'X') && IsHexDigit(u[2]) then u[2..] else u;
    var n: int := LeadingHexValue(body, 0);
    ToUint32(if neg then -n else n)
  }

  lemma HexDigitsAre(c: char)
    ensures IsHexDigit(c) <==> c in "0123456789abcdef" || c in "0123456789ABCDEF"
    ensures IsHexDigit(c) ==> "0123456789abcdef"[HexValue(c)] == c || "0123456789ABCDEF"[HexValue(c)] == c
  {
    var lower, upper := "0123456789abcdef", "0123456789ABCDEF";
    assert IsHexDigit(c) ==> lower[HexValue(c)] == c || upper[HexValue(c)] == c;
    assert forall k :: 0 <= k < 16 ==> IsHexDigit(lower[k]) && IsHexDigit(upper[k]);
  }

  /** Four hex digits count by their places. */
  lemma HexIsPositional(h: string)
    requires |h| == 4 && forall k :: 0 <= k < 4 ==> IsHexDigit(h[k])
    ensures HexToUnsigned(h) == 0x1000 * HexValue(h[0]) + 0x100 * HexValue(h[1]) + 0x10 * HexValue(h[2]) + HexValue(h[3])
  {
    hide HexValue;
    assert !IsSpace(h[0]) && h[0] != '-' && h[0] != '+' && h[1] != 'x' && h[1] != 'X';
    SkipsNothing(h);
    var h1, h2, h3 := h[1..], h[2..], h[3..];
    assert h1[1..] == h2 && h2[1..] == h3 && h3[1..] == [];
    calc {
      LeadingHexValue(h, 0);
      LeadingHexValue(h1, HexValue(h[0]));
      LeadingHexValue(h2, 0x10 * HexValue(h[0]) + HexValue(h[1]));
      LeadingHexValue(h3, 0x100 * HexValue(h[0]) + 0x10 * HexValue(h[1]) + HexValue(h[2]));
      LeadingHexValue([], 0x1000 * HexValue(h[0]) + 0x100 * HexValue(h[1]) + 0x10 * HexValue(h[2]) + HexValue(h[3]));
    }
  }

  /** What else `strtoul` makes of four characters: leading spaces, a sign and `0x` are taken, and the rest is dropped. */
  lemma LaxHexDigits()
    ensures HexToUnsigned("  1f") == 0x1f && HexToUnsigned("+1fz") == 0x1f && HexToUnsigned("0x1f") == 0x1f
    ensures HexToUnsigned("zzzz") == 0 && HexToUnsigned("-001") == 0xffff_ffff
  {
    LaxHexBodies();
    assert "  1f"[1..] == " 1f" && " 1f"[1..] == "1f" && "+1fz"[1..] == "1fz" && "0x1f"[2..] == "1f" && "-001"[1..] == "001";
    assert SkipSpace("1f") == "1f" && SkipSpace(" 1f") == "1f" && SkipSpace("  1f") == "1f";
  }

  lemma LaxHexBodies()
    ensures LeadingHexValue("1f", 0) == 0x1f && LeadingHexValue("1fz", 0) == 0x1f
    ensures LeadingHexValue("zzzz", 0) == 0 && LeadingHexValue("001", 0) == 1
  {
    assert "1f"[1..] == "f" && "f"[1..] == [] && "1fz"[1..] == "fz" && "fz"[1..] == "z" && "001"[1..] == "01" && "01"[1..] == "1" && "1"[1..] == [];
    assert LeadingHexValue("f", 1) == 0x1f && LeadingHexValue("fz", 1) == 0x1f && LeadingHexValue("1", 0) == 1 && LeadingHexValue("01", 0) == 1;
  }

  /** The four hex digits `%04x` prints for a byte. */
  function Hex4(b: nat): (s: string)
    requires b < 0x100
    ensures |s| == 4
  {
    ['0', '0', HexChar(b / 16), HexChar(b % 16)]
  }

  lemma HexInvertsHex4(b: nat)
    requires b < 0x100
    ensures HexToUnsigned(Hex4(b)) == b
  {
    var s := Hex4(b);
    assert SkipSpace(s) == s;
    var s1, s2, s3, s4 := s[1..], s[2..], s[3..], s[4..];
    assert s1[1..] == s2 && s2[1..] == s3 && s3[1..] == s4 == [];
    calc {
      LeadingHexValue(s, 0);
      LeadingHexValue(s1, 0);
      LeadingHexValue(s2, 0);
      LeadingHexValue(s3, HexValue(s[2]));
      LeadingHexValue(s4, 16 * HexValue(s[2]) + HexValue(s[3]));
      b;
    }
  }
}
