/**
  The few pieces of JavaScript's string and number behaviour that the dice
  roller relies on: `parseInt` (with no radix), the decimal `toString` of an
  integer, `String.prototype.split` with a one-character separator, `join`,
  and `trim`.
 */
module JsText {
  import opened Wrappers

  // ---------------------------------------------------------------------
  // Digits

  predicate IsDigit(c: char) {
    '0' <= c <= '9'
  }

  predicate IsHexLetter(c: char) {
    'a' <= c <= 'f' || 'A' <= c <= 'F'
  }

  /** A digit of radix 10 or 16, as `parseInt` recognises them. */
  predicate IsRadixDigit(c: char, radix: nat) {
    IsDigit(c) || (radix == 16 && IsHexLetter(c))
  }

  function RadixDigitValue(c: char, radix: nat): (d: nat)
    requires IsRadixDigit(c, radix)
    ensures d < (if radix == 16 then 16 else 10)
  {
    if IsDigit(c) then c as int - '0' as int
    else if 'a' <= c <= 'f' then c as int - 'a' as int + 10
    else c as int - 'A' as int + 10
  }

  function DigitChar(d: nat): (c: char)
    requires d < 10
    ensures IsDigit(c) && RadixDigitValue(c, 10) == d
  {
    ('0' as int + d) as char
  }

  predicate AllRadixDigits(s: string, radix: nat) {
    forall i :: 0 <= i < |s| ==> IsRadixDigit(s[i], radix)
  }

  /** The value of a run of digits, most significant first, in radix 16 or
      (for any other radix) 10. */
  function DigitsValue(s: string, radix: nat): nat
    requires AllRadixDigits(s, radix)
  {
    if s == [] then 0
    else if radix == 16 then DigitsValue(s[..|s| - 1], radix) * 16 + RadixDigitValue(s[|s| - 1], radix)
    else DigitsValue(s[..|s| - 1], radix) * 10 + RadixDigitValue(s[|s| - 1], radix)
  }

  // ---------------------------------------------------------------------
  // Number.prototype.toString for integers

  /** Decimal digits of a natural number, without leading zeros. */
  function NatToString(n: nat): (s: string)
    ensures |s| >= 1 && AllRadixDigits(s, 10)
    ensures s[0] == '0' ==> n == 0
  {
    if n < 10 then [DigitChar(n)] else NatToString(n / 10) + [DigitChar(n % 10)]
  }

  /** Decimal rendering of an integer: a `-` before the digits of a negative one. */
  function IntToString(i: int): (s: string)
    ensures |s| >= 1
    ensures forall k :: 0 <= k < |s| ==> IsDigit(s[k]) || s[k] == '-'
    ensures (s[0] == '-') <==> (i < 0)
  {
    if i < 0 then "-" + NatToString(-i) else NatToString(i)
  }

  lemma {:induction false} NatToStringValue(n: nat)
    ensures DigitsValue(NatToString(n), 10) == n
  {
    if n >= 10 {
      var s := NatToString(n);
      var prefix := NatToString(n / 10);
      assert s[..|s| - 1] == prefix;
      NatToStringValue(n / 10);
    }
  }

  // ---------------------------------------------------------------------
  // White space, as String.prototype.trim and parseInt see it

  /** WhiteSpace and LineTerminator code points of ECMAScript (section 12.2 and
      12.3 of ECMA-262): TAB, LF, VT, FF, CR, SPACE, NBSP, the BOM, the Zs
      category, LINE SEPARATOR and PARAGRAPH SEPARATOR. */
  predicate IsJsWhitespace(c: char) {
    var n := c as int;
    if n < 0xA0 then n == 0x20 || 0x09 <= n <= 0x0D
    else (n == 0xA0 || n == 0x1680 || (0x2000 <= n <= 0x200A)
          || n == 0x2028 || n == 0x2029 || n == 0x202F || n == 0x205F
          || n == 0x3000 || n == 0xFEFF)
  }

  function TrimStart(s: string): (r: string)
    ensures |r| <= |s| && r == s[|s| - |r|..]
    ensures r != [] ==> !IsJsWhitespace(r[0])
    ensures forall i :: 0 <= i < |s| - |r| ==> IsJsWhitespace(s[i])
  {
    if s != [] && IsJsWhitespace(s[0]) then TrimStart(s[1..]) else s
  }

  function TrimEnd(s: string): (r: string)
    ensures r <= s
    ensures r != [] ==> !IsJsWhitespace(r[|r| - 1])
    ensures forall i :: |r| <= i < |s| ==> IsJsWhitespace(s[i])
  {
    if s != [] && IsJsWhitespace(s[|s| - 1]) then TrimEnd(s[..|s| - 1]) else s
  }

  /** String.prototype.trim: white space removed from both ends. */
  function Trim(s: string): (r: string)
    ensures r != [] ==> !IsJsWhitespace(r[0]) && !IsJsWhitespace(r[|r| - 1])
    ensures (forall i :: 0 <= i < |s| ==> !IsJsWhitespace(s[i])) ==> r == s
    ensures exists lead, trail :: s == lead + r + trail && IsBlank(lead) && IsBlank(trail)
  {
    TrimSlice(s);
    TrimEnd(TrimStart(s))
  }

  /** Nothing but white space. */
  predicate IsBlank(s: string)
  {
    forall c :: c in s ==> IsJsWhitespace(c)
  }

  /** Trimming cuts a string into white space, what `Trim` keeps, and white
      space. */
  lemma {:induction false} TrimSlice(s: string)
    ensures exists lead, trail :: s == lead + TrimEnd(TrimStart(s)) + trail && IsBlank(lead) && IsBlank(trail)
  {
    var a := TrimStart(s);
    TrimStartBlank(s);
    TrimEndBlank(a);
    Recompose(s, a, TrimEnd(a));
  }

  /** A suffix `a` of `s` and a prefix `b` of `a` cut `s` into three. */
  lemma Recompose(s: string, a: string, b: string)
    requires |a| <= |s| && a == s[|s| - |a|..] && b <= a
    requires IsBlank(s[..|s| - |a|]) && IsBlank(a[|b|..])
    ensures exists lead, trail :: s == lead + b + trail && IsBlank(lead) && IsBlank(trail)
  {
    var lead := s[..|s| - |a|];
    var trail := a[|b|..];
    assert s == lead + a;
    assert a == b + trail;
    assert s == lead + b + trail;
  }

  /** What `TrimStart` drops is white space. */
  lemma {:induction false} TrimStartBlank(s: string)
    ensures IsBlank(s[..|s| - |TrimStart(s)|])
  {
    var lead := s[..|s| - |TrimStart(s)|];
    forall c | c in lead
      ensures IsJsWhitespace(c)
    {
      var k :| 0 <= k < |lead| && lead[k] == c;
      assert s[k] == c;
    }
  }

  /** What `TrimEnd` drops is white space. */
  lemma {:induction false} TrimEndBlank(s: string)
    ensures IsBlank(s[|TrimEnd(s)|..])
  {
    var n := |TrimEnd(s)|;
    var trail := s[n..];
    forall c | c in trail
      ensures IsJsWhitespace(c)
    {
      var k :| 0 <= k < |trail| && trail[k] == c;
      assert s[n + k] == c;
    }
  }

  // ---------------------------------------------------------------------
  // parseInt (section 19.2.5 of ECMA-262), with no radix argument

  /** The longest prefix of `s` made of digits of the radix. */
  function LeadingDigits(s: string, radix: nat): (p: string)
    ensures AllRadixDigits(p, radix)
  {
    if s == [] || !IsRadixDigit(s[0], radix) then []
    else [s[0]] + LeadingDigits(s[1..], radix)
  }

  /** `parseInt(text)`: None stands for NaN. Leading white space is skipped,
      then one optional sign is read; the value is that of what follows. */
  function ParseInt(text: string): Option<int>
  {
    if text != [] && IsJsWhitespace(text[0]) then ParseInt(text[1..]) else ParseSigned(text)
  }

  /** One optional sign, then the magnitude. */
  function ParseSigned(s: string): Option<int>
  {
    var signed := |s| > 0 && (s[0] == '-' || s[0] == '+');
    var magnitude := ParseUnsigned(if signed then s[1..] else s);
    if |s| > 0 && s[0] == '-' then Negated(magnitude) else magnitude
  }

  /** The value read after a `-` sign; NaN stays NaN. */
  function Negated(value: Option<int>): Option<int>
  {
    match value
    case None => None
    case Some(n) => Some(-n)
  }

  /** After the sign, a `0x`/`0X` prefix switches to radix 16. */
  function ParseUnsigned(s: string): Option<int>
  {
    var hex := |s| >= 2 && s[0] == '0' && (s[1] == 'x' || s[1] == 'X');
    ParseDigitRun(if hex then s[2..] else s, if hex then 16 else 10)
  }

  /** The value of the longest run of digits at the start of `s`; NaN when
      there is none. */
  function ParseDigitRun(s: string, radix: nat): (r: Option<int>)
    ensures r.Some? <==> s != [] && IsRadixDigit(s[0], radix)
    ensures r.Some? ==> r.value >= 0
  {
    var digits := LeadingDigits(s, radix);
    if digits == [] then None else Some(DigitsValue(digits, radix))
  }

  /** `parseInt("")` is NaN. */
  lemma ParseIntOfEmpty()
    ensures ParseInt("") == None
  {
    assert ParseUnsigned("") == ParseDigitRun("", 10);
  }

  lemma TrimStartOfUnspaced(s: string)
    requires s != [] ==> !IsJsWhitespace(s[0])
    ensures TrimStart(s) == s
  {
  }

  /** `parseInt` undoes the decimal rendering of every integer. */
  lemma ParseIntOfIntToString(i: int)
    ensures ParseInt(IntToString(i)) == Some(i)
  {
    if i < 0 {
      ParseIntOfNegative(i);
    } else {
      ParseIntOfNatToString(i);
    }
  }

  lemma ParseIntOfNegative(i: int)
    requires i < 0
    ensures ParseInt(IntToString(i)) == Some(i)
  {
    var digits := NatToString(-i);
    assert IntToString(i) == ['-'] + digits;
    ParseIntOfNatToString(-i);
    ParseIntOfMinusDigits(digits, -i);
  }

  lemma ParseIntOfMinusDigits(digits: string, n: int)
    requires digits != [] && IsDigit(digits[0]) && ParseInt(digits) == Some(n)
    ensures ParseInt(['-'] + digits) == Some(-n)
  {
    ParseIntAfterMinus(digits);
  }

  /** `parseInt` skips a leading `+`: "+7" reads as 7. */
  lemma ParseIntOfPlusSigned(i: int)
    requires i > 0
    ensures ParseInt("+" + IntToString(i)) == Some(i)
  {
    ParseIntOfNatToString(i);
    ParseIntAfterPlus(NatToString(i));
  }

  /** The decimal rendering of a natural number reads as that number. */
  lemma ParseIntOfNatToString(n: nat)
    ensures ParseInt(NatToString(n)) == Some(n)
  {
    NatToStringValue(n);
    ParseIntOfDigits(NatToString(n));
  }

  /** Decimal digits read as their value. */
  lemma ParseIntOfDigits(digits: string)
    requires |digits| >= 1 && AllRadixDigits(digits, 10)
    ensures ParseInt(digits) == Some(DigitsValue(digits, 10))
  {
    assert IsDigit(digits[0]);
    ParseIntOfDigitStart(digits);
    assert |digits| >= 2 ==> IsDigit(digits[1]);
    ParseUnsignedDecimal(digits);
    ParseDigitRunOfDigits(digits);
  }

  /** A `-` in front of text that starts with a digit negates what
      `parseInt` reads from that text. */
  lemma ParseIntAfterMinus(rest: string)
    requires rest != [] && IsDigit(rest[0])
    ensures ParseInt(['-'] + rest) == Negated(ParseInt(rest))
  {
    var s := ['-'] + rest;
    ParseIntOfUnspaced(s);
    ParseIntOfDigitStart(rest);
    assert s[1..] == rest;
  }

  /** A `+` in front of text that starts with a digit changes nothing. */
  lemma ParseIntAfterPlus(rest: string)
    requires rest != [] && IsDigit(rest[0])
    ensures ParseInt(['+'] + rest) == ParseInt(rest)
  {
    var s := ['+'] + rest;
    ParseIntOfUnspaced(s);
    ParseIntOfDigitStart(rest);
    assert s[1..] == rest;
  }

  /** Text that does not start with white space goes straight to the sign. */
  lemma ParseIntOfUnspaced(s: string)
    requires s != [] && !IsJsWhitespace(s[0])
    ensures ParseInt(s) == ParseSigned(s)
  {
  }

  lemma ParseIntOfDigitStart(s: string)
    requires s != [] && IsDigit(s[0])
    ensures ParseInt(s) == ParseUnsigned(s)
  {
    ParseIntOfUnspaced(s);
  }

  /** Without a `0x` prefix the magnitude is read in radix 10. */
  lemma ParseUnsignedDecimal(s: string)
    requires !(|s| >= 2 && s[0] == '0' && (s[1] == 'x' || s[1] == 'X'))
    ensures ParseUnsigned(s) == ParseDigitRun(s, 10)
  {
  }

  /** A run of decimal digits reads as its value. */
  lemma ParseDigitRunOfDigits(digits: string)
    requires |digits| >= 1 && AllRadixDigits(digits, 10)
    ensures ParseDigitRun(digits, 10) == Some(DigitsValue(digits, 10))
  {
    LeadingDigitsOfDigits(digits, 10);
  }

  lemma {:induction false} LeadingDigitsOfDigits(s: string, radix: nat)
    requires AllRadixDigits(s, radix)
    ensures LeadingDigits(s, radix) == s
  {
    if s != [] {
      LeadingDigitsOfDigits(s[1..], radix);
    }
  }

  /** The text the keyboard can build: decimal digits and `-` only. */
  predicate IsModifierText(s: string) {
    forall i :: 0 <= i < |s| ==> IsDigit(s[i]) || s[i] == '-'
  }

  /** How a modifier typed on the keyboard reads: an optional leading `-`,
      then the longest run of decimal digits; nothing when there is no digit. */
  function KeyboardModifierValue(s: string): Option<int>
  {
    var negative := |s| > 0 && s[0] == '-';
    var digits := LeadingDigits(if negative then s[1..] else s, 10);
    var magnitude: int := if digits == [] then 0 else DigitsValue(digits, 10);
    if digits == [] then None else Some(if negative then -magnitude else magnitude)
  }

  /** On keyboard text parseInt is that simple reading: no white space, no
      `+` and no `0x` prefix can occur. So "-" and "" give NaN and "5-" gives 5. */
  lemma ParseIntOfModifierText(s: string)
    requires IsModifierText(s)
    ensures ParseInt(s) == KeyboardModifierValue(s)
  {
    if s == [] {
      ParseIntOfEmpty();
    } else if s[0] == '-' {
      var rest := s[1..];
      ParseIntOfUnspaced(s);
      assert ParseSigned(s) == Negated(ParseUnsigned(rest));
      assert |rest| >= 2 ==> IsDigit(rest[1]) || rest[1] == '-';
      ParseUnsignedDecimal(rest);
    } else {
      assert IsDigit(s[0]);
      ParseIntOfDigitStart(s);
      assert |s| >= 2 ==> IsDigit(s[1]) || s[1] == '-';
      ParseUnsignedDecimal(s);
    }
  }

  // ---------------------------------------------------------------------
  // split and join with a one-character separator

  /** Index of the first occurrence of `c` in `s`. */
  function IndexOf(s: string, c: char): (i: nat)
    requires c in s
    ensures i < |s| && s[i] == c && c !in s[..i]
  {
    if s[0] == c then 0 else 1 + IndexOf(s[1..], c)
  }

  /** Array.prototype.join with separator `sep`. */
  function Join(parts: seq<string>, sep: string): string
  {
    if parts == [] then ""
    else if |parts| == 1 then parts[0]
    else parts[0] + sep + Join(parts[1..], sep)
  }

  /** String.prototype.split with a one-character separator: the pieces of `s`
      between the occurrences of `sep`; joining them back gives `s`. */
  function Split(s: string, sep: char): (parts: seq<string>)
    ensures |parts| >= 1
    ensures forall i :: 0 <= i < |parts| ==> sep !in parts[i]
    ensures Join(parts, [sep]) == s
    decreases |s|
  {
    if sep !in s then [s]
    else
      var i := IndexOf(s, sep);
      assert s == s[..i] + [sep] + s[i + 1..];
      [s[..i]] + Split(s[i + 1..], sep)
  }

  /** Splitting the join of pieces that do not hold the separator gives the
      pieces back. */
  lemma {:induction false} SplitJoin(parts: seq<string>, sep: char)
    requires |parts| >= 1
    requires forall i :: 0 <= i < |parts| ==> sep !in parts[i]
    ensures Split(Join(parts, [sep]), sep) == parts
  {
    if |parts| > 1 {
      var s := Join(parts, [sep]);
      var rest := Join(parts[1..], [sep]);
      assert s == parts[0] + [sep] + rest;
      assert s[..|parts[0]|] == parts[0];
      assert s[|parts[0]|] == sep;
      var i := IndexOf(s, sep);
      assert i == |parts[0]|;
      assert s[..i] == parts[0];
      assert s[i + 1..] == rest;
      SplitJoin(parts[1..], sep);
    } else {
      assert Join(parts, [sep]) == parts[0];
    }
  }
}
