/** The two kinds of JSON token that carry text: string literals and integers (RFC 8259, sections 6 and 7). */
module JsonText {
  import opened Options
  import opened Utf8

  // ---------------------------------------------------------------- integers

  function Digit(n: nat): char
    requires n < 10
  {
    ('0' as int + n) as char
  }

  function Digits(n: nat): string {
    if n < 10 then [Digit(n)] else Digits(n / 10) + [Digit(n % 10)]
  }

  function PrintInt(n: int): string {
    if n < 0 then "-" + Digits(-n) else Digits(n)
  }

  function DigitOf(c: char): Option<nat> {
    if '0' <= c <= '9' then Some(c as int - '0' as int) else None
  }

  function ParseNat(t: string): Option<nat> {
    if t == "" then None
    else
      var front, last := t[..|t| - 1], DigitOf(t[|t| - 1]);
      if last.None? then None
      else if front == "" then last
      else match ParseNat(front)
        case None => None
        case Some(n) => Some(10 * n + last.value)
  }

  function ParseInt(t: string): Option<int> {
    if t != "" && t[0] == '-' then
      var n: Option<int> := ParseNat(t[1..]);
      if n.None? then None else Some(-n.value)
    else ParseNat(t)
  }

  predicate NumberChar(c: char) {
    c == '-' || DigitOf(c).Some?
  }

  lemma {:induction false} ParseDigits(n: nat)
    ensures ParseNat(Digits(n)) == Some(n)
    ensures forall i :: 0 <= i < |Digits(n)| ==> DigitOf(Digits(n)[i]).Some?
    ensures Digits(n) != ""
  {
    if n >= 10 {
      ParseDigits(n / 10);
      assert Digits(n)[..|Digits(n)| - 1] == Digits(n / 10);
    }
  }

  lemma ParsePrintedInt(n: int)
    ensures ParseInt(PrintInt(n)) == Some(n)
    ensures PrintInt(n) != "" && forall i :: 0 <= i < |PrintInt(n)| ==> NumberChar(PrintInt(n)[i])
  {
    hide Digits, ParseNat;
    if n < 0 {
      ParseDigits(-n);
      assert PrintInt(n)[1..] == Digits(-n);
    } else {
      ParseDigits(n);
    }
  }

  /** No superfluous zero stands in front, and a minus only before a negative number. */
  lemma {:induction false} IntegersLead(n: int)
    ensures PrintInt(n)[0] == '0' <==> n == 0
    ensures PrintInt(n)[0] == '-' <==> n < 0
    ensures n < 0 ==> PrintInt(n)[1] != '0' && PrintInt(n)[1] != '-'
  {
    DigitsLead(if n < 0 then -n else n);
  }

  lemma {:induction false} DigitsLead(n: nat)
    ensures Digits(n) != "" && (Digits(n)[0] == '0' <==> n == 0) && Digits(n)[0] != '-'
  {
    if n >= 10 {
      DigitsLead(n / 10);
    }
  }

  // ---------------------------------------------------------------- hexadecimal escapes

  function HexDigit(n: nat): char
    requires n < 16
  {
    if n < 10 then ('0' as int + n) as char else ('a' as int + n - 10) as char
  }

  function PrintHex(n: nat): string
    requires n < 0x10000
  {
    [HexDigit(n / 0x1000), HexDigit(n / 0x100 % 0x10), HexDigit(n / 0x10 % 0x10), HexDigit(n % 0x10)]
  }

  function HexOf(c: char): Option<nat> {
    if '0' <= c <= '9' then Some(c as int - '0' as int)
    else if 'a' <= c <= 'f' then Some(c as int - 'a' as int + 10)
    else if 'A' <= c <= 'F' then Some(c as int - 'A' as int + 10)
    else None
  }

  /** The code unit of a `\uXXXX` escape that starts at the head of `t`. */
  function ParseUnit(t: string): Option<nat> {
    if |t| < 6 || t[0] != '\\' || t[1] != 'u' then None
    else match (HexOf(t[2]), HexOf(t[3]), HexOf(t[4]), HexOf(t[5]))
      case (Some(a), Some(b), Some(c), Some(d)) => Some(a * 0x1000 + b * 0x100 + c * 0x10 + d)
      case _ => None
  }

  function Unit(n: nat): string
    requires n < 0x10000
  {
    "\\u" + PrintHex(n)
  }

  lemma HexOfDigit(n: nat)
    requires n < 16
    ensures HexOf(HexDigit(n)) == Some(n)
  {
  }

  lemma FourHexDigits(n: nat)
    requires n < 0x10000
    ensures n / 0x1000 < 16
    ensures n / 0x1000 * 0x1000 + n / 0x100 % 0x10 * 0x100 + n / 0x10 % 0x10 * 0x10 + n % 0x10 == n
  {
    assert n == n / 0x10 * 0x10 + n % 0x10;
    assert n / 0x10 == n / 0x100 * 0x10 + n / 0x10 % 0x10;
    assert n / 0x100 == n / 0x1000 * 0x10 + n / 0x100 % 0x10;
  }

  lemma ParsePrintedUnit(n: nat, rest: string)
    requires n < 0x10000
    ensures ParseUnit(Unit(n) + rest) == Some(n)
  {
    FourHexDigits(n);
    var a, b, c, d := n / 0x1000, n / 0x100 % 0x10, n / 0x10 % 0x10, n % 0x10;
    HexOfDigit(a);
    HexOfDigit(b);
    HexOfDigit(c);
    HexOfDigit(d);
    hide HexOf, HexDigit;
    var t := Unit(n) + rest;
    assert t[0] == '\\' && t[1] == 'u';
    assert t[2] == HexDigit(a) && t[3] == HexDigit(b) && t[4] == HexDigit(c) && t[5] == HexDigit(d);
  }

  // ---------------------------------------------------------------- string literals

  /** How one character is written; `ascii` is the `ensure_ascii` flag of `json.dumps`. */
  function EscapeChar(c: char, ascii: bool): (e: string)
    ensures e != ""
  {
    var n := c as int;
    if c == '\"' then "\\\""
    else if c == '\\' then "\\\\"
    else if c == '\n' then "\\n"
    else if c == '\r' then "\\r"
    else if c == '\t' then "\\t"
    else if n == 0x08 then "\\b"
    else if n == 0x0C then "\\f"
    else if n < 0x20 then Unit(n)
    else if !ascii || n <= 0x7E then [c]
    else if n < 0x10000 then Unit(n)
    else Unit(0xD800 + (n - 0x10000) / 0x400) + Unit(0xDC00 + (n - 0x10000) % 0x400)
  }

  function Escape(s: string, ascii: bool): string {
    if s == "" then "" else EscapeChar(s[0], ascii) + Escape(s[1..], ascii)
  }

  function PrintString(s: string, ascii: bool): string {
    "\"" + Escape(s, ascii) + "\""
  }

  function Simple(c: char): Option<char> {
    if c == '\"' || c == '\\' || c == '/' then Some(c)
    else if c == 'n' then Some('\n')
    else if c == 'r' then Some('\r')
    else if c == 't' then Some('\t')
    else if c == 'b' then Some(0x08 as char)
    else if c == 'f' then Some(0x0C as char)
    else None
  }

  /** The character at the head of a literal's inside, and how much text it takes. */
  function ParseChar(t: string): (r: Option<(char, nat)>)
    requires t != ""
    ensures r.Some? ==> 1 <= r.value.1 <= |t|
  {
    if t[0] != '\\' then
      if t[0] as int < 0x20 then None else Some((t[0], 1))
    else if |t| < 2 then None
    else if t[1] != 'u' then
      match Simple(t[1])
      case Some(c) => Some((c, 2))
      case None => None
    else match ParseUnit(t)
      case None => None
      case Some(unit) =>
        if 0xD800 <= unit < 0xDC00 then
          // The first half of a surrogate pair (section 7).
          match ParseUnit(t[6..])
          case Some(low) =>
            if 0xDC00 <= low < 0xE000 then Some((CodePoint(unit, low), 12)) else None
          case None => None
        else match CharOf(unit)
          case Some(c) => Some((c, 6))
          case None => None
  }

  function CodePoint(high: nat, low: nat): char
    requires 0xD800 <= high < 0xDC00 && 0xDC00 <= low < 0xE000
  {
    (0x10000 + (high - 0xD800) * 0x400 + (low - 0xDC00)) as char
  }

  /** The inside of a literal up to its closing quote, and the text after it. */
  function ParseString(t: string): (r: Option<(string, string)>)
    ensures r.Some? ==> |r.value.1| < |t|
    decreases |t|
  {
    if t == "" then None
    else if t[0] == '\"' then Some(("", t[1..]))
    else match ParseChar(t)
      case None => None
      case Some((c, size)) =>
        match ParseString(t[size..])
        case None => None
        case Some((s, rest)) => Some(([c] + s, rest))
  }

  lemma ParsePrintedPair(c: char, rest: string)
    requires c as int >= 0x10000
    ensures var n := c as int - 0x10000;
            ParseChar(Unit(0xD800 + n / 0x400) + Unit(0xDC00 + n % 0x400) + rest) == Some((c, 12))
  {
    var n := c as int - 0x10000;
    var high, low := 0xD800 + n / 0x400, 0xDC00 + n % 0x400;
    assert n == n / 0x400 * 0x400 + n % 0x400;
    assert CodePoint(high, low) == c;
    var t := Unit(high) + Unit(low) + rest;
    ParsePrintedUnit(high, Unit(low) + rest);
    ParsePrintedUnit(low, rest);
    hide ParseUnit, CodePoint;
    assert t == Unit(high) + (Unit(low) + rest);
    assert t[6..] == Unit(low) + rest;
  }

  lemma ParsePrintedEscape(c: char, rest: string)
    requires c as int < 0x10000
    ensures ParseChar(Unit(c as int) + rest) == Some((c, 6))
  {
    ParsePrintedUnit(c as int, rest);
    hide ParseUnit;
    assert IsScalar(c as int);
  }

  lemma ParseEscapedChar(c: char, ascii: bool, rest: string)
    ensures (EscapeChar(c, ascii) + rest)[0] != '\"'
    ensures ParseChar(EscapeChar(c, ascii) + rest) == Some((c, |EscapeChar(c, ascii)|))
  {
    hide ParseUnit;
    var n := c as int;
    var e := EscapeChar(c, ascii);
    if e == [c] {
      assert (e + rest)[0] == c;
    } else if |e| == 2 {
      assert (e + rest)[0] == e[0] && (e + rest)[1] == e[1];
    } else if n < 0x10000 {
      ParsePrintedEscape(c, rest);
    } else {
      ParsePrintedPair(c, rest);
    }
  }

  lemma {:induction false} ParseEscaped(s: string, ascii: bool, rest: string)
    ensures ParseString(Escape(s, ascii) + "\"" + rest) == Some((s, rest))
  {
    hide EscapeChar, ParseChar;
    if s == "" {
      assert "" + "\"" + rest == "\"" + rest;
      assert ("\"" + rest)[1..] == rest;
    } else {
      var first, tail := EscapeChar(s[0], ascii), Escape(s[1..], ascii) + "\"" + rest;
      assert Escape(s, ascii) + "\"" + rest == first + tail;
      ParseEscapedChar(s[0], ascii, tail);
      assert (first + tail)[|first|..] == tail;
      ParseEscaped(s[1..], ascii, rest);
      assert s == [s[0]] + s[1..];
    }
  }

  // ---------------------------------------------------------------- which characters are escaped

  const SHORT := ['\"', '\\', '\n', '\r', '\t', 0x08 as char, 0x0C as char]

  /** A character that stands for itself in a literal. */
  predicate Plain(c: char, ascii: bool) {
    c >= ' ' && c != '\"' && c != '\\' && (ascii ==> c <= '~')
  }

  predicate LowerHex(c: char) {
    '0' <= c <= '9' || 'a' <= c <= 'f'
  }

  /** Plain characters stand for themselves, some take a short escape, all others lower-case code units. */
  lemma EscapesOnlyWhatItMust(c: char, ascii: bool)
    ensures var e := EscapeChar(c, ascii);
            if Plain(c, ascii) then e == [c]
            else if c in SHORT then |e| == 2 && e[0] == '\\' && Simple(e[1]) == Some(c)
            else
              && (if c as int < 0x10000 then |e| == 6 else |e| == 12 && e[6] == '\\' && e[7] == 'u')
              && e[0] == '\\' && e[1] == 'u'
              && forall i :: 0 <= i < |e| && i % 6 >= 2 ==> LowerHex(e[i])
  {
    var n := c as int;
    if !Plain(c, ascii) && c !in SHORT {
      if n < 0x10000 {
        UnitIsLower(n);
      } else {
        UnitIsLower(0xD800 + (n - 0x10000) / 0x400);
        UnitIsLower(0xDC00 + (n - 0x10000) % 0x400);
      }
    }
  }

  lemma UnitIsLower(n: nat)
    requires n < 0x10000
    ensures |Unit(n)| == 6 && Unit(n)[0] == '\\' && Unit(n)[1] == 'u'
    ensures forall i :: 2 <= i < 6 ==> LowerHex(Unit(n)[i])
  {
    FourHexDigits(n);
  }

  /** A text of plain characters is printed as it is. */
  lemma {:induction false} PlainTextStands(s: string, ascii: bool)
    requires forall i :: 0 <= i < |s| ==> Plain(s[i], ascii)
    ensures Escape(s, ascii) == s && PrintString(s, ascii) == "\"" + s + "\""
  {
    hide EscapeChar;
    if s != "" {
      EscapesOnlyWhatItMust(s[0], ascii);
      PlainTextStands(s[1..], ascii);
      assert s == [s[0]] + s[1..];
    }
  }

  predicate Visible(t: string, ascii: bool) {
    forall i :: 0 <= i < |t| ==> t[i] >= ' ' && (ascii ==> t[i] <= '~')
  }

  lemma {:induction false} StringIsVisible(s: string, ascii: bool)
    ensures Visible(Escape(s, ascii), ascii) && Visible(PrintString(s, ascii), ascii)
  {
    hide EscapeChar, Unit;
    if s != "" {
      EscapesOnlyWhatItMust(s[0], ascii);
      EscapeIsVisible(s[0], ascii);
      StringIsVisible(s[1..], ascii);
    }
  }

  lemma EscapeIsVisible(c: char, ascii: bool)
    ensures Visible(EscapeChar(c, ascii), ascii)
  {
    hide EscapeChar;
    EscapesOnlyWhatItMust(c, ascii);
    var e := EscapeChar(c, ascii);
    if !Plain(c, ascii) && c in SHORT {
      assert e == [e[0], e[1]];
    }
  }
}
