/**
 * Python's `hex(n)` and `int(s, 16)`: the text form the container codec uses
 * for integer keys and for integer and boolean values.
 */
module HexText {
  import opened Wrappers

  /** The lower-case hexadecimal digit of `d`. */
  function DigitChar(d: int): (c: char)
    requires 0 <= d < 16
  {
    if d < 10 then (48 + d) as char else (87 + d) as char
  }

  /** The digits of `n` in base 16, most significant first, without padding. */
  function Digits(n: nat): string
    decreases n
  {
    if n < 16 then [DigitChar(n)] else Digits(n / 16) + [DigitChar(n % 16)]
  }

  /** `hex(n)`: "0x" and the digits, with a leading "-" for a negative `n`. */
  function Hex(n: int): string
  {
    if n < 0 then "-0x" + Digits(-n) else "0x" + Digits(n)
  }

  /** The value of one hexadecimal digit, upper or lower case, as `int(c, 16)` reads it. */
  function DigitValue(c: char): (r: Option<nat>)
    ensures r.Some? ==> r.value < 16
  {
    if '0' <= c <= '9' then Some(c as int - 48)
    else if 'a' <= c <= 'f' then Some(c as int - 87)
    else if 'A' <= c <= 'F' then Some(c as int - 55)
    else None
  }

  /** The value of a non-empty run of hexadecimal digits. */
  function ParseDigits(s: string): Option<nat>
    requires |s| > 0
  {
    var last := DigitValue(s[|s| - 1]);
    if last.None? then None
    else if |s| == 1 then last
    else
      match ParseDigits(s[..|s| - 1])
      case None => None
      case Some(v) => Some(v * 16 + last.value)
  }

  /**
   * `int(s, 16)` on the text `hex` writes: an optional sign, an optional
   * "0x" or "0X", and at least one ASCII hexadecimal digit; `None` for
   * anything else, including texts Python also accepts (surrounding
   * whitespace, `_` between digits, non-ASCII digits).
   */
  function ParseInt16(s: string): Option<int>
  {
    var negative := |s| > 0 && s[0] == '-';
    var unsigned := if |s| > 0 && (s[0] == '-' || s[0] == '+') then s[1..] else s;
    var body := if |unsigned| >= 2 && unsigned[0] == '0' && (unsigned[1] == 'x' || unsigned[1] == 'X')
                then unsigned[2..] else unsigned;
    if body == [] then None
    else
      match ParseDigits(body)
      case None => None
      case Some(v) =>
        var value: int := if negative then 0 - v as int else v;
        Some(value)
  }

  lemma {:induction false} ParseDigitsOfDigits(n: nat)
    ensures ParseDigits(Digits(n)) == Some(n)
    decreases n
  {
    if n >= 16 {
      var init := Digits(n / 16);
      ParseDigitsOfDigits(n / 16);
      assert (init + [DigitChar(n % 16)])[..|init|] == init;
    }
  }

  /** Reading back the text of `hex(n)` gives `n`: `int(hex(n), 16) == n`. */
  lemma ParseHex(n: int)
    ensures ParseInt16(Hex(n)) == Some(n)
  {
    if n < 0 {
      ParseDigitsOfDigits(-n);
      assert Hex(n)[3..] == Digits(-n);
    } else {
      ParseDigitsOfDigits(n);
      assert Hex(n)[2..] == Digits(n);
    }
  }

  /** `hex` is injective. */
  lemma HexInjective(m: int, n: int)
    requires Hex(m) == Hex(n)
    ensures m == n
  {
    ParseHex(m);
    ParseHex(n);
  }

  predicate IsLowerHexDigit(c: char) {
    '0' <= c <= '9' || 'a' <= c <= 'f'
  }

  /** The digits are lower case and, but for zero itself, have no leading zero. */
  lemma {:induction false} DigitsShape(n: nat)
    ensures |Digits(n)| >= 1
    ensures forall i :: 0 <= i < |Digits(n)| ==> IsLowerHexDigit(Digits(n)[i])
    ensures Digits(n)[0] == '0' <==> n == 0
    decreases n
  {
    if n >= 16 {
      DigitsShape(n / 16);
    }
  }

  /** `hex(n)` is "0x" or "-0x" followed by unpadded lower-case digits: ASCII with no `|`. */
  lemma HexShape(n: int)
    ensures Hex(n)[..2] == "0x" || Hex(n)[..3] == "-0x"
    ensures n >= 0 ==> Hex(n) == "0x" + Digits(n)
    ensures forall i :: 0 <= i < |Hex(n)| ==> Hex(n)[i] as int < 0x80 && Hex(n)[i] != '|'
  {
    DigitsShape(if n < 0 then -n else n);
  }
}
