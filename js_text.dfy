/** The few JavaScript built-ins that the two marketplace pages lean on, written out so that
    the page models can be stated exactly: `Array#slice`/`String#slice` index clamping,
    `parseInt(s, 16)`, the store into a `Uint8Array` element, and `Number#toString` on a
    non-negative integer. A character is a Unicode scalar value, so positions are counted in
    scalar values where JavaScript counts UTF-16 code units; the two agree on every string
    without characters beyond the Basic Multilingual Plane. */
module JsText {

  datatype Option<+T> = None | Some(value: T)

  /** An element of a `Uint8Array`. */
  type Byte = x: int | 0 <= x < 256

  // ---------------------------------------------------------------------------------------
  // slice

  /** The position a relative `slice` index denotes in a sequence of length `len`:
      a negative index counts back from the end, and both ends are clamped to `0..len`. */
  function RelativeIndex(rel: int, len: nat): (k: nat)
    ensures k <= len
    ensures 0 <= rel <= len ==> k == rel
    ensures rel < 0 && 0 <= len + rel ==> k == len + rel
  {
    if rel < 0 then (if len + rel < 0 then 0 else len + rel)
    else if rel > len then len
    else rel
  }

  /** `s.slice(start, end)`. */
  function Slice<T>(s: seq<T>, start: int, end: int): (r: seq<T>)
    ensures |r| <= |s|
    ensures 0 <= start <= end <= |s| ==> r == s[start..end]
    ensures 0 <= end <= start || end <= start < 0 ==> r == []
  {
    var from, to := RelativeIndex(start, |s|), RelativeIndex(end, |s|);
    if from < to then s[from..to] else []
  }

  /** `s.slice(start)`: the end defaults to the length. */
  function SliceFrom<T>(s: seq<T>, start: int): (r: seq<T>)
    ensures 0 <= start <= |s| ==> r == s[start..]
    ensures start < 0 && -start <= |s| ==> r == s[|s| + start..]
    ensures start < 0 && -start > |s| ==> r == s
    ensures start > |s| ==> r == []
  {
    s[RelativeIndex(start, |s|)..]
  }

  /** `s.substr(start, 2)` for `0 <= start`: at most two characters, fewer at the end. */
  function Substr2(s: string, start: nat): (r: string)
    ensures |r| <= 2
    ensures start + 2 <= |s| ==> r == s[start..start + 2]
  {
    if start >= |s| then "" else if start + 2 <= |s| then s[start..start + 2] else s[start..]
  }

  // ---------------------------------------------------------------------------------------
  // parseInt(s, 16)

  /** The characters `parseInt` skips before the number: ECMAScript's StrWhiteSpaceChar,
      that is WhiteSpace (tab, vertical tab, form feed, no-break space, byte order mark and
      the Unicode space separators) and LineTerminator. */
  predicate IsJsWhiteSpace(c: char) {
    || c == '\t' || c == '\n' || c == '\U{000B}' || c == '\U{000C}' || c == '\r'
    || c == ' ' || c == '\U{00A0}' || c == '\U{1680}'
    || ('\U{2000}' <= c <= '\U{200A}')
    || c == '\U{2028}' || c == '\U{2029}' || c == '\U{202F}' || c == '\U{205F}'
    || c == '\U{3000}' || c == '\U{FEFF}'
  }

  /** The value of a radix-16 digit, in either case. */
  function HexDigitValue(c: char): Option<nat>
  {
    if '0' <= c <= '9' then Some(c as int - '0' as int)
    else if 'a' <= c <= 'f' then Some(c as int - 'a' as int + 10)
    else if 'A' <= c <= 'F' then Some(c as int - 'A' as int + 10)
    else None
  }

  predicate IsHexDigit(c: char) {
    HexDigitValue(c).Some?
  }

  lemma HexDigitBound(c: char)
    requires IsHexDigit(c)
    ensures HexDigitValue(c).value < 16
  {
  }

  function TrimStart(s: string): (r: string)
    ensures |r| <= |s|
    ensures r == [] || !IsJsWhiteSpace(r[0])
  {
    if |s| > 0 && IsJsWhiteSpace(s[0]) then TrimStart(s[1..]) else s
  }

  /** The number of leading radix-16 digits of `s`. */
  function HexRunLength(s: string): (n: nat)
    ensures n <= |s|
  {
    if |s| > 0 && IsHexDigit(s[0]) then 1 + HexRunLength(s[1..]) else 0
  }

  /** The run is exactly the leading digits: all of them, up to the first non-digit. */
  lemma {:induction false} HexRunDigits(s: string)
    ensures forall i :: 0 <= i < HexRunLength(s) ==> IsHexDigit(s[i])
    ensures HexRunLength(s) < |s| ==> !IsHexDigit(s[HexRunLength(s)])
  {
    if |s| > 0 && IsHexDigit(s[0]) {
      HexRunDigits(s[1..]);
      forall i | 0 < i < HexRunLength(s) ensures IsHexDigit(s[i]) {
        assert s[i] == s[1..][i - 1];
      }
    }
  }

  /** The value of a string of radix-16 digits, most significant first (only ever applied
      to a run of digits, see `HexRunDigits`). */
  function HexValue(ds: string): nat
  {
    if ds == [] then 0
    else 16 * HexValue(ds[..|ds| - 1]) + match HexDigitValue(ds[|ds| - 1]) case Some(d) => d case None => 0
  }

  /** `parseInt(s, 16)`: skip leading white space, take an optional sign, drop an optional
      `0x`/`0X`, then read the longest run of radix-16 digits; no digit at all gives NaN
      (`None`). The value is exact for the strings of at most two characters it is applied to
      here (a longer run would be rounded to a double). */
  function ParseIntHex(s: string): Option<int>
  {
    var t := TrimStart(s);
    var negative := |t| > 0 && t[0] == '-';
    var unsigned := if |t| > 0 && (t[0] == '-' || t[0] == '+') then t[1..] else t;
    var body := if |unsigned| >= 2 && unsigned[0] == '0' && (unsigned[1] == 'x' || unsigned[1] == 'X')
                then unsigned[2..] else unsigned;
    var n := HexRunLength(body);
    if n == 0 then None
    else
      var v: int := HexValue(body[..n]);
      Some(if negative then -v else v)
  }

  /** `x` brought into `0..255` by whole multiples of 256. */
  function Wrap256(x: int): Byte
    decreases if x < 0 then 256 - x else x
  {
    if 0 <= x < 256 then x else if x < 0 then Wrap256(x + 256) else Wrap256(x - 256)
  }

  /** The wrap is the remainder modulo 256 that ECMAScript's ToUint8 takes (the remainder
      with the sign of the divisor, never negative). */
  lemma {:induction false} Wrap256IsModulo(x: int)
    ensures Wrap256(x) == x % 256
    decreases if x < 0 then 256 - x else x
  {
    if x < 0 {
      Wrap256IsModulo(x + 256);
    } else if x >= 256 {
      Wrap256IsModulo(x - 256);
    }
  }

  /** Storing a number into a `Uint8Array` element: NaN becomes 0, anything else is taken
      modulo 256. */
  function ToUint8(v: Option<int>): Byte
  {
    match v
    case None => 0
    case Some(x) => Wrap256(x)
  }

  /** The case that matters: two radix-16 digits read as one byte. */
  lemma ParseHexPair(a: char, b: char)
    requires IsHexDigit(a) && IsHexDigit(b)
    ensures ParseIntHex([a, b]) == Some(16 * HexDigitValue(a).value + HexDigitValue(b).value)
    ensures 0 <= 16 * HexDigitValue(a).value + HexDigitValue(b).value < 256
  {
    var s := [a, b];
    assert !IsJsWhiteSpace(a);
    assert TrimStart(s) == s;
    assert HexRunLength(s[1..]) == 1;
    assert s[..2] == s;
    assert s[..1] == [a];
    assert HexValue([a]) == HexDigitValue(a).value by {
      assert [a][..0] == [];
    }
    HexDigitBound(a);
    HexDigitBound(b);
  }

  /** A pair whose first character is a digit and whose second is not reads as that one digit
      (`parseInt` stops at the first non-digit), except for `0x`/`0X`, which is NaN. */
  lemma ParseHexPartialPair(a: char, b: char)
    requires IsHexDigit(a) && !IsHexDigit(b)
    ensures a == '0' && (b == 'x' || b == 'X') ==> ToUint8(ParseIntHex([a, b])) == 0
    ensures !(a == '0' && (b == 'x' || b == 'X')) ==> ToUint8(ParseIntHex([a, b])) == HexDigitValue(a).value
  {
    var s := [a, b];
    assert TrimStart(s) == s;
    assert HexRunLength(s[1..]) == 0;
    assert s[..1] == [a];
    assert HexValue([a]) == HexDigitValue(a).value by {
      assert [a][..0] == [];
    }
    if a == '0' && (b == 'x' || b == 'X') {
      assert s[2..] == [];
    }
    HexDigitBound(a);
  }

  /** A pair that starts with a character that is neither white space, a sign nor a digit is
      NaN, which the byte store turns into 0. */
  lemma ParseHexGarbagePair(a: char, b: char)
    requires !IsHexDigit(a) && !IsJsWhiteSpace(a) && a != '-' && a != '+'
    ensures ToUint8(ParseIntHex([a, b])) == 0
  {
    var s := [a, b];
    assert TrimStart(s) == s;
  }

  // ---------------------------------------------------------------------------------------
  // Number#toString on a non-negative integer

  function DecimalDigit(d: nat): (c: char)
    requires d < 10
    ensures '0' <= c <= '9'
  {
    "0123456789"[d]
  }

  /** `n.toString()` for a natural number: its decimal digits, without leading zeros. */
  function NatToDecimal(n: nat): (s: string)
    ensures |s| > 0
    ensures forall i :: 0 <= i < |s| ==> '0' <= s[i] <= '9'
    ensures s[0] == '0' ==> n == 0
  {
    if n < 10 then [DecimalDigit(n)] else NatToDecimal(n / 10) + [DecimalDigit(n % 10)]
  }

  /** The value of a string of decimal digits, as the receiving contract reads a `u64`
      argument. */
  function DecimalValue(s: string): nat
    requires forall i :: 0 <= i < |s| ==> '0' <= s[i] <= '9'
  {
    if s == [] then 0 else 10 * DecimalValue(s[..|s| - 1]) + (s[|s| - 1] as int - '0' as int)
  }

  /** The id argument of every payload reads back as the id it was made from. */
  lemma {:induction false} DecimalRoundTrip(n: nat)
    ensures DecimalValue(NatToDecimal(n)) == n
  {
    var s := NatToDecimal(n);
    if n < 10 {
      assert s[..0] == [];
      assert DecimalDigit(n) as int - '0' as int == n;
    } else {
      DecimalRoundTrip(n / 10);
      assert s[..|s| - 1] == NatToDecimal(n / 10);
      assert DecimalDigit(n % 10) as int - '0' as int == n % 10;
    }
  }
}
