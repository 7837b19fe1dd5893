/** `parseIntOr(v, d)`: JavaScript's `parseInt(v, 10)` followed by a
    `Number.isFinite` test that falls back to `d`. A query parameter is a
    string, or `None` when it is absent (`undefined`). */
module QueryParams {
  import opened Wrappers

  /** The characters `parseInt` strips from the front: ECMAScript's WhiteSpace
      (tab, vertical tab, form feed, the byte-order mark and every space
      separator) and LineTerminator characters. */
  predicate IsJsWhitespace(c: char) {
    var k := c as int;
    (0x09 <= k <= 0x0D) || k == 0x20 || k == 0xA0 || k == 0x1680 ||
    (0x2000 <= k <= 0x200A) || k == 0x2028 || k == 0x2029 || k == 0x202F ||
    k == 0x205F || k == 0x3000 || k == 0xFEFF
  }

  predicate IsDigit(c: char) {
    '0' <= c <= '9'
  }

  predicate AllDigits(s: string) {
    forall i :: 0 <= i < |s| ==> IsDigit(s[i])
  }

  /** The string with its leading whitespace removed. */
  function TrimStart(s: string): string {
    if |s| > 0 && IsJsWhitespace(s[0]) then TrimStart(s[1..]) else s
  }

  /** The longest prefix of `s` made of decimal digits. */
  function DigitPrefix(s: string): string {
    if |s| > 0 && IsDigit(s[0]) then [s[0]] + DigitPrefix(s[1..]) else ""
  }

  /** The value of a string of decimal digits, most significant first. */
  function DigitsValue(ds: string): nat
    requires AllDigits(ds)
  {
    if |ds| == 0 then 0
    else 10 * DigitsValue(ds[..|ds| - 1]) + (ds[|ds| - 1] as int - '0' as int)
  }

  /** `parseInt(s, 10)` as a mathematical integer; `None` is `NaN`. After the
      leading whitespace comes an optional sign, then the longest run of
      decimal digits; anything after that run is ignored, and no digit at all
      gives `NaN`. */
  function ParseInt(s: string): Option<int> {
    ParseSigned(TrimStart(s))
  }

  /** `parseInt` after the leading whitespace is gone: an optional sign, then
      the longest run of decimal digits. */
  function ParseSigned(t: string): Option<int> {
    var ds := DigitPrefix(Unsigned(t));
    if |ds| == 0 then None
    else
      DigitPrefixDigits(Unsigned(t));
      Some(if |t| > 0 && t[0] == '-' then -(DigitsValue(ds) as int) else DigitsValue(ds) as int)
  }

  /** The text after an optional leading sign. */
  function Unsigned(t: string): string {
    if |t| > 0 && (t[0] == '-' || t[0] == '+') then t[1..] else t
  }

  /** 2^1024 - 2^970: the smallest magnitude that rounds to an infinite IEEE
      double, so `parseInt` gives `Infinity` (or `-Infinity`) from here on. */
  const InfiniteMagnitude: int := 179769313486231580793728971405303415079934132710037826936173778980444968292764750946649017977587207096330286416692887910946555547851940402630657488671505820681908902000708383676273854845817711531764475730270069855571366959622842914819860834936475292719074168444365510704342711559699508093042880177904174497792

  /** `parseIntOr(v, d)`: the parsed integer when it is a finite number,
      otherwise `d`. `parseInt(undefined)` parses the text "undefined", which
      has no digits, so an absent parameter yields `d`. */
  function ParseIntOr(v: Option<string>, d: int): int {
    match v
    case None => d
    case Some(s) =>
      match ParseInt(s)
      case Some(n) => if -InfiniteMagnitude < n < InfiniteMagnitude then n else d
      case None => d
  }

  /** The canonical decimal form of a natural number. */
  function Digits(n: nat): (ds: string)
    ensures |ds| > 0 && AllDigits(ds)
  {
    var last := ('0' as int + n % 10) as char;
    if n < 10 then [last] else Digits(n / 10) + [last]
  }

  /** The canonical decimal form of an integer, as `String(n)` writes it. */
  function Decimal(n: int): string {
    if n < 0 then "-" + Digits(-n) else Digits(n)
  }

  lemma {:induction false} DigitPrefixDigits(s: string)
    ensures AllDigits(DigitPrefix(s)) && |DigitPrefix(s)| <= |s|
    decreases |s|
  {
    if |s| > 0 && IsDigit(s[0]) {
      DigitPrefixDigits(s[1..]);
    }
  }

  /** Reading back the digits of `n` gives `n`. */
  lemma {:induction false} DigitsValueOfDigits(n: nat)
    ensures DigitsValue(Digits(n)) == n
    decreases n
  {
    if n >= 10 {
      DigitsValueOfDigits(n / 10);
      var ds := Digits(n);
      assert ds[..|ds| - 1] == Digits(n / 10);
    }
  }

  /** The digit run of a digit string followed by a non-digit is that string. */
  lemma {:induction false} DigitPrefixOfDigitsThen(ds: string, rest: string)
    requires AllDigits(ds)
    requires |rest| == 0 || !IsDigit(rest[0])
    ensures DigitPrefix(ds + rest) == ds
    decreases |ds|
  {
    if |ds| > 0 {
      assert (ds + rest)[1..] == ds[1..] + rest;
      DigitPrefixOfDigitsThen(ds[1..], rest);
    } else {
      assert ds + rest == rest;
    }
  }

  predicate AllWhitespace(s: string) {
    forall i :: 0 <= i < |s| ==> IsJsWhitespace(s[i])
  }

  predicate AllZeros(s: string) {
    forall i :: 0 <= i < |s| ==> s[i] == '0'
  }

  /** Stripping the leading whitespace stops at the first other character. */
  lemma {:induction false} TrimWhitespaceThen(ws: string, t: string)
    requires AllWhitespace(ws)
    requires |t| > 0 && !IsJsWhitespace(t[0])
    ensures TrimStart(ws + t) == t
    decreases |ws|
  {
    if |ws| > 0 {
      assert (ws + t)[1..] == ws[1..] + t;
      TrimWhitespaceThen(ws[1..], t);
    } else {
      assert ws + t == t;
    }
  }

  /** A run of zeros is worth nothing. */
  lemma {:induction false} ZerosValue(zeros: string)
    requires AllZeros(zeros)
    ensures AllDigits(zeros) && DigitsValue(zeros) == 0
    decreases |zeros|
  {
    if |zeros| > 0 {
      ZerosValue(zeros[..|zeros| - 1]);
    }
  }

  /** Leading zeros do not change the value of a digit string. */
  lemma {:induction false} LeadingZeros(zeros: string, ds: string)
    requires AllZeros(zeros) && AllDigits(ds)
    ensures AllDigits(zeros + ds) && DigitsValue(zeros + ds) == DigitsValue(ds)
    decreases |ds|
  {
    if |ds| == 0 {
      assert zeros + ds == zeros;
      ZerosValue(zeros);
    } else {
      LeadingZeros(zeros, ds[..|ds| - 1]);
      assert (zeros + ds)[..|zeros + ds| - 1] == zeros + ds[..|ds| - 1];
    }
  }

  /** What follows an optional sign. */
  lemma UnsignedOf(sign: string, u: string)
    requires sign == "" || sign == "+" || sign == "-"
    requires |u| > 0 && IsDigit(u[0])
    ensures Unsigned(sign + u) == u
  {
    if sign == "" {
      assert sign + u == u;
    } else {
      assert (sign + u)[1..] == u;
    }
  }

  /** `ParseSigned` when the digit run after the sign is known. */
  lemma ParseSignedUnfold(t: string, ds: string)
    requires |ds| > 0 && DigitPrefix(Unsigned(t)) == ds
    ensures AllDigits(ds)
    ensures ParseSigned(t) == Some(if |t| > 0 && t[0] == '-' then -(DigitsValue(ds) as int) else DigitsValue(ds) as int)
  {
    DigitPrefixDigits(Unsigned(t));
  }

  /** `parseInt` on a sign, a digit run and then something that does not
      start with a digit, once the leading whitespace is gone. */
  lemma ParseSignedOf(sign: string, ds: string, rest: string)
    requires sign == "" || sign == "+" || sign == "-"
    requires |ds| > 0 && AllDigits(ds)
    requires |rest| == 0 || !IsDigit(rest[0])
    ensures ParseSigned(sign + (ds + rest)) == Some(if sign == "-" then -(DigitsValue(ds) as int) else DigitsValue(ds) as int)
  {
    assert (ds + rest)[0] == ds[0];
    UnsignedOf(sign, ds + rest);
    DigitPrefixOfDigitsThen(ds, rest);
    ParseSignedUnfold(sign + (ds + rest), ds);
    assert (sign + (ds + rest))[0] == if sign == "" then ds[0] else sign[0];
  }

  /** `parseInt` reads every numeral it accepts: leading whitespace, an
      optional sign, leading zeros, the digits of a number, then anything that
      does not start with a digit (so " \t+0600px" parses as 600). */
  lemma ParseIntOfNumeral(ws: string, sign: string, zeros: string, m: nat, rest: string)
    requires AllWhitespace(ws)
    requires sign == "" || sign == "+" || sign == "-"
    requires AllZeros(zeros)
    requires |rest| == 0 || !IsDigit(rest[0])
    ensures ParseInt(ws + sign + zeros + Digits(m) + rest) == Some(if sign == "-" then -(m as int) else m as int)
  {
    var ds := zeros + Digits(m);
    LeadingZeros(zeros, Digits(m));
    DigitsValueOfDigits(m);
    var t := sign + (ds + rest);
    Regroup(ws, sign, zeros, Digits(m), rest);
    assert t[0] == if sign == "" then ds[0] else sign[0];
    TrimWhitespaceThen(ws, t);
    ParseSignedOf(sign, ds, rest);
  }

  /** Concatenation regrouped so the sign and the digits form one suffix. */
  lemma Regroup(ws: string, sign: string, zeros: string, digits: string, rest: string)
    ensures ws + sign + zeros + digits + rest == ws + (sign + ((zeros + digits) + rest))
  {
  }

  /** `parseInt` reads back any integer written in decimal, whatever non-digit
      text follows it (so "600px" parses as 600). */
  lemma ParseIntOfDecimal(n: int, rest: string)
    requires |rest| == 0 || !IsDigit(rest[0])
    ensures ParseInt(Decimal(n) + rest) == Some(n)
  {
    var m: nat := if n < 0 then -n else n;
    var sign := if n < 0 then "-" else "";
    DecimalAsNumeral(n, rest);
    ParseIntOfNumeral("", sign, "", m, rest);
  }

  /** The decimal text of `n` is a numeral with no whitespace and no leading
      zeros. */
  lemma DecimalAsNumeral(n: int, rest: string)
    ensures Decimal(n) + rest == "" + (if n < 0 then "-" else "") + "" + Digits(if n < 0 then -n else n) + rest
  {
    if n < 0 {
      assert "" + "-" + "" + Digits(-n) == "-" + Digits(-n);
    } else {
      assert "" + "" + "" + Digits(n) == Digits(n);
    }
  }

  /** Round trip: a width or height written in decimal (and below the double
      overflow bound) is the one `parseIntOr` returns; otherwise the default. */
  lemma ParseIntOrOfDecimal(n: int, rest: string, d: int)
    requires |rest| == 0 || !IsDigit(rest[0])
    ensures ParseIntOr(Some(Decimal(n) + rest), d) ==
            (if -InfiniteMagnitude < n < InfiniteMagnitude then n else d)
  {
    ParseIntOfDecimal(n, rest);
  }

  /** `parseIntOr` on any numeral `parseInt` accepts returns its value when
      that is finite as a double, and the default otherwise. */
  lemma ParseIntOrOfNumeral(ws: string, sign: string, zeros: string, m: nat, rest: string, d: int)
    requires AllWhitespace(ws)
    requires sign == "" || sign == "+" || sign == "-"
    requires AllZeros(zeros)
    requires |rest| == 0 || !IsDigit(rest[0])
    ensures ParseIntOr(Some(ws + sign + zeros + Digits(m) + rest), d) ==
            (if m < InfiniteMagnitude then (if sign == "-" then -(m as int) else m as int) else d)
  {
    ParseIntOfNumeral(ws, sign, zeros, m, rest);
  }

  /** A padded, signed, zero-led width with a unit suffix is read as its
      number. */
  lemma PaddedWidth()
    ensures ParseIntOr(Some(" \t+0600px"), 1400) == 600
  {
    assert Digits(600) == "600";
    assert AllWhitespace(" \t");
    ParseIntOrOfNumeral(" \t", "+", "0", 600, "px", 1400);
    assert " \t" + "+" + "0" + Digits(600) + "px" == " \t+0600px";
  }

  /** A missing parameter, or one with no digit after the whitespace and the
      optional sign, yields the default. */
  lemma ParseIntOrNonNumeric(v: Option<string>, d: int)
    requires v.Some? ==>
      var body := Unsigned(TrimStart(v.value));
      |body| == 0 || !IsDigit(body[0])
    ensures ParseIntOr(v, d) == d
  {
  }

  /** Whatever the parameter, the result is the default or a finite parsed
      number, never anything beyond the double range; and a finite parsed
      number is always the one returned. */
  lemma ParseIntOrRange(v: Option<string>, d: int)
    ensures var r := ParseIntOr(v, d);
      r == d || (v.Some? && ParseInt(v.value) == Some(r) && -InfiniteMagnitude < r < InfiniteMagnitude)
    ensures v.Some? && ParseInt(v.value).Some? && -InfiniteMagnitude < ParseInt(v.value).value < InfiniteMagnitude ==>
      ParseIntOr(v, d) == ParseInt(v.value).value
  {
  }
}
