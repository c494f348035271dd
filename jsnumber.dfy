/**
 * The JavaScript number conversions the preset relies on, restricted to
 * finite decimal numbers: `isNaN`/`Number` for a decimal literal, the printing
 * of a number as `${x}`, and `parseInt`.
 */
module JsNumber {
  import opened Options
  import opened JsString

  /** The finite decimal number (-1)^negative * mantissa / 10^scale. */
  datatype Decimal = Decimal(negative: bool, mantissa: nat, scale: nat)

  function Pow10(k: nat): (p: nat)
    ensures p >= 1
  {
    if k == 0 then 1 else 10 * Pow10(k - 1)
  }

  lemma {:induction false} Pow10Add(a: nat, b: nat)
    ensures Pow10(a + b) == Pow10(a) * Pow10(b)
  {
    if a > 0 {
      Pow10Add(a - 1, b);
      assert Pow10(a + b) == 10 * Pow10(a - 1 + b);
    }
  }

  /** Two decimals denote the same number. */
  predicate SameValue(a: Decimal, b: Decimal) {
    a.mantissa * Pow10(b.scale) == b.mantissa * Pow10(a.scale) &&
    (a.mantissa == 0 || a.negative == b.negative)
  }

  lemma AllDigitsConcat(a: string, b: string)
    requires AllDigits(a) && AllDigits(b)
    ensures AllDigits(a + b)
  {
    forall i | 0 <= i < |a + b| ensures IsDigit((a + b)[i]) {
      if i < |a| { assert (a + b)[i] == a[i]; } else { assert (a + b)[i] == b[i - |a|]; }
    }
  }

  /** An unsigned decimal literal `D+`, `D+.D*` or `.D+`: the value of all its
      digits and the number of digits after the point. */
  function ParseUnsigned(s: string): Option<(nat, nat)> {
    var parts := Split(s, '.');
    if |parts| == 1 then
      if Digits(s) then Some((DigitsValue(s), 0)) else None
    else if |parts| == 2 && AllDigits(parts[0]) && AllDigits(parts[1]) && |parts[0]| + |parts[1]| > 0 then
      AllDigitsConcat(parts[0], parts[1]);
      Some((DigitsValue(parts[0] + parts[1]), |parts[1]|))
    else None
  }

  /** `Number(s)` for a string that is an optionally signed decimal literal;
      None stands for every other string, which the model treats as `NaN`. */
  function ParseNumber(s: string): Option<Decimal> {
    var signed := |s| > 0 && (s[0] == '-' || s[0] == '+');
    var body := if signed then s[1..] else s;
    match ParseUnsigned(body)
    case None => None
    case Some(u) => Some(Decimal(signed && s[0] == '-', u.0, u.1))
  }

  /** `!isNaN(s)`. */
  predicate IsNumeric(s: string) {
    ParseNumber(s).Some?
  }

  predicate NumberChar(c: char) {
    IsDigit(c) || c == '-' || c == '+' || c == '.'
  }

  /** An unsigned literal consists of digits and points only. */
  lemma UnsignedChars(body: string)
    requires ParseUnsigned(body).Some?
    ensures forall i :: 0 <= i < |body| ==> IsDigit(body[i]) || body[i] == '.'
  {
    var parts := Split(body, '.');
    if |parts| == 2 {
      JoinSplit(body, '.');
      var a, b := parts[0], parts[1];
      assert body == a + "." + b;
      forall i | 0 <= i < |body| ensures IsDigit(body[i]) || body[i] == '.' {
        if i < |a| { assert body[i] == a[i]; }
        else if i > |a| { assert body[i] == b[i - |a| - 1]; }
      }
    }
  }

  /** A numeric string consists of digits, signs and points only. */
  lemma NumericChars(s: string)
    requires IsNumeric(s)
    ensures forall i :: 0 <= i < |s| ==> NumberChar(s[i])
  {
    var signed := |s| > 0 && (s[0] == '-' || s[0] == '+');
    var body := if signed then s[1..] else s;
    UnsignedChars(body);
    forall i | 0 <= i < |s| ensures NumberChar(s[i]) {
      if !(signed && i == 0) {
        var j := if signed then i - 1 else i;
        assert s[i] == body[j];
      }
    }
  }

  /** A character that is not part of a number makes a string non-numeric. */
  lemma NonNumericWith(s: string, i: nat)
    requires i < |s| && !NumberChar(s[i])
    ensures !IsNumeric(s)
  {
    if IsNumeric(s) {
      NumericChars(s);
    }
  }

  function Zeros(n: nat): (z: string)
    ensures |z| == n && forall i :: 0 <= i < n ==> z[i] == '0'
  {
    seq(n, _ => '0')
  }

  function PadLeft(s: string, k: nat): (r: string)
    ensures |r| == if |s| >= k then |s| else k
  {
    if |s| >= k then s else Zeros(k - |s|) + s
  }

  /** The string without its trailing zeros. */
  function TrimZeros(s: string): (t: string)
    ensures t <= s
    ensures t == [] || t[|t| - 1] != '0'
  {
    if s != [] && s[|s| - 1] == '0' then TrimZeros(s[..|s| - 1]) else s
  }

  /** The fraction digits of r / 10^k, without trailing zeros, after a point. */
  function FractionText(r: nat, k: nat): string {
    if r == 0 then "" else "." + TrimZeros(PadLeft(NatText(r), k))
  }

  /** `${x}` for a finite decimal x: a minus sign for a negative non-zero value,
      the integer part without leading zeros, and the shortest exact fraction. */
  function NumberText(d: Decimal): string {
    if d.mantissa == 0 then "0"
    else
      NatDivMod(d.mantissa, Pow10(d.scale));
      (if d.negative then "-" else "") +
      NatText(d.mantissa / Pow10(d.scale)) + FractionText(d.mantissa % Pow10(d.scale), d.scale)
  }

  /** `x / 16`, exactly: 1/16 is 625/10^4. */
  function Over16(d: Decimal): (q: Decimal)
    ensures 16 * q.mantissa * Pow10(d.scale) == d.mantissa * Pow10(q.scale)
    ensures q.negative == d.negative && (q.mantissa == 0 <==> d.mantissa == 0)
  {
    Pow10Add(d.scale, 4);
    Decimal(d.negative, d.mantissa * 625, d.scale + 4)
  }

  lemma Regroup(x: int, y: int, v: int, c: int)
    ensures (x * y + v) * 10 + c == x * (10 * y) + (v * 10 + c)
  {
  }

  lemma TimesOne(x: int)
    ensures (x + 0) * 1 == x
  {
  }

  lemma NatProduct(a: nat, b: nat)
    ensures a * b >= 0
  {
  }

  lemma Shift(x: int, p: int)
    ensures x * p * 10 == x * (10 * p)
  {
  }

  /** Quotient and remainder of a natural number by a positive one. */
  lemma NatDivMod(m: nat, p: nat)
    requires p >= 1
    ensures 0 <= m / p && 0 <= m % p < p
  {
  }

  lemma {:induction false} DigitsValueAppend(a: string, b: string)
    requires AllDigits(a) && AllDigits(b)
    ensures AllDigits(a + b)
    ensures DigitsValue(a + b) == DigitsValue(a) * Pow10(|b|) + DigitsValue(b)
  {
    AllDigitsConcat(a, b);
    if b == [] {
      assert a + b == a;
    } else {
      var b' := b[..|b| - 1];
      DigitsValueAppend(a, b');
      assert (a + b)[..|a + b| - 1] == a + b';
      assert (a + b)[|a + b| - 1] == b[|b| - 1];
      var x, y, v, c := DigitsValue(a), Pow10(|b'|), DigitsValue(b'), DigitValue(b[|b| - 1]);
      assert DigitsValue(a + b) == DigitsValue(a + b') * 10 + c;
      assert DigitsValue(b) == v * 10 + c;
      assert Pow10(|b|) == 10 * y;
      Regroup(x, y, v, c);
    }
  }

  lemma {:induction false} ZerosValue(n: nat)
    ensures AllDigits(Zeros(n)) && DigitsValue(Zeros(n)) == 0
  {
    if n > 0 {
      ZerosValue(n - 1);
      assert Zeros(n)[..n - 1] == Zeros(n - 1);
    }
  }

  lemma {:induction false} TrimZerosValue(s: string)
    requires AllDigits(s)
    ensures AllDigits(TrimZeros(s))
    ensures DigitsValue(s) == DigitsValue(TrimZeros(s)) * Pow10(|s| - |TrimZeros(s)|)
  {
    if s != [] && s[|s| - 1] == '0' {
      var s' := s[..|s| - 1];
      TrimZerosValue(s');
      var t := TrimZeros(s');
      assert TrimZeros(s) == t;
      var p := Pow10(|s'| - |t|);
      assert Pow10(|s| - |t|) == 10 * p;
      assert DigitsValue(s) == DigitsValue(s') * 10;
      Shift(DigitsValue(t), p);
    }
  }

  lemma {:induction false} NatTextLength(n: nat, k: nat)
    requires k >= 1 && n < Pow10(k)
    ensures |NatText(n)| <= k
  {
    if n >= 10 {
      assert Pow10(k) == 10 * Pow10(k - 1);
      NatTextLength(n / 10, k - 1);
    }
  }

  lemma DivMod(m: nat, p: nat) returns (q: nat, r: nat)
    requires p >= 1
    ensures q == m / p && r == m % p
    ensures m == q * p + r && r < p
  {
    q, r := m / p, m % p;
  }

  /** Left padding with zeros keeps the value of a digit run. */
  lemma PadLeftValue(n: string, k: nat)
    requires AllDigits(n)
    ensures AllDigits(PadLeft(n, k)) && DigitsValue(PadLeft(n, k)) == DigitsValue(n)
  {
    if |n| < k {
      ZerosValue(k - |n|);
      DigitsValueAppend(Zeros(k - |n|), n);
    }
  }

  /** The fraction of r / 10^k read back: its digits and their value. */
  lemma FractionDigits(r: nat, k: nat) returns (s: string)
    requires 0 < r < Pow10(k)
    ensures FractionText(r, k) == "." + s
    ensures Digits(s) && |s| <= k
    ensures r == DigitsValue(s) * Pow10(k - |s|)
  {
    var n := NatText(r);
    NatTextLength(r, k);
    NatTextValue(r);
    var pad := PadLeft(n, k);
    PadLeftValue(n, k);
    TrimZerosValue(pad);
    s := TrimZeros(pad);
    assert |pad| == k;
    ValuedNonEmpty(s);
  }

  /** A run of digits with a non-zero value is not empty. */
  lemma ValuedNonEmpty(s: string)
    requires AllDigits(s) && DigitsValue(s) != 0
    ensures s != []
  {
  }

  /** The arithmetic of reading back `q.s`: the integer part q followed by j
      fraction digits of value v denote (q * 10^k + r) / 10^k when
      r == v * 10^(k - j). */
  lemma Recombine(q: nat, v: nat, pj: nat, pkj: nat, p: nat, r: nat, m: nat)
    requires p == pkj * pj && r == v * pkj && m == q * p + r
    ensures (q * pj + v) * p == m * pj
  {
    calc {
      (q * pj + v) * p;
      q * pj * p + v * p;
      { assert v * p == v * pkj * pj; }
      q * p * pj + v * pkj * pj;
      (q * p + r) * pj;
    }
  }

  /** The text `q.s` of an integer part q and a fraction run s parses as the
      mantissa of all its digits with |s| digits after the point. */
  lemma PointedTextParse(q: nat, s: string, v: nat)
    requires Digits(s) && v == q * Pow10(|s|) + DigitsValue(s)
    ensures ParseUnsigned(NatText(q) + ['.'] + s) == Some((v, |s|))
  {
    var i := NatText(q);
    NatTextValue(q);
    SplitAfterField(i, s, '.');
    SplitWithoutSeparator(s, '.');
    assert Split(i + ['.'] + s, '.') == [i, s];
    DigitsValueAppend(i, s);
  }

  lemma Rescale(v: nat, p: nat, q: nat, r: nat, m: nat, pj: nat)
    requires v * p == (q * p + r) * pj && m == q * p + r
    ensures v * p == m * pj
  {
  }

  /** The arithmetic of reading back `q.s`, with x the value of the j digits s
      and r == x * 10^(k - j): the mantissa q * 10^j + x at scale j denotes
      q + r / 10^k. */
  lemma PointedValue(q: nat, r: nat, k: nat, x: nat, j: nat, v: nat)
    requires j <= k && r == x * Pow10(k - j) && v == q * Pow10(j) + x
    ensures v * Pow10(k) == (q * Pow10(k) + r) * Pow10(j)
  {
    Pow10Add(k - j, j);
    Recombine(q, x, Pow10(j), Pow10(k - j), Pow10(k), r, q * Pow10(k) + r);
  }

  /** An integer text without a fraction reads back as itself with scale 0. */
  lemma WholeTextParse(q: nat)
    ensures ParseUnsigned(NatText(q)) == Some((q, 0))
  {
    SplitWithoutSeparator(NatText(q), '.');
    NatTextValue(q);
  }

  /** The unsigned text `q` followed by the fraction of r / 10^k reads back as
      a mantissa and scale that denote q + r / 10^k. */
  lemma ScaledTextValue(q: nat, r: nat, k: nat) returns (v: nat, j: nat)
    requires r < Pow10(k)
    ensures ParseUnsigned(NatText(q) + FractionText(r, k)) == Some((v, j))
    ensures v * Pow10(k) == (q * Pow10(k) + r) * Pow10(j)
  {
    if r == 0 {
      assert NatText(q) + FractionText(r, k) == NatText(q);
      WholeTextParse(q);
      v, j := q, 0;
      assert Pow10(j) == 1;
      TimesOne(v * Pow10(k));
    } else {
      var s := FractionDigits(r, k);
      var t := NatText(q) + ['.'] + s;
      assert NatText(q) + FractionText(r, k) == t;
      NatProduct(q, Pow10(|s|));
      v, j := q * Pow10(|s|) + DigitsValue(s), |s|;
      PointedTextParse(q, s, v);
      PointedValue(q, r, k, DigitsValue(s), j, v);
    }
  }

  /** A minus sign in front of a text that starts with a digit negates it. */
  lemma SignedParse(negative: bool, body: string)
    requires |body| > 0 && IsDigit(body[0])
    ensures ParseNumber((if negative then "-" else "") + body) ==
      match ParseUnsigned(body)
      case None => None
      case Some(u) => Some(Decimal(negative, u.0, u.1))
  {
    var t := (if negative then "-" else "") + body;
    if negative {
      assert t[1..] == body;
    } else {
      assert t == body;
    }
  }

  lemma ZeroTextParse()
    ensures ParseNumber("0") == Some(Decimal(false, 0, 0))
  {
    SplitWithoutSeparator("0", '.');
    assert "0"[..0] == "";
  }

  /** The printed text of a non-zero number: its sign and the digits of
      q + r / 10^k, where q and r are the quotient and remainder of the
      mantissa by 10^k. */
  lemma NonZeroText(d: Decimal) returns (q: nat, r: nat)
    requires d.mantissa > 0
    ensures d.mantissa == q * Pow10(d.scale) + r && r < Pow10(d.scale)
    ensures NumberText(d) == (if d.negative then "-" else "") + (NatText(q) + FractionText(r, d.scale))
    ensures IsDigit((NatText(q) + FractionText(r, d.scale))[0])
  {
    q, r := DivMod(d.mantissa, Pow10(d.scale));
  }

  lemma NonZeroRoundTrip(d: Decimal) returns (v: nat, j: nat)
    requires d.mantissa > 0
    ensures ParseNumber(NumberText(d)) == Some(Decimal(d.negative, v, j))
    ensures v * Pow10(d.scale) == d.mantissa * Pow10(j)
  {
    var q, r := NonZeroText(d);
    var body := NatText(q) + FractionText(r, d.scale);
    v, j := ScaledTextValue(q, r, d.scale);
    SignedParse(d.negative, body);
    Rescale(v, Pow10(d.scale), q, r, d.mantissa, Pow10(j));
  }

  /** Reading the printed text of a number back as a number gives the same
      value: the printing loses nothing. */
  lemma NumberTextRoundTrip(d: Decimal)
    ensures ParseNumber(NumberText(d)).Some?
    ensures SameValue(ParseNumber(NumberText(d)).value, d)
  {
    if d.mantissa == 0 {
      ZeroTextParse();
      assert NumberText(d) == "0";
    } else {
      var v, j := NonZeroRoundTrip(d);
    }
  }

  predicate IsHexDigit(c: char) {
    IsDigit(c) || 'a' <= c <= 'f' || 'A' <= c <= 'F'
  }

  function HexDigitValue(c: char): (d: nat)
    requires IsHexDigit(c)
    ensures d < 16
  {
    if IsDigit(c) then DigitValue(c)
    else if 'a' <= c <= 'f' then c as int - 'a' as int + 10
    else c as int - 'A' as int + 10
  }

  function HexValue(s: string): nat
    requires forall i :: 0 <= i < |s| ==> IsHexDigit(s[i])
  {
    if s == [] then 0 else HexValue(s[..|s| - 1]) * 16 + HexDigitValue(s[|s| - 1])
  }

  /** The longest prefix of decimal digits. */
  function DecimalPrefix(s: string): (p: string)
    ensures p <= s && AllDigits(p)
    ensures |p| < |s| ==> !IsDigit(s[|p|])
  {
    if s != [] && IsDigit(s[0]) then [s[0]] + DecimalPrefix(s[1..]) else ""
  }

  /** The longest prefix of hexadecimal digits. */
  function HexPrefix(s: string): (p: string)
    ensures p <= s && forall i :: 0 <= i < |p| ==> IsHexDigit(p[i])
    ensures |p| < |s| ==> !IsHexDigit(s[|p|])
  {
    if s != [] && IsHexDigit(s[0]) then [s[0]] + HexPrefix(s[1..]) else ""
  }

  /** `parseInt(s)` without a radix: an optional sign, then hexadecimal digits
      after `0x` or `0X`, otherwise decimal digits, read as far as they go;
      None is `NaN`, when no digit follows. The result is the sign and the
      magnitude. */
  function ParseInt(s: string): Option<(bool, nat)> {
    var signed := |s| > 0 && (s[0] == '-' || s[0] == '+');
    var negative := signed && s[0] == '-';
    var body := if signed then s[1..] else s;
    if |body| >= 2 && body[0] == '0' && (body[1] == 'x' || body[1] == 'X') then
      var digits := HexPrefix(body[2..]);
      if digits == "" then None else Some((negative, HexValue(digits)))
    else
      var digits := DecimalPrefix(body);
      if digits == "" then None else Some((negative, DigitsValue(digits)))
  }

  /** `${parseInt(s)}`: `NaN`, or the integer with `-0` printed as `0`. */
  function ParseIntText(s: string): string {
    match ParseInt(s)
    case None => "NaN"
    case Some((negative, n)) => if n == 0 then "0" else (if negative then "-" else "") + NatText(n)
  }

  lemma {:induction false} DecimalPrefixOf(a: string, rest: string)
    requires AllDigits(a)
    requires rest == [] || !IsDigit(rest[0])
    ensures DecimalPrefix(a + rest) == a
  {
    if a != [] {
      DecimalPrefixOf(a[1..], rest);
      assert (a + rest)[1..] == a[1..] + rest;
      assert [a[0]] + a[1..] == a;
    } else {
      assert a + rest == rest;
    }
  }

  /** `parseInt` of a number written out in decimal, followed by anything that
      does not continue it, prints that number again: "50" and "50.5" give 50.
      Only after a lone `0` could an `x` turn the prefix into a hexadecimal one. */
  lemma ParseIntTextOfNumeral(n: nat, rest: string)
    requires rest == [] || (!IsDigit(rest[0]) && !(n == 0 && (rest[0] == 'x' || rest[0] == 'X')))
    ensures ParseIntText(NatText(n) + rest) == NatText(n)
  {
    ParseIntOfNumeral(n, rest);
    if n == 0 {
      assert NatText(0) == "0";
    }
  }

  /** The same, for the parsed sign and magnitude. */
  lemma ParseIntOfNumeral(n: nat, rest: string)
    requires rest == [] || (!IsDigit(rest[0]) && !(n == 0 && (rest[0] == 'x' || rest[0] == 'X')))
    ensures ParseInt(NatText(n) + rest) == Some((false, n))
  {
    var i := NatText(n);
    var s := i + rest;
    assert s[0] == i[0];
    if |s| >= 2 && s[0] == '0' {
      assert i == "0";
      assert s[1] == rest[0];
    }
    DecimalPrefixOf(i, rest);
    NatTextValue(n);
  }
}
