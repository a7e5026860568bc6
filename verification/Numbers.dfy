/** Canonical decimal text (app/core/numbers.py): what the API shows and the exchange is sent. */
module Numbers {
  import opened Wrappers
  import opened Decimals

  // ---------------------------------------------------------------- digit strings

  function DigitChar(n: nat): (c: char)
    requires n < 10
    ensures IsDigit(c) && DigitValue(c) == n
  {
    '0' + n as char
  }

  predicate IsDigit(c: char) { '0' <= c <= '9' }

  function DigitValue(c: char): nat
    requires IsDigit(c)
  {
    c as int - '0' as int
  }

  predicate AllDigits(s: string) { forall i :: 0 <= i < |s| ==> IsDigit(s[i]) }

  /** The decimal digits of a natural number, most significant first. */
  function Digits(n: nat): (s: string)
    ensures |s| > 0 && AllDigits(s)
    ensures DigitValue(s[|s| - 1]) == n % 10
  {
    if n < 10 then [DigitChar(n)] else Digits(n / 10) + [DigitChar(n % 10)]
  }

  function Zeros(k: nat): (s: string)
    ensures |s| == k && forall i :: 0 <= i < k ==> s[i] == '0'
  {
    seq(k, _ => '0')
  }

  function ParseDigits(s: string): nat
    requires AllDigits(s)
  {
    if s == "" then 0 else 10 * ParseDigits(s[..|s| - 1]) + DigitValue(s[|s| - 1])
  }

  lemma {:induction false} ParseOfDigits(n: nat)
    ensures ParseDigits(Digits(n)) == n
  {
    var s := Digits(n);
    if n >= 10 {
      ParseOfDigits(n / 10);
      assert s[..|s| - 1] == Digits(n / 10);
    } else {
      assert s[..|s| - 1] == "";
    }
  }

  lemma {:induction false} ParseLeadingZeros(k: nat, s: string)
    requires AllDigits(s)
    ensures AllDigits(Zeros(k) + s) && ParseDigits(Zeros(k) + s) == ParseDigits(s)
    decreases |s|, k
  {
    var t := Zeros(k) + s;
    if s != "" {
      ParseLeadingZeros(k, s[..|s| - 1]);
      assert t[..|t| - 1] == Zeros(k) + s[..|s| - 1];
    } else if k > 0 {
      ParseLeadingZeros(k - 1, s);
      assert t[..|t| - 1] == Zeros(k - 1) + s;
    } else {
      assert t == s;
    }
  }

  lemma {:induction false} ParseTrailingZeros(s: string, k: nat)
    requires AllDigits(s)
    ensures AllDigits(s + Zeros(k)) && ParseDigits(s + Zeros(k)) == ParseDigits(s) * Pow10(k)
  {
    var t := s + Zeros(k);
    if k > 0 {
      ParseTrailingZeros(s, k - 1);
      assert t[..|t| - 1] == s + Zeros(k - 1);
      assert ParseDigits(t) == 10 * ParseDigits(s + Zeros(k - 1));
      PowStep(ParseDigits(s), k);
    } else {
      assert t == s;
    }
  }

  // ---------------------------------------------------------------- format(value, "f")

  /** The integer and fraction digits of a magnitude in plain notation. */
  function PlainDigits(coefficient: nat, exponent: int): (parts: (string, string))
    ensures AllDigits(parts.0) && AllDigits(parts.1)
  {
    var digits := if coefficient == 0 && exponent > 0 then "0" else Digits(coefficient);
    var point := if coefficient == 0 && exponent > 0 then 1 else |digits| + exponent;
    if point < 0 then ("0", Zeros(-point) + digits)
    else if point > |digits| then (digits + Zeros(point - |digits|), "")
    else (if point == 0 then "0" else digits[..point], digits[point..])
  }

  function Sign(negative: bool): string { if negative then "-" else "" }

  function Join(negative: bool, parts: (string, string)): string {
    Sign(negative) + parts.0 + (if parts.1 == "" then "" else "." + parts.1)
  }

  /** `format(value, "f")`. */
  function PlainText(d: Decimal): string
    requires d.Finite?
  {
    Join(d.negative, PlainDigits(d.coefficient, d.exponent))
  }

  /** `str.rstrip` of one character. */
  function RStrip(text: string, c: char): string {
    if text != "" && text[|text| - 1] == c then RStrip(text[..|text| - 1], c) else text
  }

  datatype NumberError = NonFinite

  /** `format_decimal`. */
  function FormatDecimal(value: Decimal): Result<string, NumberError> {
    if value.NotFinite? then Err(NonFinite) else
      var text := PlainText(Normalise(value));
      var stripped := if '.' in text then RStrip(RStrip(text, '0'), '.') else text;
      Ok(if stripped == "" then "0" else stripped)
  }

  // ---------------------------------------------------------------- reading the text back

  function IndexOf(text: string, c: char): (i: nat)
    ensures i <= |text| && c !in text[..i] && (i < |text| ==> text[i] == c)
  {
    if text == "" || text[0] == c then 0
    else
      var i := 1 + IndexOf(text[1..], c);
      assert text[..i] == [text[0]] + text[1..][..i - 1];
      i
  }

  /** Plain notation: an optional minus, digits, and optionally a point and more digits.
      Exponents, empty parts and a trailing point are refused. */
  function ParsePlain(text: string): Option<Decimal> {
    if text != "" && text[0] == '-' then ParseUnsigned(true, text[1..]) else ParseUnsigned(false, text)
  }

  function ParseUnsigned(negative: bool, body: string): Option<Decimal> {
    var point := IndexOf(body, '.');
    var whole := body[..point];
    var fraction := if point == |body| then "" else body[point + 1..];
    if whole == "" || !AllDigits(whole) || !AllDigits(fraction) || (fraction == "" && point < |body|) then None
    else Some(Finite(negative, ParseDigits(whole + fraction), -|fraction|))
  }

  /** A point is followed by digits that do not end in zero. */
  predicate NoTrailingZeros(text: string) {
    '.' in text ==> IsDigit(text[|text| - 1]) && text[|text| - 1] != '0'
  }

  lemma {:induction false} PointFollowsWhole(whole: string, rest: string)
    requires AllDigits(whole) && (rest == "" || rest[0] == '.')
    ensures IndexOf(whole + rest, '.') == |whole|
  {
    if whole == "" {
      assert whole + rest == rest;
    } else {
      PointFollowsWhole(whole[1..], rest);
      assert (whole + rest)[1..] == whole[1..] + rest;
    }
  }

  lemma ParseOfUnsigned(negative: bool, whole: string, fraction: string)
    requires whole != "" && AllDigits(whole) && AllDigits(fraction)
    ensures ParseUnsigned(negative, whole + (if fraction == "" then "" else "." + fraction))
         == Some(Finite(negative, ParseDigits(whole + fraction), -|fraction|))
  {
    var rest := if fraction == "" then "" else "." + fraction;
    PointFollowsWhole(whole, rest);
    if fraction == "" {
      WholeOnly(whole);
    } else {
      BodyParts(whole, fraction);
    }
  }

  lemma WholeOnly(whole: string)
    ensures whole + "" == whole && whole[..|whole|] == whole
  {}

  lemma BodyParts(whole: string, fraction: string)
    ensures var body := whole + ("." + fraction); body[..|whole|] == whole && body[|whole| + 1..] == fraction
  {}

  lemma ParseOfSigned(negative: bool, body: string)
    requires body != "" && body[0] != '-'
    ensures ParsePlain(Sign(negative) + body) == ParseUnsigned(negative, body)
  {
    assert ("-" + body)[1..] == body;
    assert "" + body == body;
  }

  lemma JoinIsSigned(negative: bool, parts: (string, string))
    requires parts.0 != "" && AllDigits(parts.0)
    ensures var body := parts.0 + (if parts.1 == "" then "" else "." + parts.1);
      Join(negative, parts) == Sign(negative) + body && body != "" && body[0] != '-'
  {
    var rest := if parts.1 == "" then "" else "." + parts.1;
    assert (parts.0 + rest)[0] == parts.0[0];
    assert Sign(negative) + parts.0 + rest == Sign(negative) + (parts.0 + rest);
  }

  lemma ParseOfJoin(negative: bool, parts: (string, string))
    requires parts.0 != "" && AllDigits(parts.0) && AllDigits(parts.1)
    ensures ParsePlain(Join(negative, parts)) == Some(Finite(negative, ParseDigits(parts.0 + parts.1), -|parts.1|))
  {
    var body := parts.0 + (if parts.1 == "" then "" else "." + parts.1);
    JoinIsSigned(negative, parts);
    ParseOfSigned(negative, body);
    ParseOfUnsigned(negative, parts.0, parts.1);
  }

  lemma PlainDigitsAreExact(c: nat, e: int)
    ensures var parts := PlainDigits(c, e);
      parts.0 != "" && Magnitude(ParseDigits(parts.0 + parts.1), -|parts.1|) == Magnitude(c, e)
  {
    var digits := Digits(c);
    var parts := PlainDigits(c, e);
    var point := |digits| + e;
    ParseOfDigits(c);
    if c == 0 && e > 0 {
      ParseOfDigits(0);
      assert parts.0 + parts.1 == Digits(0);
    } else if point <= 0 {
      SmallDigits(c, e);
    } else if point > |digits| {
      LargeDigits(c, e);
    } else {
      assert parts.0 + parts.1 == digits;
    }
  }

  lemma SmallDigits(c: nat, e: int)
    requires e <= -|Digits(c)|
    ensures var parts := PlainDigits(c, e);
      |parts.1| == -e && ParseDigits(parts.0 + parts.1) == c
  {
    var digits := Digits(c);
    var k := -e - |digits|;
    SmallParts(c, e);
    ParseLeadingZeros(k + 1, digits);
    ParseOfDigits(c);
  }

  lemma SmallParts(c: nat, e: int)
    requires e <= -|Digits(c)|
    ensures var parts := PlainDigits(c, e);
      |parts.1| == -e && parts.0 + parts.1 == Zeros(-e - |Digits(c)| + 1) + Digits(c)
  {}

  lemma LargeDigits(c: nat, e: nat)
    requires c > 0 && e > 0
    ensures var parts := PlainDigits(c, e);
      parts.1 == "" && Magnitude(ParseDigits(parts.0 + parts.1), 0) == Magnitude(c, e)
  {
    var digits := Digits(c);
    var parts := PlainDigits(c, e);
    assert parts.0 + parts.1 == digits + Zeros(e);
    ParseTrailingZeros(digits, e);
    ParseOfDigits(c);
    ShiftBy(c, 0, e);
  }

  /** Reading plain notation back gives the number that was printed. */
  lemma ParseOfPlainText(d: Decimal)
    requires d.Finite?
    ensures ParsePlain(PlainText(d)).Some?
    ensures var r := ParsePlain(PlainText(d)).value;
      r.Finite? && r.negative == d.negative && Value(r) == Value(d)
  {
    PlainDigitsAreExact(d.coefficient, d.exponent);
    JoinedValue(d, PlainDigits(d.coefficient, d.exponent));
  }

  lemma JoinedValue(d: Decimal, parts: (string, string))
    requires d.Finite? && parts.0 != "" && AllDigits(parts.0) && AllDigits(parts.1)
    requires Magnitude(ParseDigits(parts.0 + parts.1), -|parts.1|) == Magnitude(d.coefficient, d.exponent)
    ensures var text := Join(d.negative, parts);
      && ParsePlain(text).Some?
      && ParsePlain(text).value.Finite?
      && ParsePlain(text).value.negative == d.negative
      && Value(ParsePlain(text).value) == Value(d)
  {
    ParseOfJoin(d.negative, parts);
    SameValue(d.negative, ParseDigits(parts.0 + parts.1), -|parts.1|, d.coefficient, d.exponent);
  }

  lemma SameValue(negative: bool, c: nat, e: int, c': nat, e': int)
    requires Magnitude(c, e) == Magnitude(c', e')
    ensures Value(Finite(negative, c, e)) == Value(Finite(negative, c', e'))
  {}

  // ---------------------------------------------------------------- the canonical rendering

  lemma PointComesFromFraction(negative: bool, parts: (string, string))
    requires AllDigits(parts.0) && AllDigits(parts.1)
    ensures '.' in Join(negative, parts) <==> parts.1 != ""
    ensures parts.1 != "" ==> var text := Join(negative, parts); text[|text| - 1] == parts.1[|parts.1| - 1]
  {
    var text := Join(negative, parts);
    if parts.1 != "" {
      assert text[|text| - 1 - |parts.1|] == '.';
    } else {
      assert forall i :: 0 <= i < |text| ==> text[i] == '-' || IsDigit(text[i]);
    }
  }

  lemma FractionEndsInLastDigit(c: nat, e: int)
    ensures var parts := PlainDigits(c, e);
      parts.1 != "" ==> e < 0 && DigitValue(parts.1[|parts.1| - 1]) == c % 10
  {}

  /** After normalisation the `rstrip` pass has nothing to remove. */
  lemma StrippingIsIdentity(d: Decimal)
    requires d.Finite?
    ensures FormatDecimal(d) == Ok(PlainText(Normalise(d)))
    ensures NoTrailingZeros(PlainText(Normalise(d)))
  {
    var n := Normalise(d);
    StrippedHasNoTrailingZeros(n);
    PlainDigitsAreExact(n.coefficient, n.exponent);
    NothingToStrip(PlainText(n));
  }

  lemma StrippedHasNoTrailingZeros(n: Decimal)
    requires n.Finite? && (n.coefficient % 10 != 0 || n.exponent >= 0)
    ensures NoTrailingZeros(PlainText(n))
  {
    var parts := PlainDigits(n.coefficient, n.exponent);
    PointComesFromFraction(n.negative, parts);
    FractionEndsInLastDigit(n.coefficient, n.exponent);
  }

  lemma NothingToStrip(text: string)
    requires NoTrailingZeros(text)
    ensures '.' in text ==> RStrip(RStrip(text, '0'), '.') == text
  {}

  // ---------------------------------------------------------------- no padding, and no other text

  predicate IsNegative(text: string) { text != "" && text[0] == '-' }

  function Unsigned(text: string): string { if IsNegative(text) then text[1..] else text }

  /** What stands before the point, and after it. */
  function WholePart(body: string): string { body[..IndexOf(body, '.')] }

  function FractionPart(body: string): string {
    if IndexOf(body, '.') == |body| then "" else body[IndexOf(body, '.') + 1..]
  }

  function Whole(text: string): string { WholePart(Unsigned(text)) }

  function Fraction(text: string): string { FractionPart(Unsigned(text)) }

  /** A single zero, or digits that do not start with one. */
  predicate Unpadded(whole: string) { whole == "0" || (whole != "" && AllDigits(whole) && whole[0] != '0') }

  /** Plain notation with no superfluous character. */
  predicate Canonical(text: string) { ParsePlain(text).Some? && Unpadded(Whole(text)) && NoTrailingZeros(text) }

  lemma {:induction false} DigitsAreUnpadded(n: nat)
    ensures Unpadded(Digits(n)) && (n > 0 ==> Digits(n)[0] != '0')
  {
    if n >= 10 {
      DigitsAreUnpadded(n / 10);
    }
  }

  lemma PlainDigitsAreUnpadded(c: nat, e: int)
    ensures Unpadded(PlainDigits(c, e).0)
  {
    DigitsAreUnpadded(c);
  }

  lemma WholeOfJoin(negative: bool, parts: (string, string))
    requires parts.0 != "" && AllDigits(parts.0)
    ensures Whole(Join(negative, parts)) == parts.0
  {
    var rest := if parts.1 == "" then "" else "." + parts.1;
    JoinIsSigned(negative, parts);
    assert Unsigned(Join(negative, parts)) == parts.0 + rest;
    PointFollowsWhole(parts.0, rest);
    assert (parts.0 + rest)[..|parts.0|] == parts.0;
  }

  /** `format_decimal` prints plain notation without padding on either side, and the text reads back as the
      very number printed exactly when that number needs at most 28 significant digits. */
  lemma PrintingIsAnExactInverse(d: Decimal)
    requires d.Finite?
    ensures FormatDecimal(d).Ok?
    ensures var text := FormatDecimal(d).value;
      && Canonical(text)
      && ParsePlain(text).value.Finite?
      && ParsePlain(text).value.negative == d.negative
      && (Value(ParsePlain(text).value) == Value(d) <==> Fits(d))
  {
    var n := Normalise(d);
    StrippingIsIdentity(d);
    ParseOfPlainText(n);
    NormaliseExactlyWhenFits(d);
    PlainDigitsAreExact(n.coefficient, n.exponent);
    PlainDigitsAreUnpadded(n.coefficient, n.exponent);
    WholeOfJoin(n.negative, PlainDigits(n.coefficient, n.exponent));
  }

  lemma OneMoreDigit(n: nat, digit: nat)
    requires n > 0 && digit < 10
    ensures Digits(10 * n + digit) == Digits(n) + [DigitChar(digit)]
  {}

  lemma {:induction false} UnpaddedDigits(whole: string)
    requires Unpadded(whole)
    ensures whole == Digits(ParseDigits(whole)) && (whole != "0" ==> ParseDigits(whole) > 0)
  {
    if |whole| > 1 {
      var front := whole[..|whole| - 1];
      assert front[0] == whole[0];
      UnpaddedDigits(front);
      OneMoreDigit(ParseDigits(front), DigitValue(whole[|whole| - 1]));
      assert whole == front + [whole[|whole| - 1]];
    } else {
      assert ParseDigits(whole[..0]) == 0;
    }
  }

  /** Digit strings of one value whose last `|f|` digits are split off agree in both parts. */
  lemma {:induction false} SameSplit(w: string, f: string, w': string, f': string)
    requires AllDigits(w) && AllDigits(f) && AllDigits(w') && AllDigits(f') && |f| == |f'|
    requires ParseDigits(w + f) == ParseDigits(w' + f')
    ensures f == f' && ParseDigits(w) == ParseDigits(w')
    decreases |f|
  {
    if f == "" {
      assert w + f == w && w' + f' == w';
    } else {
      var s, s' := w + f, w' + f';
      var g, g' := f[..|f| - 1], f'[..|f| - 1];
      assert s[..|s| - 1] == w + g && s'[..|s'| - 1] == w' + g';
      assert DigitValue(s[|s| - 1]) == DigitValue(s'[|s'| - 1]);
      SameSplit(w, g, w', g');
      assert f == g + [f[|f| - 1]] && f' == g' + [f'[|f| - 1]];
    }
  }

  lemma LastDigit(s: string)
    requires s != "" && AllDigits(s)
    ensures ParseDigits(s) % 10 == DigitValue(s[|s| - 1])
  {}

  lemma NotAMultiple(c: nat, d: nat, k: nat)
    requires c % 10 != 0 && k > 0
    ensures c != d * Pow10(k)
  {
    PowStep(d, k);
  }

  /** Scaled integers that do not end in zero are the same as soon as their values are. */
  lemma ShortestScale(c: nat, n: nat, d: nat, m: nat)
    requires (n > 0 ==> c % 10 != 0) && (m > 0 ==> d % 10 != 0)
    requires Magnitude(c, 0 - n) == Magnitude(d, 0 - m)
    ensures n == m && c == d
  {
    if n > m {
      LongerDiffers(c, n, d, m);
    } else if n < m {
      LongerDiffers(d, m, c, n);
    } else {
      SameScale(c, d, 0 - n);
    }
  }

  lemma LongerDiffers(c: nat, n: nat, d: nat, m: nat)
    requires n > m && c % 10 != 0
    ensures Magnitude(c, 0 - n) != Magnitude(d, 0 - m)
  {
    NotAMultiple(c, d, n - m);
    ShiftBy(d, 0 - n, n - m);
    SameScale(c, d * Pow10(n - m), 0 - n);
  }

  /** The parts of an unsigned text, put together again. */
  lemma UnsignedParts(negative: bool, body: string)
    requires ParseUnsigned(negative, body).Some?
    ensures var w, f := WholePart(body), FractionPart(body);
      && body == w + (if f == "" then "" else "." + f) && AllDigits(w) && AllDigits(f)
      && ParseUnsigned(negative, body) == Some(Finite(negative, ParseDigits(w + f), -|f|))
  {}

  lemma SignApart(text: string)
    ensures text == Sign(IsNegative(text)) + Unsigned(text)
    ensures ParsePlain(text) == ParseUnsigned(IsNegative(text), Unsigned(text))
  {}

  lemma JoinedApart(negative: bool, w: string, f: string)
    ensures Join(negative, (w, f)) == Sign(negative) + (w + (if f == "" then "" else "." + f))
  {
    var rest := if f == "" then "" else "." + f;
    assert Sign(negative) + w + rest == Sign(negative) + (w + rest);
  }

  /** How a text that can be read is spelled. */
  predicate Spelled(text: string, w: string, f: string) {
    && AllDigits(w) && AllDigits(f) && text == Join(IsNegative(text), (w, f))
    && ParsePlain(text) == Some(Finite(IsNegative(text), ParseDigits(w + f), -|f|))
  }

  lemma TextIsSpelled(text: string)
    requires ParsePlain(text).Some?
    ensures Spelled(text, Whole(text), Fraction(text))
  {
    SignApart(text);
    BodyIsSpelled(text, IsNegative(text), Unsigned(text));
  }

  lemma BodyIsSpelled(text: string, negative: bool, body: string)
    requires text == Sign(negative) + body && negative == IsNegative(text)
    requires ParsePlain(text) == ParseUnsigned(negative, body) && ParsePlain(text).Some?
    ensures Spelled(text, WholePart(body), FractionPart(body))
  {
    UnsignedParts(negative, body);
    JoinedApart(negative, WholePart(body), FractionPart(body));
  }

  /** A canonical text reads as a number scaled no further than it needs. */
  predicate Shortest(d: Decimal) { d.Finite? && d.exponent <= 0 && (d.exponent < 0 ==> d.coefficient % 10 != 0) }

  lemma CanonicalIsShortest(text: string)
    requires Canonical(text)
    ensures Shortest(ParsePlain(text).value)
  {
    var w, f := Whole(text), Fraction(text);
    TextIsSpelled(text);
    PointComesFromFraction(IsNegative(text), (w, f));
    if f != "" {
      assert (w + f)[|w + f| - 1] == f[|f| - 1];
      LastDigit(w + f);
    }
  }

  lemma SameShortest(x: Decimal, y: Decimal)
    requires Shortest(x) && Shortest(y) && x.negative == y.negative && Value(x) == Value(y)
    ensures x == y
  {
    SameMagnitude(x.negative, x.coefficient, x.exponent, y.coefficient, y.exponent);
    ShortestScale(x.coefficient, 0 - x.exponent, y.coefficient, 0 - y.exponent);
  }

  lemma SameMagnitude(negative: bool, c: nat, e: int, c': nat, e': int)
    requires Value(Finite(negative, c, e)) == Value(Finite(negative, c', e'))
    ensures Magnitude(c, e) == Magnitude(c', e')
  {}

  lemma SameDigits(w: string, f: string, w': string, f': string)
    requires Unpadded(w) && Unpadded(w') && AllDigits(w) && AllDigits(f) && AllDigits(w') && AllDigits(f')
    requires |f| == |f'| && ParseDigits(w + f) == ParseDigits(w' + f')
    ensures w == w' && f == f'
  {
    SameSplit(w, f, w', f');
    UnpaddedDigits(w);
    UnpaddedDigits(w');
  }

  lemma SameSpelling(a: string, w: string, f: string, b: string, w': string, f': string)
    requires Spelled(a, w, f) && Spelled(b, w', f') && Unpadded(w) && Unpadded(w') && ParsePlain(a) == ParsePlain(b)
    ensures a == b
  {
    SameDigits(w, f, w', f');
  }

  /** No two canonical texts denote the same signed number. */
  lemma CanonicalTextIsUnique(a: string, b: string)
    requires Canonical(a) && Canonical(b)
    requires var x, y := ParsePlain(a).value, ParsePlain(b).value;
      x.Finite? && y.Finite? && x.negative == y.negative && Value(x) == Value(y)
    ensures a == b
  {
    CanonicalIsShortest(a);
    CanonicalIsShortest(b);
    SameShortest(ParsePlain(a).value, ParsePlain(b).value);
    TextIsSpelled(a);
    TextIsSpelled(b);
    SameSpelling(a, Whole(a), Fraction(a), b, Whole(b), Fraction(b));
  }

  /** So `format_decimal` gives the one canonical text: of a number that fits, exactly the text that is plain,
      unpadded on either side, and denotes the number with its sign. */
  lemma PrintsTheCanonicalText(d: Decimal, text: string)
    requires d.Finite? && Fits(d)
    ensures FormatDecimal(d) == Ok(text) <==>
              && Canonical(text)
              && ParsePlain(text).value.Finite?
              && ParsePlain(text).value.negative == d.negative && Value(ParsePlain(text).value) == Value(d)
  {
    PrintingIsAnExactInverse(d);
    if Canonical(text) {
      CanonicalIsShortest(text);
      if ParsePlain(text).value.negative == d.negative && Value(ParsePlain(text).value) == Value(d) {
        CanonicalTextIsUnique(text, FormatDecimal(d).value);
      }
    }
  }

  /** Canonical text identifies the number: two decimals print alike exactly when they are
      equal (the sign of zero is printed, so it counts). */
  lemma PrintAlikeExactlyWhenEqual(a: Decimal, b: Decimal)
    requires a.Finite? && b.Finite? && Fits(a) && Fits(b)
    ensures FormatDecimal(a) == FormatDecimal(b) <==> Value(a) == Value(b) && a.negative == b.negative
  {
    ReadsBack(a);
    ReadsBack(b);
    if Value(a) == Value(b) && a.negative == b.negative {
      PrintsAlike(a, b);
    }
  }

  lemma ReadsBack(d: Decimal)
    requires d.Finite? && Fits(d)
    ensures FormatDecimal(d).Ok? && ParsePlain(FormatDecimal(d).value).Some?
    ensures var read := ParsePlain(FormatDecimal(d).value).value;
      read.Finite? && read.negative == d.negative && Value(read) == Value(d)
  {
    PrintingIsAnExactInverse(d);
  }

  lemma PrintsAlike(a: Decimal, b: Decimal)
    requires a.Finite? && b.Finite? && Fits(a) && Fits(b)
    requires Value(a) == Value(b) && a.negative == b.negative
    ensures FormatDecimal(a) == FormatDecimal(b)
  {
    NormalFormUnique(a, b);
  }

  lemma NormalFormUnique(a: Decimal, b: Decimal)
    requires a.Finite? && b.Finite? && Fits(a) && Fits(b)
    requires Value(a) == Value(b) && a.negative == b.negative
    ensures Normalise(a) == Normalise(b)
  {
    NormaliseExactlyWhenFits(a);
    NormaliseExactlyWhenFits(b);
    var m, n := Normalise(a), Normalise(b);
    SameScale(m.coefficient, 0, m.exponent);
    SameScale(n.coefficient, 0, n.exponent);
    if m.coefficient > 0 && n.coefficient > 0 {
      StrippedUnique(m, n);
    }
  }
}
