/**
 * Amounts in the expense service: the decimal text a client sends is read
 * with `parseFloat` and stored as whole paise (`Math.round(x * 100)`); a
 * stored amount is shown again as rupees with two decimals
 * (`(paise / 100).toFixed(2)`).
 *
 * Only decimal text with at most two fraction digits is modelled:
 * `[+-]? digits? ('.' digits?)?` with at most two digits after the point and
 * at least one digit in all, so ".5" and "5." are read. Any other text reads
 * as not-a-number. On this text, and with unbounded integers, both
 * conversions are exact.
 */
module Money {
  import opened Wrappers
  import opened Text

  /** A parsed amount: its sign and its magnitude in hundredths (paise). */
  datatype Decimal = Decimal(negative: bool, hundredths: nat)

  /** The index of the first `c` in `s`, or `|s|` when there is none. */
  function IndexOf(s: string, c: char): (i: nat)
    ensures i <= |s|
    ensures i < |s| ==> s[i] == c
    ensures forall k :: 0 <= k < i ==> s[k] != c
  {
    if s == [] || s[0] == c then 0 else 1 + IndexOf(s[1..], c)
  }

  /** The value in hundredths of at most two digits written after the point. */
  function FractionValue(frac: string): (v: nat)
    requires AllDigits(frac) && |frac| <= 2
    ensures v < 100
  {
    if |frac| == 0 then 0
    else if |frac| == 1 then DigitValue(frac[0]) * 10
    else DigitValue(frac[0]) * 10 + DigitValue(frac[1])
  }

  /** `parseFloat(s)` on the modelled decimal text; None stands for NaN. */
  function ParseFloat(s: string): (r: Option<Decimal>)
    ensures r.Some? ==> (r.value.negative <==> |s| > 0 && s[0] == '-')
  {
    var signed := |s| > 0 && (s[0] == '-' || s[0] == '+');
    var digits := if signed then s[1..] else s;
    var dot := IndexOf(digits, '.');
    var whole := digits[..dot];
    var frac := if dot < |digits| then digits[dot + 1..] else [];
    if AllDigits(whole) && AllDigits(frac) && |frac| <= 2 && |whole| + |frac| >= 1 then
      Some(Decimal(signed && s[0] == '-', DigitsValue(whole) * 100 + FractionValue(frac)))
    else
      None
  }

  /** `parseFloat(s) > 0`: the value is a number and strictly positive. */
  predicate Positive(d: Decimal)
  {
    !d.negative && d.hundredths > 0
  }

  /**
   * The amount check of the POST handler and the form: an absent amount or one
   * that is not a number or not positive has no paise value; otherwise the
   * paise are `Math.round(amount * 100)`, exact on the modelled text.
   */
  function ToPaise(amount: Option<string>): (r: Option<nat>)
    ensures r.Some? ==> r.value > 0
    ensures r.Some? <==> amount.Some? && ParseFloat(amount.value).Some? && Positive(ParseFloat(amount.value).value)
  {
    if amount.None? then None
    else
      match ParseFloat(amount.value)
      case None => None
      case Some(d) => if Positive(d) then Some(d.hundredths) else None
  }

  /**
   * Decimal text of the modelled grammar, assembled from its parts: an
   * optional sign, the whole digits, and, when there is a point, the digits
   * after it.
   */
  function DecimalText(sign: string, whole: string, point: bool, frac: string): string
  {
    sign + whole + (if point then "." + frac else "")
  }

  /** The parts of `DecimalText` that the modelled grammar allows. */
  predicate DecimalParts(sign: string, whole: string, point: bool, frac: string)
  {
    && (sign == "" || sign == "+" || sign == "-")
    && AllDigits(whole) && AllDigits(frac) && |frac| <= 2
    && (point || frac == [])
    && |whole| + |frac| >= 1
  }

  /** Where the first point of unsigned decimal text falls. */
  lemma SplitAtPoint(whole: string, point: bool, frac: string)
    requires AllDigits(whole)
    ensures var body := whole + (if point then "." + frac else "");
      && IndexOf(body, '.') == |whole|
      && body[..|whole|] == whole
      && (if point then body[|whole| + 1..] == frac else |body| == |whole|)
  {
    var body := whole + (if point then "." + frac else "");
    if point {
      IndexOfPointAfterDigits(whole, "." + frac);
      assert body[|whole| + 1..] == frac;
    } else {
      assert body == whole;
      assert forall k :: 0 <= k < |body| ==> body[k] != '.';
    }
    assert body[..|whole|] == whole;
  }

  /** How `parseFloat` reads unsigned decimal text. */
  lemma ParseUnsigned(whole: string, point: bool, frac: string)
    requires DecimalParts("", whole, point, frac)
    ensures var r := ParseFloat(whole + (if point then "." + frac else ""));
      r.Some? && !r.value.negative && r.value.hundredths == DigitsValue(whole) * 100 + FractionValue(frac)
  {
    var body := whole + (if point then "." + frac else "");
    SplitAtPoint(whole, point, frac);
    assert !(body[0] == '-' || body[0] == '+') by {
      assert body[0] == '.' || IsDigit(body[0]);
    }
  }

  /** A leading `+` or `-` sets the sign and leaves the magnitude to the rest. */
  lemma ParseSigned(c: char, body: string)
    requires c == '+' || c == '-'
    requires body == [] || (body[0] != '+' && body[0] != '-')
    ensures ParseFloat([c] + body).Some? <==> ParseFloat(body).Some?
    ensures ParseFloat(body).Some? ==>
      && (ParseFloat([c] + body).value.negative <==> c == '-')
      && ParseFloat([c] + body).value.hundredths == ParseFloat(body).value.hundredths
  {
    assert ([c] + body)[1..] == body;
  }

  /** How `parseFloat` reads signed decimal text. */
  lemma ParseSignedDecimal(c: char, whole: string, point: bool, frac: string)
    requires c == '+' || c == '-'
    requires DecimalParts("", whole, point, frac)
    ensures var r := ParseFloat([c] + whole + (if point then "." + frac else ""));
      r.Some? && (r.value.negative <==> c == '-') && r.value.hundredths == DigitsValue(whole) * 100 + FractionValue(frac)
  {
    var body := whole + (if point then "." + frac else "");
    assert [c] + whole + (if point then "." + frac else "") == [c] + body;
    ParseUnsigned(whole, point, frac);
    assert body[0] == '.' || IsDigit(body[0]);
    ParseSigned(c, body);
  }

  /**
   * `parseFloat` reads every text of the modelled grammar as its sign and
   * `whole * 100 + frac` hundredths: "100" is 10000, "150.5" is 15050,
   * ".5" is 50, "+5" is 500 and "-5" is 500 below zero.
   */
  lemma ParseDecimalText(sign: string, whole: string, point: bool, frac: string)
    requires DecimalParts(sign, whole, point, frac)
    ensures var r := ParseFloat(DecimalText(sign, whole, point, frac));
      r.Some? && r.value == Decimal(sign == "-", DigitsValue(whole) * 100 + FractionValue(frac))
  {
    if sign == "" {
      assert DecimalText(sign, whole, point, frac) == whole + (if point then "." + frac else "");
      ParseUnsigned(whole, point, frac);
    } else {
      assert DecimalText(sign, whole, point, frac) == [sign[0]] + whole + (if point then "." + frac else "");
      ParseSignedDecimal(sign[0], whole, point, frac);
    }
  }

  lemma Reassemble(s: string, sign: string, whole: string, point: bool, frac: string)
    requires DecimalParts(sign, whole, point, frac)
    requires s == sign + (whole + (if point then "." + frac else ""))
    ensures exists sign, whole, point, frac ::
      DecimalParts(sign, whole, point, frac) && s == DecimalText(sign, whole, point, frac)
  {
    assert s == DecimalText(sign, whole, point, frac);
  }

  /** Text after its optional sign, cut at its first point, reassembles. */
  lemma Decompose(s: string, sign: string, digits: string)
    requires s == sign + digits && (sign == "" || sign == "+" || sign == "-")
    requires var dot := IndexOf(digits, '.');
      var frac := if dot < |digits| then digits[dot + 1..] else [];
      AllDigits(digits[..dot]) && AllDigits(frac) && |frac| <= 2 && |digits[..dot]| + |frac| >= 1
    ensures exists sign, whole, point, frac ::
      DecimalParts(sign, whole, point, frac) && s == DecimalText(sign, whole, point, frac)
  {
    var dot := IndexOf(digits, '.');
    var whole := digits[..dot];
    if dot < |digits| {
      var frac := digits[dot + 1..];
      assert digits == whole + ("." + frac) by {
        assert digits[dot..] == "." + frac;
        assert digits == whole + digits[dot..];
      }
      Reassemble(s, sign, whole, true, frac);
    } else {
      assert digits == whole + "";
      Reassemble(s, sign, whole, false, []);
    }
  }

  /** Every text `parseFloat` reads is of the modelled grammar. */
  lemma ParsedIsDecimalText(s: string)
    requires ParseFloat(s).Some?
    ensures exists sign, whole, point, frac ::
      DecimalParts(sign, whole, point, frac) && s == DecimalText(sign, whole, point, frac)
  {
    var signed := |s| > 0 && (s[0] == '-' || s[0] == '+');
    if signed {
      assert s == s[..1] + s[1..];
      assert s[..1] == "+" || s[..1] == "-";
      Decompose(s, s[..1], s[1..]);
    } else {
      Decompose(s, "", s);
    }
  }

  /**
   * The amount check on text of the modelled grammar: a value with no minus
   * sign and above zero is accepted as exactly `whole * 100 + frac` paise,
   * and anything else is refused.
   */
  lemma ToPaiseOfDecimalText(sign: string, whole: string, point: bool, frac: string)
    requires DecimalParts(sign, whole, point, frac)
    ensures var paise := DigitsValue(whole) * 100 + FractionValue(frac);
      ToPaise(Some(DecimalText(sign, whole, point, frac)))
        == if sign != "-" && paise > 0 then Some(paise) else None
  {
    ParseDecimalText(sign, whole, point, frac);
  }

  /** Two-decimal text as `toFixed(2)` prints it: a canonical whole part, a point, two digits. */
  predicate TwoDecimals(s: string)
  {
    |s| >= 4 && s[|s| - 3] == '.' && Canonical(s[..|s| - 3]) && AllDigits(s[|s| - 2..])
  }

  /**
   * `(paise / 100).toFixed(2)`, with integer division and remainder: the text
   * is two-decimal and `parseFloat` reads it back as exactly `paise` hundredths.
   */
  function FormatPaise(paise: nat): (r: string)
    ensures TwoDecimals(r)
    ensures ParseFloat(r) == Some(Decimal(false, paise))
  {
    var whole := NatToString(paise / 100);
    var r := whole + ['.', DigitChar(paise / 10 % 10), DigitChar(paise % 10)];
    FormatParses(paise, whole, r);
    r
  }

  /** In digits followed by a point, the first point is the one after the digits. */
  lemma IndexOfPointAfterDigits(whole: string, rest: string)
    requires AllDigits(whole) && rest != [] && rest[0] == '.'
    ensures IndexOf(whole + rest, '.') == |whole|
  {
    var s := whole + rest;
    var dot := IndexOf(s, '.');
    assert s[|whole|] == '.';
  }

  lemma FormatTwoDecimals(paise: nat, whole: string, r: string)
    requires whole == NatToString(paise / 100)
    requires r == whole + ['.', DigitChar(paise / 10 % 10), DigitChar(paise % 10)]
    ensures TwoDecimals(r)
  {
    assert r[..|r| - 3] == whole;
    assert r[|r| - 2..] == [DigitChar(paise / 10 % 10), DigitChar(paise % 10)];
  }

  lemma LastTwoDigits(paise: nat)
    ensures paise % 100 == paise / 10 % 10 * 10 + paise % 10
    ensures paise == paise / 100 * 100 + paise % 100
  {
  }

  lemma FormatParses(paise: nat, whole: string, r: string)
    requires whole == NatToString(paise / 100)
    requires r == whole + ['.', DigitChar(paise / 10 % 10), DigitChar(paise % 10)]
    ensures TwoDecimals(r)
    ensures ParseFloat(r) == Some(Decimal(false, paise))
  {
    FormatTwoDecimals(paise, whole, r);
    ParseTwoDecimals(r);
    var frac := [DigitChar(paise / 10 % 10), DigitChar(paise % 10)];
    assert r[..|r| - 3] == whole;
    assert r[|r| - 2..] == frac;
    LastTwoDigits(paise);
    assert FractionValue(frac) == paise % 100;
  }

  /** A positive stored amount, formatted, passes the amount check again with the same paise. */
  lemma ToPaiseOfFormat(paise: nat)
    requires paise > 0
    ensures ToPaise(Some(FormatPaise(paise))) == Some(paise)
  {
  }

  lemma SplitHundredths(w: nat, d1: nat, d2: nat)
    requires d1 < 10 && d2 < 10
    ensures (w * 100 + d1 * 10 + d2) / 100 == w
    ensures (w * 100 + d1 * 10 + d2) / 10 % 10 == d1
    ensures (w * 100 + d1 * 10 + d2) % 10 == d2
  {
    var p := w * 100 + d1 * 10 + d2;
    assert p == (w * 10 + d1) * 10 + d2;
    assert p / 10 == w * 10 + d1;
  }

  /** How `parseFloat` reads two-decimal text. */
  lemma ParseTwoDecimals(s: string)
    requires TwoDecimals(s)
    ensures ParseFloat(s) == Some(Decimal(false, DigitsValue(s[..|s| - 3]) * 100 + FractionValue(s[|s| - 2..])))
  {
    var n := |s| - 3;
    var whole := s[..n];
    assert s[0] == whole[0] && IsDigit(s[0]);
    assert s == whole + s[n..];
    IndexOfPointAfterDigits(whole, s[n..]);
    assert s[n + 1..] == s[|s| - 2..];
  }

  /** Formatting the value of a canonical whole part and two digits prints them back. */
  lemma FormatOfDigits(whole: string, d1: char, d2: char)
    requires Canonical(whole) && IsDigit(d1) && IsDigit(d2)
    ensures FormatPaise(DigitsValue(whole) * 100 + DigitValue(d1) * 10 + DigitValue(d2)) == whole + ['.', d1, d2]
  {
    var paise := DigitsValue(whole) * 100 + DigitValue(d1) * 10 + DigitValue(d2);
    SplitHundredths(DigitsValue(whole), DigitValue(d1), DigitValue(d2));
    NatToStringOfValue(whole);
    assert NatToString(paise / 100) == whole;
    assert DigitChar(paise / 10 % 10) == d1 && DigitChar(paise % 10) == d2;
  }

  /**
   * Formatting undoes parsing: two-decimal text for a positive amount is
   * exactly what `FormatPaise` prints for its paise.
   */
  lemma FormatOfToPaise(s: string)
    requires TwoDecimals(s) && ToPaise(Some(s)).Some?
    ensures FormatPaise(ToPaise(Some(s)).value) == s
  {
    var whole := s[..|s| - 3];
    var frac := s[|s| - 2..];
    ParseTwoDecimals(s);
    assert ToPaise(Some(s)).value == DigitsValue(whole) * 100 + DigitValue(frac[0]) * 10 + DigitValue(frac[1]);
    assert s == whole + ['.', frac[0], frac[1]];
    FormatOfDigits(whole, frac[0], frac[1]);
  }

  /** Worked example: "105.50" is accepted as 10550 paise. */
  lemma AcceptedExample()
    ensures ToPaise(Some("105.50")) == Some(10550)
  {
    var s := "105.50";
    assert TwoDecimals(s) by {
      assert s[..3] == "105" && s[4..] == "50";
    }
    ParseTwoDecimals(s);
    assert s[..3] == "105" && s[4..] == "50";
    assert DigitsValue("105") == 105 by {
      assert "105"[..2] == "10" && "10"[..1] == "1" && "1"[..0] == [];
    }
  }

  /** The digit values and the parts of the example amounts without a point. */
  lemma WholeSpellings()
    ensures DigitsValue("100") == 100 && "100" == DecimalText("", "100", false, "")
    ensures DigitsValue("50") == 50 && "50" == DecimalText("", "50", false, "")
    ensures DigitsValue("5") == 5 && "+5" == DecimalText("+", "5", false, "")
    ensures FractionValue("") == 0
  {
    assert "100"[..2] == "10" && "10"[..1] == "1" && "1"[..0] == [];
    assert "50"[..1] == "5" && "5"[..0] == [];
  }

  /** The digit values and the parts of the example amounts with a point. */
  lemma PointSpellings()
    ensures DigitsValue("150") == 150 && "150.5" == DecimalText("", "150", true, "5")
    ensures ".5" == DecimalText("", "", true, "5")
    ensures DigitsValue("007") == 7 && "007.10" == DecimalText("", "007", true, "10")
    ensures FractionValue("5") == 50 && FractionValue("10") == 10
  {
    assert "150"[..2] == "15" && "15"[..1] == "1" && "1"[..0] == [];
    assert "007"[..2] == "00" && "00"[..1] == "0" && "0"[..0] == [];
  }

  /** Worked example: "100" is 10000 paise, as the handler tests send it. */
  lemma AcceptsHundred()
    ensures ToPaise(Some("100")) == Some(10000)
  {
    WholeSpellings();
    ToPaiseOfDecimalText("", "100", false, "");
  }

  /** Worked example: "50" is 5000 paise, as the handler tests send it. */
  lemma AcceptsFifty()
    ensures ToPaise(Some("50")) == Some(5000)
  {
    WholeSpellings();
    ToPaiseOfDecimalText("", "50", false, "");
  }

  /** Worked example: "+5" is 500 paise: a `+` sign is read and dropped. */
  lemma AcceptsPlusSign()
    ensures ToPaise(Some("+5")) == Some(500)
  {
    WholeSpellings();
    ToPaiseOfDecimalText("+", "5", false, "");
  }

  /** Worked example: "150.5" is 15050 paise, as the form test types it. */
  lemma AcceptsFormAmount()
    ensures ToPaise(Some("150.5")) == Some(15050)
  {
    PointSpellings();
    ToPaiseOfDecimalText("", "150", true, "5");
  }

  /** Worked example: ".5" is 50 paise: the whole digits may be left out. */
  lemma AcceptsBareFraction()
    ensures ToPaise(Some(".5")) == Some(50)
  {
    PointSpellings();
    ToPaiseOfDecimalText("", "", true, "5");
  }

  /** Worked example: "007.10" is 710 paise: leading zeros add nothing. */
  lemma AcceptsLeadingZeros()
    ensures ToPaise(Some("007.10")) == Some(710)
  {
    PointSpellings();
    ToPaiseOfDecimalText("", "007", true, "10");
  }

  /** Worked example: 1000 paise print as "10.00". */
  lemma FormatExample()
    ensures FormatPaise(1000) == "10.00"
  {
    assert NatToString(10) == "10" by {
      assert NatToString(1) == "1";
    }
  }

  /** Worked examples: a negative amount, zero, text and a missing amount are all refused. */
  lemma RejectedExamples()
    ensures ToPaise(Some("-5")) == None
    ensures ToPaise(Some("0")) == None
    ensures ToPaise(Some("abc")) == None
    ensures ToPaise(None) == None
  {
    assert ParseFloat("0") == Some(Decimal(false, 0)) by {
      assert IndexOf("0", '.') == 1 by { assert "0"[1..] == []; }
      assert "0"[..1] == "0";
      assert DigitsValue("0") == 0 by { assert "0"[..0] == []; }
    }
    assert !AllDigits("abc"[..IndexOf("abc", '.')]) by {
      assert "abc"[..IndexOf("abc", '.')][0] == 'a';
    }
  }
}
