/** Ledger amounts: `parseFloat(cell.replace(/[^\d.-]/g, '')) || 0`, and the
    text `${amount}` that the change detector puts in a record's key.

    An amount is kept as the exact decimal literal `parseFloat` reads: a
    sign, a whole part and the fraction digits with trailing zeros dropped.
    Zero is never negative, because `|| 0` turns both NaN and -0 into 0. */
module Amounts {
  import opened Wrappers
  import opened Seqs
  import opened Text

  datatype Amount = Amount(negative: bool, whole: nat, fraction: string)

  const Zero := Amount(false, 0, "")

  /** The shape every amount the parser produces has. */
  predicate Canonical(a: Amount) {
    && AllDigits(a.fraction)
    && (a.fraction != [] ==> a.fraction[|a.fraction| - 1] != '0')
    && (a.whole == 0 && a.fraction == [] ==> !a.negative)
  }

  /** The numeric value of fraction digits read after a decimal point. */
  function FracValue(f: string): (v: real)
    requires AllDigits(f)
    ensures 0.0 <= v <= 1.0
  {
    if f == [] then 0.0 else (DigitValue(f[0]) as real + FracValue(f[1..])) / 10.0
  }

  /** The numeric value of an amount. */
  function Value(a: Amount): real
    requires AllDigits(a.fraction)
  {
    var magnitude := a.whole as real + FracValue(a.fraction);
    if a.negative then -magnitude else magnitude
  }

  /** The test `r.amount > 0` on the decimal form. */
  predicate IsPositive(a: Amount) {
    !a.negative && (a.whole > 0 || a.fraction != [])
  }

  /** On canonical amounts the decimal test agrees with the numeric one. */
  lemma PositiveValue(a: Amount)
    requires Canonical(a)
    ensures IsPositive(a) <==> Value(a) > 0.0
  {
    if a.fraction != [] {
      FracPositive(a.fraction);
    }
  }

  /** Fraction digits ending in a non-zero digit have a positive value. */
  lemma {:induction false} FracPositive(f: string)
    requires AllDigits(f) && f != [] && f[|f| - 1] != '0'
    ensures FracValue(f) > 0.0
  {
    if |f| > 1 {
      FracPositive(f[1..]);
    }
  }

  /** Drops trailing zeros from fraction digits. */
  function DropTrailingZeros(f: string): (r: string)
    ensures r <= f
    ensures r != [] ==> r[|r| - 1] != '0'
  {
    if f != [] && f[|f| - 1] == '0' then DropTrailingZeros(f[..|f| - 1]) else f
  }

  /** The characters `replace(/[^\d.-]/g, '')` keeps. */
  predicate NumberChar(c: char) {
    IsDigit(c) || c == '.' || c == '-'
  }

  /** `s.replace(/[^\d.-]/g, '')`: every digit, dot and minus sign of the
      text, each as often as it occurs there, in their order. */
  function Strip(s: string): (r: string)
    ensures forall k :: 0 <= k < |r| ==> NumberChar(r[k])
    ensures Subsequence(r, s)
    ensures forall c :: multiset(r)[c] == if NumberChar(c) then multiset(s)[c] else 0
  {
    FilterSubsequence(s, NumberChar);
    forall c ensures multiset(Filter(s, NumberChar))[c] == if NumberChar(c) then multiset(s)[c] else 0 {
      FilterMultiplicity(s, NumberChar, c);
    }
    Filter(s, NumberChar)
  }

  /** The run of digits that starts the text. */
  function LeadingDigits(t: string): (d: string)
    ensures d <= t && AllDigits(d)
    ensures |d| < |t| ==> !IsDigit(t[|d|])
  {
    if t != [] && IsDigit(t[0]) then [t[0]] + LeadingDigits(t[1..]) else []
  }

  /** The amount made of a sign, a whole part and fraction digits, with
      trailing zeros dropped and zero made positive. */
  function MakeAmount(negative: bool, whole: nat, fraction: string): (a: Amount)
    requires AllDigits(fraction)
    ensures Canonical(a)
  {
    var f := DropTrailingZeros(fraction);
    if whole == 0 && f == [] then Zero else Amount(negative, whole, f)
  }

  /** A decimal literal as `parseFloat` reads one from stripped text: an
      optional minus sign, a run of whole digits and, after a dot, a run of
      fraction digits. */
  datatype Literal = Literal(negative: bool, whole: string, dot: bool, fraction: string)

  /** Digits only, no fraction without a dot, and at least one digit. */
  predicate WellFormed(l: Literal) {
    && AllDigits(l.whole) && AllDigits(l.fraction)
    && (!l.dot ==> l.fraction == [])
    && (l.whole != [] || l.fraction != [])
  }

  /** The literal without its sign. */
  function Unsigned(l: Literal): string {
    l.whole + (if l.dot then "." + l.fraction else "")
  }

  function LiteralText(l: Literal): string {
    (if l.negative then "-" else "") + Unsigned(l)
  }

  /** The amount a literal denotes. */
  function LiteralValue(l: Literal): Amount
    requires AllDigits(l.whole) && AllDigits(l.fraction)
  {
    MakeAmount(l.negative, DigitsValue(l.whole), l.fraction)
  }

  /** The literal `parseFloat` scans from the start of the text: the sign,
      the leading digits, and the digits after a dot that follows them. */
  function Scan(t: string): (l: Literal)
    ensures AllDigits(l.whole) && AllDigits(l.fraction) && (!l.dot ==> l.fraction == [])
  {
    var negative := t != [] && t[0] == '-';
    ScanUnsigned(negative, if negative then t[1..] else t)
  }

  /** The scan after the sign. */
  function ScanUnsigned(negative: bool, body: string): (l: Literal)
    ensures l.negative == negative
    ensures AllDigits(l.whole) && AllDigits(l.fraction) && (!l.dot ==> l.fraction == [])
  {
    var w := LeadingDigits(body);
    var rest := body[|w|..];
    var dot := rest != [] && rest[0] == '.';
    Literal(negative, w, dot, if dot then LeadingDigits(rest[1..]) else [])
  }

  /** `parseFloat` on text of digits, dots and minus signs: the value of the
      scanned literal, or NaN (`None`) when it holds no digit. */
  function ParseNumber(t: string): (r: Option<Amount>)
    ensures r.Some? ==> Canonical(r.value)
  {
    var l := Scan(t);
    if l.whole == [] && l.fraction == [] then None else Some(LiteralValue(l))
  }

  /** `parseFloat` reads the longest literal that starts the text: when `l`
      is a literal starting `t` and no literal starting `t` is longer, the
      result is the value of `l`. */
  lemma ParseNumberLongest(t: string, l: Literal)
    requires WellFormed(l) && LiteralText(l) <= t
    requires forall m :: WellFormed(m) && LiteralText(m) <= t ==> |LiteralText(m)| <= |LiteralText(l)|
    ensures ParseNumber(t) == Some(LiteralValue(l))
  {
    ScanLongest(t, l);
  }

  /** `parseFloat` gives NaN exactly when no literal starts the text. */
  lemma ParseNumberNaN(t: string)
    ensures ParseNumber(t).None? <==> forall l :: WellFormed(l) ==> !(LiteralText(l) <= t)
  {
    var s := Scan(t);
    if s.whole == [] && s.fraction == [] {
      forall l | WellFormed(l) ensures !(LiteralText(l) <= t) {
        if LiteralText(l) <= t {
          ScanLongest(t, l);
        }
      }
    } else {
      assert WellFormed(s);
      ScanStarts(t);
    }
  }

  /** The scanned literal starts the text; every literal that starts the
      text is at most as long, and one as long is the scanned literal. */
  lemma ScanLongest(t: string, l: Literal)
    requires WellFormed(l) && LiteralText(l) <= t
    ensures LiteralText(Scan(t)) <= t
    ensures WellFormed(Scan(t))
    ensures |LiteralText(l)| <= |LiteralText(Scan(t))|
    ensures |LiteralText(l)| == |LiteralText(Scan(t))| ==> l == Scan(t)
  {
    var negative := t != [] && t[0] == '-';
    var body := if negative then t[1..] else t;
    var u := Unsigned(l);
    assert u != [] && (u[0] == '.' || IsDigit(u[0]));
    assert l.negative == negative by {
      if !l.negative {
        assert t[0] == LiteralText(l)[0] == u[0];
      }
    }
    assert u <= body by {
      if negative {
        assert LiteralText(l) == "-" + u;
      }
    }
    UnsignedLongest(negative, body, l);
    ScanStarts(t);
  }

  /** The scanned literal starts the text. */
  lemma ScanStarts(t: string)
    ensures LiteralText(Scan(t)) <= t
  {
    var negative := t != [] && t[0] == '-';
    var body := if negative then t[1..] else t;
    ScanUnsignedStarts(negative, body);
    if negative {
      assert t == "-" + body;
    }
  }

  lemma ScanUnsignedStarts(negative: bool, body: string)
    ensures Unsigned(ScanUnsigned(negative, body)) <= body
  {
    var s := ScanUnsigned(negative, body);
    var w := LeadingDigits(body);
    var rest := body[|w|..];
    assert body == w + rest;
    var tail := if s.dot then "." + s.fraction else "";
    assert tail <= rest by {
      if s.dot {
        assert rest == [rest[0]] + rest[1..];
      }
    }
  }

  /** The longest-literal argument after the sign. */
  lemma UnsignedLongest(negative: bool, body: string, l: Literal)
    requires WellFormed(l) && l.negative == negative && Unsigned(l) <= body
    ensures WellFormed(ScanUnsigned(negative, body))
    ensures |Unsigned(l)| <= |Unsigned(ScanUnsigned(negative, body))|
    ensures |Unsigned(l)| == |Unsigned(ScanUnsigned(negative, body))| ==> l == ScanUnsigned(negative, body)
  {
    var s := ScanUnsigned(negative, body);
    var w := LeadingDigits(body);
    var u := Unsigned(l);
    assert l.whole <= body;
    LeadingDigitsPrefix(l.whole, body);
    if |l.whole| < |w| {
      assert body[|l.whole|] == w[|l.whole|];
      assert s.whole != [];
    } else {
      assert l.whole == w;
      if l.dot {
        var rest := body[|w|..];
        assert u == w + ("." + l.fraction);
        assert body[|w|] == '.';
        assert rest[0] == '.';
        assert l.fraction <= rest[1..] by {
          forall k | 0 <= k < |l.fraction| ensures l.fraction[k] == rest[1..][k] {
            assert l.fraction[k] == u[|w| + 1 + k];
          }
        }
        LeadingDigitsPrefix(l.fraction, rest[1..]);
      }
    }
  }

  /** A run of digits that starts a text is a prefix of its leading digits. */
  lemma {:induction false} LeadingDigitsPrefix(d: string, x: string)
    requires AllDigits(d) && d <= x
    ensures d <= LeadingDigits(x)
  {
    if d != [] {
      LeadingDigitsPrefix(d[1..], x[1..]);
    }
  }

  /** A trailing zero does not change the value of fraction digits. */
  lemma {:induction false} FracTrailingZero(f: string)
    requires AllDigits(f)
    ensures FracValue(f + "0") == FracValue(f)
  {
    if f != [] {
      assert (f + "0")[1..] == f[1..] + "0";
      FracTrailingZero(f[1..]);
    }
  }

  /** Dropping trailing zeros keeps the value of fraction digits. */
  lemma {:induction false} DropTrailingZerosValue(f: string)
    requires AllDigits(f)
    ensures AllDigits(DropTrailingZeros(f)) && FracValue(DropTrailingZeros(f)) == FracValue(f)
  {
    if f != [] && f[|f| - 1] == '0' {
      var g := f[..|f| - 1];
      DropTrailingZerosValue(g);
      assert f == g + "0";
      FracTrailingZero(g);
    }
  }

  /** The amount of a literal has the literal's numeric value: its whole
      digits plus its fraction digits, negated after a minus sign. */
  lemma LiteralValueExact(l: Literal)
    requires WellFormed(l)
    ensures Value(LiteralValue(l)) == var v := DigitsValue(l.whole) as real + FracValue(l.fraction); if l.negative then -v else v
  {
    DropTrailingZerosValue(l.fraction);
  }

  /** `parseFloat(cell.replace(/[^\d.-]/g, '')) || 0`. */
  function ParseAmount(cell: string): (a: Amount)
    ensures Canonical(a)
  {
    match ParseNumber(Strip(cell))
    case None => Zero
    case Some(a) => a
  }

  /** `${amount}`: the decimal text of the amount. */
  function AmountText(a: Amount): string {
    (if a.negative then "-" else "")
    + NatToString(a.whole)
    + (if a.fraction == [] then "" else "." + a.fraction)
  }

  /** Reading the text of a canonical amount gives the amount back. */
  lemma ParseAmountText(a: Amount)
    requires Canonical(a)
    ensures ParseAmount(AmountText(a)) == a
  {
    var t := AmountText(a);
    NumberTextChars(a);
    FilterAll(t, NumberChar);
    NatToStringValue(a.whole);
    ParseNumberText(a.negative, NatToString(a.whole), a.fraction);
    assert DropTrailingZeros(a.fraction) == a.fraction;
  }

  /** The text of an amount is made of digits, dots and minus signs only. */
  lemma NumberTextChars(a: Amount)
    requires AllDigits(a.fraction)
    ensures forall k :: 0 <= k < |AmountText(a)| ==> NumberChar(AmountText(a)[k])
  {
    var digits := NatToString(a.whole);
    var tail := if a.fraction == [] then "" else "." + a.fraction;
    assert forall k :: 0 <= k < |tail| ==> NumberChar(tail[k]);
    var body := digits + tail;
    assert forall k :: 0 <= k < |body| ==> NumberChar(body[k]);
  }

  /** `parseFloat` reads a sign, a digit run and an optional fraction. */
  lemma ParseNumberText(negative: bool, digits: string, fraction: string)
    requires AllDigits(digits) && digits != [] && AllDigits(fraction)
    ensures var tail := if fraction == [] then "" else "." + fraction;
      ParseNumber((if negative then "-" else "") + digits + tail)
        == Some(MakeAmount(negative, DigitsValue(digits), fraction))
  {
    var tail := if fraction == [] then "" else "." + fraction;
    var l := Literal(negative, digits, fraction != [], fraction);
    var t := LiteralText(l);
    assert Unsigned(l) == digits + tail;
    assert t == (if negative then "-" else "") + digits + tail;
    forall m | WellFormed(m) && LiteralText(m) <= t ensures |LiteralText(m)| <= |t| {
    }
    ParseNumberLongest(t, l);
    assert ParseNumber(t) == Some(LiteralValue(l));
  }
}
