/** Decimal text for naturals (`str(n)`) and the number recognizer standing in for
    `pd.to_numeric(..., errors="coerce")`. */
module Numbers {
  import opened Results
  import opened Text

  function DigitChar(d: nat): (c: char)
    requires d < 10
    ensures IsDigit(c) && c as int - '0' as int == d
  {
    (d + '0' as int) as char
  }

  /** `str(n)` for a natural number. */
  function NatToString(n: nat): (r: string)
    ensures |r| >= 1 && AllDigits(r)
    decreases n
  {
    if n < 10 then [DigitChar(n)] else NatToString(n / 10) + [DigitChar(n % 10)]
  }

  /** The value of a string of decimal digits, most significant first. */
  function DigitsValue(s: string): nat
    requires AllDigits(s)
    decreases |s|
  {
    if s == [] then 0
    else
      assert IsDigit(s[|s| - 1]);
      10 * DigitsValue(s[..|s| - 1]) + (s[|s| - 1] as int - '0' as int)
  }

  /** Index of the first `c`, or `|s|` when absent. */
  function IndexOf(s: string, c: char): (i: nat)
    ensures i <= |s|
    ensures forall j :: 0 <= j < i ==> s[j] != c
    ensures i < |s| ==> s[i] == c
    decreases |s|
  {
    if s == [] || s[0] == c then 0 else 1 + IndexOf(s[1..], c)
  }

  /** The unsigned part of a decimal literal: digits, optionally a point and more digits,
      with at least one digit in all. */
  predicate IsUnsignedDecimal(body: string) {
    var k := IndexOf(body, '.');
    AllDigits(body[..k])
    && (k < |body| ==> AllDigits(body[k + 1..]))
    && (k > 0 || k + 1 < |body|)
  }

  /** The literal after an optional sign. */
  function Unsigned(s: string): string {
    if |s| > 0 && (s[0] == '+' || s[0] == '-') then s[1..] else s
  }

  /** A decimal literal `[+-]?(d+(.d*)?|.d+)` read as a number: the result is the value
      truncated toward zero (what `.astype(int)` keeps), or `None` when the text is not
      such a literal, as `errors="coerce"` gives NaN. */
  function ParseNumber(s: string): (r: Option<int>)
    ensures r.Some? <==> IsUnsignedDecimal(Unsigned(s))
    ensures r.Some? && |s| > 0 && s[0] == '-' ==> r.value <= 0
    ensures r.Some? && !(|s| > 0 && s[0] == '-') ==> r.value >= 0
    ensures s != [] && AllDigits(s) ==> r == Some(DigitsValue(s))
  {
    var body := Unsigned(s);
    if s != [] && AllDigits(s) then
      assert IsDigit(s[0]) && Unsigned(s) == s;
      assert IndexOf(s, '.') == |s| && s[..|s|] == s;
      Some(DigitsValue(s))
    else if IsUnsignedDecimal(body) then
      var whole := body[..IndexOf(body, '.')];
      var v: int := DigitsValue(whole);
      Some(if |s| > 0 && s[0] == '-' then -v else v)
    else None
  }

  predicate IsNumber(s: string) {
    ParseNumber(s).Some?
  }

  /** A leading minus negates the value and a leading plus changes nothing. */
  lemma ParseSigned(body: string)
    requires body == [] || (body[0] != '+' && body[0] != '-')
    ensures ParseNumber("-" + body) == if ParseNumber(body).Some? then Some(-ParseNumber(body).value) else None
    ensures ParseNumber("+" + body) == ParseNumber(body)
  {
    assert Unsigned("-" + body) == body && Unsigned("+" + body) == body && Unsigned(body) == body;
    assert !AllDigits("-" + body) && !AllDigits("+" + body) by {
      assert !IsDigit(('-' as char)) && !IsDigit('+');
      assert ("-" + body)[0] == '-' && ("+" + body)[0] == '+';
    }
    if body != [] && AllDigits(body) {
      assert body[..IndexOf(body, '.')] == body;
    }
  }

  lemma {:induction false} DigitsValueOfNat(n: nat)
    ensures DigitsValue(NatToString(n)) == n
    decreases n
  {
    if n >= 10 {
      DigitsValueOfNat(n / 10);
      var s := NatToString(n);
      assert s[..|s| - 1] == NatToString(n / 10);
    }
  }

  /** `str(n)` is read back as `n` by the number recognizer. */
  lemma ParseNatToString(n: nat)
    ensures ParseNumber(NatToString(n)) == Some(n)
  {
    var s := NatToString(n);
    assert Unsigned(s) == s;
    assert IndexOf(s, '.') == |s|;
    assert s[..|s|] == s;
    DigitsValueOfNat(n);
  }

  /** Distinct naturals have distinct decimal text. */
  lemma NatToStringInjective(a: nat, b: nat)
    requires a != b
    ensures NatToString(a) != NatToString(b)
  {
    ParseNatToString(a);
    ParseNatToString(b);
  }

  /** `str(n)` holds no comma, so thousands-separator removal leaves it alone. */
  lemma NatToStringHasNoComma(n: nat)
    ensures ',' !in NatToString(n)
  {
  }
}
