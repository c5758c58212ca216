/** The numeric reading of a lexeme that the generator performs with
    `Double.parseDouble`, restricted to plain decimal notation: an optional
    sign, digits, and an optional point followed by fraction digits, with at
    least one digit in all. Values are exact reals. */
module NumberLexemes {
  import opened Wrappers
  import opened Lexical

  predicate IsDigit(c: char) {
    '0' <= c <= '9'
  }

  predicate AllDigits(s: string) {
    forall i :: 0 <= i < |s| ==> IsDigit(s[i])
  }

  /** The number a string of decimal digits denotes. */
  function DigitsValue(s: string): nat
    requires AllDigits(s)
  {
    if s == [] then 0 else DigitsValue(s[..|s| - 1]) * 10 + (s[|s| - 1] as int - '0' as int)
  }

  function Pow10(k: nat): (r: nat)
    ensures r >= 1
  {
    if k == 0 then 1 else 10 * Pow10(k - 1)
  }

  /** The position of the first decimal point, or the length when there is none. */
  function PointIndex(s: string): (k: nat)
    ensures k <= |s|
    ensures k < |s| ==> s[k] == '.'
    ensures forall i :: 0 <= i < k ==> s[i] != '.'
  {
    if s == [] then 0
    else if s[0] == '.' then 0
    else 1 + PointIndex(s[1..])
  }

  /** An unsigned decimal: whole digits, optionally a point and fraction digits. */
  function ParseUnsigned(s: string): (r: Option<real>)
    ensures r.Some? ==> r.value >= 0.0
  {
    var k := PointIndex(s);
    var whole := s[..k];
    var fraction := if k < |s| then s[k + 1..] else "";
    if AllDigits(whole) && AllDigits(fraction) && |whole| + |fraction| > 0 then
      Some(DigitsValue(whole) as real + DigitsValue(fraction) as real / Pow10(|fraction|) as real)
    else
      None
  }

  /** Double.parseDouble on decimal lexemes; `None` where it would throw
      NumberFormatException. */
  function ParseNumber(s: string): (r: Option<real>)
  {
    if |s| > 0 && (s[0] == '+' || s[0] == '-') then
      match ParseUnsigned(s[1..])
      case None => None
      case Some(v) => Some(if s[0] == '-' then -v else v)
    else
      ParseUnsigned(s)
  }

  /** The decimal numeral of a natural number, as the scanner sees an integer literal. */
  function Numeral(k: nat): (s: string)
    ensures |s| > 0 && AllDigits(s)
  {
    var last := ['0' + (k % 10) as char];
    if k < 10 then last else Numeral(k / 10) + last
  }

  lemma {:induction false} NumeralValue(k: nat)
    ensures DigitsValue(Numeral(k)) == k
  {
    var s := Numeral(k);
    if k >= 10 {
      NumeralValue(k / 10);
      assert s[..|s| - 1] == Numeral(k / 10);
    }
  }

  lemma NoPointInDigits(s: string)
    requires AllDigits(s)
    ensures PointIndex(s) == |s|
  {
    if s != [] {
      assert AllDigits(s[1..]) by {
        forall i | 0 <= i < |s[1..]| ensures IsDigit(s[1..][i]) {
          assert s[1..][i] == s[i + 1];
        }
      }
      NoPointInDigits(s[1..]);
    }
  }

  /** Every integer numeral reads back as the number it renders. */
  lemma NumeralRoundTrip(k: nat)
    ensures ParseNumber(Numeral(k)) == Some(k as real)
    ensures ParseNumber("-" + Numeral(k)) == Some(-(k as real))
  {
    var s := Numeral(k);
    UnsignedNumeral(k);
    assert IsDigit(s[0]);
    assert ("-" + s)[1..] == s;
  }

  lemma UnsignedNumeral(k: nat)
    ensures ParseUnsigned(Numeral(k)) == Some(k as real)
  {
    var s := Numeral(k);
    NoPointInDigits(s);
    NumeralValue(k);
    assert s[..|s|] == s;
  }

  lemma {:induction false} DigitsZero(s: string)
    requires AllDigits(s)
    ensures DigitsValue(s) == 0 <==> forall i :: 0 <= i < |s| ==> s[i] == '0'
  {
    if s != [] {
      var init := s[..|s| - 1];
      DigitsZero(init);
      if forall i :: 0 <= i < |s| ==> s[i] == '0' {
        assert forall i :: 0 <= i < |init| ==> init[i] == '0' by {
          forall i | 0 <= i < |init| ensures init[i] == '0' { assert init[i] == s[i]; }
        }
      } else if DigitsValue(s) == 0 {
        assert DigitsValue(init) == 0 && s[|s| - 1] == '0';
        forall i | 0 <= i < |s| ensures s[i] == '0' {
          if i < |s| - 1 { assert s[i] == init[i]; }
        }
      }
    }
  }

  predicate DigitsAllZero(s: string) {
    forall i :: 0 <= i < |s| && IsDigit(s[i]) ==> s[i] == '0'
  }

  lemma QuotientZero(a: nat, b: nat)
    requires b >= 1
    ensures a as real / b as real >= 0.0
    ensures a as real / b as real == 0.0 <==> a == 0
  {
  }

  /** The digits of `u` are those of its whole part and of its fraction. */
  lemma SplitAtPoint(u: string, k: nat)
    requires k < |u| && u[k] == '.'
    ensures DigitsAllZero(u) <==> DigitsAllZero(u[..k]) && DigitsAllZero(u[k + 1..])
  {
    var whole, fraction := u[..k], u[k + 1..];
    if DigitsAllZero(whole) && DigitsAllZero(fraction) {
      forall i | 0 <= i < |u| && IsDigit(u[i]) ensures u[i] == '0' {
        if i < k {
          assert u[i] == whole[i];
        } else {
          assert u[i] == fraction[i - k - 1];
        }
      }
    }
    if DigitsAllZero(u) {
      forall i | 0 <= i < |whole| && IsDigit(whole[i]) ensures whole[i] == '0' {
        assert whole[i] == u[i];
      }
      forall i | 0 <= i < |fraction| && IsDigit(fraction[i]) ensures fraction[i] == '0' {
        assert fraction[i] == u[k + 1 + i];
      }
    }
  }

  lemma UnsignedZero(u: string)
    requires ParseUnsigned(u).Some?
    ensures ParseUnsigned(u) == Some(0.0) <==> DigitsAllZero(u)
  {
    var k := PointIndex(u);
    var whole := u[..k];
    var fraction := if k < |u| then u[k + 1..] else "";
    DigitsZero(whole);
    DigitsZero(fraction);
    QuotientZero(DigitsValue(fraction), Pow10(|fraction|));
    if k < |u| {
      SplitAtPoint(u, k);
    } else {
      assert whole == u;
    }
  }

  /** A lexeme reads as zero exactly when it is a well-formed decimal
      whose every digit is `0` (so `0`, `00`, `0.0`, `.0`, `-0`). */
  lemma ZeroLexemes(s: string)
    requires ParseNumber(s).Some?
    ensures ParseNumber(s) == Some(0.0) <==> DigitsAllZero(s)
  {
    if |s| > 0 && (s[0] == '+' || s[0] == '-') {
      var u := s[1..];
      UnsignedZero(u);
      assert DigitsAllZero(s) <==> DigitsAllZero(u) by {
        if DigitsAllZero(u) {
          forall i | 0 <= i < |s| && IsDigit(s[i]) ensures s[i] == '0' {
            assert i > 0 && s[i] == u[i - 1];
          }
        }
        if DigitsAllZero(s) {
          forall i | 0 <= i < |u| && IsDigit(u[i]) ensures u[i] == '0' {
            assert u[i] == s[i + 1];
          }
        }
      }
    } else {
      UnsignedZero(s);
    }
  }

  /** Operator lexemes, as carried by the token of a nested operator node,
      are not numbers. */
  lemma OperatorLexemesAreNotNumbers(p: Punctuator)
    ensures ParseNumber(PunctuatorLexeme(p)).None?
  {
    var s := PunctuatorLexeme(p);
    if |s| > 0 && (s[0] == '+' || s[0] == '-') {
      assert s[1..] == "";
    } else {
      assert !IsDigit(s[0]);
      if PointIndex(s) > 0 {
        assert !AllDigits(s[..PointIndex(s)]) by { assert s[..PointIndex(s)][0] == s[0]; }
      }
    }
  }

  /** A lexeme that starts with a letter, as an identifier's does, is not a number. */
  lemma IdentifierLexemesAreNotNumbers(s: string)
    requires |s| > 0 && ('a' <= s[0] <= 'z' || 'A' <= s[0] <= 'Z' || s[0] == '_')
    ensures ParseNumber(s).None?
  {
    assert PointIndex(s) > 0;
    assert s[..PointIndex(s)][0] == s[0];
  }
}
