/**
 * The field validators of the notice form: `isEmailOk`, `isCellOk`, `isIntMin1`,
 * `isDtLocalFormat` and `isAtLeastBaseline` (form.ts; form.js holds the same
 * code compiled). Each regular expression of the source becomes explicit
 * per-position character predicates, and each is proved equal to a reading of
 * the expression it replaces.
 */
module Validators {
  import opened JsStrings

  // ---------------------------------------------------------------------------
  // isEmailOk: length <= 100 and /^[^\s@]+@[^\s@]+\.[^\s@]+$/
  // ---------------------------------------------------------------------------

  /** A character that `[^\s@]` matches. */
  predicate IsEmailChar(c: char)
  {
    !IsWs(c) && c != '@'
  }

  /** All of `s` matches `[^\s@]+`. */
  predicate IsEmailRun(s: string)
  {
    |s| > 0 && forall k | 0 <= k < |s| :: IsEmailChar(s[k])
  }

  /** The language of `/^[^\s@]+@[^\s@]+\.[^\s@]+$/`: a run, `@`, a run, `.`, a run. */
  ghost predicate EmailRegex(v: string)
  {
    exists i, j | 0 < i < j < |v| ::
      v[i] == '@' && v[j] == '.' && IsEmailRun(v[..i]) && IsEmailRun(v[i + 1..j]) && IsEmailRun(v[j + 1..])
  }

  /** A `.` that is neither the first nor the last character of `d`. */
  predicate HasInnerDot(d: string)
  {
    exists k | 0 < k < |d| - 1 :: d[k] == '.'
  }

  /** `isEmailOk(v)`: at most 100 characters, no white space, exactly one `@`,
      which is not first, and a `.` strictly inside the domain that follows it. */
  predicate IsEmailOk(v: string)
  {
    && |v| <= 100
    && NoWs(v)
    && var at := IndexOf(v, '@');
       && 0 < at
       && (forall k | at < k < |v| :: v[k] != '@')
       && HasInnerDot(v[at + 1..])
  }

  /** Every string `isEmailOk` accepts is in the regular expression's language. */
  lemma EmailOkMatchesRegex(v: string)
    requires IsEmailOk(v)
    ensures EmailRegex(v)
  {
    var at := IndexOf(v, '@');
    var d := v[at + 1..];
    var k :| 0 < k < |d| - 1 && d[k] == '.';
    var j := at + 1 + k;
    assert v[j] == '.';
    var local, mid, top := v[..at], v[at + 1..j], v[j + 1..];
    assert IsEmailRun(local) by {
      forall m | 0 <= m < |local| ensures IsEmailChar(local[m]) {
        assert local[m] == v[m];
      }
    }
    assert IsEmailRun(mid) by {
      forall m | 0 <= m < |mid| ensures IsEmailChar(mid[m]) {
        assert mid[m] == v[at + 1 + m];
      }
    }
    assert IsEmailRun(top) by {
      forall m | 0 <= m < |top| ensures IsEmailChar(top[m]) {
        assert top[m] == v[j + 1 + m];
      }
    }
  }

  /** Every string of the regular expression's language within the length bound passes `isEmailOk`. */
  lemma RegexMatchesEmailOk(v: string)
    requires |v| <= 100 && EmailRegex(v)
    ensures IsEmailOk(v)
  {
    var i, j :| 0 < i < j < |v| && v[i] == '@' && v[j] == '.'
      && IsEmailRun(v[..i]) && IsEmailRun(v[i + 1..j]) && IsEmailRun(v[j + 1..]);
    var local, mid, top := v[..i], v[i + 1..j], v[j + 1..];
    forall m | 0 <= m < |v| && m != i ensures IsEmailChar(v[m]) {
      if m < i {
        assert local[m] == v[m];
      } else if m < j {
        assert mid[m - i - 1] == v[m];
      } else if m > j {
        assert top[m - j - 1] == v[m];
      }
    }
    assert IndexOf(v, '@') == i;
    assert v[i + 1..][j - i - 1] == '.';
  }

  /** The character-level reading of `isEmailOk` is the length bound plus the regular expression. */
  lemma EmailOkIsRegex(v: string)
    ensures IsEmailOk(v) <==> |v| <= 100 && EmailRegex(v)
  {
    if IsEmailOk(v) {
      EmailOkMatchesRegex(v);
    }
    if |v| <= 100 && EmailRegex(v) {
      RegexMatchesEmailOk(v);
    }
  }

  // ---------------------------------------------------------------------------
  // isCellOk and isDtLocalFormat: fixed-shape regular expressions
  // ---------------------------------------------------------------------------

  /** `v` fits `template` position by position: a `D` of the template stands for
      `\d`, every other character for itself. */
  predicate FitsTemplate(v: string, template: string)
  {
    |v| == |template| &&
    forall k | 0 <= k < |v| :: if template[k] == 'D' then IsDigit(v[k]) else v[k] == template[k]
  }

  /** `/^\+\d{3}\.\d{8}$/` */
  const CellTemplate: string := "+DDD.DDDDDDDD"

  /** `/^\d{4}-\d{2}-\d{2}T\d{2}:\d{2}$/` */
  const DtLocalTemplate: string := "DDDD-DD-DDTDD:DD"

  /** `isCellOk(v)` */
  predicate IsCellOk(v: string)
  {
    FitsTemplate(v, CellTemplate)
  }

  /** `isDtLocalFormat(v)`: only the shape; no calendar check. */
  predicate IsDtLocalFormat(v: string)
  {
    FitsTemplate(v, DtLocalTemplate)
  }

  /** `isCellOk` accepts exactly `+`, three digits, `.`, eight digits. */
  lemma CellOkExactly(v: string)
    ensures IsCellOk(v) <==>
      |v| == 13 && v[0] == '+' && v[4] == '.' && AllDigits(v[1..4]) && AllDigits(v[5..])
  {
    if |v| == 13 {
      if v[0] == '+' && v[4] == '.' && AllDigits(v[1..4]) && AllDigits(v[5..]) {
        forall k | 0 <= k < 13
          ensures if CellTemplate[k] == 'D' then IsDigit(v[k]) else v[k] == CellTemplate[k]
        {
          if 1 <= k < 4 {
            assert v[1..4][k - 1] == v[k];
          } else if 5 <= k {
            assert v[5..][k - 5] == v[k];
          }
        }
      }
      if IsCellOk(v) {
        assert CellTemplate[0] == '+' && CellTemplate[4] == '.';
        forall k | 0 <= k < 3 ensures IsDigit(v[1..4][k]) {
          assert CellTemplate[k + 1] == 'D';
        }
        forall k | 0 <= k < 8 ensures IsDigit(v[5..][k]) {
          assert CellTemplate[k + 5] == 'D';
        }
      }
    }
  }

  /** `isDtLocalFormat` accepts exactly four digits, `-`, two digits, `-`, two
      digits, `T`, two digits, `:`, two digits. */
  lemma DtLocalExactly(v: string)
    ensures IsDtLocalFormat(v) <==>
      && |v| == 16
      && v[4] == '-' && v[7] == '-' && v[10] == 'T' && v[13] == ':'
      && AllDigits(v[0..4]) && AllDigits(v[5..7]) && AllDigits(v[8..10])
      && AllDigits(v[11..13]) && AllDigits(v[14..16])
  {
    if |v| == 16 {
      var t := DtLocalTemplate;
      assert forall k | 0 <= k < 16 :: (t[k] != 'D' <==> k == 4 || k == 7 || k == 10 || k == 13);
      assert t[4] == '-' && t[7] == '-' && t[10] == 'T' && t[13] == ':';
      if IsDtLocalFormat(v) {
        forall k | 0 <= k < 4 ensures IsDigit(v[0..4][k]) && IsDigit(v[14..16][k % 2])
          && IsDigit(v[5..7][k % 2]) && IsDigit(v[8..10][k % 2]) && IsDigit(v[11..13][k % 2])
        {
          assert t[k] == 'D' && t[14 + k % 2] == 'D' && t[5 + k % 2] == 'D';
          assert t[8 + k % 2] == 'D' && t[11 + k % 2] == 'D';
        }
      }
      if && v[4] == '-' && v[7] == '-' && v[10] == 'T' && v[13] == ':'
         && AllDigits(v[0..4]) && AllDigits(v[5..7]) && AllDigits(v[8..10])
         && AllDigits(v[11..13]) && AllDigits(v[14..16])
      {
        forall k | 0 <= k < 16 ensures if t[k] == 'D' then IsDigit(v[k]) else v[k] == t[k] {
          if k < 4 {
            assert v[0..4][k] == v[k];
          } else if 5 <= k < 7 {
            assert v[5..7][k - 5] == v[k];
          } else if 8 <= k < 10 {
            assert v[8..10][k - 8] == v[k];
          } else if 11 <= k < 13 {
            assert v[11..13][k - 11] == v[k];
          } else if 14 <= k {
            assert v[14..16][k - 14] == v[k];
          }
        }
      }
    }
  }

  /** The shape check does no calendar check: month 13, day 40, 99:99 pass. */
  lemma DtLocalIgnoresCalendar()
    ensures IsDtLocalFormat("2025-13-40T99:99")
    ensures !IsDtLocalFormat("2025-08-18T12:00:00") && !IsDtLocalFormat("2025-08-18 12:00")
  {
    DtLocalExactly("2025-13-40T99:99");
    DtLocalExactly("2025-08-18 12:00");
  }

  // ---------------------------------------------------------------------------
  // isIntMin1: Number.isInteger(Number(v)) && Number(v) >= 1
  // ---------------------------------------------------------------------------

  /** No character of `f` but `0`. */
  predicate AllZeros(f: string)
  {
    forall k | 0 <= k < |f| :: f[k] == '0'
  }

  /** `u`, read left to right, is the numeral of a whole number of at least 1:
      digits, of which one is not `0` (or `nonzero` already says one was read),
      then optionally `.` and zeros only. */
  predicate PositiveWhole(u: string, nonzero: bool)
    decreases |u|
  {
    if u == [] then nonzero
    else if IsDigit(u[0]) then PositiveWhole(u[1..], nonzero || u[0] != '0')
    else u[0] == '.' && nonzero && AllZeros(u[1..])
  }

  /** `isIntMin1(v)`: the trimmed text, after an optional `+`, is such a numeral.
      A `-`, a blank text (which `Number` reads as 0) and any other text fail. */
  predicate IsIntMin1(v: string)
  {
    var t := Trim(v);
    if t != [] && t[0] == '+' then PositiveWhole(t[1..], false) else PositiveWhole(t, false)
  }

  // The reference reading of `Number(v)` that `IsIntMin1` is checked against.

  /** What `Number(v)` yields, as far as the model reads it: a decimal numeral,
      given by its sign, its whole part and whether its fraction digits are all
      zero, or anything else. */
  datatype NumberValue = NotDecimal | Decimal(negative: bool, whole: nat, integral: bool)

  /** The length of the run of digits that starts `s`. */
  function DigitRun(s: string): (n: nat)
    ensures n <= |s| && AllDigits(s[..n]) && (n == |s| || !IsDigit(s[n]))
  {
    if s != [] && IsDigit(s[0]) then
      var n := 1 + DigitRun(s[1..]);
      assert forall k | 1 <= k < n :: s[..n][k] == s[1..][..n - 1][k - 1];
      n
    else 0
  }

  /** An unsigned decimal numeral: digits, optionally followed by `.` and fraction
      digits, with at least one digit in all. */
  function UnsignedDecimal(u: string, negative: bool): NumberValue
  {
    var n := DigitRun(u);
    if n == |u| then
      if n == 0 then NotDecimal else Decimal(negative, DecimalValue(u), true)
    else if u[n] == '.' && AllDigits(u[n + 1..]) && (n > 0 || n + 1 < |u|) then
      Decimal(negative, DecimalValue(u[..n]), AllZeros(u[n + 1..]))
    else NotDecimal
  }

  /** `Number(v)` on decimal numerals: white space around the numeral is ignored,
      a blank string is 0, and one `+` or `-` may lead. */
  function JsNumber(v: string): NumberValue
  {
    var t := Trim(v);
    if t == [] then Decimal(false, 0, true)
    else if t[0] == '+' then UnsignedDecimal(t[1..], false)
    else if t[0] == '-' then UnsignedDecimal(t[1..], true)
    else UnsignedDecimal(t, false)
  }

  /** `Number.isInteger(x) && x >= 1` on what `Number` yields. */
  predicate IntegerAtLeast1(x: NumberValue)
  {
    x.Decimal? && x.integral && !x.negative && x.whole >= 1
  }

  /** A string of digits is worth at least 1 exactly when one of its digits is not `0`. */
  lemma {:induction false} DecimalAtLeast1(d: string)
    requires AllDigits(d)
    ensures DecimalValue(d) >= 1 <==> exists k | 0 <= k < |d| :: d[k] != '0'
  {
    if d != [] {
      var p := d[..|d| - 1];
      DecimalAtLeast1(p);
      assert forall k | 0 <= k < |p| :: p[k] == d[k];
    }
  }

  /** The digits of `u` after its first one. */
  lemma DigitRunStep(u: string)
    requires u != [] && IsDigit(u[0])
    ensures DigitRun(u) == 1 + DigitRun(u[1..])
    ensures u[..DigitRun(u)] == [u[0]] + u[1..][..DigitRun(u[1..])]
  {
  }

  /** `PositiveWhole` reads the digit run of `u` and what follows it. */
  lemma {:induction false} PositiveWholeReadsRun(u: string, nonzero: bool)
    ensures var n := DigitRun(u);
      PositiveWhole(u, nonzero) <==>
        (nonzero || DecimalValue(u[..n]) >= 1) && (n == |u| || (u[n] == '.' && AllZeros(u[n + 1..])))
    decreases |u|
  {
    var n := DigitRun(u);
    DecimalAtLeast1(u[..n]);
    if u != [] && IsDigit(u[0]) {
      var w := u[1..];
      var m := DigitRun(w);
      DigitRunStep(u);
      PositiveWholeReadsRun(w, nonzero || u[0] != '0');
      DecimalAtLeast1(w[..m]);
      assert u[..n] == [u[0]] + w[..m];
      assert (exists k | 0 <= k < n :: u[..n][k] != '0') <==> u[0] != '0' || exists k | 0 <= k < m :: w[..m][k] != '0' by {
        forall k | 0 < k < n ensures u[..n][k] == w[..m][k - 1] {
        }
        if exists k | 0 <= k < m :: w[..m][k] != '0' {
          var k :| 0 <= k < m && w[..m][k] != '0';
          assert u[..n][k + 1] != '0';
        }
      }
      if m < |w| {
        assert u[n] == w[m] && u[n + 1..] == w[m + 1..];
      }
    } else {
      assert u[..n] == [];
    }
  }

  /** An unsigned numeral passes exactly when `PositiveWhole` accepts it. */
  lemma UnsignedReads(u: string, negative: bool)
    ensures IntegerAtLeast1(UnsignedDecimal(u, negative)) <==> !negative && PositiveWhole(u, false)
  {
    var n := DigitRun(u);
    PositiveWholeReadsRun(u, false);
    if n == |u| {
      assert u[..n] == u;
    } else if u[n] == '.' && AllZeros(u[n + 1..]) {
      assert AllDigits(u[n + 1..]);
      if n == 0 {
        assert u[..n] == [];
      }
    }
  }

  /** `isIntMin1` is the reading of `Number.isInteger(Number(v)) && Number(v) >= 1`. */
  lemma IntMin1IsNumberTest(v: string)
    ensures IsIntMin1(v) <==> IntegerAtLeast1(JsNumber(v))
  {
    var t := Trim(v);
    if t == [] {
    } else if t[0] == '+' {
      UnsignedReads(t[1..], false);
    } else if t[0] == '-' {
      UnsignedReads(t[1..], true);
      assert !IsDigit(t[0]);
    } else {
      UnsignedReads(t, false);
    }
  }

  /** Reading digits first only records whether one of them is not `0`. */
  lemma {:induction false} PositiveWholeAfterDigits(w: string, r: string, nonzero: bool)
    requires AllDigits(w)
    ensures PositiveWhole(w + r, nonzero) <==> PositiveWhole(r, nonzero || exists k | 0 <= k < |w| :: w[k] != '0')
  {
    if w == [] {
      assert w + r == r;
    } else {
      assert (w + r)[0] == w[0] && (w + r)[1..] == w[1..] + r;
      PositiveWholeAfterDigits(w[1..], r, nonzero || w[0] != '0');
      assert (exists k | 0 <= k < |w| :: w[k] != '0') <==> w[0] != '0' || exists k | 0 <= k < |w| - 1 :: w[1..][k] != '0' by {
        if exists k | 0 <= k < |w| - 1 :: w[1..][k] != '0' {
          var k :| 0 <= k < |w| - 1 && w[1..][k] != '0';
          assert w[k + 1] != '0';
        }
        if exists k | 0 <= k < |w| :: w[k] != '0' {
          var k :| 0 <= k < |w| && w[k] != '0';
          if k > 0 {
            assert w[1..][k - 1] != '0';
          }
        }
      }
    }
  }

  /** On digits, `PositiveWhole` holds exactly when their value is at least 1. */
  lemma PositiveWholeOfDigits(w: string)
    requires AllDigits(w)
    ensures PositiveWhole(w, false) <==> DecimalValue(w) >= 1
  {
    PositiveWholeAfterDigits(w, [], false);
    assert w + [] == w;
    DecimalAtLeast1(w);
  }

  /** On a non-empty string of digits, `isIntMin1` holds exactly when its value is at least 1. */
  lemma IntMin1OnDigits(v: string)
    requires v != [] && AllDigits(v)
    ensures IsIntMin1(v) <==> DecimalValue(v) >= 1
  {
    assert NoWs(v);
    PositiveWholeOfDigits(v);
  }

  /** `isIntMin1` accepts `String(n)` exactly for n >= 1. */
  lemma IntMin1OfNumeral(n: nat)
    ensures IsIntMin1(NatToString(n)) <==> n >= 1
  {
    IntMin1OnDigits(NatToString(n));
  }

  /** A signed numeral: with `-` it always fails, a `+` changes nothing. */
  lemma IntMin1Signed(u: string)
    requires u != [] && AllDigits(u)
    ensures !IsIntMin1("-" + u)
    ensures IsIntMin1("+" + u) <==> DecimalValue(u) >= 1
  {
    var m, p := "-" + u, "+" + u;
    assert NoWs(m) && NoWs(p) by {
      assert forall k | 1 <= k < |m| :: m[k] == u[k - 1] && p[k] == u[k - 1];
    }
    assert p[1..] == u;
    PositiveWholeOfDigits(u);
  }

  /** A numeral with a fraction passes exactly when its fraction digits are all
      zero and its whole part is at least 1. */
  lemma IntMin1Fraction(w: string, f: string)
    requires w != [] && AllDigits(w) && AllDigits(f)
    ensures IsIntMin1(w + "." + f) <==> DecimalValue(w) >= 1 && AllZeros(f)
  {
    var v := w + "." + f;
    assert NoWs(v) by {
      assert forall k | 0 <= k < |w| :: v[k] == w[k];
      assert forall k | |w| < k < |v| :: v[k] == f[k - |w| - 1];
    }
    assert v[0] == w[0];
    assert v == w + ("." + f);
    PositiveWholeAfterDigits(w, "." + f, false);
    assert ("." + f)[1..] == f;
    DecimalAtLeast1(w);
  }

  /** Blanks around the text do not matter. */
  lemma IntMin1IgnoresBlanks(a: string, s: string, b: string)
    requires forall k | 0 <= k < |a| :: IsWs(a[k])
    requires forall k | 0 <= k < |b| :: IsWs(b[k])
    requires s != [] && !IsWs(s[0]) && !IsWs(s[|s| - 1])
    ensures IsIntMin1(a + s + b) <==> IsIntMin1(s)
  {
    TrimOfPadded(a, s, b);
    TrimOfPadded([], s, []);
    assert [] + s + [] == s;
  }

  lemma IntMin1RejectsZero()
    ensures !IsIntMin1("0")
  {
    IntMin1OnDigits("0");
  }

  lemma IntMin1RejectsNegative()
    ensures !IsIntMin1("-3")
  {
    IntMin1Signed("3");
    assert "-" + "3" == "-3";
  }

  lemma IntMin1RejectsFraction()
    ensures !IsIntMin1("1.5")
  {
    IntMin1Fraction("1", "5");
    assert "1" + "." + "5" == "1.5";
  }

  lemma IntMin1RejectsWord()
    ensures !IsIntMin1("abc")
  {
    assert NoWs("abc");
  }

  lemma IntMin1AcceptsZeroFraction()
    ensures IsIntMin1("1.0")
  {
    var v := "1.0";
    assert NoWs(v);
    assert v[1..] == ".0" && ".0"[1..] == "0";
    assert PositiveWhole(".0", true);
  }

  lemma IntMin1AcceptsPlus()
    ensures IsIntMin1("+5")
  {
    IntMin1Signed("5");
    assert "+" + "5" == "+5";
  }

  /** The blank string, zero, negative numbers, fractions and words fail. */
  lemma IntMin1Rejections()
    ensures !IsIntMin1("") && !IsIntMin1("0") && !IsIntMin1("-3") && !IsIntMin1("1.5") && !IsIntMin1("abc")
  {
    IntMin1RejectsZero();
    IntMin1RejectsNegative();
    IntMin1RejectsFraction();
    IntMin1RejectsWord();
  }

  /** A fraction of zeros and a leading `+` do not matter. */
  lemma IntMin1Acceptances()
    ensures IsIntMin1("2") && IsIntMin1("1.0") && IsIntMin1("+5")
  {
    IntMin1OnDigits("2");
    IntMin1AcceptsZeroFraction();
    IntMin1AcceptsPlus();
  }

  // ---------------------------------------------------------------------------
  // isAtLeastBaseline: v >= baselineStr
  // ---------------------------------------------------------------------------

  /** `isAtLeastBaseline(v, b)`: JavaScript's `v >= b`, that is, not `v < b`. */
  predicate IsAtLeastBaseline(v: string, baseline: string)
  {
    !LexLess(v, baseline)
  }

  /** `>=` on strings is a total order, and every string is at least `""`. */
  lemma AtLeastBaselineIsTotalOrder(a: string, b: string, c: string)
    ensures IsAtLeastBaseline(a, a)
    ensures IsAtLeastBaseline(a, b) || IsAtLeastBaseline(b, a)
    ensures IsAtLeastBaseline(a, b) && IsAtLeastBaseline(b, a) ==> a == b
    ensures IsAtLeastBaseline(a, b) && IsAtLeastBaseline(b, c) ==> IsAtLeastBaseline(a, c)
    ensures IsAtLeastBaseline(a, "")
  {
    LexLessIrreflexive(a);
    LexLessAsymmetric(a, b);
    LexLessTotal(a, b);
    LexLessTotal(a, c);
    LexLessTotal(b, c);
    if LexLess(a, c) && !LexLess(a, b) && !LexLess(b, c) {
      if a == b {
      } else if b == c {
      } else {
        LexLessTransitive(c, b, a);
        LexLessAsymmetric(a, c);
      }
    }
  }
}
