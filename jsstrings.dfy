/**
 * The parts of JavaScript's string semantics that the pages rely on: white space
 * as `\s` and `trim` see it, `String(n)`, `padStart`, `indexOf` and `replace`
 * with a one-character pattern, and the order behind `<` and `>=` on strings.
 * A JavaScript string is modelled as a sequence of Unicode characters; for the
 * Basic Multilingual Plane, where each character is one UTF-16 code unit,
 * lengths and order agree with JavaScript's.
 */
module JsStrings {

  /** WhiteSpace and LineTerminator code points of ECMAScript (sections 12.2 and
      12.3 of ECMA-262): the set `\s` matches and `String.prototype.trim` removes. */
  predicate IsWs(c: char)
  {
    var u := c as int;
    u == 0x09 || u == 0x0A || u == 0x0B || u == 0x0C || u == 0x0D || u == 0x20
    || u == 0xA0 || u == 0x1680 || 0x2000 <= u <= 0x200A
    || u == 0x2028 || u == 0x2029 || u == 0x202F || u == 0x205F
    || u == 0x3000 || u == 0xFEFF
  }

  predicate NoWs(s: string)
  {
    forall k | 0 <= k < |s| :: !IsWs(s[k])
  }

  /** `s.trimStart()` */
  function TrimStart(s: string): string
  {
    if s != [] && IsWs(s[0]) then TrimStart(s[1..]) else s
  }

  /** `s.trimEnd()` */
  function TrimEnd(s: string): string
  {
    if s != [] && IsWs(s[|s| - 1]) then TrimEnd(s[..|s| - 1]) else s
  }

  /** `s.trim()` */
  function Trim(s: string): string
  {
    TrimEnd(TrimStart(s))
  }

  /** `trimStart` drops the leading white space of `s` and keeps the rest. */
  lemma {:induction false} TrimStartFacts(s: string)
    ensures var r := TrimStart(s);
      && |r| <= |s| && r == s[|s| - |r|..]
      && (forall k | 0 <= k < |s| - |r| :: IsWs(s[k]))
      && (r == [] || !IsWs(r[0]))
  {
    if s != [] && IsWs(s[0]) {
      TrimStartFacts(s[1..]);
      var r := TrimStart(s);
      assert s[1..][|s| - 1 - |r|..] == s[|s| - |r|..];
      forall k | 0 <= k < |s| - |r| ensures IsWs(s[k]) {
        if k > 0 {
          assert s[k] == s[1..][k - 1];
        }
      }
    }
  }

  /** `trimEnd` drops the trailing white space of `s` and keeps the rest. */
  lemma {:induction false} TrimEndFacts(s: string)
    ensures var r := TrimEnd(s);
      && |r| <= |s| && r == s[..|r|]
      && (forall k | |r| <= k < |s| :: IsWs(s[k]))
      && (r == [] || !IsWs(r[|r| - 1]))
  {
    if s != [] && IsWs(s[|s| - 1]) {
      var p := s[..|s| - 1];
      TrimEndFacts(p);
      var r := TrimEnd(s);
      assert p[..|r|] == s[..|r|];
      forall k | |r| <= k < |s| ensures IsWs(s[k]) {
        if k < |s| - 1 {
          assert s[k] == p[k];
        }
      }
    }
  }

  /** `r` is the stretch of `s` starting at `i`, with only white space before
      and after it. */
  predicate PaddedAt(s: string, r: string, i: nat)
  {
    && i + |r| <= |s| && r == s[i..i + |r|]
    && (forall k | 0 <= k < i :: IsWs(s[k]))
    && (forall k | i + |r| <= k < |s| :: IsWs(s[k]))
  }

  /** `trim` keeps what lies between the leading and the trailing white space:
      the result is a stretch of `s` with only white space around it, and it
      neither starts nor ends with white space. */
  lemma TrimFacts(s: string)
    ensures var r := Trim(s);
      && |r| <= |s|
      && (exists i: nat :: PaddedAt(s, r, i))
      && (r == [] || (!IsWs(r[0]) && !IsWs(r[|r| - 1])))
  {
    var t := TrimStart(s);
    TrimStartFacts(s);
    TrimEndFacts(t);
    var r := TrimEnd(t);
    var i := |s| - |t|;
    assert r == s[i..i + |r|];
    forall k | i + |r| <= k < |s| ensures IsWs(s[k]) {
      assert s[k] == t[k - i];
    }
    assert PaddedAt(s, r, i);
    assert r == Trim(s);
    assert exists j: nat :: PaddedAt(s, r, j);
    if r != [] {
      assert r[0] == t[0];
      assert !IsWs(r[0]);
      assert !IsWs(r[|r| - 1]);
    }
  }

  /** `trim` gives "" exactly when `s` is white space alone. */
  lemma TrimEmpty(s: string)
    ensures (forall k | 0 <= k < |s| :: IsWs(s[k])) ==> Trim(s) == ""
    ensures Trim(s) == "" ==> forall k | 0 <= k < |s| :: IsWs(s[k])
  {
    var t := TrimStart(s);
    TrimStartFacts(s);
    TrimEndFacts(t);
    var d := |s| - |t|;
    assert forall k | d <= k < |s| :: s[k] == t[k - d];
  }

  /** A text without white space is its own trim. */
  lemma TrimOfBlankFree(s: string)
    requires NoWs(s)
    ensures Trim(s) == s
  {
    if s != [] {
      assert !IsWs(s[0]) && !IsWs(s[|s| - 1]);
    }
  }

  lemma {:induction false} TrimStartOfBlankPrefix(a: string, s: string)
    requires forall k | 0 <= k < |a| :: IsWs(a[k])
    requires s == [] || !IsWs(s[0])
    ensures TrimStart(a + s) == s
  {
    if a == [] {
      assert a + s == s;
    } else {
      assert (a + s)[1..] == a[1..] + s;
      TrimStartOfBlankPrefix(a[1..], s);
    }
  }

  lemma {:induction false} TrimEndOfBlankSuffix(s: string, b: string)
    requires forall k | 0 <= k < |b| :: IsWs(b[k])
    requires s == [] || !IsWs(s[|s| - 1])
    ensures TrimEnd(s + b) == s
  {
    if b == [] {
      assert s + b == s;
    } else {
      assert (s + b)[..|s + b| - 1] == s + b[..|b| - 1];
      TrimEndOfBlankSuffix(s, b[..|b| - 1]);
    }
  }

  /** `trim` removes exactly the blanks around a text that neither starts nor ends with one. */
  lemma TrimOfPadded(a: string, s: string, b: string)
    requires forall k | 0 <= k < |a| :: IsWs(a[k])
    requires forall k | 0 <= k < |b| :: IsWs(b[k])
    requires s != [] && !IsWs(s[0]) && !IsWs(s[|s| - 1])
    ensures Trim(a + s + b) == s
  {
    assert a + s + b == a + (s + b);
    TrimStartOfBlankPrefix(a, s + b);
    TrimEndOfBlankSuffix(s, b);
  }

  /** `\d`: an ASCII decimal digit. */
  predicate IsDigit(c: char)
  {
    '0' <= c <= '9'
  }

  predicate AllDigits(s: string)
  {
    forall k | 0 <= k < |s| :: IsDigit(s[k])
  }

  function DigitValue(c: char): (d: nat)
    requires IsDigit(c)
    ensures d < 10
  {
    (c as int) - ('0' as int)
  }

  function DigitChar(d: nat): (c: char)
    requires d < 10
    ensures IsDigit(c) && DigitValue(c) == d
  {
    (('0' as int) + d) as char
  }

  /** The value of a string of decimal digits, most significant digit first. */
  function DecimalValue(s: string): nat
    requires AllDigits(s)
  {
    if s == [] then 0 else DecimalValue(s[..|s| - 1]) * 10 + DigitValue(s[|s| - 1])
  }

  function Pow10(k: nat): (p: nat)
    ensures p >= 1
  {
    if k == 0 then 1 else 10 * Pow10(k - 1)
  }

  /** `String(n)` for a non-negative integer (below 10^21, where JavaScript
      switches to exponent notation): its shortest decimal numeral, which reads
      back as `n`. */
  function NatToString(n: nat): (r: string)
    ensures |r| >= 1 && AllDigits(r) && DecimalValue(r) == n
    ensures r[0] == '0' ==> r == "0"
  {
    if n < 10 then [DigitChar(n)]
    else
      var p := NatToString(n / 10);
      var r := p + [DigitChar(n % 10)];
      assert r[..|r| - 1] == p;
      r
  }

  /** `String(i)` for an integer below 10^21 in magnitude. */
  function IntToString(i: int): string
  {
    if i < 0 then "-" + NatToString(-i) else NatToString(i)
  }

  /** Distinct numbers have distinct numerals. */
  lemma NatToStringInjective(a: nat, b: nat)
    requires NatToString(a) == NatToString(b)
    ensures a == b
  {
  }

  /** A number with k digits has a k-character numeral. */
  lemma {:induction false} NatToStringLength(n: nat, k: nat)
    requires 1 <= k && n < Pow10(k) && (k == 1 || Pow10(k - 1) <= n)
    ensures |NatToString(n)| == k
  {
    if k > 1 {
      assert Pow10(k) == 10 * Pow10(k - 1);
      assert Pow10(k - 1) >= 10 by {
        assert Pow10(k - 1) == 10 * Pow10(k - 2);
      }
      assert n / 10 < Pow10(k - 1);
      if k > 2 {
        assert Pow10(k - 1) == 10 * Pow10(k - 2);
        assert Pow10(k - 2) <= n / 10;
      }
      NatToStringLength(n / 10, k - 1);
    }
  }

  /** A number of at least 10^k has more than k digits. */
  lemma {:induction false} NatToStringAtLeast(n: nat, k: nat)
    requires Pow10(k) <= n
    ensures |NatToString(n)| > k
  {
    if k > 0 {
      assert Pow10(k) == 10 * Pow10(k - 1);
      NatToStringAtLeast(n / 10, k - 1);
    }
  }

  /** `c` written `n` times. */
  function Repeat(c: char, n: nat): (r: string)
    ensures |r| == n && forall k | 0 <= k < n :: r[k] == c
  {
    seq(n, _ => c)
  }

  /** `s.padStart(target, fill)` with a one-character fill string: as many
      fill characters as `s` falls short of `target`, then `s` itself. */
  function PadStart(s: string, target: nat, fill: char): (r: string)
    ensures r == Repeat(fill, if |s| >= target then 0 else target - |s|) + s
    decreases target - |s|
  {
    if |s| >= target then
      assert Repeat(fill, 0) + s == s;
      s
    else
      var r := PadStart([fill] + s, target, fill);
      assert Repeat(fill, target - |s| - 1) + ([fill] + s) == Repeat(fill, target - |s|) + s;
      r
  }

  /** `s.indexOf(c)`: the first position of `c` in `s`, or -1 when there is none. */
  function IndexOf(s: string, c: char): (i: int)
    ensures -1 <= i < |s|
    ensures 0 <= i ==> s[i] == c
    ensures forall k | 0 <= k < (if i < 0 then |s| else i) :: s[k] != c
  {
    if s == [] then -1
    else if s[0] == c then 0
    else
      var j := IndexOf(s[1..], c);
      if j < 0 then -1 else j + 1
  }

  /** `s.replace(from, to)` with one-character strings: only the first
      occurrence of `from` is replaced. */
  function ReplaceFirst(s: string, from: char, to: char): (r: string)
    ensures |r| == |s|
    ensures forall k | 0 <= k < |s| :: r[k] == if k == IndexOf(s, from) then to else s[k]
  {
    if s == [] then []
    else if s[0] == from then [to] + s[1..]
    else [s[0]] + ReplaceFirst(s[1..], from, to)
  }

  /** JavaScript's `a < b` on two strings: lexicographic order of code units,
      in which a proper prefix comes first. */
  predicate LexLess(a: string, b: string)
  {
    if b == [] then false
    else if a == [] then true
    else if a[0] != b[0] then a[0] < b[0]
    else LexLess(a[1..], b[1..])
  }

  lemma {:induction false} LexLessIrreflexive(a: string)
    ensures !LexLess(a, a)
  {
    if a != [] {
      LexLessIrreflexive(a[1..]);
    }
  }

  lemma {:induction false} LexLessAsymmetric(a: string, b: string)
    ensures !(LexLess(a, b) && LexLess(b, a))
  {
    if a != [] && b != [] && a[0] == b[0] {
      LexLessAsymmetric(a[1..], b[1..]);
    }
  }

  lemma {:induction false} LexLessTransitive(a: string, b: string, c: string)
    requires LexLess(a, b) && LexLess(b, c)
    ensures LexLess(a, c)
  {
    if a != [] && a[0] == b[0] && b[0] == c[0] {
      LexLessTransitive(a[1..], b[1..], c[1..]);
    }
  }

  /** Two different strings are always ordered one way or the other. */
  lemma {:induction false} LexLessTotal(a: string, b: string)
    ensures a == b || LexLess(a, b) || LexLess(b, a)
  {
    if a != [] && b != [] && a[0] == b[0] {
      LexLessTotal(a[1..], b[1..]);
      if a[1..] == b[1..] {
        assert a == [a[0]] + a[1..] && b == [b[0]] + b[1..];
      }
    }
  }

  /** Comparing two strings whose first parts have the same length compares the
      first parts, and the rests only when the first parts are equal. */
  lemma {:induction false} LexLessAppend(a1: string, a2: string, b1: string, b2: string)
    requires |a1| == |b1|
    ensures LexLess(a1 + a2, b1 + b2) <==> LexLess(a1, b1) || (a1 == b1 && LexLess(a2, b2))
  {
    if a1 != [] {
      assert (a1 + a2)[0] == a1[0] && (b1 + b2)[0] == b1[0];
      assert (a1 + a2)[1..] == a1[1..] + a2 && (b1 + b2)[1..] == b1[1..] + b2;
      LexLessAppend(a1[1..], a2, b1[1..], b2);
      if a1[0] == b1[0] && a1[1..] == b1[1..] {
        assert a1 == [a1[0]] + a1[1..] && b1 == [b1[0]] + b1[1..];
      }
    } else {
      assert a1 + a2 == a2 && b1 + b2 == b2;
    }
  }

  /** On digit strings of one length, string order is numeric order. */
  lemma {:induction false} DigitStringOrder(a: string, b: string)
    requires AllDigits(a) && AllDigits(b) && |a| == |b|
    ensures LexLess(a, b) <==> DecimalValue(a) < DecimalValue(b)
    decreases |a|
  {
    if a != [] {
      var a', b' := a[..|a| - 1], b[..|b| - 1];
      var x, y := a[|a| - 1], b[|b| - 1];
      assert a == a' + [x] && b == b' + [y];
      LexLessAppend(a', [x], b', [y]);
      DigitStringOrder(a', b');
      DigitStringOrder(b', a');
      LexLessTotal(a', b');
      LexLessAsymmetric(a', b');
      LexLessIrreflexive(a');
      assert DecimalValue(a) == DecimalValue(a') * 10 + DigitValue(x);
      assert DecimalValue(b) == DecimalValue(b') * 10 + DigitValue(y);
      assert LexLess([x], [y]) <==> x < y by {
        assert [x][1..] == [] && [y][1..] == [];
      }
    }
  }
}
