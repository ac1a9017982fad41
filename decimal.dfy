/**
 * Signed base-10 literals as `Integer.parseInt` accepts them (ASCII digits only):
 * an optional '+' or '-', then one or more digits, whose signed value fits a Java `int`.
 * `Format` is the inverse direction (`Integer.toString`).
 */
module Decimal {
  import opened Wrappers
  import opened Int32

  predicate IsDigit(c: char) {
    '0' <= c <= '9'
  }

  function DigitValue(c: char): (d: nat)
    requires IsDigit(c)
    ensures d < 10
  {
    (c as int) - ('0' as int)
  }

  function DigitChar(d: nat): (c: char)
    requires d < 10
    ensures IsDigit(c) && DigitValue(c) == d
  {
    (('0' as int) + d) as char
  }

  predicate AllDigits(s: string) {
    forall i :: 0 <= i < |s| ==> IsDigit(s[i])
  }

  /** The value of a digit string, read left to right as `parseInt` does. */
  function DigitsValue(s: string): nat
    requires AllDigits(s)
  {
    if s == [] then 0 else DigitsValue(s[..|s| - 1]) * 10 + DigitValue(s[|s| - 1])
  }

  predicate IsSign(c: char) {
    c == '-' || c == '+'
  }

  /** Well-formed: a non-empty token, an optional sign, and at least one digit after it. */
  predicate IsLiteral(t: string) {
    |t| > 0 &&
    if IsSign(t[0]) then |t| > 1 && AllDigits(t[1..]) else AllDigits(t)
  }

  /** The mathematical value of a well-formed literal, before any range check. */
  function LiteralValue(t: string): int
    requires IsLiteral(t)
  {
    if t[0] == '-' then -(DigitsValue(t[1..]) as int)
    else if t[0] == '+' then DigitsValue(t[1..])
    else DigitsValue(t)
  }

  /** `Integer.parseInt`: `None` stands for a `NumberFormatException`. */
  function Parse(t: string): (r: Option<int>)
  {
    if IsLiteral(t) && InRange(LiteralValue(t)) then Some(LiteralValue(t)) else None
  }

  /** Decimal digits of a natural number, most significant first, no leading zeros. */
  function NatDigits(n: nat): (s: string)
    ensures |s| > 0 && AllDigits(s)
  {
    if n < 10 then [DigitChar(n)] else NatDigits(n / 10) + [DigitChar(n % 10)]
  }

  /** `Integer.toString`: a '-' for negative values, never a '+'. */
  function Format(v: int): (s: string)
  {
    if v < 0 then "-" + NatDigits(-v) else NatDigits(v)
  }

  lemma {:induction false} NatDigitsValue(n: nat)
    ensures DigitsValue(NatDigits(n)) == n
  {
    var s := NatDigits(n);
    if n >= 10 {
      NatDigitsValue(n / 10);
      assert s[..|s| - 1] == NatDigits(n / 10);
    }
  }

  /** Every value parses back from its decimal form: `Parse` inverts `Format` on the `int` range. */
  lemma {:induction false} ParseFormat(v: int)
    requires InRange(v)
    ensures IsLiteral(Format(v))
    ensures Parse(Format(v)) == Some(v)
  {
    var s := Format(v);
    if v < 0 {
      NatDigitsValue(-v);
      assert s[1..] == NatDigits(-v);
    } else {
      NatDigitsValue(v);
      var d := NatDigits(v);
      assert IsDigit(d[0]);
    }
  }

  /** `k` zero digits. */
  function Zeros(k: nat): (z: string)
    ensures |z| == k && AllDigits(z)
  {
    seq(k, i => '0')
  }

  function Abs(v: int): nat {
    if v < 0 then -v else v
  }

  lemma {:induction false} ZerosValue(k: nat, s: string)
    requires AllDigits(s)
    ensures AllDigits(Zeros(k) + s) && DigitsValue(Zeros(k) + s) == DigitsValue(s)
    decreases k + |s|
  {
    var z := Zeros(k) + s;
    if s != [] {
      assert z[..|z| - 1] == Zeros(k) + s[..|s| - 1];
      ZerosValue(k, s[..|s| - 1]);
    } else if k > 0 {
      assert z[..|z| - 1] == Zeros(k - 1) + s;
      ZerosValue(k - 1, s);
    } else {
      assert z == [];
    }
  }

  /** Every non-empty digit string is some leading zeros followed by the canonical digits of its value. */
  lemma {:induction false} DigitsShape(s: string) returns (k: nat)
    requires AllDigits(s) && |s| > 0
    ensures s == Zeros(k) + NatDigits(DigitsValue(s))
  {
    var n := |s| - 1;
    var c := s[n];
    var d := DigitValue(c);
    assert DigitChar(d) == c;
    if n == 0 {
      k := 0;
      assert s == [c];
    } else {
      var p := s[..n];
      assert s == p + [c];
      var k' := DigitsShape(p);
      var vp := DigitsValue(p);
      if vp == 0 {
        k := k' + 1;
        assert NatDigits(0) == "0";
        assert p == Zeros(k' + 1);
      } else {
        k := k';
        var v := vp * 10 + d;
        assert v / 10 == vp && v % 10 == d;
        assert NatDigits(v) == NatDigits(vp) + [c];
      }
    }
  }

  /**
   * Every token that parses spells its value as an optional sign ('-' only for
   * values at most 0, either sign or none for values at least 0), then leading
   * zeros, then the canonical decimal digits of the value's magnitude.
   */
  lemma ParseShape(t: string) returns (sign: string, k: nat)
    requires Parse(t).Some?
    ensures sign == "" || sign == "+" || sign == "-"
    ensures sign == "-" ==> Parse(t).value <= 0
    ensures sign != "-" ==> Parse(t).value >= 0
    ensures t == sign + Zeros(k) + NatDigits(Abs(Parse(t).value))
  {
    if IsSign(t[0]) {
      sign := [t[0]];
      k := DigitsShape(t[1..]);
      assert t == sign + t[1..];
    } else {
      sign := "";
      k := DigitsShape(t);
    }
  }

  /**
   * Conversely, every such spelling parses to its signed value when that value
   * is a Java `int`, and is rejected when it is not.
   */
  lemma ParseOfShape(sign: string, k: nat, n: nat)
    requires sign == "" || sign == "+" || sign == "-"
    ensures var v: int := if sign == "-" then -(n as int) else n;
      Parse(sign + Zeros(k) + NatDigits(n)) == if InRange(v) then Some(v) else None
  {
    var body := Zeros(k) + NatDigits(n);
    var t := sign + Zeros(k) + NatDigits(n);
    ZerosValue(k, NatDigits(n));
    NatDigitsValue(n);
    if sign == "" {
      assert t == body;
      if k > 0 {
        assert t[0] == '0';
      } else {
        assert t == NatDigits(n);
        assert IsDigit(t[0]);
      }
    } else {
      assert t[0] == sign[0] && t[1..] == body;
      assert IsSign(t[0]) && |t| > 1 && AllDigits(t[1..]);
      assert IsLiteral(t) && LiteralValue(t) == if sign == "-" then -(n as int) else n;
    }
  }

  /** The edge cases of `parseInt`: signs, leading zeros, a lone sign, foreign characters. */
  lemma ParseExamples()
    ensures Parse("007") == Some(7) && Parse("+5") == Some(5) && Parse("-0") == Some(0)
    ensures Parse("") == None && Parse("+") == None && Parse("-") == None && Parse("--1") == None
    ensures Parse("1.5") == None && Parse("1e3") == None && Parse(" 1") == None && Parse("foo") == None
  {
    assert DigitsValue("0") == 0;
    assert "00"[..1] == "0";
    assert DigitsValue("00") == 0;
    assert "007"[..2] == "00";
    assert DigitsValue("007") == 7;
    assert "+5"[1..] == "5";
    assert "-0"[1..] == "0";
  }

  /** The ends of the `int` range parse; one past the upper end is rejected. */
  lemma ParseRangeEnds()
    ensures Parse("2147483647") == Some(MaxInt) && Parse("-2147483648") == Some(MinInt)
    ensures Parse("2147483648") == None
  {
    assert DigitsValue("2") == 2;
    assert "21"[..1] == "2";
    assert DigitsValue("21") == 21;
    assert "214"[..2] == "21";
    assert DigitsValue("214") == 214;
    assert "2147"[..3] == "214";
    assert DigitsValue("2147") == 2147;
    assert "21474"[..4] == "2147";
    assert DigitsValue("21474") == 21474;
    assert "214748"[..5] == "21474";
    assert DigitsValue("214748") == 214748;
    assert "2147483"[..6] == "214748";
    assert DigitsValue("2147483") == 2147483;
    assert "21474836"[..7] == "2147483";
    assert DigitsValue("21474836") == 21474836;
    assert "214748364"[..8] == "21474836";
    assert DigitsValue("214748364") == 214748364;
    assert "2147483648"[..9] == "214748364";
    assert DigitsValue("2147483648") == 2147483648;
    assert "2147483647"[..9] == "214748364";
    assert "-2147483648"[1..] == "2147483648";
  }
}
