/**
 * Text-to-number conversions used when the Steam data is cleaned: Python's
 * `int(str)` (for the owners lower bound) and the decimal subset of pandas'
 * `to_numeric` (for the numeric columns), plus the renderings that the
 * round-trip lemmas about them are stated with.
 */
module Numbers {
  import opened Wrappers
  import opened Strings

  predicate IsDigit(c: char) {
    '0' <= c <= '9'
  }

  predicate AllDigits(s: string) {
    forall i :: 0 <= i < |s| ==> IsDigit(s[i])
  }

  function DigitValue(c: char): (d: nat)
    requires IsDigit(c)
    ensures d < 10
  {
    (c as int) - ('0' as int)
  }

  function DigitChar(d: nat): (c: char)
    requires d < 10
    ensures IsDigit(c) && DigitValue(c) == d
  {
    ('0' as int + d) as char
  }

  /** The value of a string of decimal digits, most significant first. */
  function DigitsValue(s: string): nat
    requires AllDigits(s)
  {
    if s == [] then 0 else DigitsValue(s[..|s| - 1]) * 10 + DigitValue(s[|s| - 1])
  }

  function Pow10(k: nat): (p: nat)
    ensures p >= 1
  {
    if k == 0 then 1 else 10 * Pow10(k - 1)
  }

  /** Appending one digit multiplies the value by ten and adds the digit. */
  lemma DigitsValueSnoc(s: string, c: char)
    requires AllDigits(s) && IsDigit(c)
    ensures AllDigits(s + [c])
    ensures DigitsValue(s + [c]) == DigitsValue(s) * 10 + DigitValue(c)
  {
    var t := s + [c];
    assert t[..|t| - 1] == s;
  }

  lemma Regroup(va: int, p: int, vb: int, d: int)
    ensures (va * p + vb) * 10 + d == va * (p * 10) + (vb * 10 + d)
  {
  }

  lemma {:induction false} DigitsValueConcat(a: string, b: string)
    requires AllDigits(a) && AllDigits(b)
    ensures AllDigits(a + b)
    ensures DigitsValue(a + b) == DigitsValue(a) * Pow10(|b|) + DigitsValue(b)
    decreases |b|
  {
    if b == [] {
      assert a + b == a;
    } else {
      var b', c := b[..|b| - 1], b[|b| - 1];
      assert b == b' + [c];
      assert AllDigits(b');
      DigitsValueConcat(a, b');
      assert a + b == (a + b') + [c];
      DigitsValueSnoc(a + b', c);
      DigitsValueSnoc(b', c);
      Regroup(DigitsValue(a), Pow10(|b'|), DigitsValue(b'), DigitValue(c));
    }
  }

  /** The decimal rendering of `n`, as Python's `str(n)` gives it. */
  function NatToDigits(n: nat): (s: string)
    ensures s != [] && AllDigits(s) && DigitsValue(s) == n
    ensures n > 0 ==> s[0] != '0'
  {
    if n < 10 then [DigitChar(n)]
    else
      var s := NatToDigits(n / 10) + [DigitChar(n % 10)];
      assert s[..|s| - 1] == NatToDigits(n / 10);
      s
  }

  /**
   * Whitespace that Python's `str.strip()` and `int()` remove, up to code point
   * 127: space, tab, line feed, vertical tab, form feed, carriage return and
   * the separators 0x1c to 0x1f.
   */
  predicate IsSpace(c: char) {
    c == ' ' || c == '\t' || c == '\n' || c == '\r' || c as int == 11 || c as int == 12
    || 28 <= c as int <= 31
  }

  function StripLeft(s: string): (r: string)
    ensures |r| <= |s| && r == s[|s| - |r|..]
    ensures r == [] || !IsSpace(r[0])
    ensures forall i :: 0 <= i < |s| - |r| ==> IsSpace(s[i])
  {
    if s != [] && IsSpace(s[0]) then StripLeft(s[1..]) else s
  }

  function StripRight(s: string): (r: string)
    ensures r <= s
    ensures r == [] || !IsSpace(r[|r| - 1])
    ensures forall i :: |r| <= i < |s| ==> IsSpace(s[i])
  {
    if s != [] && IsSpace(s[|s| - 1]) then StripRight(s[..|s| - 1]) else s
  }

  /** Python's `s.strip()`. */
  function Strip(s: string): string {
    StripRight(StripLeft(s))
  }

  /**
   * The digit part of an integer that Python's `int(str)` accepts: ASCII digits,
   * with single underscores allowed between two digits.
   */
  predicate IsDigitGroup(s: string) {
    && s != []
    && IsDigit(s[0])
    && IsDigit(s[|s| - 1])
    && (forall c :: c in s ==> IsDigit(c) || c == '_')
    && (forall i :: 0 <= i < |s| - 1 ==> !(s[i] == '_' && s[i + 1] == '_'))
  }

  lemma DigitGroupDigits(s: string)
    requires IsDigitGroup(s)
    ensures AllDigits(RemoveAll(s, '_'))
  {
    var r := RemoveAll(s, '_');
    forall i | 0 <= i < |r| ensures IsDigit(r[i]) {
      assert r[i] in r;
    }
  }

  /** The value of a digit group: its digits read in order, underscores ignored. */
  function GroupValue(s: string): nat
    requires IsDigitGroup(s)
  {
    DigitGroupDigits(s);
    DigitsValue(RemoveAll(s, '_'))
  }

  /**
   * Python's `int(s)` on a string: surrounding whitespace is stripped, one
   * optional sign, then a digit group. None stands for the ValueError.
   */
  function ParsePyInt(s: string): Option<int> {
    var t := Strip(s);
    var negative := t != [] && t[0] == '-';
    var body := if t != [] && (t[0] == '-' || t[0] == '+') then t[1..] else t;
    if IsDigitGroup(body) then
      Some(if negative then -(GroupValue(body) as int) else GroupValue(body))
    else
      None
  }

  lemma DigitsAreGroup(s: string)
    requires s != [] && AllDigits(s)
    ensures IsDigitGroup(s) && GroupValue(s) == DigitsValue(s)
  {
    assert forall c :: c in s ==> IsDigit(c);
    RemoveAllAbsent(s, '_');
  }

  lemma StripDigits(s: string)
    requires s != [] && AllDigits(s)
    ensures Strip(s) == s
  {
  }

  /** A plain string of digits reads as its decimal value. */
  lemma ParsePyIntOfDigitString(s: string)
    requires s != [] && AllDigits(s)
    ensures ParsePyInt(s) == Some(DigitsValue(s) as int)
  {
    StripDigits(s);
    DigitsAreGroup(s);
  }

  /** `int(str(n)) == n`: Python's `int` reads back what `str` wrote. */
  lemma ParsePyIntOfDigits(n: nat)
    ensures ParsePyInt(NatToDigits(n)) == Some(n)
  {
    ParsePyIntOfDigitString(NatToDigits(n));
  }

  lemma StripUnpadded(t: string)
    requires t != [] && !IsSpace(t[0]) && !IsSpace(t[|t| - 1])
    ensures Strip(t) == t
  {
    assert StripLeft(t) == t;
  }

  lemma ParsePyIntOfMinus(t: string, s: string)
    requires s != [] && AllDigits(s)
    requires t != [] && t[0] == '-' && t[1..] == s
    ensures ParsePyInt(t) == Some(-(DigitsValue(s) as int))
  {
    DigitsAreGroup(s);
    assert Strip(t) == t by {
      assert t[|t| - 1] == s[|s| - 1];
      StripUnpadded(t);
    }
  }

  /** A leading minus sign is accepted, so `int("-" + str(n)) == -n`. */
  lemma ParsePyIntOfNegative(n: nat)
    ensures ParsePyInt("-" + NatToDigits(n)) == Some(-(n as int))
  {
    var s := NatToDigits(n);
    var t := "-" + s;
    assert t != [] && t[0] == '-' && t[1..] == s;
    ParsePyIntOfMinus(t, s);
  }

  /** Text with no digit at all is never an integer. */
  lemma ParsePyIntNeedsDigit(s: string)
    requires forall c :: c in s ==> !IsDigit(c)
    ensures ParsePyInt(s) == None
  {
    var t := Strip(s);
    var body := if t != [] && (t[0] == '-' || t[0] == '+') then t[1..] else t;
    assert !IsDigitGroup(body) by {
      if body != [] {
        assert body[0] in t;
        StripInside(s);
        assert body[0] in s;
      }
    }
  }

  lemma StripInside(s: string)
    ensures forall c :: c in Strip(s) ==> c in s
  {
    var l := StripLeft(s);
    assert forall c :: c in l ==> c in s;
  }

  /**
   * The numbers that the model lets pandas' `to_numeric` read: an optional
   * sign, then digits with at most one decimal point and at least one digit
   * (`12`, `19.99`, `.5`, `5.`). None stands for a cell that becomes NaN.
   */
  function ParseDecimal(s: string): Option<real> {
    if s != [] && (s[0] == '-' || s[0] == '+') then
      match ParseUnsigned(s[1..])
      case Some(x) => Some(if s[0] == '-' then -x else x)
      case None => None
    else
      ParseUnsigned(s)
  }

  /** The value of the decimal `<whole>.<frac>`. */
  function DecimalValue(whole: string, frac: string): real
    requires AllDigits(whole) && AllDigits(frac)
  {
    DigitsValue(whole) as real + DigitsValue(frac) as real / Pow10(|frac|) as real
  }

  /** Digits with at most one decimal point and at least one digit. */
  function ParseUnsigned(body: string): Option<real> {
    var whole := FirstField(body, ".");
    if |whole| == |body| then
      if body != [] && AllDigits(body) then Some(DigitsValue(body) as real) else None
    else
      var frac := body[|whole| + 1..];
      if AllDigits(whole) && AllDigits(frac) && |whole| + |frac| > 0 then
        Some(DecimalValue(whole, frac))
      else None
  }

  lemma FirstFieldAbsent(s: string, sep: string)
    requires sep != []
    requires forall i :: !OccursAt(s, i, sep)
    ensures FirstField(s, sep) == s
  {
  }

  lemma NoDotInDigits(s: string)
    requires AllDigits(s)
    ensures forall i :: !OccursAt(s, i, ".")
  {
    forall i ensures !OccursAt(s, i, ".") {
      if 0 <= i < |s| {
        assert s[i..i + 1] == [s[i]];
      }
    }
  }

  /** The whole part of `<digits>.<rest>` is the digits. */
  lemma FirstFieldOfDigits(s: string, rest: string)
    requires AllDigits(s)
    ensures FirstField(s + "." + rest, ".") == s
  {
    var t := s + "." + rest;
    var r := FirstField(t, ".");
    assert t[|s|..|s| + 1] == ".";
    assert OccursAt(t, |s|, ".");
    assert |r| <= |s|;
    assert forall j :: 0 <= j < |s| ==> t[j] == s[j] && t[j] != '.';
    assert t[|r|..|r| + 1] == ".";
    assert t[|r|] == '.';
    assert r == t[..|s|];
    assert t[..|s|] == s;
  }

  /**
   * `"<w>.<ds>"` with digit strings on both sides reads as the number with
   * integer part `w` and fraction digits `ds`: what pandas gives for a plain
   * decimal cell.
   */
  lemma ParseDecimalOfDigits(w: string, ds: string)
    requires AllDigits(w) && w != [] && AllDigits(ds)
    ensures ParseDecimal(w + "." + ds) == Some(DecimalValue(w, ds))
  {
    var s := w + "." + ds;
    assert s[0] == w[0];
    assert ParseDecimal(s) == ParseUnsigned(s);
    ParseUnsignedOfDecimal(w, ds);
  }

  lemma ParseUnsignedOfDecimal(w: string, ds: string)
    requires AllDigits(w) && AllDigits(ds) && |w| + |ds| > 0
    ensures ParseUnsigned(w + "." + ds) == Some(DecimalValue(w, ds))
  {
    var s := w + "." + ds;
    FirstFieldOfDigits(w, ds);
    assert s[|w| + 1..] == ds;
  }

  /** A cell holding a whole number reads as that number. */
  lemma ParseDecimalOfWhole(n: nat)
    ensures ParseDecimal(NatToDigits(n)) == Some(n as real)
  {
    var s := NatToDigits(n);
    NoDotInDigits(s);
    FirstFieldAbsent(s, ".");
  }

  /** Text with no digit at all is never a number; the cell becomes 0.0. */
  lemma ParseDecimalNeedsDigit(s: string)
    requires forall c :: c in s ==> !IsDigit(c)
    ensures ParseDecimal(s) == None
  {
    var body := if s != [] && (s[0] == '-' || s[0] == '+') then s[1..] else s;
    assert forall c :: c in body ==> c in s;
    ParseUnsignedNeedsDigit(body);
  }

  lemma ParseUnsignedNeedsDigit(body: string)
    requires forall c :: c in body ==> !IsDigit(c)
    ensures ParseUnsigned(body) == None
  {
    var whole := FirstField(body, ".");
    if |whole| != |body| {
      var frac := body[|whole| + 1..];
      assert whole != [] ==> whole[0] == body[0];
      assert frac != [] ==> frac[0] == body[|whole| + 1];
    }
  }

  lemma SingleDigit(c: char)
    requires IsDigit(c)
    ensures AllDigits([c]) && DigitsValue([c]) == DigitValue(c)
  {
    assert [c][..0] == [];
  }

  /** Three digits with leading zeros, as in the groups of `20,000,000`. */
  function Pad3(n: nat): (s: string)
    requires n < 1000
    ensures |s| == 3 && AllDigits(s) && DigitsValue(s) == n
  {
    var a, b, c := DigitChar(n / 100), DigitChar(n / 10 % 10), DigitChar(n % 10);
    assert AllDigits([a, b]) && DigitsValue([a, b]) == n / 10 by {
      SingleDigit(a);
      DigitsValueSnoc([a], b);
      assert [a] + [b] == [a, b];
    }
    assert AllDigits([a, b, c]) && DigitsValue([a, b, c]) == n by {
      DigitsValueSnoc([a, b], c);
      assert [a, b] + [c] == [a, b, c];
    }
    [a, b, c]
  }

  /** `n` written with thousands separators: `20000000` as `20,000,000`. */
  function Grouped(n: nat): (s: string)
    ensures s != [] && IsDigit(s[0])
    ensures forall c :: c in s ==> IsDigit(c) || c == ','
  {
    if n < 1000 then NatToDigits(n)
    else Grouped(n / 1000) + "," + Pad3(n % 1000)
  }

  /** Removing the separators from `Grouped(n)` leaves the digits of `n`. */
  lemma {:induction false} GroupedValue(n: nat)
    ensures AllDigits(RemoveAll(Grouped(n), ','))
    ensures DigitsValue(RemoveAll(Grouped(n), ',')) == n
    decreases n
  {
    if n < 1000 {
      var d := NatToDigits(n);
      assert forall c :: c in d ==> c != ',' by {
        forall c | c in d ensures c != ',' { var i :| 0 <= i < |d| && d[i] == c; }
      }
      RemoveAllAbsent(d, ',');
    } else {
      var high := Grouped(n / 1000);
      var low := Pad3(n % 1000);
      var h := RemoveAll(high, ',');
      GroupedValue(n / 1000);
      assert RemoveAll(Grouped(n), ',') == h + low by {
        assert forall c :: c in low ==> c != ',' by {
          forall c | c in low ensures c != ',' { var i :| 0 <= i < |low| && low[i] == c; }
        }
        assert Grouped(n) == (high + ",") + low;
        RemoveAllConcat(high + ",", low, ',');
        RemoveAllConcat(high, ",", ',');
        RemoveAllAbsent(low, ',');
        assert RemoveAll(",", ',') == [];
      }
      assert |low| == 3 && AllDigits(low) && DigitsValue(low) == n % 1000;
      assert Pow10(|low|) == 1000;
      DigitsValueConcat(h, low);
      assert DigitsValue(h) == n / 1000;
      assert (n / 1000) * 1000 + n % 1000 == n;
    }
  }
}
