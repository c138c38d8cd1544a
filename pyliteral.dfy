/**
 * The part of Python's `ast.literal_eval` that the Steam list columns use, and
 * the `safe_literal_eval` wrapper around it that turns every failure into `[]`.
 *
 * Accepted: one string literal (single or double quotes; escapes `\\ \' \" \n
 * \r \t \xNN`, and a backslash before a letter Python gives no meaning is kept
 * as it is), one decimal integer literal with an optional sign, or a list of
 * string literals (a trailing comma is allowed). Spaces, tabs and line breaks
 * may surround every token. The renderings below write strings as `repr` does.
 */
module PyLiteral {
  import opened Wrappers
  import opened Numbers

  /** The value `literal_eval` produced: the model's ways a cell can parse. */
  datatype PyValue = PyList(items: seq<string>) | PyStr(str: string) | PyInt(num: int)

  predicate IsLiteralSpace(c: char) {
    c == ' ' || c == '\t' || c == '\n' || c == '\r'
  }

  function SkipSpace(s: string): (r: string)
    ensures |r| <= |s|
    ensures r == [] || !IsLiteralSpace(r[0])
  {
    if s != [] && IsLiteralSpace(s[0]) then SkipSpace(s[1..]) else s
  }

  /**
   * The text an escape `\c` stands for: one character for the escapes the model
   * decodes, and the backslash kept with `c` for a letter Python gives no meaning.
   */
  function Unescape(c: char): (r: string)
    ensures |r| == 1 || r == ['\\', c]
  {
    if c == '\\' then "\\"
    else if c == '\'' then "'"
    else if c == '"' then "\""
    else if c == 'n' then "\n"
    else if c == 'r' then "\r"
    else if c == 't' then "\t"
    else ['\\', c]
  }

  /**
   * Escapes Python decodes that the model does not: `\a \b \f \v`, octal
   * escapes, `\u`, `\U`, `\N{...}` and a backslash before a line break.
   */
  predicate OtherEscape(c: char) {
    c == 'a' || c == 'b' || c == 'f' || c == 'v' || ('0' <= c <= '7')
    || c == 'u' || c == 'U' || c == 'N' || c == '\n' || c == '\r'
  }

  predicate IsHexDigit(c: char) {
    ('0' <= c <= '9') || ('a' <= c <= 'f') || ('A' <= c <= 'F')
  }

  function HexValue(c: char): (d: nat)
    requires IsHexDigit(c)
    ensures d < 16
  {
    if '0' <= c <= '9' then c as int - '0' as int
    else if 'a' <= c <= 'f' then c as int - 'a' as int + 10
    else c as int - 'A' as int + 10
  }

  /** The lower-case hex digit `repr` writes for `d`. */
  function HexDigit(d: nat): (c: char)
    requires d < 16
    ensures IsHexDigit(c) && HexValue(c) == d
  {
    if d < 10 then ('0' as int + d) as char else ('a' as int + d - 10) as char
  }

  /**
   * The body of a string literal opened by quote `q`: the decoded text and what
   * follows the closing quote. A line break before the closing quote is a
   * syntax error, as in Python, and so is `\x` without two hex digits.
   */
  function ParseStrBody(s: string, q: char): (r: Option<(string, string)>)
    ensures r.Some? ==> |r.value.1| < |s|
    decreases |s|
  {
    if s == [] then None
    else if s[0] == q then Some(([], s[1..]))
    else if s[0] == '\n' || s[0] == '\r' then None
    else if s[0] == '\\' then
      if |s| < 2 || OtherEscape(s[1]) then None
      else if s[1] == 'x' then
        if |s| < 4 || !IsHexDigit(s[2]) || !IsHexDigit(s[3]) then None
        else
          match ParseStrBody(s[4..], q)
          case None => None
          case Some((v, rest)) => Some(([(HexValue(s[2]) * 16 + HexValue(s[3])) as char] + v, rest))
      else
        match ParseStrBody(s[2..], q)
        case None => None
        case Some((v, rest)) => Some((Unescape(s[1]) + v, rest))
    else
      match ParseStrBody(s[1..], q)
      case None => None
      case Some((v, rest)) => Some(([s[0]] + v, rest))
  }

  predicate IsQuote(c: char) {
    c == '\'' || c == '"'
  }

  /**
   * The items of a list literal, starting just after `[`: the strings and what
   * follows the closing `]`.
   */
  function ParseItems(s: string): (r: Option<(seq<string>, string)>)
    ensures r.Some? ==> |r.value.1| < |s|
    decreases |s|
  {
    var t := SkipSpace(s);
    if t == [] then None
    else if t[0] == ']' then Some(([], t[1..]))
    else if !IsQuote(t[0]) then None
    else
      match ParseStrBody(t[1..], t[0])
      case None => None
      case Some((x, u)) =>
        var w := SkipSpace(u);
        if w == [] then None
        else if w[0] == ']' then Some(([x], w[1..]))
        else if w[0] != ',' then None
        else
          match ParseItems(w[1..])
          case None => None
          case Some((xs, rest)) => Some(([x] + xs, rest))
  }

  /** The longest prefix of `s` made of digits. */
  function DigitPrefix(s: string): (r: string)
    ensures r <= s && AllDigits(r)
    ensures |r| == |s| || !IsDigit(s[|r|])
  {
    if s != [] && IsDigit(s[0]) then [s[0]] + DigitPrefix(s[1..]) else []
  }

  /**
   * A decimal integer literal with an optional sign. Python 3 refuses a
   * leading zero on a non-zero literal (`05`), but accepts `0` and `00`.
   */
  function ParseIntLiteral(s: string): (r: Option<(PyValue, string)>)
    ensures r.Some? ==> |r.value.1| < |s|
  {
    var signed := s != [] && (s[0] == '-' || s[0] == '+');
    var body := if signed then s[1..] else s;
    var ds := DigitPrefix(body);
    if ds == [] || (ds[0] == '0' && DigitsValue(ds) != 0) then None
    else
      var n := if signed && s[0] == '-' then -(DigitsValue(ds) as int) else DigitsValue(ds);
      Some((PyInt(n), body[|ds|..]))
  }

  /** One literal at the start of `s` and what follows it. */
  function ParseValue(s: string): (r: Option<(PyValue, string)>)
    ensures r.Some? ==> |r.value.1| < |s|
  {
    if s == [] then None
    else if s[0] == '[' then
      match ParseItems(s[1..])
      case None => None
      case Some((xs, rest)) => Some((PyList(xs), rest))
    else if IsQuote(s[0]) then
      match ParseStrBody(s[1..], s[0])
      case None => None
      case Some((x, rest)) => Some((PyStr(x), rest))
    else ParseIntLiteral(s)
  }

  /** `ast.literal_eval(s)`; None stands for the ValueError or SyntaxError it raises. */
  function LiteralEval(s: string): Option<PyValue> {
    match ParseValue(SkipSpace(s))
    case None => None
    case Some((v, rest)) => if SkipSpace(rest) == [] then Some(v) else None
  }

  /** `safe_literal_eval`: the literal's value, or the empty list when parsing fails. */
  function SafeLiteralEval(s: string): PyValue {
    LiteralEval(s).GetOr(PyList([]))
  }

  // ---- Renderings of string lists, for the round-trip lemmas ----

  /**
   * How `repr` writes one character inside a literal quoted with `q`: the
   * backslash and the quote escaped, tab and line breaks as `\t \n \r`, other
   * control characters as `\xNN`, everything else as it is.
   */
  function EscapeChar(c: char, q: char): string {
    if c == '\\' then "\\\\"
    else if c == q then ['\\', q]
    else if c == '\t' then "\\t"
    else if c == '\n' then "\\n"
    else if c == '\r' then "\\r"
    else if c < ' ' || c as int == 127 then ['\\', 'x', HexDigit(c as int / 16), HexDigit(c as int % 16)]
    else [c]
  }

  function Escape(x: string, q: char): string {
    if x == [] then [] else EscapeChar(x[0], q) + Escape(x[1..], q)
  }

  /** The quote `repr` picks: double quotes for text with `'` and no `"`, single otherwise. */
  function QuoteFor(x: string): (q: char)
    ensures IsQuote(q)
  {
    if '\'' in x && '"' !in x then '"' else '\''
  }

  /** `x` as a Python string literal, as `repr(x)` writes it. */
  function Quote(x: string): string {
    var q := QuoteFor(x);
    [q] + Escape(x, q) + [q]
  }

  /** The items of a list literal, separated by `, `. */
  function JoinQuoted(xs: seq<string>): string {
    if xs == [] then []
    else if |xs| == 1 then Quote(xs[0])
    else Quote(xs[0]) + ", " + JoinQuoted(xs[1..])
  }

  /** `xs` as a Python list literal, as `str(list)` writes it: `['Action', 'Indie']`. */
  function ListLiteral(xs: seq<string>): string {
    "[" + JoinQuoted(xs) + "]"
  }

  /** One escaped character is read back as that character. */
  lemma ParseEscapedChar(c: char, q: char, tail: string, x: string, rest: string)
    requires IsQuote(q)
    requires ParseStrBody(tail, q) == Some((x, rest))
    ensures ParseStrBody(EscapeChar(c, q) + tail, q) == Some(([c] + x, rest))
  {
    var e := EscapeChar(c, q);
    var s := e + tail;
    if c == '\\' || c == q || c == '\t' || c == '\n' || c == '\r' {
      assert |e| == 2 && e[0] == '\\' && !OtherEscape(e[1]) && e[1] != 'x' && Unescape(e[1]) == [c];
      assert s[0] == '\\' && s[1] == e[1] && s[2..] == tail;
    } else if c < ' ' || c as int == 127 {
      var n := c as int;
      assert HexValue(e[2]) * 16 + HexValue(e[3]) == n by {
        assert HexValue(e[2]) == n / 16 && HexValue(e[3]) == n % 16;
      }
      assert s[..4] == e && s[4..] == tail;
    } else {
      assert e == [c];
      assert s[0] == c && s[1..] == tail;
    }
  }

  lemma {:induction false} ParseEscaped(x: string, q: char, rest: string)
    requires IsQuote(q)
    ensures ParseStrBody(Escape(x, q) + [q] + rest, q) == Some((x, rest))
    decreases |x|
  {
    var s := Escape(x, q) + [q] + rest;
    if x == [] {
      assert s == [q] + rest;
    } else {
      var tail := Escape(x[1..], q) + [q] + rest;
      assert s == EscapeChar(x[0], q) + tail by {
        assert Escape(x, q) == EscapeChar(x[0], q) + Escape(x[1..], q);
      }
      ParseEscaped(x[1..], q, rest);
      ParseEscapedChar(x[0], q, tail, x[1..], rest);
      assert x == [x[0]] + x[1..];
    }
  }

  /** A quoted item followed by `after`, as ParseItems sees it. */
  lemma ParseQuotedItem(x: string, after: string)
    ensures var s := Quote(x) + after;
      SkipSpace(s) == s && IsQuote(s[0]) && ParseStrBody(s[1..], s[0]) == Some((x, after))
  {
    var s := Quote(x) + after;
    var q := QuoteFor(x);
    assert s[0] == q && s[1..] == Escape(x, q) + [q] + after;
    ParseEscaped(x, q, after);
  }

  lemma ParseLastItem(x: string, rest: string)
    ensures ParseItems(Quote(x) + "]" + rest) == Some(([x], rest))
  {
    ParseQuotedItem(x, "]" + rest);
    assert Quote(x) + "]" + rest == Quote(x) + ("]" + rest);
    assert ("]" + rest)[1..] == rest;
  }

  lemma SkipSpaceIdempotent(s: string)
    ensures SkipSpace(SkipSpace(s)) == SkipSpace(s)
  {
  }

  lemma ParseItemsSkipsSpace(s: string)
    ensures ParseItems(s) == ParseItems(SkipSpace(s))
  {
    SkipSpaceIdempotent(s);
  }

  /** One unfolding of ParseItems at a quoted item followed by a comma. */
  lemma ParseItemsAtComma(s: string, x: string, after: string)
    requires SkipSpace(s) == s && s != [] && IsQuote(s[0])
    requires ParseStrBody(s[1..], s[0]) == Some((x, after))
    requires after != [] && after[0] == ','
    ensures ParseItems(after[1..]).Some? ==>
      ParseItems(s) == Some(([x] + ParseItems(after[1..]).value.0, ParseItems(after[1..]).value.1))
  {
    assert SkipSpace(after) == after;
  }

  lemma ParseNextItem(x: string, more: string, ys: seq<string>, rest: string)
    requires more != [] && IsQuote(more[0])
    requires ParseItems(more) == Some((ys, rest))
    ensures ParseItems(Quote(x) + ", " + more) == Some(([x] + ys, rest))
  {
    var s := Quote(x) + ", " + more;
    var after := ", " + more;
    assert s == Quote(x) + after;
    var spaced := after[1..];
    assert ParseItems(spaced) == Some((ys, rest)) by {
      assert spaced == " " + more;
      assert spaced[1..] == more;
      assert SkipSpace(spaced) == more;
      ParseItemsSkipsSpace(spaced);
    }
    assert ParseItems(s) == Some(([x] + ys, rest)) by {
      ParseQuotedItem(x, after);
      ParseItemsAtComma(s, x, after);
    }
  }

  lemma {:induction false} ParseJoined(xs: seq<string>, rest: string)
    requires xs != []
    ensures ParseItems(JoinQuoted(xs) + "]" + rest) == Some((xs, rest))
    decreases |xs|
  {
    var s := JoinQuoted(xs) + "]" + rest;
    if |xs| == 1 {
      assert s == Quote(xs[0]) + "]" + rest;
      ParseLastItem(xs[0], rest);
      assert xs == [xs[0]];
    } else {
      var more := JoinQuoted(xs[1..]) + "]" + rest;
      assert s == Quote(xs[0]) + ", " + more by {
        assert JoinQuoted(xs) == Quote(xs[0]) + ", " + JoinQuoted(xs[1..]);
      }
      assert IsQuote(more[0]) by {
        assert JoinQuoted(xs[1..])[0] == Quote(xs[1])[0];
      }
      assert ParseItems(more) == Some((xs[1..], rest)) by {
        ParseJoined(xs[1..], rest);
      }
      ParseNextItem(xs[0], more, xs[1..], rest);
      assert [xs[0]] + xs[1..] == xs;
    }
  }


  /**
   * A list of strings written as a Python literal parses back to the same
   * list, in order: `safe_literal_eval(str(xs)) == xs`.
   */
  lemma SafeLiteralEvalOfList(xs: seq<string>)
    ensures SafeLiteralEval(ListLiteral(xs)) == PyList(xs)
  {
    var s := ListLiteral(xs);
    assert SkipSpace(s) == s;
    if xs == [] {
      assert s[1..] == "]";
    } else {
      assert s[1..] == JoinQuoted(xs) + "]" + [];
      ParseJoined(xs, []);
    }
  }

  /** Text without quotes, backslashes or control characters needs no escaping. */
  lemma {:induction false} EscapePlain(x: string, q: char)
    requires forall c :: c in x ==> c != '\\' && c != q && ' ' <= c && c as int != 127
    ensures Escape(x, q) == x
    decreases |x|
  {
    if x != [] {
      assert EscapeChar(x[0], q) == [x[0]] by {
        assert x[0] in x;
      }
      assert forall c :: c in x[1..] ==> c in x;
      EscapePlain(x[1..], q);
      assert x == [x[0]] + x[1..];
    }
  }

  /** A single string literal is kept as the string itself, not as a list. */
  lemma SafeLiteralEvalOfString(x: string)
    ensures SafeLiteralEval(Quote(x)) == PyStr(x)
  {
    var s := Quote(x);
    var q := QuoteFor(x);
    assert SkipSpace(s) == s;
    assert s[0] == q && s[1..] == Escape(x, q) + [q] + [];
    ParseEscaped(x, q, []);
  }

  lemma {:induction false} DigitPrefixOfDigits(s: string)
    requires AllDigits(s)
    ensures DigitPrefix(s) == s
    decreases |s|
  {
    if s != [] {
      DigitPrefixOfDigits(s[1..]);
      assert s == [s[0]] + s[1..];
    }
  }

  /** An integer written in decimal, as `str(n)` writes it, is read back as that integer. */
  lemma SafeLiteralEvalOfInt(n: nat)
    ensures SafeLiteralEval(NatToDigits(n)) == PyInt(n)
  {
    var s := NatToDigits(n);
    assert SkipSpace(s) == s && !IsQuote(s[0]) && s[0] != '-' && s[0] != '+';
    DigitPrefixOfDigits(s);
    assert s[|s|..] == [];
  }

  /** A negative integer, `-` followed by its digits, is read back as that integer. */
  lemma SafeLiteralEvalOfNegativeInt(n: nat)
    ensures SafeLiteralEval("-" + NatToDigits(n)) == PyInt(-(n as int))
  {
    var d := NatToDigits(n);
    var s := "-" + d;
    assert SkipSpace(s) == s && s[1..] == d;
    DigitPrefixOfDigits(d);
    assert d[|d|..] == [];
  }

  /**
   * Text whose first token is none of the forms the model reads (a list, a
   * string or a decimal integer), such as `N/A` or nothing at all, gives `[]`.
   */
  lemma SafeLiteralEvalOfNonLiteral(s: string)
    requires var t := SkipSpace(s); t == [] || !(t[0] == '[' || IsQuote(t[0]) || t[0] == '-' || t[0] == '+' || IsDigit(t[0]))
    ensures SafeLiteralEval(s) == PyList([])
  {
  }
}
