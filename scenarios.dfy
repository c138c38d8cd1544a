/**
 * Worked examples of the cleaning rules on concrete cells, each derived from
 * the general lemmas of SteamData, Numbers and PyLiteral.
 */
module Scenarios {
  import opened Wrappers
  import opened Numbers
  import opened PyLiteral
  import opened SteamData

  predicate Plain(x: string) {
    forall c :: c in x ==> c != '\\' && c != '\'' && ' ' <= c && c as int != 127
  }

  lemma QuotePlain(x: string)
    requires Plain(x)
    ensures Quote(x) == "'" + x + "'"
  {
    EscapePlain(x, '\'');
    assert QuoteFor(x) == '\'';
  }

  lemma ListOfOne(x: string)
    requires Plain(x)
    ensures ListLiteral([x]) == "['" + x + "']"
  {
    QuotePlain(x);
    assert JoinQuoted([x]) == Quote(x);
  }

  lemma ListOfTwo(x: string, y: string)
    requires Plain(x) && Plain(y)
    ensures ListLiteral([x, y]) == "['" + x + "', '" + y + "']"
  {
    QuotePlain(x);
    QuotePlain(y);
    var qx, qy := "'" + x + "'", "'" + y + "'";
    assert JoinQuoted([x, y]) == qx + ", " + qy by {
      assert Quote(x) == qx && Quote(y) == qy;
      assert [x, y][1..] == [y];
      assert JoinQuoted([y]) == qy;
    }
    assert "[" + (qx + ", " + qy) + "]" == "['" + x + "', '" + y + "']";
  }

  /** A one-item list of a plain tag parses back to that item. */
  lemma ListOfOneParses(x: string)
    requires Plain(x)
    ensures SafeLiteralEval("['" + x + "']") == PyList([x])
  {
    ListOfOne(x);
    SafeLiteralEvalOfList([x]);
  }

  /** A two-item list of plain tags parses back to those items. */
  lemma ListOfTwoParses(x: string, y: string)
    requires Plain(x) && Plain(y)
    ensures SafeLiteralEval("['" + x + "', '" + y + "']") == PyList([x, y])
  {
    ListOfTwo(x, y);
    SafeLiteralEvalOfList([x, y]);
  }

  /** `['Single-player']` is Single-player Only. */
  lemma SinglePlayerOnlyExample()
    ensures ClassifyGameType(SafeLiteralEval("['" + SinglePlayerTag + "']")) == SingleOnly
  {
    var v := SafeLiteralEval("['" + SinglePlayerTag + "']");
    assert v == PyList([SinglePlayerTag]) by {
      ListOfOneParses(SinglePlayerTag);
    }
    assert Tags(v) == {SinglePlayerTag};
    assert MultiPlayerTag != SinglePlayerTag by {
      assert MultiPlayerTag[0] != SinglePlayerTag[0];
    }
  }

  /** `['Single-player', 'Multi-player']` is Single-player & Multi-player. */
  lemma BothModesExample()
    ensures ClassifyGameType(SafeLiteralEval("['" + SinglePlayerTag + "', '" + MultiPlayerTag + "']")) == SingleAndMulti
  {
    var v := SafeLiteralEval("['" + SinglePlayerTag + "', '" + MultiPlayerTag + "']");
    assert v == PyList([SinglePlayerTag, MultiPlayerTag]) by {
      ListOfTwoParses(SinglePlayerTag, MultiPlayerTag);
    }
    assert SinglePlayerTag in Tags(v) && MultiPlayerTag in Tags(v);
  }

  /** A quoted string that is not a list is kept as a string and classified Other/Unknown. */
  lemma NonListLiteralExample()
    ensures SafeLiteralEval("'abc'") == PyStr("abc")
    ensures ClassifyGameType(PyStr("abc")) == OtherUnknown
  {
    var x := "abc";
    assert Quote(x) == "'abc'" by {
      assert Plain(x) by {
        forall c | c in x ensures ' ' <= c && c != '\\' && c != '\'' && c as int != 127 {
          assert c == 'a' || c == 'b' || c == 'c';
        }
      }
      QuotePlain(x);
    }
    SafeLiteralEvalOfString(x);
  }

  /** Twenty million prints with thousands separators as `20,000,000`. */
  lemma GroupedExample()
    ensures Grouped(20000000) == "20,000,000"
  {
    var zeros := Pad3(0);
    assert zeros == "000";
    var millions := Grouped(20);
    assert millions == "20" by {
      assert NatToDigits(2) == "2";
      assert NatToDigits(20) == "20";
    }
    var thousands := Grouped(20000);
    assert thousands == millions + "," + zeros;
    assert thousands == "20,000";
    assert Grouped(20000000) == thousands + "," + zeros;
  }

  /** The owners range `20,000,000 - 50,000,000` gives 20000000. */
  lemma OwnersRangeExample()
    ensures ParseOwners("20,000,000 - 50,000,000") == 20000000
  {
    GroupedExample();
    assert Grouped(20000000) + " - " + "50,000,000" == "20,000,000 - 50,000,000";
    ParseOwnersOfRange(20000000, "50,000,000");
  }

  /** A bare number without a range, `12345`, gives 12345. */
  lemma OwnersSingleExample()
    ensures NatToDigits(12345) == "12345"
    ensures ParseOwners(NatToDigits(12345)) == 12345
  {
    assert NatToDigits(1) == "1";
    assert NatToDigits(12) == "12";
    assert NatToDigits(123) == "123";
    assert NatToDigits(1234) == "1234";
    ParseOwnersWithoutSeparator(12345);
  }

  /** `True` maps to 1, a missing cell and `false` to 0, and so does `TRUE`. */
  lemma FlagExamples()
    ensures FlagValue(Text("True")) == 1
    ensures FlagValue(Missing) == 0
    ensures FlagValue(Text("false")) == 0
    ensures FlagValue(Text("TRUE")) == 0
  {
  }

  /** `N/A` becomes 0.0. */
  lemma NotANumberExample()
    ensures CoerceNumeric(Text("N/A")) == 0.0
  {
    ParseDecimalNeedsDigit("N/A");
  }

  /** `19.99` becomes 19.99. */
  lemma DecimalExample()
    ensures CoerceNumeric(Text("19.99")) == 19.99
  {
    var w, ds := "19", "99";
    assert DigitsValue(w) == 19 by {
      assert w[..1] == "1";
      assert "1"[..0] == [];
    }
    assert DigitsValue(ds) == 99 by {
      assert ds[..1] == "9";
      assert "9"[..0] == [];
    }
    assert Pow10(|ds|) == 100;
    assert DecimalValue(w, ds) == 19.0 + 99.0 / 100.0;
    ParseDecimalOfDigits(w, ds);
    assert w + "." + ds == "19.99";
  }
}
