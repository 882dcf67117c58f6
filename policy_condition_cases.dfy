/**
 * The concrete clauses that pin the evaluator's behaviour: each lemma states
 * one operator family's recorded outcomes for a one-clause block.
 */
module PolicyConditionCases {
  import opened Wrappers
  import opened Decimal
  import opened PolicyCondition

  /** A block holding the single clause `conditionType(key, [value])`. */
  function OneClause(conditionType: string, key: string, value: string, body: RequestBody): bool {
    IsConditionMatching([Condition(conditionType, key, [value])], body)
  }

  function With(key: string, value: string): RequestBody {
    map[key := Some(value)]
  }

  const NoAttributes: RequestBody := map[]

  /** A one-clause block is decided by its clause, once the type name is decoded. */
  lemma OneClauseMeans(t: ConditionType, key: string, value: string, body: RequestBody)
    ensures OneClause(TypeName(t), key, value, body) == MatchClause(t, key, [value], body)
  {
    ParseTypeNameRoundTrip(t);
  }

  lemma SmallNumbers()
    ensures ParseInt("9") == Some(9) && ParseInt("10") == Some(10) && ParseInt("11") == Some(11)
  {
    assert DigitsValue("1") == 1 by { assert "1"[..0] == []; }
    assert "10"[..1] == "1";
    assert "11"[..1] == "1";
    assert DigitsValue("9") == 9 by { assert "9"[..0] == []; }
  }

  lemma StringEqualsCases()
    ensures OneClause("StringEquals", "max-keys", "abc", With("max-keys", "abc"))
    ensures !OneClause("StringEquals", "max-keys", "pqr", With("max-keys", "abc"))
    ensures OneClause("StringNotEquals", "max-keys", "ABC", With("max-keys", "abc"))
  {
    var eq := ConditionType(StringEquals, false);
    var ne := ConditionType(StringNotEquals, false);
    assert TypeName(eq) == "StringEquals" && TypeName(ne) == "StringNotEquals";
    OneClauseMeans(eq, "max-keys", "abc", With("max-keys", "abc"));
    OneClauseMeans(eq, "max-keys", "pqr", With("max-keys", "abc"));
    OneClauseMeans(ne, "max-keys", "ABC", With("max-keys", "abc"));
    assert "pqr"[0] != "abc"[0] && "ABC"[0] != "abc"[0];
  }

  lemma StringEqualsIgnoreCaseCases()
    ensures OneClause("StringEqualsIgnoreCase", "max-keys", "abc", With("max-keys", "Abc"))
    ensures !OneClause("StringEqualsIgnoreCase", "max-keys", "abc", With("max-keys", "pqr"))
    ensures OneClause("StringNotEqualsIgnoreCase", "max-keys", "abc", With("max-keys", "pqr"))
    ensures !OneClause("StringNotEqualsIgnoreCase", "max-keys", "abc", With("max-keys", "abC"))
  {
    assert TypeName(ConditionType(StringEqualsIgnoreCase, false)) == "StringEqualsIgnoreCase";
    assert TypeName(ConditionType(StringNotEqualsIgnoreCase, false)) == "StringNotEqualsIgnoreCase";
    assert EqualsIgnoreCase("abc", "Abc") && EqualsIgnoreCase("abc", "abC") by {
      EqualsIgnoreCaseAt("abc", "Abc");
      EqualsIgnoreCaseAt("abc", "abC");
      forall i | 0 <= i < 3 ensures LowerAscii("abc"[i]) == LowerAscii("Abc"[i]) == LowerAscii("abC"[i]) {
      }
    }
    assert !EqualsIgnoreCase("abc", "pqr") by {
      EqualsIgnoreCaseAt("abc", "pqr");
      assert LowerAscii("abc"[0]) != LowerAscii("pqr"[0]);
    }
    assert Any(["abc"], v => EqualsIgnoreCase(v, "Abc"));
    assert !Any(["abc"], v => EqualsIgnoreCase(v, "pqr"));
    assert Any(["abc"], v => EqualsIgnoreCase(v, "abC"));
    PresentKeyClause(StringEqualsIgnoreCase, "max-keys", "abc", "Abc");
    PresentKeyClause(StringEqualsIgnoreCase, "max-keys", "abc", "pqr");
    PresentKeyClause(StringNotEqualsIgnoreCase, "max-keys", "abc", "pqr");
    PresentKeyClause(StringNotEqualsIgnoreCase, "max-keys", "abc", "abC");
  }

  /** A one-value clause on a key the request carries is its base operator applied to that value. */
  lemma PresentKeyClause(op: Operator, key: string, v: string, s: string)
    requires op != Null
    ensures OneClause(TypeName(ConditionType(op, false)), key, v, With(key, s)) == ValueMatch(op, [v], s)
  {
    OneClauseMeans(ConditionType(op, false), key, v, With(key, s));
  }

  lemma StringLikeCases()
    ensures OneClause("StringLike", "max-keys", "ab?", With("max-keys", "abc"))
    ensures !OneClause("StringLike", "max-keys", "a*d", With("max-keys", "abc"))
    ensures OneClause("StringNotLike", "max-keys", "a*d", With("max-keys", "abc"))
  {
    assert TypeName(ConditionType(StringLike, false)) == "StringLike";
    assert TypeName(ConditionType(StringNotLike, false)) == "StringNotLike";
    assert Like("ab?", "abc") by {
      assert "ab?"[1..] == "b?" && "abc"[1..] == "bc";
      assert "b?"[1..] == "?" && "bc"[1..] == "c";
      assert "?"[1..] == "" && "c"[1..] == "";
    }
    assert !Like("a*d", "abc") by {
      if Like("a*d", "abc") {
        LikeEndsWithLiteral("a*d", "abc");
      }
    }
    assert Any(["ab?"], v => Like(v, "abc"));
    assert !Any(["a*d"], v => Like(v, "abc"));
    PresentKeyClause(StringLike, "max-keys", "ab?", "abc");
    PresentKeyClause(StringLike, "max-keys", "a*d", "abc");
    PresentKeyClause(StringNotLike, "max-keys", "a*d", "abc");
  }

  lemma StringEqualsIfExistsCase()
    ensures OneClause("StringEqualsIfExists", "max-keys", "abc", NoAttributes)
  {
    var t := ConditionType(StringEquals, true);
    assert TypeName(t) == "StringEqualsIfExists";
    OneClauseMeans(t, "max-keys", "abc", NoAttributes);
  }

  lemma NumericEqualsCases()
    ensures OneClause("NumericEquals", "max-keys", "10", With("max-keys", "10"))
    ensures OneClause("NumericNotEquals", "max-keys", "10", With("max-keys", "11"))
    ensures !OneClause("NumericEquals", "max-keys", "11", With("max-keys", "10"))
  {
    SmallNumbers();
    var eq := ConditionType(NumericEquals, false);
    var ne := ConditionType(NumericNotEquals, false);
    assert TypeName(eq) == "NumericEquals" && TypeName(ne) == "NumericNotEquals";
    OneClauseMeans(eq, "max-keys", "10", With("max-keys", "10"));
    NumericSingleParsed(NumericEquals, false, "max-keys", With("max-keys", "10"), "10", "10", 10, 10);
    OneClauseMeans(ne, "max-keys", "10", With("max-keys", "11"));
    NumericSingleParsed(NumericNotEquals, false, "max-keys", With("max-keys", "11"), "11", "10", 11, 10);
    OneClauseMeans(eq, "max-keys", "11", With("max-keys", "10"));
    NumericSingleParsed(NumericEquals, false, "max-keys", With("max-keys", "10"), "10", "11", 10, 11);
  }

  lemma NumericGreaterThanCases()
    ensures OneClause("NumericGreaterThan", "max-keys", "10", With("max-keys", "11"))
    ensures !OneClause("NumericGreaterThan", "max-keys", "10", With("max-keys", "9"))
  {
    SmallNumbers();
    var t := ConditionType(NumericGreaterThan, false);
    assert TypeName(t) == "NumericGreaterThan";
    OneClauseMeans(t, "max-keys", "10", With("max-keys", "11"));
    NumericSingleParsed(NumericGreaterThan, false, "max-keys", With("max-keys", "11"), "11", "10", 11, 10);
    OneClauseMeans(t, "max-keys", "10", With("max-keys", "9"));
    NumericSingleParsed(NumericGreaterThan, false, "max-keys", With("max-keys", "9"), "9", "10", 9, 10);
  }

  lemma NumericGreaterThanEqualsCases()
    ensures OneClause("NumericGreaterThanEquals", "max-keys", "10", With("max-keys", "10"))
    ensures !OneClause("NumericGreaterThanEquals", "max-keys", "10", With("max-keys", "9"))
  {
    SmallNumbers();
    var t := ConditionType(NumericGreaterThanEquals, false);
    assert TypeName(t) == "NumericGreaterThanEquals";
    OneClauseMeans(t, "max-keys", "10", With("max-keys", "10"));
    NumericSingleParsed(NumericGreaterThanEquals, false, "max-keys", With("max-keys", "10"), "10", "10", 10, 10);
    OneClauseMeans(t, "max-keys", "10", With("max-keys", "9"));
    NumericSingleParsed(NumericGreaterThanEquals, false, "max-keys", With("max-keys", "9"), "9", "10", 9, 10);
  }

  lemma NumericLessThanCases()
    ensures OneClause("NumericLessThan", "max-keys", "10", With("max-keys", "9"))
    ensures !OneClause("NumericLessThan", "max-keys", "10", With("max-keys", "10"))
  {
    SmallNumbers();
    var t := ConditionType(NumericLessThan, false);
    assert TypeName(t) == "NumericLessThan";
    OneClauseMeans(t, "max-keys", "10", With("max-keys", "9"));
    NumericSingleParsed(NumericLessThan, false, "max-keys", With("max-keys", "9"), "9", "10", 9, 10);
    OneClauseMeans(t, "max-keys", "10", With("max-keys", "10"));
    NumericSingleParsed(NumericLessThan, false, "max-keys", With("max-keys", "10"), "10", "10", 10, 10);
  }

  lemma NumericLessThanEqualsCases()
    ensures OneClause("NumericLessThanEquals", "max-keys", "10", With("max-keys", "10"))
    ensures !OneClause("NumericLessThanEquals", "max-keys", "10", With("max-keys", "11"))
  {
    SmallNumbers();
    var t := ConditionType(NumericLessThanEquals, false);
    assert TypeName(t) == "NumericLessThanEquals";
    OneClauseMeans(t, "max-keys", "10", With("max-keys", "10"));
    NumericSingleParsed(NumericLessThanEquals, false, "max-keys", With("max-keys", "10"), "10", "10", 10, 10);
    OneClauseMeans(t, "max-keys", "10", With("max-keys", "11"));
    NumericSingleParsed(NumericLessThanEquals, false, "max-keys", With("max-keys", "11"), "11", "10", 11, 10);
  }

  lemma NumericEqualsIfExistsCase()
    ensures OneClause("NumericEqualsIfExists", "max-keys", "10", NoAttributes)
  {
    var t := ConditionType(NumericEquals, true);
    assert TypeName(t) == "NumericEqualsIfExists";
    OneClauseMeans(t, "max-keys", "10", NoAttributes);
  }

  lemma BoolCases()
    ensures OneClause("Bool", "abc-keys", "true", With("abc-keys", "true"))
    ensures !OneClause("Bool", "abc-keys", "true", With("abc-keys", "false"))
  {
    var t := ConditionType(Bool, false);
    assert TypeName(t) == "Bool";
    OneClauseMeans(t, "abc-keys", "true", With("abc-keys", "true"));
    OneClauseMeans(t, "abc-keys", "true", With("abc-keys", "false"));
    BoolSingleValue(false, "abc-keys", "true", With("abc-keys", "true"));
    BoolSingleValue(false, "abc-keys", "true", With("abc-keys", "false"));
    assert "true"[0] != "false"[0];
  }

  lemma BoolIfExistsCases()
    ensures OneClause("BoolIfExists", "abc-keys", "false", NoAttributes)
    ensures !OneClause("BoolIfExists", "abc-keys", "false", With("abc-keys", "true"))
  {
    var t := ConditionType(Bool, true);
    assert TypeName(t) == "BoolIfExists";
    OneClauseMeans(t, "abc-keys", "false", NoAttributes);
    OneClauseMeans(t, "abc-keys", "false", With("abc-keys", "true"));
    BoolSingleValue(true, "abc-keys", "false", With("abc-keys", "true"));
    assert "true"[0] != "false"[0];
  }

  lemma NullCases()
    ensures OneClause("Null", "abc-keys", "true", NoAttributes)
    ensures !OneClause("Null", "abc-keys", "true", With("abc-keys", "true"))
    ensures OneClause("Null", "abc-keys", "false", With("abc-keys", "abc"))
    ensures !OneClause("Null", "abc-keys", "false", map["abc-keys" := None])
  {
    var t := ConditionType(Null, false);
    assert TypeName(t) == "Null";
    OneClauseMeans(t, "abc-keys", "true", NoAttributes);
    OneClauseMeans(t, "abc-keys", "true", With("abc-keys", "true"));
    OneClauseMeans(t, "abc-keys", "false", With("abc-keys", "abc"));
    OneClauseMeans(t, "abc-keys", "false", map["abc-keys" := None]);
    assert "true"[0] != "false"[0];
  }

  lemma NullIfExistsCase()
    ensures !OneClause("NullIfExists", "abc-keys", "false", With("abc-keys", "abc"))
  {
    var t := ConditionType(Null, true);
    assert TypeName(t) == "NullIfExists";
    OneClauseMeans(t, "abc-keys", "false", With("abc-keys", "abc"));
  }
}
