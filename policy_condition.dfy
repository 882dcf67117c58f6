/**
 * The condition block of a bucket policy statement, evaluated against the
 * attributes of one request (BucketPolicyAuthorizer.isConditionMatching).
 *
 * A clause names an operator (possibly with the `IfExists` suffix), the
 * request key it tests and a list of values. The request attributes map a
 * key to a value that may itself be null, so a key is absent, present with
 * null, or present with a string. A block holds when every clause holds.
 */
module PolicyCondition {
  import opened Wrappers
  import opened Decimal

  // ---------------------------------------------------------------------------
  // Data model
  // ---------------------------------------------------------------------------

  /** The condition operators this evaluator recognises, without `IfExists`. */
  datatype Operator =
    | StringEquals | StringNotEquals
    | StringEqualsIgnoreCase | StringNotEqualsIgnoreCase
    | StringLike | StringNotLike
    | NumericEquals | NumericNotEquals
    | NumericLessThan | NumericLessThanEquals
    | NumericGreaterThan | NumericGreaterThanEquals
    | Bool
    | Null

  /** An operator together with the `IfExists` modifier. */
  datatype ConditionType = ConditionType(op: Operator, ifExists: bool)

  /** One clause as the policy parser hands it over: type name, key, values. */
  datatype Condition = Condition(conditionType: string, conditionKey: string, values: seq<string>)

  /** Request attributes: a key maps to a string or to null (`None`). */
  type RequestBody = map<string, Option<string>>

  /** What a request says about one key. */
  datatype Attribute = Absent | NullValue | Value(text: string)

  function Lookup(body: RequestBody, key: string): (a: Attribute)
    ensures a == Absent <==> key !in body
    ensures a == NullValue <==> key in body && body[key] == None
    ensures a.Value? ==> key in body && body[key] == Some(a.text)
  {
    if key !in body then Absent
    else match body[key]
      case None => NullValue
      case Some(s) => Value(s)
  }

  // ---------------------------------------------------------------------------
  // Operator names
  // ---------------------------------------------------------------------------

  const IfExistsSuffix: string := "IfExists"

  function OperatorName(op: Operator): string {
    match op
    case StringEquals => "StringEquals"
    case StringNotEquals => "StringNotEquals"
    case StringEqualsIgnoreCase => "StringEqualsIgnoreCase"
    case StringNotEqualsIgnoreCase => "StringNotEqualsIgnoreCase"
    case StringLike => "StringLike"
    case StringNotLike => "StringNotLike"
    case NumericEquals => "NumericEquals"
    case NumericNotEquals => "NumericNotEquals"
    case NumericLessThan => "NumericLessThan"
    case NumericLessThanEquals => "NumericLessThanEquals"
    case NumericGreaterThan => "NumericGreaterThan"
    case NumericGreaterThanEquals => "NumericGreaterThanEquals"
    case Bool => "Bool"
    case Null => "Null"
  }

  /** The operator spelled `name`, if `name` is one of the recognised spellings. */
  function ParseOperator(name: string): (r: Option<Operator>)
    ensures r.Some? ==> OperatorName(r.value) == name
  {
    if name == "StringEquals" then Some(StringEquals)
    else if name == "StringNotEquals" then Some(StringNotEquals)
    else if name == "StringEqualsIgnoreCase" then Some(StringEqualsIgnoreCase)
    else if name == "StringNotEqualsIgnoreCase" then Some(StringNotEqualsIgnoreCase)
    else if name == "StringLike" then Some(StringLike)
    else if name == "StringNotLike" then Some(StringNotLike)
    else if name == "NumericEquals" then Some(NumericEquals)
    else if name == "NumericNotEquals" then Some(NumericNotEquals)
    else if name == "NumericLessThan" then Some(NumericLessThan)
    else if name == "NumericLessThanEquals" then Some(NumericLessThanEquals)
    else if name == "NumericGreaterThan" then Some(NumericGreaterThan)
    else if name == "NumericGreaterThanEquals" then Some(NumericGreaterThanEquals)
    else if name == "Bool" then Some(Bool)
    else if name == "Null" then Some(Null)
    else None
  }

  function TypeName(t: ConditionType): string {
    OperatorName(t.op) + if t.ifExists then IfExistsSuffix else ""
  }

  predicate HasIfExistsSuffix(name: string) {
    |name| >= |IfExistsSuffix| && name[|name| - |IfExistsSuffix|..] == IfExistsSuffix
  }

  /**
   * Decodes a condition type name: a trailing `IfExists` is stripped and sets
   * the flag, and the rest must name a recognised operator.
   */
  function ParseConditionType(name: string): (r: Option<ConditionType>)
    ensures r.Some? ==> TypeName(r.value) == name
  {
    if HasIfExistsSuffix(name) then
      var base := name[..|name| - |IfExistsSuffix|];
      assert name == base + IfExistsSuffix;
      match ParseOperator(base)
      case Some(op) => Some(ConditionType(op, true))
      case None => None
    else
      match ParseOperator(name)
      case Some(op) => Some(ConditionType(op, false))
      case None => None
  }

  /** A name whose eighth-from-last character is not 'I' does not end in `IfExists`. */
  lemma NotIfExistsAt(name: string)
    requires |name| >= |IfExistsSuffix| ==> name[|name| - |IfExistsSuffix|] != 'I'
    ensures !HasIfExistsSuffix(name)
  {
    if |name| >= |IfExistsSuffix| {
      assert name[|name| - |IfExistsSuffix|] == name[|name| - |IfExistsSuffix|..][0];
    }
  }

  lemma NoOperatorNameEndsWithIfExists(op: Operator)
    ensures !HasIfExistsSuffix(OperatorName(op))
  {
    match op
    case StringEquals | StringNotEquals | StringEqualsIgnoreCase | StringNotEqualsIgnoreCase
       | StringLike | StringNotLike =>
      StringNamesEndWithoutIfExists(op);
    case NumericEquals | NumericNotEquals | NumericLessThan | NumericLessThanEquals
       | NumericGreaterThan | NumericGreaterThanEquals =>
      NumericNamesEndWithoutIfExists(op);
    case Bool =>
    case Null =>
  }

  /** No string operator name ends in `IfExists`. */
  lemma StringNamesEndWithoutIfExists(op: Operator)
    requires op == StringEquals || op == StringNotEquals || op == StringEqualsIgnoreCase || op == StringNotEqualsIgnoreCase || op == StringLike || op == StringNotLike
    ensures !HasIfExistsSuffix(OperatorName(op))
  {
    match op
    case StringEquals =>
      assert "StringEquals"[4] == 'n';
      NotIfExistsAt("StringEquals");
    case StringNotEquals =>
      assert "StringNotEquals"[7] == 'o';
      NotIfExistsAt("StringNotEquals");
    case StringEqualsIgnoreCase =>
      assert "StringEqualsIgnoreCase"[14] == 'n';
      NotIfExistsAt("StringEqualsIgnoreCase");
    case StringNotEqualsIgnoreCase =>
      assert "StringNotEqualsIgnoreCase"[17] == 'n';
      NotIfExistsAt("StringNotEqualsIgnoreCase");
    case StringLike =>
      assert "StringLike"[2] == 'r';
      NotIfExistsAt("StringLike");
    case StringNotLike =>
      assert "StringNotLike"[5] == 'g';
      NotIfExistsAt("StringNotLike");
  }

  /** No numeric operator name ends in `IfExists`. */
  lemma NumericNamesEndWithoutIfExists(op: Operator)
    requires op == NumericEquals || op == NumericNotEquals || op == NumericLessThan || op == NumericLessThanEquals || op == NumericGreaterThan || op == NumericGreaterThanEquals
    ensures !HasIfExistsSuffix(OperatorName(op))
  {
    match op
    case NumericEquals =>
      assert "NumericEquals"[5] == 'i';
      NotIfExistsAt("NumericEquals");
    case NumericNotEquals =>
      assert "NumericNotEquals"[8] == 'o';
      NotIfExistsAt("NumericNotEquals");
    case NumericLessThan =>
      assert "NumericLessThan"[7] == 'L';
      NotIfExistsAt("NumericLessThan");
    case NumericLessThanEquals =>
      assert "NumericLessThanEquals"[13] == 'a';
      NotIfExistsAt("NumericLessThanEquals");
    case NumericGreaterThan =>
      assert "NumericGreaterThan"[10] == 'a';
      NotIfExistsAt("NumericGreaterThan");
    case NumericGreaterThanEquals =>
      assert "NumericGreaterThanEquals"[16] == 'a';
      NotIfExistsAt("NumericGreaterThanEquals");
  }

  lemma ParseOperatorName(op: Operator)
    ensures ParseOperator(OperatorName(op)) == Some(op)
  {
  }

  /** Every condition type has exactly one spelling, and it decodes back. */
  lemma ParseTypeNameRoundTrip(t: ConditionType)
    ensures ParseConditionType(TypeName(t)) == Some(t)
  {
    var name := TypeName(t);
    ParseOperatorName(t.op);
    if t.ifExists {
      assert HasIfExistsSuffix(name);
      assert name[..|name| - |IfExistsSuffix|] == OperatorName(t.op);
    } else {
      NoOperatorNameEndsWithIfExists(t.op);
      assert name == OperatorName(t.op);
    }
  }

  // ---------------------------------------------------------------------------
  // Value matchers
  // ---------------------------------------------------------------------------

  /** Some value in the list satisfies `p`. */
  function Any(values: seq<string>, p: string -> bool): (r: bool)
    ensures r <==> exists i :: 0 <= i < |values| && p(values[i])
  {
    if |values| == 0 then false
    else if p(values[0]) then true
    else
      var r := Any(values[1..], p);
      assert forall i :: 1 <= i < |values| ==> values[i] == values[1..][i - 1];
      r
  }

  function LowerAscii(c: char): char {
    if 'A' <= c <= 'Z' then (c as int + ('a' as int - 'A' as int)) as char else c
  }

  /** ASCII case folding, one character at a time. */
  function FoldCase(s: string): (r: string)
    ensures |r| == |s|
    ensures forall i :: 0 <= i < |s| ==> r[i] == LowerAscii(s[i])
  {
    if |s| == 0 then [] else [LowerAscii(s[0])] + FoldCase(s[1..])
  }

  predicate EqualsIgnoreCase(a: string, b: string) {
    FoldCase(a) == FoldCase(b)
  }

  /** Two strings are equal ignoring case iff they agree position by position after folding. */
  lemma EqualsIgnoreCaseAt(a: string, b: string)
    ensures EqualsIgnoreCase(a, b) <==>
              |a| == |b| && forall i :: 0 <= i < |a| ==> LowerAscii(a[i]) == LowerAscii(b[i])
  {
    if |a| == |b| && forall i :: 0 <= i < |a| ==> LowerAscii(a[i]) == LowerAscii(b[i]) {
      assert forall i :: 0 <= i < |a| ==> FoldCase(a)[i] == FoldCase(b)[i];
    }
  }

  /**
   * Glob matching anchored to the whole of `s`: '?' stands for exactly one
   * character, '*' for any run of characters, every other character for itself.
   */
  function Like(pattern: string, s: string): (r: bool)
    ensures r ==> NonStarCount(pattern) <= |s|
    decreases |pattern| + |s|
  {
    if |pattern| == 0 then |s| == 0
    else if pattern[0] == '*' then Like(pattern[1..], s) || (|s| > 0 && Like(pattern, s[1..]))
    else |s| > 0 && (pattern[0] == '?' || pattern[0] == s[0]) && Like(pattern[1..], s[1..])
  }

  /** The characters of a pattern that each consume exactly one character of the string. */
  function NonStarCount(pattern: string): nat {
    if |pattern| == 0 then 0
    else (if pattern[0] == '*' then 0 else 1) + NonStarCount(pattern[1..])
  }

  predicate HasWildcard(pattern: string) {
    exists i :: 0 <= i < |pattern| && (pattern[i] == '*' || pattern[i] == '?')
  }

  predicate IsBoolToken(s: string) {
    s == "true" || s == "false"
  }

  /**
   * The clause for a base operator, once the key is known not to be bypassed:
   * an empty list never matches, and only Null can match without a value.
   */
  function BaseMatch(op: Operator, values: seq<string>, a: Attribute): (r: bool)
    ensures r ==> |values| > 0
    ensures r && op != Null ==> a.Value?
    ensures op == Null && |values| > 0 ==>
              (r <==> ("true" in values && a == Absent) || ("false" in values && a.Value?))
  {
    if |values| == 0 then false
    else if op == Null then
      Any(values, v => (v == "true" && a == Absent) || (v == "false" && a.Value?))
    else a.Value? && ValueMatch(op, values, a.text)
  }

  /** The comparison of a present, non-null request value `s` with the values. */
  function ValueMatch(op: Operator, values: seq<string>, s: string): (r: bool)
    requires op != Null
    ensures op == StringEquals ==> (r <==> s in values)
    ensures op == StringNotEquals ==> (r <==> s !in values)
    ensures op == StringEqualsIgnoreCase ==>
              (r <==> exists i :: 0 <= i < |values| && EqualsIgnoreCase(values[i], s))
    ensures op == StringNotEqualsIgnoreCase ==>
              (r <==> forall i :: 0 <= i < |values| ==> !EqualsIgnoreCase(values[i], s))
    ensures op == StringLike ==> (r <==> exists i :: 0 <= i < |values| && Like(values[i], s))
    ensures op == StringNotLike ==> (r <==> forall i :: 0 <= i < |values| ==> !Like(values[i], s))
    ensures op == Bool ==> (r <==> IsBoolToken(s) && s in values)
    ensures op in {NumericEquals, NumericLessThan, NumericLessThanEquals, NumericGreaterThan, NumericGreaterThanEquals} ==>
              (r <==> ParseInt(s).Some? &&
                      exists i :: 0 <= i < |values| && ParseInt(values[i]).Some? &&
                                  NumericRelation(op, ParseInt(s).value, ParseInt(values[i]).value))
    ensures op == NumericNotEquals ==>
              (r <==> ParseInt(s).Some? &&
                      forall i :: 0 <= i < |values| ==>
                                  ParseInt(values[i]).Some? && ParseInt(values[i]).value != ParseInt(s).value)
  {
    match op
    case StringEquals => Any(values, v => v == s)
    case StringNotEquals => !Any(values, v => v == s)
    case StringEqualsIgnoreCase => Any(values, v => EqualsIgnoreCase(v, s))
    case StringNotEqualsIgnoreCase => !Any(values, v => EqualsIgnoreCase(v, s))
    case StringLike => Any(values, v => Like(v, s))
    case StringNotLike => !Any(values, v => Like(v, s))
    case NumericEquals => NumericMatch(values, s, (x, y) => x == y)
    case NumericNotEquals =>
      ParseInt(s).Some? && !Any(values, v => ParseInt(v).None? || ParseInt(v) == ParseInt(s))
    case NumericLessThan => NumericMatch(values, s, (x, y) => x < y)
    case NumericLessThanEquals => NumericMatch(values, s, (x, y) => x <= y)
    case NumericGreaterThan => NumericMatch(values, s, (x, y) => x > y)
    case NumericGreaterThanEquals => NumericMatch(values, s, (x, y) => x >= y)
    case Bool => IsBoolToken(s) && Any(values, v => v == s)
  }

  /** The request number stands in `rel` to at least one listed number. */
  function NumericMatch(values: seq<string>, s: string, rel: (int, int) -> bool): bool {
    ParseInt(s).Some? &&
    Any(values, v => ParseInt(v).Some? && rel(ParseInt(s).value, ParseInt(v).value))
  }

  // ---------------------------------------------------------------------------
  // Clauses and blocks
  // ---------------------------------------------------------------------------

  /**
   * One clause. With `IfExists`, a key the request does not carry at all
   * satisfies the clause; a key present with null still goes to the base
   * operator. `NullIfExists` never holds.
   */
  function MatchClause(t: ConditionType, key: string, values: seq<string>, body: RequestBody): (r: bool)
    ensures t.ifExists && t.op != Null && key !in body ==> r
    ensures t.ifExists && t.op == Null ==> !r
    ensures |values| == 0 && !(t.ifExists && key !in body) ==> !r
  {
    var a := Lookup(body, key);
    if t.ifExists then
      if t.op == Null then false
      else if a == Absent then true
      else BaseMatch(t.op, values, a)
    else BaseMatch(t.op, values, a)
  }

  /** One raw clause; an operator name that is not recognised never matches. */
  function MatchCondition(c: Condition, body: RequestBody): (r: bool)
    ensures ParseConditionType(c.conditionType).None? ==> !r
  {
    match ParseConditionType(c.conditionType)
    case None => false
    case Some(t) => MatchClause(t, c.conditionKey, c.values, body)
  }

  /** A condition block holds iff each of its clauses holds. */
  function IsConditionMatching(conditions: seq<Condition>, body: RequestBody): (r: bool)
    ensures r <==> forall i :: 0 <= i < |conditions| ==> MatchCondition(conditions[i], body)
  {
    if |conditions| == 0 then true
    else if !MatchCondition(conditions[0], body) then false
    else
      var r := IsConditionMatching(conditions[1..], body);
      assert forall i :: 1 <= i < |conditions| ==> conditions[i] == conditions[1..][i - 1];
      r
  }

  // ---------------------------------------------------------------------------
  // Glob matching
  // ---------------------------------------------------------------------------

  lemma DropFirstHasNoWildcard(pattern: string)
    requires |pattern| > 0 && !HasWildcard(pattern)
    ensures pattern[0] != '*' && pattern[0] != '?'
    ensures !HasWildcard(pattern[1..])
  {
    assert pattern[0] == pattern[..1][0];
  }

  /** A pattern without wildcards matches exactly itself. */
  lemma {:induction false} LikeLiteral(pattern: string, s: string)
    requires !HasWildcard(pattern)
    ensures Like(pattern, s) <==> pattern == s
    decreases |pattern| + |s|
  {
    if |pattern| > 0 {
      DropFirstHasNoWildcard(pattern);
      if |s| > 0 {
        LikeLiteral(pattern[1..], s[1..]);
        if pattern[0] == s[0] && pattern[1..] == s[1..] {
          assert pattern == [pattern[0]] + pattern[1..];
          assert s == [s[0]] + s[1..];
        }
      }
    }
  }

  /** The pattern "*" matches every string. */
  lemma {:induction false} LikeStarMatchesAll(s: string)
    ensures Like("*", s)
    decreases |s|
  {
    if |s| > 0 {
      LikeStarMatchesAll(s[1..]);
    }
  }

  /** A pattern with no '*' only matches strings exactly as long as itself. */
  lemma {:induction false} LikeWithoutStarHasPatternLength(pattern: string, s: string)
    requires forall i :: 0 <= i < |pattern| ==> pattern[i] != '*'
    requires Like(pattern, s)
    ensures |s| == |pattern|
    decreases |pattern| + |s|
  {
    if |pattern| > 0 {
      assert pattern[0] != '*';
      LikeWithoutStarHasPatternLength(pattern[1..], s[1..]);
    }
  }

  /**
   * Matching is anchored at the end: when a pattern ends in an ordinary
   * character, every string it matches ends in that same character.
   */
  lemma {:induction false} LikeEndsWithLiteral(pattern: string, s: string)
    requires |pattern| > 0 && pattern[|pattern| - 1] != '*' && pattern[|pattern| - 1] != '?'
    requires Like(pattern, s)
    ensures |s| > 0 && s[|s| - 1] == pattern[|pattern| - 1]
    decreases |pattern| + |s|
  {
    if pattern[0] == '*' {
      if Like(pattern[1..], s) {
        LikeEndsWithLiteral(pattern[1..], s);
      } else {
        LikeEndsWithLiteral(pattern, s[1..]);
      }
    } else if |pattern| > 1 {
      LikeEndsWithLiteral(pattern[1..], s[1..]);
    }
  }

  /** Appending '*' to a pattern lets it also match every extension of what it matched. */
  lemma {:induction false} LikeStarSuffix(pattern: string, t: string, u: string)
    requires Like(pattern, t)
    ensures Like(pattern + "*", t + u)
    decreases |pattern| + |t|
  {
    var p' := pattern + "*";
    if |pattern| == 0 {
      assert t == [] && p' == "*" && t + u == u;
      LikeStarMatchesAll(u);
    } else if pattern[0] == '*' {
      assert p'[0] == '*' && p'[1..] == pattern[1..] + "*";
      if Like(pattern[1..], t) {
        LikeStarSuffix(pattern[1..], t, u);
      } else {
        LikeStarSuffix(pattern, t[1..], u);
        assert (t + u)[1..] == t[1..] + u;
      }
    } else {
      LikeStarSuffix(pattern[1..], t[1..], u);
      assert p'[0] == pattern[0] && p'[1..] == pattern[1..] + "*";
      assert (t + u)[0] == t[0] && (t + u)[1..] == t[1..] + u;
    }
  }

  // ---------------------------------------------------------------------------
  // Properties of clauses and blocks
  // ---------------------------------------------------------------------------

  /** Whether a list holds an element satisfying `p` depends only on which elements it holds. */
  lemma AnyIgnoresOrder(v1: seq<string>, v2: seq<string>, p: string -> bool)
    requires forall x :: x in v1 <==> x in v2
    ensures Any(v1, p) == Any(v2, p)
  {
    if Any(v1, p) {
      var i :| 0 <= i < |v1| && p(v1[i]);
      assert v1[i] in v2;
    }
    if Any(v2, p) {
      var i :| 0 <= i < |v2| && p(v2[i]);
      assert v2[i] in v1;
    }
  }

  /** The order of a clause's values does not change its outcome. */
  lemma ValueOrderIrrelevant(t: ConditionType, key: string, v1: seq<string>, v2: seq<string>, body: RequestBody)
    requires multiset(v1) == multiset(v2)
    ensures MatchClause(t, key, v1, body) == MatchClause(t, key, v2, body)
  {
    assert |v1| == |multiset(v1)| == |multiset(v2)| == |v2|;
    forall x ensures x in v1 <==> x in v2 {
      assert x in v1 <==> x in multiset(v1);
      assert x in v2 <==> x in multiset(v2);
    }
    BaseMatchIgnoresOrder(t.op, v1, v2, Lookup(body, key));
  }

  lemma BaseMatchIgnoresOrder(op: Operator, v1: seq<string>, v2: seq<string>, a: Attribute)
    requires |v1| == |v2|
    requires forall x :: x in v1 <==> x in v2
    ensures BaseMatch(op, v1, a) == BaseMatch(op, v2, a)
  {
    if |v1| > 0 && (op == Null || a.Value?) {
      var s := if a.Value? then a.text else "";
      var n := ParseInt(s);
      match op
      case Null => AnyIgnoresOrder(v1, v2, v => (v == "true" && a == Absent) || (v == "false" && a.Value?));
      case StringEquals => AnyIgnoresOrder(v1, v2, v => v == s);
      case StringNotEquals => AnyIgnoresOrder(v1, v2, v => v == s);
      case StringEqualsIgnoreCase => AnyIgnoresOrder(v1, v2, v => EqualsIgnoreCase(v, s));
      case StringNotEqualsIgnoreCase => AnyIgnoresOrder(v1, v2, v => EqualsIgnoreCase(v, s));
      case StringLike => AnyIgnoresOrder(v1, v2, v => Like(v, s));
      case StringNotLike => AnyIgnoresOrder(v1, v2, v => Like(v, s));
      case NumericEquals =>
        if n.Some? {
          AnyIgnoresOrder(v1, v2, v => ParseInt(v).Some? && ParseInt(s).value == ParseInt(v).value);
        }
      case NumericNotEquals => AnyIgnoresOrder(v1, v2, v => ParseInt(v).None? || ParseInt(v) == n);
      case NumericLessThan =>
        if n.Some? {
          AnyIgnoresOrder(v1, v2, v => ParseInt(v).Some? && ParseInt(s).value < ParseInt(v).value);
        }
      case NumericLessThanEquals =>
        if n.Some? {
          AnyIgnoresOrder(v1, v2, v => ParseInt(v).Some? && ParseInt(s).value <= ParseInt(v).value);
        }
      case NumericGreaterThan =>
        if n.Some? {
          AnyIgnoresOrder(v1, v2, v => ParseInt(v).Some? && ParseInt(s).value > ParseInt(v).value);
        }
      case NumericGreaterThanEquals =>
        if n.Some? {
          AnyIgnoresOrder(v1, v2, v => ParseInt(v).Some? && ParseInt(s).value >= ParseInt(v).value);
        }
      case Bool => AnyIgnoresOrder(v1, v2, v => v == s);
    }
  }

  /** A key that is present (with a value or null) is judged by the base operator, with or without `IfExists`. */
  lemma IfExistsPresentKeyUsesBaseOperator(op: Operator, key: string, values: seq<string>, body: RequestBody)
    requires op != Null && key in body
    ensures MatchClause(ConditionType(op, true), key, values, body) == MatchClause(ConditionType(op, false), key, values, body)
  {
  }

  /**
   * A string, numeric or boolean clause over a key that has no
   * value (absent without `IfExists`, or present with null) never holds,
   * whether the operator is positive or negated.
   */
  lemma MissingValueNeverMatches(t: ConditionType, key: string, values: seq<string>, body: RequestBody)
    requires t.op != Null
    requires (key !in body && !t.ifExists) || (key in body && body[key].None?)
    ensures !MatchClause(t, key, values, body)
  {
  }

  /**
   * For a present, non-null value and a non-empty list, each negated string
   * operator is the exact complement of its positive one: it holds iff no
   * listed value matches.
   */
  lemma NegatedStringOperatorIsComplement(positive: Operator, negated: Operator, ifExists: bool,
                                          key: string, values: seq<string>, body: RequestBody)
    requires (positive, negated) in {(StringEquals, StringNotEquals),
                                     (StringEqualsIgnoreCase, StringNotEqualsIgnoreCase),
                                     (StringLike, StringNotLike)}
    requires key in body && body[key].Some? && |values| > 0
    ensures MatchClause(ConditionType(negated, ifExists), key, values, body)
            == !MatchClause(ConditionType(positive, ifExists), key, values, body)
  {
  }

  /** NumericNotEquals is the complement of NumericEquals when every number parses. */
  lemma NumericNotEqualsIsComplement(ifExists: bool, key: string, values: seq<string>, body: RequestBody)
    requires key in body && body[key].Some? && ParseInt(body[key].value).Some? && |values| > 0
    requires forall i :: 0 <= i < |values| ==> ParseInt(values[i]).Some?
    ensures MatchClause(ConditionType(NumericNotEquals, ifExists), key, values, body)
            == !MatchClause(ConditionType(NumericEquals, ifExists), key, values, body)
  {
    var s := body[key].value;
    var n := ParseInt(s);
    var eq := (v: string) => ParseInt(v).Some? && ParseInt(s).value == ParseInt(v).value;
    var neq := (v: string) => ParseInt(v).None? || ParseInt(v) == n;
    forall i | 0 <= i < |values| ensures eq(values[i]) == neq(values[i]) {
    }
    AnyAgree(values, eq, neq);
  }

  lemma AnyAgree(values: seq<string>, p: string -> bool, q: string -> bool)
    requires forall i :: 0 <= i < |values| ==> p(values[i]) == q(values[i])
    ensures Any(values, p) == Any(values, q)
  {
  }

  /** A StringEquals match is also a StringEqualsIgnoreCase match. */
  lemma EqualsImpliesEqualsIgnoreCase(ifExists: bool, key: string, values: seq<string>, body: RequestBody)
    requires MatchClause(ConditionType(StringEquals, ifExists), key, values, body)
    ensures MatchClause(ConditionType(StringEqualsIgnoreCase, ifExists), key, values, body)
  {
    var a := Lookup(body, key);
    if a.Value? && |values| > 0 {
      var i :| 0 <= i < |values| && values[i] == a.text;
      assert EqualsIgnoreCase(values[i], a.text);
    }
  }

  /** With no wildcard in any value, StringLike behaves as StringEquals. */
  lemma LikeWithoutWildcardsIsEquals(ifExists: bool, key: string, values: seq<string>, body: RequestBody)
    requires forall i :: 0 <= i < |values| ==> !HasWildcard(values[i])
    ensures MatchClause(ConditionType(StringLike, ifExists), key, values, body)
            == MatchClause(ConditionType(StringEquals, ifExists), key, values, body)
  {
    var a := Lookup(body, key);
    if a.Value? {
      forall i | 0 <= i < |values| ensures Like(values[i], a.text) == (values[i] == a.text) {
        LikeLiteral(values[i], a.text);
      }
      AnyAgree(values, v => Like(v, a.text), v => v == a.text);
    }
  }

  /**
   * StringEquals holds iff the request carries the key with a value listed
   * exactly (or the key is absent under IfExists); StringNotEquals holds iff
   * the carried value is listed nowhere in a non-empty list.
   */
  lemma StringEqualsMeaning(ifExists: bool, key: string, values: seq<string>, body: RequestBody)
    ensures MatchClause(ConditionType(StringEquals, ifExists), key, values, body)
            <==> (ifExists && key !in body) || (key in body && body[key].Some? && body[key].value in values)
    ensures MatchClause(ConditionType(StringNotEquals, ifExists), key, values, body)
            <==> (ifExists && key !in body)
                 || (key in body && body[key].Some? && |values| > 0 && body[key].value !in values)
  {
  }

  /** The same for the case-insensitive pair: some listed value equals the carried one ignoring case, or none does. */
  lemma StringEqualsIgnoreCaseMeaning(ifExists: bool, key: string, values: seq<string>, body: RequestBody)
    ensures MatchClause(ConditionType(StringEqualsIgnoreCase, ifExists), key, values, body)
            <==> (ifExists && key !in body)
                 || (key in body && body[key].Some?
                     && exists i :: 0 <= i < |values| && EqualsIgnoreCase(values[i], body[key].value))
    ensures MatchClause(ConditionType(StringNotEqualsIgnoreCase, ifExists), key, values, body)
            <==> (ifExists && key !in body)
                 || (key in body && body[key].Some? && |values| > 0
                     && forall i :: 0 <= i < |values| ==> !EqualsIgnoreCase(values[i], body[key].value))
  {
  }

  /** The same for the glob pair: some listed pattern matches the carried value, or none does. */
  lemma StringLikeMeaning(ifExists: bool, key: string, values: seq<string>, body: RequestBody)
    ensures MatchClause(ConditionType(StringLike, ifExists), key, values, body)
            <==> (ifExists && key !in body)
                 || (key in body && body[key].Some?
                     && exists i :: 0 <= i < |values| && Like(values[i], body[key].value))
    ensures MatchClause(ConditionType(StringNotLike, ifExists), key, values, body)
            <==> (ifExists && key !in body)
                 || (key in body && body[key].Some? && |values| > 0
                     && forall i :: 0 <= i < |values| ==> !Like(values[i], body[key].value))
  {
  }

  /**
   * NumericEquals and the four orderings hold iff the carried value parses and
   * stands in the operator's relation to at least one listed value that parses
   * (or the key is absent under IfExists); listed values that do not parse are
   * skipped.
   */
  lemma NumericMeaning(op: Operator, ifExists: bool, key: string, values: seq<string>, body: RequestBody)
    requires op in {NumericEquals, NumericLessThan, NumericLessThanEquals, NumericGreaterThan, NumericGreaterThanEquals}
    ensures MatchClause(ConditionType(op, ifExists), key, values, body)
            <==> (ifExists && key !in body)
                 || (key in body && body[key].Some? && ParseInt(body[key].value).Some?
                     && exists i :: 0 <= i < |values| && ParseInt(values[i]).Some?
                                    && NumericRelation(op, ParseInt(body[key].value).value, ParseInt(values[i]).value))
  {
  }

  /**
   * NumericNotEquals holds iff the carried value parses, the list is non-empty
   * and every listed value parses to a different number (or the key is absent
   * under IfExists): a listed value that does not parse makes it false.
   */
  lemma NumericNotEqualsMeaning(ifExists: bool, key: string, values: seq<string>, body: RequestBody)
    ensures MatchClause(ConditionType(NumericNotEquals, ifExists), key, values, body)
            <==> (ifExists && key !in body)
                 || (key in body && body[key].Some? && ParseInt(body[key].value).Some? && |values| > 0
                     && forall i :: 0 <= i < |values| ==>
                                    ParseInt(values[i]).Some? && ParseInt(values[i]).value != ParseInt(body[key].value).value)
  {
  }

  /** The relation a numeric operator tests, on the two numbers. */
  function NumericRelation(op: Operator, x: int, y: int): bool
    requires op in {NumericEquals, NumericNotEquals, NumericLessThan, NumericLessThanEquals,
                    NumericGreaterThan, NumericGreaterThanEquals}
  {
    match op
    case NumericEquals => x == y
    case NumericNotEquals => x != y
    case NumericLessThan => x < y
    case NumericLessThanEquals => x <= y
    case NumericGreaterThan => x > y
    case NumericGreaterThanEquals => x >= y
  }

  /**
   * A numeric clause with one value compares the two numbers: equality and
   * inequality, strict less/greater, inclusive less/greater-or-equal.
   */
  lemma NumericSingleValue(op: Operator, ifExists: bool, key: string, body: RequestBody, x: int, y: int)
    requires op in {NumericEquals, NumericNotEquals, NumericLessThan, NumericLessThanEquals,
                    NumericGreaterThan, NumericGreaterThanEquals}
    requires key in body && body[key] == Some(FormatInt(x))
    ensures MatchClause(ConditionType(op, ifExists), key, [FormatInt(y)], body) == NumericRelation(op, x, y)
  {
    ParseFormatInt(x);
    ParseFormatInt(y);
    NumericSingleParsed(op, ifExists, key, body, FormatInt(x), FormatInt(y), x, y);
  }

  /** The same comparison, for any two spellings that parse to `x` and `y`. */
  lemma NumericSingleParsed(op: Operator, ifExists: bool, key: string, body: RequestBody,
                            sx: string, sy: string, x: int, y: int)
    requires op in {NumericEquals, NumericNotEquals, NumericLessThan, NumericLessThanEquals,
                    NumericGreaterThan, NumericGreaterThanEquals}
    requires key in body && body[key] == Some(sx)
    requires ParseInt(sx) == Some(x) && ParseInt(sy) == Some(y)
    ensures MatchClause(ConditionType(op, ifExists), key, [sy], body) == NumericRelation(op, x, y)
  {
    assert Lookup(body, key) == Value(sx);
    assert MatchClause(ConditionType(op, ifExists), key, [sy], body) == ValueMatch(op, [sy], sx);
    match op
    case NumericNotEquals =>
      assert Any([sy], v => ParseInt(v).None? || ParseInt(v) == ParseInt(sx)) == (y == x);
    case NumericEquals => NumericMatchSingle(sy, sx, (a, b) => a == b);
    case NumericLessThan => NumericMatchSingle(sy, sx, (a, b) => a < b);
    case NumericLessThanEquals => NumericMatchSingle(sy, sx, (a, b) => a <= b);
    case NumericGreaterThan => NumericMatchSingle(sy, sx, (a, b) => a > b);
    case NumericGreaterThanEquals => NumericMatchSingle(sy, sx, (a, b) => a >= b);
  }

  /** With one listed value, a numeric comparison compares the two parsed numbers. */
  lemma NumericMatchSingle(v: string, s: string, rel: (int, int) -> bool)
    ensures NumericMatch([v], s, rel)
            == (ParseInt(s).Some? && ParseInt(v).Some? && rel(ParseInt(s).value, ParseInt(v).value))
  {
    assert [v][0] == v;
  }

  /** Bool with one value holds iff the request carries exactly that boolean token. */
  lemma BoolSingleValue(ifExists: bool, key: string, v: string, body: RequestBody)
    requires key in body
    ensures MatchClause(ConditionType(Bool, ifExists), key, [v], body)
            <==> body[key] == Some(v) && IsBoolToken(v)
  {
  }

  /** Null ["true"] holds iff the key is absent. */
  lemma NullTrueIffAbsent(key: string, body: RequestBody)
    ensures MatchClause(ConditionType(Null, false), key, ["true"], body) <==> key !in body
  {
  }

  /** Null ["false"] holds iff the key is present with a non-null value. */
  lemma NullFalseIffValuePresent(key: string, body: RequestBody)
    ensures MatchClause(ConditionType(Null, false), key, ["false"], body)
            <==> key in body && body[key].Some?
  {
  }

  /** Joining two condition blocks gives the conjunction of their outcomes. */
  lemma ConditionBlockConcat(c1: seq<Condition>, c2: seq<Condition>, body: RequestBody)
    ensures IsConditionMatching(c1 + c2, body) == (IsConditionMatching(c1, body) && IsConditionMatching(c2, body))
  {
    var c := c1 + c2;
    assert forall i :: 0 <= i < |c1| ==> c[i] == c1[i];
    assert forall i :: 0 <= i < |c2| ==> c[|c1| + i] == c2[i];
    if IsConditionMatching(c1, body) && IsConditionMatching(c2, body) {
      forall i | 0 <= i < |c| ensures MatchCondition(c[i], body) {
        if i >= |c1| {
          assert c[i] == c2[i - |c1|];
        }
      }
    }
  }

  /** Reordering the clauses of a block does not change its outcome. */
  lemma ConditionOrderIrrelevant(c1: seq<Condition>, c2: seq<Condition>, body: RequestBody)
    requires multiset(c1) == multiset(c2)
    ensures IsConditionMatching(c1, body) == IsConditionMatching(c2, body)
  {
    forall c ensures c in c1 <==> c in c2 {
      assert c in c1 <==> c in multiset(c1);
      assert c in c2 <==> c in multiset(c2);
    }
    if IsConditionMatching(c1, body) {
      forall i | 0 <= i < |c2| ensures MatchCondition(c2[i], body) {
        assert c2[i] in c1;
      }
    }
    if IsConditionMatching(c2, body) {
      forall i | 0 <= i < |c1| ensures MatchCondition(c1[i], body) {
        assert c1[i] in c2;
      }
    }
  }
}
