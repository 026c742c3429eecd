/**
 * `QParser`: a query-builder query (a condition and a list of rules, each
 * either a simple `field operator value` rule or a nested group) becomes one
 * Django `Q` filter.  Simple rules become `field__lookup = value` filters,
 * negated for the negative operators; the filters of a list are folded
 * from the left with `&` or `|`.
 */
module QueryRules {
  import opened Wrappers
  import opened Text

  /** A rule's JSON value, carried into the filter untouched. */
  datatype Value = Str(s: string) | Num(n: int) | Flag(b: bool) | Null | Items(items: seq<Value>)

  /** A rule: a nested group (it has a `condition`) or a simple rule. */
  datatype Rule =
    | Group(condition: string, rules: seq<Rule>)
    | Simple(field: string, operator: string, value: Value)

  datatype Query = Query(condition: string, rules: seq<Rule>)

  /** A `Q` object: a keyword lookup, its negation `~`, or `&` / `|` of two. */
  datatype Q = Lookup(key: string, value: Value) | Not(q: Q) | And(left: Q, right: Q) | Or(left: Q, right: Q)

  /** `NotImplementedError`, the `KeyError` of an unknown condition, and `reduce` of an empty list. */
  datatype ParseError = NotImplemented(operator: string) | UnknownCondition(condition: string) | EmptyRules

  /** An entry of `OPERATORS`: the Django lookup and whether the filter is negated. */
  datatype Op = Op(text: string, negated: bool)

  const Operators: map<string, Op> := map[
    "equal" := Op("exact", false),
    "not_equal" := Op("exact", true),
    "less" := Op("lt", false),
    "greater" := Op("gt", false),
    "less_or_equal" := Op("lte", false),
    "greater_or_equal" := Op("gte", false),
    "in" := Op("in", false),
    "not_in" := Op("in", true),
    "ends_with" := Op("endswith", false),
    "begins_with" := Op("startswith", false),
    "contains" := Op("contains", false),
    "not_contains" := Op("contains", true),
    "is_null" := Op("isnull", false),
    "is_not_null" := Op("isnull", true),
    "not_ends_with" := Op("endswith", true),
    "not_begins_with" := Op("startswith", true)]

  const NegatedOperators: set<string> :=
    {"not_equal", "not_in", "not_contains", "is_not_null", "not_ends_with", "not_begins_with"}

  /** The two keys of `CONDITION_LAMBDAS`. */
  predicate IsCondition(c: string)
  {
    c == "AND" || c == "OR"
  }

  function Apply(condition: string, a: Q, b: Q): Q
  {
    if condition == "AND" then And(a, b) else Or(a, b)
  }

  /** `reduce` with no initial value: the first item, then each next one combined from the left. */
  function Fold(condition: string, qs: seq<Q>): Q
    requires |qs| > 0
  {
    if |qs| == 1 then qs[0] else Apply(condition, Fold(condition, qs[..|qs| - 1]), qs[|qs| - 1])
  }

  /** `reduce(CONDITION_LAMBDAS[condition], qs)`: the lookup fails first, then an empty list. */
  function Combine(condition: string, qs: seq<Q>): Result<Q, ParseError>
  {
    if !IsCondition(condition) then Err(UnknownCondition(condition))
    else if qs == [] then Err(EmptyRules)
    else Ok(Fold(condition, qs))
  }

  /** The filter of a simple rule. */
  function SimpleQ(field: string, operator: string, value: Value): Result<Q, ParseError>
  {
    if operator !in Operators then Err(NotImplemented(operator))
    else
      var op := Operators[operator];
      var q := Lookup(field + "__" + op.text, value);
      Ok(if op.negated then Not(q) else q)
  }

  /** The filter of one rule; a group's own condition is looked up as written. */
  function RuleQ(rule: Rule): Result<Q, ParseError>
    decreases rule, 1
  {
    match rule
    case Simple(field, operator, value) => SimpleQ(field, operator, value)
    case Group(condition, rules) =>
      match RulesQ(rules)
      case Err(e) => Err(e)
      case Ok(qs) => Combine(condition, qs)
  }

  /** `parse_rules`: the rules' filters in order, or the first rule's error. */
  function RulesQ(rules: seq<Rule>): Result<seq<Q>, ParseError>
    decreases rules, 0
  {
    if rules == [] then Ok([])
    else
      match RulesQ(rules[..|rules| - 1])
      case Err(e) => Err(e)
      case Ok(qs) =>
        match RuleQ(rules[|rules| - 1])
        case Err(e) => Err(e)
        case Ok(q) => Ok(qs + [q])
  }

  /** `parse_query`: the rules first, then the upper-cased condition. */
  function ParseQuery(query: Query): Result<Q, ParseError>
  {
    match RulesQ(query.rules)
    case Err(e) => Err(e)
    case Ok(qs) => Combine(Upper(query.condition), qs)
  }

  /** The loop of `parse_rules`, recursing into groups. */
  method ParseRules(rules: seq<Rule>) returns (r: Result<seq<Q>, ParseError>)
    ensures r == RulesQ(rules)
    decreases rules
  {
    var qs: seq<Q> := [];
    var i := 0;
    while i < |rules|
      invariant 0 <= i <= |rules|
      invariant RulesQ(rules[..i]) == Ok(qs)
    {
      assert rules[..i + 1][..i] == rules[..i];
      var rule := rules[i];
      var q: Q;
      match rule {
        case Group(condition, sub) =>
          var subQs := ParseRules(sub);
          if subQs.Err? {
            RulesFailFrom(rules, i + 1);
            return Err(subQs.error);
          }
          if !IsCondition(condition) {
            RulesFailFrom(rules, i + 1);
            return Err(UnknownCondition(condition));
          }
          if subQs.value == [] {
            RulesFailFrom(rules, i + 1);
            return Err(EmptyRules);
          }
          q := Fold(condition, subQs.value);
        case Simple(field, operator, value) =>
          if operator !in Operators {
            RulesFailFrom(rules, i + 1);
            return Err(NotImplemented(operator));
          }
          var op := Operators[operator];
          q := Lookup(field + "__" + op.text, value);
          if op.negated {
            q := Not(q);
          }
      }
      qs := qs + [q];
      i := i + 1;
    }
    assert rules[..i] == rules;
    r := Ok(qs);
  }

  /** Once a prefix fails, the whole list fails with the same error. */
  lemma {:induction false} RulesFailFrom(rules: seq<Rule>, k: nat)
    requires 0 < k <= |rules| && RulesQ(rules[..k]).Err?
    ensures RulesQ(rules) == RulesQ(rules[..k])
    decreases |rules| - k
  {
    if k == |rules| {
      assert rules[..k] == rules;
    } else {
      assert rules[..k + 1][..k] == rules[..k];
      RulesFailFrom(rules, k + 1);
    }
  }

  // ---------------------------------------------------------------------------
  // Properties

  /**
   * `parse_rules` succeeds exactly when every rule does, and then gives one
   * filter per rule, in order.
   */
  lemma {:induction false} OnePerRule(rules: seq<Rule>)
    ensures RulesQ(rules).Ok? <==> forall k | 0 <= k < |rules| :: RuleQ(rules[k]).Ok?
    ensures RulesQ(rules).Ok? ==>
      |RulesQ(rules).value| == |rules| && forall k | 0 <= k < |rules| :: RulesQ(rules).value[k] == RuleQ(rules[k]).value
    decreases |rules|
  {
    if rules != [] {
      var init := rules[..|rules| - 1];
      OnePerRule(init);
      assert forall k | 0 <= k < |init| :: init[k] == rules[k];
    }
  }

  /** A simple rule with a known operator filters `field__lookup = value`, negated exactly for the negative operators. */
  lemma SimpleRuleFilter(field: string, operator: string, value: Value)
    requires operator in Operators
    ensures var q := Lookup(field + "__" + Operators[operator].text, value);
      SimpleQ(field, operator, value) == Ok(if operator in NegatedOperators then Not(q) else q)
  {
  }

  /** An operator outside `OPERATORS` is not implemented, whatever the field and value. */
  lemma UnknownOperator(field: string, operator: string, value: Value)
    requires operator !in Operators
    ensures SimpleQ(field, operator, value) == Err(NotImplemented(operator))
    ensures RulesQ([Simple(field, operator, value)]) == Err(NotImplemented(operator))
  {
    assert [Simple(field, operator, value)][..0] == [];
  }

  /** A list of no rules has no filter to fold. */
  lemma EmptyQueryFails(condition: string)
    requires IsCondition(Upper(condition))
    ensures ParseQuery(Query(condition, [])) == Err(EmptyRules)
  {
  }

  /** The top-level condition may be lower case; a group's may not. */
  lemma NestedConditionCase(field: string, value: Value)
    ensures var r := Simple(field, "equal", value);
      ParseQuery(Query("and", [r])) == Ok(Lookup(field + "__exact", value)) &&
      RuleQ(Group("and", [r])) == Err(UnknownCondition("and")) &&
      ParseQuery(Query("AND", [Group("and", [r])])) == Err(UnknownCondition("and"))
  {
    var r := Simple(field, "equal", value);
    RuleFilter(field, "equal", value);
    assert field + "__" + "exact" == field + "__exact";
    OneRule(r, Lookup(field + "__exact", value));
    assert Upper("and") == "AND";
    assert [Group("and", [r])][..0] == [];
  }

  /** The query of the parser's test: two rules and an OR group, AND-ed from the left. */
  lemma TestQuery()
    ensures ParseQuery(Query("AND", [
      Simple("my_field", "equal", Str("blabla")),
      Simple("my_second_field", "not_equal", Num(4)),
      Group("OR", [Simple("my_third_field", "equal", Str("as")), Simple("my_fourth_field", "equal", Num(1))])]))
      == Ok(And(
        And(Lookup("my_field__exact", Str("blabla")), Not(Lookup("my_second_field__exact", Num(4)))),
        Or(Lookup("my_third_field__exact", Str("as")), Lookup("my_fourth_field__exact", Num(1)))))
  {
    var q1 := Lookup("my_field__exact", Str("blabla"));
    var q2 := Not(Lookup("my_second_field__exact", Num(4)));
    var q3 := Lookup("my_third_field__exact", Str("as"));
    var q4 := Lookup("my_fourth_field__exact", Num(1));
    RuleFilter("my_field", "equal", Str("blabla"));
    RuleFilter("my_second_field", "not_equal", Num(4));
    RuleFilter("my_third_field", "equal", Str("as"));
    RuleFilter("my_fourth_field", "equal", Num(1));
    assert "my_field" + "__" + "exact" == "my_field__exact";
    assert "my_second_field" + "__" + "exact" == "my_second_field__exact";
    assert "my_third_field" + "__" + "exact" == "my_third_field__exact";
    assert "my_fourth_field" + "__" + "exact" == "my_fourth_field__exact";
    var inner := [Simple("my_third_field", "equal", Str("as")), Simple("my_fourth_field", "equal", Num(1))];
    var outer := [
      Simple("my_field", "equal", Str("blabla")),
      Simple("my_second_field", "not_equal", Num(4)),
      Group("OR", inner)];
    TwoRules(inner, q3, q4);
    assert RuleQ(Group("OR", inner)) == Ok(Or(q3, q4));
    TwoRules(outer[..2], q1, q2);
    assert outer[..2] == outer[..|outer| - 1];
    assert [q1, q2] + [Or(q3, q4)] == [q1, q2, Or(q3, q4)];
    assert RulesQ(outer) == Ok([q1, q2, Or(q3, q4)]);
    assert Upper("AND") == "AND";
    assert [q1, q2, Or(q3, q4)][..2] == [q1, q2] && [q1, q2][..1] == [q1];
    assert Fold("AND", [q1, q2]) == And(q1, q2);
    assert Fold("AND", [q1, q2, Or(q3, q4)]) == And(And(q1, q2), Or(q3, q4));
  }

  lemma RuleFilter(field: string, operator: string, value: Value)
    requires operator == "equal" || operator == "not_equal"
    ensures RuleQ(Simple(field, operator, value)) ==
      Ok(if operator == "equal" then Lookup(field + "__" + "exact", value) else Not(Lookup(field + "__" + "exact", value)))
  {
    assert Operators["equal"] == Op("exact", false) && Operators["not_equal"] == Op("exact", true);
  }

  lemma OneRule(r: Rule, q: Q)
    requires RuleQ(r) == Ok(q)
    ensures RulesQ([r]) == Ok([q])
  {
    assert [r][..0] == [];
    assert [] + [q] == [q];
  }

  lemma TwoRules(rules: seq<Rule>, a: Q, b: Q)
    requires |rules| == 2 && RuleQ(rules[0]) == Ok(a) && RuleQ(rules[1]) == Ok(b)
    ensures RulesQ(rules) == Ok([a, b])
  {
    OneRule(rules[0], a);
    assert rules[..1] == [rules[0]];
    assert [a] + [b] == [a, b];
  }

  // ---------------------------------------------------------------------------
  // What a filter means

  /** Whether a record that answers each lookup as `holds` does passes the filter. */
  predicate Matches(q: Q, holds: (string, Value) -> bool)
  {
    match q
    case Lookup(key, value) => holds(key, value)
    case Not(inner) => !Matches(inner, holds)
    case And(a, b) => Matches(a, holds) && Matches(b, holds)
    case Or(a, b) => Matches(a, holds) || Matches(b, holds)
  }

  /** An AND fold passes exactly when every filter does; an OR fold when one does. */
  lemma {:induction false} FoldMeaning(condition: string, qs: seq<Q>, holds: (string, Value) -> bool)
    requires IsCondition(condition) && |qs| > 0
    ensures condition == "AND" ==> (Matches(Fold(condition, qs), holds) <==> forall k | 0 <= k < |qs| :: Matches(qs[k], holds))
    ensures condition == "OR" ==> (Matches(Fold(condition, qs), holds) <==> exists k | 0 <= k < |qs| :: Matches(qs[k], holds))
    decreases |qs|
  {
    if |qs| > 1 {
      var init := qs[..|qs| - 1];
      FoldMeaning(condition, init, holds);
      assert forall k | 0 <= k < |init| :: init[k] == qs[k];
      if condition == "OR" && Matches(Fold(condition, qs), holds) && !Matches(qs[|qs| - 1], holds) {
        var k :| 0 <= k < |init| && Matches(init[k], holds);
        assert Matches(qs[k], holds);
      }
    }
  }
}
