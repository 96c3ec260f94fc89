/** The rule detail page's view of a rule's conditions: the decode of a
    `conditions` field that may arrive as JSON text or as structured data,
    and the text of one rendered condition. */
module RuleDetail {
  import opened Js
  import opened Api
  import RuleForm

  /** The field holds text, which the page hands to `JSON.parse`. */
  predicate IsText(c: Conditions) {
    c.Scalar? && c.v.Str?
  }

  /** `parsedConditions`. `parse` stands for `JSON.parse`: `None` when it
      throws. The page never throws: any failure yields the empty list. */
  function ParsedConditions(rule: Option<Rule>, parse: string -> Option<Conditions>): (r: Conditions)
    ensures rule.None? || !ConditionsTruthy(rule.value.conditions) ==> r == Items([])
    ensures rule.Some? && ConditionsTruthy(rule.value.conditions) && IsText(rule.value.conditions) ==>
              var parsed := parse(rule.value.conditions.v.s);
              r == if parsed.Some? then parsed.value else Items([])
    ensures rule.Some? && ConditionsTruthy(rule.value.conditions) && !IsText(rule.value.conditions) ==>
              r == rule.value.conditions
  {
    if rule.None? || !ConditionsTruthy(rule.value.conditions) then Items([])
    else if IsText(rule.value.conditions) then
      match parse(rule.value.conditions.v.s)
      case Some(parsed) => parsed
      case None => Items([])
    else rule.value.conditions
  }

  /** An empty string is falsy, so it is never handed to the parser. */
  lemma EmptyTextSkipsParse(rule: Rule, parse: string -> Option<Conditions>)
    requires rule.conditions == Scalar(Str(""))
    ensures ParsedConditions(Some(rule), parse) == Items([])
  {
  }

  /** Decoding is idempotent on structured data: a rule whose conditions are
      already the decoded value, when that is truthy and not text, decodes to
      that same value. */
  lemma ParsedConditionsStable(rule: Rule, parse: string -> Option<Conditions>)
    requires var r := ParsedConditions(Some(rule), parse); ConditionsTruthy(r) && !IsText(r)
    ensures var r := ParsedConditions(Some(rule), parse);
            ParsedConditions(Some(rule.(conditions := r)), parse) == r
  {
  }

  /** When the parser yields only arrays, the page always ends with an array. */
  lemma ParsedIsListWhenParserIs(rule: Option<Rule>, parse: string -> Option<Conditions>)
    requires forall s :: parse(s).Some? ==> parse(s).value.Items?
    requires rule.Some? ==> rule.value.conditions.Items? || rule.value.conditions.Scalar?
    requires rule.Some? && rule.value.conditions.Scalar? ==>
               IsText(rule.value.conditions) || !ConditionsTruthy(rule.value.conditions)
    ensures ParsedConditions(rule, parse).Items?
  {
  }

  /** For structured conditions the detail page shows exactly the list the
      edit page loads and would send back. */
  lemma AgreesWithEditPage(rule: Rule, parse: string -> Option<Conditions>, current: seq<RuleForm.FormCondition>, clock: RuleForm.Clock)
    requires rule.conditions.Items?
    ensures ParsedConditions(Some(rule), parse) == Items(RuleForm.Encode(RuleForm.LoadedConditions(current, rule.conditions, clock)))
  {
  }

  /** For conditions stored as JSON text the two pages part ways: the detail
      page shows the parsed list, while the edit page keeps the rows it had,
      so a freshly opened editor shows no rows at all. */
  lemma TextDisagreesWithEditPage(rule: Rule, parse: string -> Option<Conditions>, current: seq<RuleForm.FormCondition>, clock: RuleForm.Clock)
    requires IsText(rule.conditions) && ConditionsTruthy(rule.conditions)
    requires parse(rule.conditions.v.s) == Some(Items(RuleForm.Encode(current))) && current != []
    ensures RuleForm.LoadedConditions(current, rule.conditions, clock) == current
    ensures RuleForm.LoadedConditions([], rule.conditions, clock) == []
    ensures ParsedConditions(Some(rule), parse) != Items(RuleForm.Encode(RuleForm.LoadedConditions([], rule.conditions, clock)))
  {
    assert |RuleForm.Encode(current)| == |current| > 0;
  }

  /** The text spans of `renderCondition`: field, operator and `String(value)`,
      then what `{value2 && (…)}` yields. A truthy `value2` adds `AND` and
      `String(value2)`; the falsy number `0` is itself the result and React
      prints it; every other falsy value (`''`, `false`, `null`, missing)
      prints nothing. */
  function RenderCondition(c: Condition): (r: seq<string>)
    ensures |r| >= 3 && r[0] == c.field && r[1] == c.operator && r[2] == ToDisplayString(c.value)
    ensures |r| == 5 <==> Truthy(c.value2)
    ensures |r| == 5 ==> r[3] == "AND" && r[4] == ToDisplayString(c.value2)
    ensures |r| == 4 <==> c.value2 == Num(0)
    ensures |r| == 4 ==> r[3] == "0"
    ensures |r| == 3 <==> !Truthy(c.value2) && c.value2 != Num(0)
  {
    [c.field, c.operator, ToDisplayString(c.value)]
      + if Truthy(c.value2) then ["AND", ToDisplayString(c.value2)]
        else if c.value2 == Num(0) then ["0"]
        else []
  }

  /** The `''` second value that a field change leaves behind is not shown,
      and neither is a missing one. */
  lemma EmptySecondValueHidden(c: Condition)
    requires c.value2 == Str("") || c.value2 == Undefined
    ensures RenderCondition(c) == [c.field, c.operator, ToDisplayString(c.value)]
  {
  }

  /** A second value of `0` is not shown as a bound, but its `0` is printed
      right after the first value. */
  lemma ZeroSecondValuePrinted(c: Condition)
    requires c.value2 == Num(0)
    ensures RenderCondition(c) == [c.field, c.operator, ToDisplayString(c.value), "0"]
  {
  }
}
