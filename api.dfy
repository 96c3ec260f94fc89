/** The request and response shapes of the REST service, as the pages consume them.
    Only the fields the modelled code reads are kept. */
module Api {
  import opened Js

  /** One condition on the wire: no client-side id. `value2` is `Undefined` when absent. */
  datatype Condition = Condition(field: string, operator: string, value: Value, value2: Value)

  /** What a rule's `conditions` field may hold once the response is parsed:
      any scalar (a JSON-encoded string among them), an array of conditions,
      or `Object` inside `Scalar` for a non-array object. */
  datatype Conditions = Scalar(v: Value) | Items(items: seq<Condition>)

  predicate ConditionsTruthy(c: Conditions) {
    match c
    case Scalar(v) => Truthy(v)
    case Items(_) => true
  }

  /** A rule as the service returns it; `schedule` may be null. */
  datatype Rule = Rule(
    id: int,
    ruleName: string,
    description: string,
    conditions: Conditions,
    schedule: Option<string>)

  /** A segment as the service returns it; `row_count`, `dependencies` and
      `operation` may be missing or null. */
  datatype Segment = Segment(
    id: int,
    segmentName: string,
    rowCount: Option<int>,
    dependencies: Option<seq<int>>,
    operation: Option<string>)

  /** A page of a paginated listing; `items` and `total_items` may be missing. */
  datatype Page<T> = Page(items: Option<seq<T>>, totalItems: Option<int>)

  /** The body of a create or update request. */
  datatype RulePayload = RulePayload(
    ruleName: string,
    description: string,
    schedule: string,
    conditions: seq<Condition>)

  /** `page.items || []`. */
  function PageItems<T>(p: Page<T>): (r: seq<T>)
    ensures p.items.Some? ==> r == p.items.value
    ensures p.items.None? ==> r == []
  {
    if p.items.Some? then p.items.value else []
  }
}
