/** The rule-condition builder of the rule create/edit page: the field and
    operator catalogs, the ordered list of form conditions keyed by a
    client-only id, the edits on that list, the submit gate with the payload
    it assembles, and the decoding of a loaded rule back into the form. */
module RuleForm {
  import opened Js
  import opened Api

  // ---------------------------------------------------------------------
  // Catalogs
  // ---------------------------------------------------------------------

  datatype FieldOption = FieldOption(value: string, display: string, fieldType: string)

  datatype OperatorOption = OperatorOption(value: string, display: string)

  /** The selectable fields, in display order, each with its value type. */
  const FieldOptions: seq<FieldOption> := [
    FieldOption("transaction_amount", "Transaction Amount", "number"),
    FieldOption("merchant_category", "Merchant Category", "string"),
    FieldOption("transaction_type", "Transaction Type", "string"),
    FieldOption("city_tier", "City Tier", "tier"),
    FieldOption("transaction_date", "Transaction Date", "date")
  ]

  const KnownTypes: set<string> := {"number", "string", "date", "tier"}

  /** The operator list of a value type, falling back to no operators for
      a type the catalog does not know. Within a list no operator appears
      twice, and only dates offer the two-bound `BETWEEN`. */
  function OperatorsFor(fieldType: string): (r: seq<OperatorOption>)
    ensures r != [] <==> fieldType in KnownTypes
    ensures forall i, j :: 0 <= i < j < |r| ==> r[i].value != r[j].value
    ensures (exists k :: 0 <= k < |r| && r[k].value == "BETWEEN") <==> fieldType == "date"
  {
    if fieldType == "number" then
      [ OperatorOption(">", ">"), OperatorOption("<", "<"), OperatorOption("=", "="),
        OperatorOption(">=", ">="), OperatorOption("<=", "<=") ]
    else if fieldType == "string" then
      [ OperatorOption("=", "is"), OperatorOption("!=", "is not"), OperatorOption("IN", "is one of") ]
    else if fieldType == "date" then
      var ops := [ OperatorOption(">", "after"), OperatorOption("<", "before"), OperatorOption("=", "on"),
                   OperatorOption("BETWEEN", "between") ];
      assert ops[3].value == "BETWEEN";
      ops
    else if fieldType == "tier" then
      [ OperatorOption("=", "is"), OperatorOption("!=", "is not") ]
    else
      []
  }

  function OperatorValues(ops: seq<OperatorOption>): (r: seq<string>)
    ensures |r| == |ops| && forall i :: 0 <= i < |ops| ==> r[i] == ops[i].value
  {
    seq(|ops|, i requires 0 <= i < |ops| => ops[i].value)
  }

  /** `newOperators[0]?.value || ''`: the first operator of a list, or the empty string. */
  function DefaultOperator(ops: seq<OperatorOption>): (op: string)
    ensures |ops| > 0 ==> op == ops[0].value
    ensures |ops| == 0 ==> op == ""
  {
    if |ops| == 0 then "" else ops[0].value
  }

  /** Every known type has operators, and its first one is the default the
      form selects; an unknown type has none. */
  lemma CatalogDefaults()
    ensures forall t :: t in KnownTypes ==> |OperatorsFor(t)| > 0
    ensures forall t :: t !in KnownTypes ==> OperatorsFor(t) == []
    ensures DefaultOperator(OperatorsFor("number")) == ">"
    ensures DefaultOperator(OperatorsFor("string")) == "="
    ensures DefaultOperator(OperatorsFor("date")) == ">"
    ensures DefaultOperator(OperatorsFor("tier")) == "="
    ensures forall o :: o in FieldOptions ==> o.fieldType in KnownTypes
  {
  }

  /** `options.find(f => f.value === field)`: the first option with that value. */
  function FindFieldIn(options: seq<FieldOption>, field: string): (r: Option<FieldOption>)
    ensures r.None? <==> forall i :: 0 <= i < |options| ==> options[i].value != field
    ensures r.Some? ==> exists i :: 0 <= i < |options| && options[i] == r.value
                          && options[i].value == field
                          && forall j :: 0 <= j < i ==> options[j].value != field
  {
    if options == [] then None
    else if options[0].value == field then Some(options[0])
    else FindFieldIn(options[1..], field)
  }

  function FindField(field: string): Option<FieldOption>
  {
    FindFieldIn(FieldOptions, field)
  }

  /** Field lookup finds exactly the catalogued fields, each with its declared type. */
  lemma {:induction false} FindFieldCatalogued(field: string)
    ensures FindField(field).Some? <==> exists i :: 0 <= i < |FieldOptions| && FieldOptions[i].value == field
    ensures FindField(field).Some? ==>
              FindField(field).value in FieldOptions && FindField(field).value.fieldType in KnownTypes
    ensures field == "transaction_amount" ==> FindField(field) == Some(FieldOptions[0])
    ensures field == "city_tier" ==> FindField(field) == Some(FieldOptions[3])
  {
    CatalogDefaults();
    if FindField(field).Some? {
      var i :| 0 <= i < |FieldOptions| && FieldOptions[i] == FindField(field).value;
      assert FieldOptions[i] in FieldOptions;
    }
    if field == "city_tier" {
      assert FieldOptions[0].value != field && FieldOptions[1].value != field && FieldOptions[2].value != field;
    }
  }

  // ---------------------------------------------------------------------
  // Form conditions
  // ---------------------------------------------------------------------

  /** A condition row of the form: a wire condition plus a client-only id.
      `value2` is `Undefined` while the key is absent. */
  datatype FormCondition = FormCondition(id: int, field: string, operator: string, value: Value, value2: Value)

  /** The operators the row offers (`renderCondition`): those of its field's
      type, or none when the field is not catalogued. */
  function OperatorsForCondition(c: FormCondition): (r: seq<OperatorOption>)
    ensures FindField(c.field).None? ==> r == []
    ensures FindField(c.field).Some? ==> r == OperatorsFor(FindField(c.field).value.fieldType)
  {
    match FindField(c.field)
    case Some(meta) => if meta.fieldType != "" then OperatorsFor(meta.fieldType) else []
    case None => []
  }

  /** The row's operator is one its field offers. */
  predicate Consistent(c: FormCondition) {
    c.operator in OperatorValues(OperatorsForCondition(c))
  }

  predicate AllConsistent(cs: seq<FormCondition>) {
    forall i :: 0 <= i < |cs| ==> Consistent(cs[i])
  }

  predicate DistinctIds(cs: seq<FormCondition>) {
    forall i, j :: 0 <= i < j < |cs| ==> cs[i].id != cs[j].id
  }

  predicate HasId(cs: seq<FormCondition>, id: int) {
    exists i :: 0 <= i < |cs| && cs[i].id == id
  }

  /** The row `addCondition` appends: the first catalogued field, with the
      first operator of its type and an empty value. */
  function NewCondition(now: int): (c: FormCondition)
    ensures c.id == now && c.value == Str("") && c.value2 == Undefined
    ensures c.field == FieldOptions[0].value
    ensures c.operator == DefaultOperator(OperatorsForCondition(c))
    ensures Consistent(c)
  {
    FindFieldCatalogued("transaction_amount");
    FormCondition(now, "transaction_amount", ">", Str(""), Undefined)
  }

  /** `conditions.filter(c => c.id !== id)`. */
  function Without(cs: seq<FormCondition>, id: int): (r: seq<FormCondition>)
    ensures |r| <= |cs|
    ensures forall c :: c in r <==> c in cs && c.id != id
    ensures !HasId(cs, id) ==> r == cs
  {
    if cs == [] then []
    else
      var rest := Without(cs[1..], id);
      assert forall c :: c in cs <==> c == cs[0] || c in cs[1..];
      assert !HasId(cs, id) ==> !HasId(cs[1..], id) by {
        if HasId(cs[1..], id) {
          var i :| 0 <= i < |cs[1..]| && cs[1..][i].id == id;
          assert cs[i + 1].id == id;
        }
      }
      if cs[0].id != id then [cs[0]] + rest else rest
  }

  /** Filtering distributes over concatenation, so it keeps the survivors
      in their original order. */
  lemma {:induction false} WithoutAppend(a: seq<FormCondition>, b: seq<FormCondition>, id: int)
    ensures Without(a + b, id) == Without(a, id) + Without(b, id)
    decreases |a|
  {
    if a == [] {
      assert a + b == b;
    } else {
      assert (a + b)[1..] == a[1..] + b;
      WithoutAppend(a[1..], b, id);
    }
  }

  /** Removing a freshly added row's id gives back the list before the add. */
  lemma RemoveUndoesAdd(cs: seq<FormCondition>, now: int)
    requires !HasId(cs, now)
    ensures Without(cs + [NewCondition(now)], now) == cs
  {
    WithoutAppend(cs, [NewCondition(now)], now);
    assert Without([NewCondition(now)], now) == [];
  }

  /** When the clock value of an add equals an existing id, removing that
      id also removes the older row. */
  lemma RemoveAfterCollidingAdd(cs: seq<FormCondition>, now: int)
    requires HasId(cs, now)
    ensures |Without(cs + [NewCondition(now)], now)| < |cs|
  {
    WithoutAppend(cs, [NewCondition(now)], now);
    assert Without([NewCondition(now)], now) == [];
    var i :| 0 <= i < |cs| && cs[i].id == now;
    WithoutDropsMatch(cs, i, now);
  }

  lemma {:induction false} WithoutDropsMatch(cs: seq<FormCondition>, i: nat, id: int)
    requires i < |cs| && cs[i].id == id
    ensures |Without(cs, id)| < |cs|
    decreases |cs|
  {
    if i > 0 {
      WithoutDropsMatch(cs[1..], i - 1, id);
    }
  }

  lemma {:induction false} WithoutKeepsDistinct(cs: seq<FormCondition>, id: int)
    requires DistinctIds(cs)
    ensures DistinctIds(Without(cs, id))
    ensures !HasId(Without(cs, id), id)
    decreases |cs|
  {
    if cs != [] {
      var rest := Without(cs[1..], id);
      WithoutKeepsDistinct(cs[1..], id);
      if cs[0].id != id {
        forall k | 0 <= k < |rest| ensures rest[k].id != cs[0].id {
          assert rest[k] in rest;
          var j :| 0 <= j < |cs[1..]| && cs[1..][j] == rest[k];
          assert cs[j + 1] == rest[k];
        }
        assert Without(cs, id) == [cs[0]] + rest;
      }
    }
  }

  /** One edit of `handleConditionChange`: the key that changes and its new value. */
  datatype Edit =
    | SetField(field: string)
    | SetOperator(operator: string)
    | SetValue(value: Value)
    | SetValue2(value2: Value)

  /** The updated copy of one row. A change to a catalogued field resets the
      operator to the new type's default and both values to `''`; a change to
      an uncatalogued field changes only the field. */
  function ApplyEdit(c: FormCondition, e: Edit): (r: FormCondition)
    ensures r.id == c.id
    ensures e.SetOperator? ==> r == c.(operator := e.operator)
    ensures e.SetValue? ==> r == c.(value := e.value)
    ensures e.SetValue2? ==> r == c.(value2 := e.value2)
    ensures e.SetField? ==> r.field == e.field
    ensures e.SetField? && FindField(e.field).Some? ==>
              && r.operator == DefaultOperator(OperatorsFor(FindField(e.field).value.fieldType))
              && r.value == Str("") && r.value2 == Str("")
              && Consistent(r)
    ensures e.SetField? && FindField(e.field).None? ==>
              r == c.(field := e.field) && OperatorsForCondition(r) == []
  {
    match e
    case SetField(f) =>
      var updated := c.(field := f);
      FindFieldCatalogued(f);
      CatalogDefaults();
      (match FindField(f)
       case Some(meta) =>
         updated.(operator := DefaultOperator(OperatorsFor(meta.fieldType)), value := Str(""), value2 := Str(""))
       case None => updated)
    case SetOperator(op) => c.(operator := op)
    case SetValue(v) => c.(value := v)
    case SetValue2(v) => c.(value2 := v)
  }

  /** Changing the field of a fresh row to `city_tier` selects `=` and clears the value. */
  lemma CityTierExample(now: int)
    ensures ApplyEdit(NewCondition(now), SetField("city_tier")).operator == "="
    ensures ApplyEdit(NewCondition(now), SetField("city_tier")).value == Str("")
    ensures NewCondition(now).operator == ">"
  {
    FindFieldCatalogued("city_tier");
  }

  /** `conditions.map(c => c.id === id ? edited copy : c)`. */
  function UpdateById(cs: seq<FormCondition>, id: int, e: Edit): (r: seq<FormCondition>)
    ensures |r| == |cs|
    ensures forall i :: 0 <= i < |cs| ==> r[i].id == cs[i].id
    ensures forall i :: 0 <= i < |cs| && cs[i].id != id ==> r[i] == cs[i]
    ensures forall i :: 0 <= i < |cs| && cs[i].id == id ==> r[i] == ApplyEdit(cs[i], e)
  {
    seq(|cs|, i requires 0 <= i < |cs| => if cs[i].id == id then ApplyEdit(cs[i], e) else cs[i])
  }

  /** An edit the form's controls can produce for a given row: a field from
      the field list, or an operator from the row's operator list. */
  predicate OfferedEdit(c: FormCondition, e: Edit) {
    match e
    case SetField(f) => FindField(f).Some?
    case SetOperator(op) => op in OperatorValues(OperatorsForCondition(c))
    case SetValue(_) => true
    case SetValue2(_) => true
  }

  /** Offered edits keep every row's operator within its field's list. */
  lemma EditsKeepConsistency(cs: seq<FormCondition>, id: int, e: Edit)
    requires AllConsistent(cs)
    requires forall i :: 0 <= i < |cs| && cs[i].id == id ==> OfferedEdit(cs[i], e)
    ensures AllConsistent(UpdateById(cs, id, e))
  {
    var r := UpdateById(cs, id, e);
    forall i | 0 <= i < |cs| ensures Consistent(r[i]) {
      if cs[i].id == id {
        assert OfferedEdit(cs[i], e);
        assert ApplyEdit(cs[i], e) == r[i];
        if !e.SetField? {
          assert r[i].field == cs[i].field;
          assert OperatorsForCondition(r[i]) == OperatorsForCondition(cs[i]);
        }
      }
    }
  }

  lemma AddKeepsInvariants(cs: seq<FormCondition>, now: int)
    requires AllConsistent(cs)
    ensures AllConsistent(cs + [NewCondition(now)])
    ensures DistinctIds(cs) && !HasId(cs, now) ==> DistinctIds(cs + [NewCondition(now)])
  {
    var r := cs + [NewCondition(now)];
    forall i | 0 <= i < |r| ensures Consistent(r[i]) {
      if i < |cs| { assert r[i] == cs[i]; }
    }
    if DistinctIds(cs) && !HasId(cs, now) {
      AddFreshKeepsDistinct(cs, now);
    }
  }

  lemma AddFreshKeepsDistinct(cs: seq<FormCondition>, now: int)
    requires DistinctIds(cs) && !HasId(cs, now)
    ensures DistinctIds(cs + [NewCondition(now)])
  {
    var r := cs + [NewCondition(now)];
    forall i, j | 0 <= i < j < |r| ensures r[i].id != r[j].id {
      assert r[i] == cs[i];
      if j < |cs| {
        assert r[j] == cs[j];
      } else {
        assert r[j].id == now;
      }
    }
  }

  lemma {:induction false} RemoveKeepsConsistency(cs: seq<FormCondition>, id: int)
    requires AllConsistent(cs)
    ensures AllConsistent(Without(cs, id))
  {
    var r := Without(cs, id);
    forall k | 0 <= k < |r| ensures Consistent(r[k]) {
      assert r[k] in r;
      var j :| 0 <= j < |cs| && cs[j] == r[k];
    }
  }

  // ---------------------------------------------------------------------
  // Validation and encoding
  // ---------------------------------------------------------------------

  /** `ruleDetails`: the rule's metadata as the form holds it. */
  datatype RuleDetails = RuleDetails(name: string, description: string, schedule: string)

  /** The `name` attribute of the input that `handleDetailChange` handles. */
  datatype DetailKey = NameKey | DescriptionKey | ScheduleKey

  function WithDetail(d: RuleDetails, key: DetailKey, v: string): (r: RuleDetails)
    ensures key == NameKey ==> r == d.(name := v)
    ensures key == DescriptionKey ==> r == d.(description := v)
    ensures key == ScheduleKey ==> r == d.(schedule := v)
  {
    match key
    case NameKey => d.(name := v)
    case DescriptionKey => d.(description := v)
    case ScheduleKey => d.(schedule := v)
  }

  /** `conditions.some(c => c.value === '')`. */
  function SomeValueEmpty(cs: seq<FormCondition>): (r: bool)
    ensures r <==> exists i :: 0 <= i < |cs| && cs[i].value == Str("")
  {
    if cs == [] then false
    else if cs[0].value == Str("") then true
    else
      assert forall i :: 1 <= i < |cs| ==> cs[i] == cs[1..][i - 1];
      SomeValueEmpty(cs[1..])
  }

  /** The submit gate: the name is empty, or there is no condition, or some
      condition's `value` is the empty string. `value2` is not inspected. */
  function Rejected(d: RuleDetails, cs: seq<FormCondition>): (r: bool)
    ensures r <==> d.name == "" || |cs| == 0 || exists i :: 0 <= i < |cs| && cs[i].value == Str("")
  {
    d.name == "" || |cs| == 0 || SomeValueEmpty(cs)
  }

  /** The gate depends on the primary values only: rows that differ in any
      other part (operator, field, `value2`, id) are judged alike. */
  lemma RejectionIgnoresValue2(d: RuleDetails, cs: seq<FormCondition>, cs': seq<FormCondition>)
    requires |cs| == |cs'|
    requires forall i :: 0 <= i < |cs| ==> cs[i].value == cs'[i].value
    ensures Rejected(d, cs) == Rejected(d, cs')
  {
    if exists i :: 0 <= i < |cs| && cs[i].value == Str("") {
      var i :| 0 <= i < |cs| && cs[i].value == Str("");
      assert cs'[i].value == Str("");
    }
  }

  /** `({ id, ...rest }) => rest`. */
  function Strip(c: FormCondition): Condition
  {
    Condition(c.field, c.operator, c.value, c.value2)
  }

  /** `apiConditions`: the rows in order, each without its id and with every
      other key (`value2` included, whatever the operator) kept verbatim. */
  function Encode(cs: seq<FormCondition>): (r: seq<Condition>)
    ensures |r| == |cs|
    ensures forall i :: 0 <= i < |cs| ==>
              r[i].field == cs[i].field && r[i].operator == cs[i].operator
              && r[i].value == cs[i].value && r[i].value2 == cs[i].value2
  {
    seq(|cs|, i requires 0 <= i < |cs| => Strip(cs[i]))
  }

  /** The request body: the details copied over and the encoded conditions. */
  function Assemble(d: RuleDetails, cs: seq<FormCondition>): (p: RulePayload)
    ensures p.ruleName == d.name && p.description == d.description && p.schedule == d.schedule
    ensures p.conditions == Encode(cs)
  {
    RulePayload(d.name, d.description, d.schedule, Encode(cs))
  }

  /** A `BETWEEN` date row is sent with both bounds. */
  lemma BetweenExample(id: int)
    ensures Encode([FormCondition(id, "transaction_date", "BETWEEN", Str("2024-01-01"), Str("2024-01-31"))])
         == [Condition("transaction_date", "BETWEEN", Str("2024-01-01"), Str("2024-01-31"))]
  {
  }

  // ---------------------------------------------------------------------
  // Decoding a loaded rule
  // ---------------------------------------------------------------------

  /** `Date.now()` as read by the `map` over a loaded condition list:
      `clock(k)` is the value its `k`-th call returns. */
  type Clock = nat -> int

  /** The clock never steps back during the `map`'s first `n` calls. */
  predicate NonDecreasing(clock: Clock, n: nat) {
    forall i, j :: 0 <= i <= j < n ==> clock(i) <= clock(j)
  }

  /** The rows of a loaded condition list: each wire condition with the id
      `Date.now() + index`, the clock being read once per element. */
  function Decode(ws: seq<Condition>, clock: Clock): (r: seq<FormCondition>)
    ensures |r| == |ws|
    ensures forall i :: 0 <= i < |ws| ==> r[i].id == clock(i) + i
    ensures NonDecreasing(clock, |ws|) ==> DistinctIds(r)
  {
    seq(|ws|, i requires 0 <= i < |ws| => FormCondition(clock(i) + i, ws[i].field, ws[i].operator, ws[i].value, ws[i].value2))
  }

  /** A clock that steps back by one between the first two reads gives the
      first two rows the same id. */
  lemma ClockStepBackCollides(ws: seq<Condition>)
    requires |ws| >= 2
    ensures var r := Decode(ws, k => if k == 0 then 1001 else 1000);
            r[0].id == r[1].id == 1001 && !DistinctIds(r)
  {
    var r := Decode(ws, k => if k == 0 then 1001 else 1000);
    assert r[0].id == 1001 && r[1].id == 1000 + 1;
  }

  /** Encoding the decoded rows gives back the wire list. */
  lemma DecodeThenEncode(ws: seq<Condition>, clock: Clock)
    ensures Encode(Decode(ws, clock)) == ws
  {
    var e := Encode(Decode(ws, clock));
    assert forall i :: 0 <= i < |ws| ==> e[i] == ws[i];
  }

  /** Decoding the encoded rows gives back every row up to its id. */
  lemma EncodeThenDecode(cs: seq<FormCondition>, clock: Clock)
    ensures |Decode(Encode(cs), clock)| == |cs|
    ensures forall i :: 0 <= i < |cs| ==> Decode(Encode(cs), clock)[i] == cs[i].(id := clock(i) + i)
  {
  }

  /** An uncatalogued field survives decoding; its row offers no operators. */
  lemma UnknownFieldDegrades(ws: seq<Condition>, clock: Clock, i: nat)
    requires i < |ws| && FindField(ws[i].field).None?
    ensures Decode(ws, clock)[i].field == ws[i].field
    ensures OperatorsForCondition(Decode(ws, clock)[i]) == []
  {
  }

  /** The details of a loaded rule; a missing or empty schedule becomes `once`. */
  function LoadedDetails(rule: Rule): (d: RuleDetails)
    ensures d.name == rule.ruleName && d.description == rule.description
    ensures rule.schedule.None? || rule.schedule.value == "" ==> d.schedule == "once"
    ensures rule.schedule.Some? && rule.schedule.value != "" ==> d.schedule == rule.schedule.value
  {
    RuleDetails(rule.ruleName, rule.description, OrElse(rule.schedule, "once"))
  }

  /** The rows after a load: replaced only when the rule's conditions are an array. */
  function LoadedConditions(current: seq<FormCondition>, conditions: Conditions, clock: Clock): (r: seq<FormCondition>)
    ensures conditions.Items? ==> Encode(r) == conditions.items
    ensures conditions.Items? && NonDecreasing(clock, |conditions.items|) ==> DistinctIds(r)
    ensures !conditions.Items? ==> r == current
  {
    match conditions
    case Items(ws) => DecodeThenEncode(ws, clock); Decode(ws, clock)
    case Scalar(_) => current
  }

  // ---------------------------------------------------------------------
  // The page's state
  // ---------------------------------------------------------------------

  /** The error shown under the form. */
  datatype FormError = MissingRequired | FetchFailed | SaveFailed

  /** The request a valid submit issues: create for a new rule, update otherwise. */
  datatype Request = Create(payload: RulePayload) | Update(ruleId: string, payload: RulePayload)

  /** The state of one create/edit page. */
  class Editor {
    /** The route's rule id; absent or empty for a new rule. */
    const routeId: Option<string>
    var details: RuleDetails
    var conditions: seq<FormCondition>
    var isLoading: bool
    var isSubmitting: bool
    var error: Option<FormError>

    predicate IsNewRule() {
      routeId.None? || routeId.value == ""
    }

    constructor (routeId: Option<string>)
      ensures this.routeId == routeId
      ensures details == RuleDetails("", "", "once") && conditions == []
      ensures isLoading == !IsNewRule() && !isSubmitting && error.None?
    {
      this.routeId := routeId;
      details := RuleDetails("", "", "once");
      conditions := [];
      isLoading := !(routeId.None? || routeId.value == "");
      isSubmitting := false;
      error := None;
    }

    /** `fetchRule`, run only when editing an existing rule. `response` is the
        fetched rule, or `None` when the request failed; `clock` gives the
        values of `Date.now()` read while decoding its conditions. */
    method LoadRule(response: Option<Rule>, clock: Clock)
      modifies this
      ensures IsNewRule() ==> details == old(details) && conditions == old(conditions)
                              && isLoading == old(isLoading) && error == old(error)
      ensures !IsNewRule() && response.Some? ==>
                && details == LoadedDetails(response.value)
                && conditions == LoadedConditions(old(conditions), response.value.conditions, clock)
                && error == old(error) && !isLoading
      ensures !IsNewRule() && response.None? ==>
                details == old(details) && conditions == old(conditions)
                && error == Some(FetchFailed) && !isLoading
      ensures isSubmitting == old(isSubmitting)
    {
      if !IsNewRule() {
        isLoading := true;
        match response {
          case Some(rule) =>
            details := LoadedDetails(rule);
            conditions := LoadedConditions(conditions, rule.conditions, clock);
          case None =>
            error := Some(FetchFailed);
        }
        isLoading := false;
      }
    }

    /** `handleDetailChange`. */
    method ChangeDetail(key: DetailKey, v: string)
      modifies this
      ensures details == WithDetail(old(details), key, v)
      ensures conditions == old(conditions) && error == old(error)
      ensures isLoading == old(isLoading) && isSubmitting == old(isSubmitting)
    {
      details := WithDetail(details, key, v);
    }

    /** `addCondition`; `now` is `Date.now()`, used as the new row's id. */
    method AddCondition(now: int)
      modifies this
      ensures conditions == old(conditions) + [NewCondition(now)]
      ensures details == old(details) && error == old(error)
      ensures isLoading == old(isLoading) && isSubmitting == old(isSubmitting)
    {
      conditions := conditions + [NewCondition(now)];
    }

    /** `removeCondition`. */
    method RemoveCondition(id: int)
      modifies this
      ensures conditions == Without(old(conditions), id)
      ensures details == old(details) && error == old(error)
      ensures isLoading == old(isLoading) && isSubmitting == old(isSubmitting)
    {
      conditions := Without(conditions, id);
    }

    /** `handleConditionChange`. */
    method ChangeCondition(id: int, e: Edit)
      modifies this
      ensures conditions == UpdateById(old(conditions), id, e)
      ensures details == old(details) && error == old(error)
      ensures isLoading == old(isLoading) && isSubmitting == old(isSubmitting)
    {
      conditions := UpdateById(conditions, id, e);
    }

    /** `handleSubmit` up to the request: either the gate rejects, an error is
        set and no request is made, or the payload is assembled and sent. */
    method StartSubmit() returns (request: Option<Request>)
      modifies this
      ensures details == old(details) && conditions == old(conditions) && isLoading == old(isLoading)
      ensures Rejected(details, conditions) ==>
                request.None? && error == Some(MissingRequired) && isSubmitting == old(isSubmitting)
      ensures !Rejected(details, conditions) ==>
                && request.Some? && request.value.payload == Assemble(details, conditions)
                && request.value.Create? == IsNewRule()
                && (request.value.Update? ==> Some(request.value.ruleId) == routeId)
                && error.None? && isSubmitting
    {
      if Rejected(details, conditions) {
        error := Some(MissingRequired);
        return None;
      }
      isSubmitting := true;
      error := None;
      var payload := Assemble(details, conditions);
      if IsNewRule() {
        request := Some(Create(payload));
      } else {
        request := Some(Update(routeId.value, payload));
      }
    }

    /** `handleSubmit` after the request settles: on success the page leaves
        for the rules list; on failure the draft stays and an error is shown. */
    method CompleteSubmit(saved: bool) returns (navigateToRules: bool)
      modifies this
      ensures navigateToRules == saved
      ensures error == if saved then old(error) else Some(SaveFailed)
      ensures !isSubmitting
      ensures details == old(details) && conditions == old(conditions) && isLoading == old(isLoading)
    {
      navigateToRules := saved;
      if !saved {
        error := Some(SaveFailed);
      }
      isSubmitting := false;
    }
  }
}
