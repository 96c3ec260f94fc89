# Audience manager UI: rule-condition builder and page logic, modelled in Dafny

The audience manager's browser UI lets an operator define segmentation rules
as a flat conjunction of conditions (field, operator, value, optional second
value) over transaction records, and view the segments the backend builds
from them. This project models the logic of that UI that is more than
layout:

- **RuleForm** (`rule_form.dfy`): the field catalog and the per-type operator
  catalog; the ordered list of form conditions keyed by a client-only id;
  appending, removing and editing a condition, where a field change resets
  the operator to the new type's first operator and clears both values; the
  submit gate and the payload it assembles; decoding a loaded rule's
  conditions back into form rows. The page itself is a class (`Editor`)
  holding `details`, `conditions`, `isLoading`, `isSubmitting` and `error`,
  whose methods replace those fields through the pure sequence functions.
- **RuleDetail** (`rule_detail.dfy`): decoding a rule's `conditions` field,
  which may arrive as JSON text or as structured data, with the fallback to
  an empty list; the text of one displayed condition.
- **Dashboard** (`dashboard.dfy`): the counters and short lists computed
  from one page of rules and one page of segments.
- **Segments** (`segments.dfy`): the id-to-name rule map built by a loop, and
  the "Depends On" cell that interleaves rule labels with operation
  separators.
- `js.dfy` holds the JavaScript semantics these rely on (truthiness,
  `String(v)`, integer text, ASCII upper-casing); `api.dfy` holds the wire
  shapes of the REST service (condition, rule, segment, page, payload).

The clock (`Date.now()`), the outcome of each HTTP request and `JSON.parse`
are parameters: an integer `now` where the clock is read once, a
`Clock` (the value of the k-th read, `nat -> int`) where a `map` reads it
once per element, an `Option`/`bool` per request, and a function
`parse: string -> Option<Conditions>` that yields `None` when parsing
throws.

The model follows the code as written, including these behaviours a
reader might not expect:

- changing a condition's operator does not clear `value2`;
- encoding keeps `value2` verbatim for every operator, `BETWEEN` or not;
- the submit gate is one check with one message, not three distinct
  failures;
- changing the field to a value that is not in the field catalog changes
  only `field` and leaves operator and values as they were;
- a field change sets `value2` to the empty string rather than removing it;
- the id of an added condition is the clock value, so it can equal an
  existing id. `RuleForm.RemoveAfterCollidingAdd` shows that removing that
  id then also drops the older row, and `RuleForm.AddKeepsInvariants`
  proves distinct ids are kept only when the clock value is fresh;
- a loaded rule's rows get the ids `Date.now() + index`, the clock being
  read once per row, so the ids are distinct only while the clock does not
  step back during the load (`RuleForm.Decode`); `RuleForm.ClockStepBackCollides`
  shows the collision when it does;
- a rule whose conditions are stored as JSON text is shown parsed on the
  detail page but opens in the editor with no rows
  (`RuleDetail.TextDisagreesWithEditPage`);
- a second value of `0` is not shown as a bound, but the detail page prints
  its `0` after the first value (`RuleDetail.ZeroSecondValuePrinted`).

## Model

| member | source | states |
|---|---|---|
| `RuleForm.OperatorsFor` | frontend/audience-manager-frontend/src/pages/RuleForm.tsx:33-61 | a type has operators iff it is one of the four known types; no operator appears twice in a list; `BETWEEN` is offered for exactly the date type |
| `RuleForm.CatalogDefaults` | frontend/audience-manager-frontend/src/pages/RuleForm.tsx:19-61 | each of the four known types has a non-empty operator list whose first entry is `>` (number), `=` (string), `>` (date), `=` (tier); any other type has none; every catalogued field has a known type |
| `RuleForm.FindFieldIn` | frontend/audience-manager-frontend/src/pages/RuleForm.tsx:118 | `find` returns nothing exactly when no option has the value, and otherwise the first option that has it |
| `RuleForm.FindFieldCatalogued` | frontend/audience-manager-frontend/src/pages/RuleForm.tsx:19-25 | a field is found iff it is in the catalog, with a known type; `transaction_amount` and `city_tier` resolve to their entries |
| `RuleForm.OperatorsForCondition` | frontend/audience-manager-frontend/src/pages/RuleForm.tsx:173-175 | a row offers its field type's operators, and none when its field is not catalogued |
| `RuleForm.DefaultOperator` | frontend/audience-manager-frontend/src/pages/RuleForm.tsx:121 | the default is the first operator of the list, or `''` for an empty list |
| `RuleForm.NewCondition` | frontend/audience-manager-frontend/src/pages/RuleForm.tsx:106 | the appended row has the clock as id, the first catalogued field, that field's default operator (so it is consistent), an empty value and no `value2` |
| `RuleForm.AddKeepsInvariants` | frontend/audience-manager-frontend/src/pages/RuleForm.tsx:105-107 | appending keeps every row's operator within its field's list, and keeps ids distinct when the clock value is not already an id |
| `RuleForm.Without` | frontend/audience-manager-frontend/src/pages/RuleForm.tsx:109-111 | the result holds exactly the rows whose id differs from the argument, and is the input itself when no row has that id |
| `RuleForm.WithoutAppend` | frontend/audience-manager-frontend/src/pages/RuleForm.tsx:110 | filtering distributes over concatenation, so survivors keep their order |
| `RuleForm.RemoveUndoesAdd` | frontend/audience-manager-frontend/src/pages/RuleForm.tsx:105-111 | removing the id of a row just added with a fresh id gives back the list before the add |
| `RuleForm.RemoveAfterCollidingAdd` | frontend/audience-manager-frontend/src/pages/RuleForm.tsx:105-111 | when the added row's id equals an existing id, removing it shortens the list below its size before the add |
| `RuleForm.WithoutKeepsDistinct` | frontend/audience-manager-frontend/src/pages/RuleForm.tsx:110 | removal keeps ids distinct and leaves no row with the removed id |
| `RuleForm.RemoveKeepsConsistency` | frontend/audience-manager-frontend/src/pages/RuleForm.tsx:110 | removal keeps every remaining row's operator within its field's list |
| `RuleForm.ApplyEdit` | frontend/audience-manager-frontend/src/pages/RuleForm.tsx:116-126 | the id is kept; an operator, value or value2 edit changes that key only (an operator change keeps `value2`); a change to a catalogued field sets the new type's default operator, `''` values and a consistent row; a change to an unknown field changes only the field and leaves no operators |
| `RuleForm.CityTierExample` | frontend/audience-manager-frontend/src/pages/RuleForm.tsx:117-124 | a fresh row starts with `>`; changing its field to `city_tier` selects `=` and clears the value |
| `RuleForm.UpdateById` | frontend/audience-manager-frontend/src/pages/RuleForm.tsx:113-130 | length, order and ids are kept; rows with another id are untouched; rows with the id are edited |
| `RuleForm.EditsKeepConsistency` | frontend/audience-manager-frontend/src/pages/RuleForm.tsx:113-130 | edits the controls can produce (a catalogued field, an offered operator, any value) keep every row's operator within its field's list |
| `RuleForm.WithDetail` | frontend/audience-manager-frontend/src/pages/RuleForm.tsx:100-103 | a detail change replaces the named key and keeps the other two |
| `RuleForm.SomeValueEmpty` | frontend/audience-manager-frontend/src/pages/RuleForm.tsx:135 | true iff some row's value is exactly the empty string |
| `RuleForm.Rejected` | frontend/audience-manager-frontend/src/pages/RuleForm.tsx:135 | the gate rejects iff the name is empty, or there are no rows, or some row's value is `''` |
| `RuleForm.RejectionIgnoresValue2` | frontend/audience-manager-frontend/src/pages/RuleForm.tsx:135 | rows that agree on their primary values are judged alike, whatever their `value2` |
| `RuleForm.Encode` | frontend/audience-manager-frontend/src/pages/RuleForm.tsx:143 | same length and order; each wire condition carries the row's field, operator, value and value2 verbatim |
| `RuleForm.Assemble` | frontend/audience-manager-frontend/src/pages/RuleForm.tsx:145-150 | the payload copies name, description and schedule and carries the encoded rows |
| `RuleForm.BetweenExample` | frontend/audience-manager-frontend/src/pages/RuleForm.tsx:143 | a `BETWEEN` date row is sent with both bounds |
| `RuleForm.Decode` | frontend/audience-manager-frontend/src/pages/RuleForm.tsx:87 | one row per wire condition, the i-th with id `clock(i) + i` from its own clock read; the ids are distinct whenever the clock never steps back |
| `RuleForm.ClockStepBackCollides` | frontend/audience-manager-frontend/src/pages/RuleForm.tsx:87 | reads of 1001 then 1000 give the first two rows the same id 1001, so the ids are not distinct |
| `RuleForm.DecodeThenEncode` | frontend/audience-manager-frontend/src/pages/RuleForm.tsx:87 | encoding decoded rows gives back the wire list |
| `RuleForm.EncodeThenDecode` | frontend/audience-manager-frontend/src/pages/RuleForm.tsx:143 | decoding encoded rows gives back every row with only its id replaced |
| `RuleForm.UnknownFieldDegrades` | frontend/audience-manager-frontend/src/pages/RuleForm.tsx:87 | an uncatalogued field is kept on load and its row offers no operators |
| `RuleForm.LoadedDetails` | frontend/audience-manager-frontend/src/pages/RuleForm.tsx:81-85 | name and description are copied; an absent or empty schedule becomes `once` |
| `RuleForm.LoadedConditions` | frontend/audience-manager-frontend/src/pages/RuleForm.tsx:86-89 | rows are replaced only when the conditions are an array, and then encode back to it, with distinct ids when the clock never steps back |
| `RuleForm.Editor.constructor` | frontend/audience-manager-frontend/src/pages/RuleForm.tsx:66-72 | empty details with schedule `once`, no rows, loading iff editing an existing rule, not submitting, no error |
| `RuleForm.Editor.LoadRule` | frontend/audience-manager-frontend/src/pages/RuleForm.tsx:74-98 | nothing happens for a new rule; a fetched rule sets the details and the decoded rows; a failed fetch sets the fetch error; loading ends |
| `RuleForm.Editor.ChangeDetail` | frontend/audience-manager-frontend/src/pages/RuleForm.tsx:100-103 | details become the updated details; nothing else changes |
| `RuleForm.Editor.AddCondition` | frontend/audience-manager-frontend/src/pages/RuleForm.tsx:105-107 | the rows become the old rows followed by one new row; nothing else changes |
| `RuleForm.Editor.RemoveCondition` | frontend/audience-manager-frontend/src/pages/RuleForm.tsx:109-111 | the rows become the old rows without the id; nothing else changes |
| `RuleForm.Editor.ChangeCondition` | frontend/audience-manager-frontend/src/pages/RuleForm.tsx:113-130 | the rows become the old rows with the edit applied to that id; nothing else changes |
| `RuleForm.Editor.StartSubmit` | frontend/audience-manager-frontend/src/pages/RuleForm.tsx:132-157 | a rejected draft sets the validation error and issues no request; otherwise the error is cleared, submitting starts, and a create (new rule) or update (route id) carries the assembled payload |
| `RuleForm.Editor.CompleteSubmit` | frontend/audience-manager-frontend/src/pages/RuleForm.tsx:152-165 | success navigates to the rules list; failure sets the save error and keeps the draft; submitting ends |
| `RuleDetail.ParsedConditions` | frontend/audience-manager-frontend/src/pages/RuleDetail.tsx:16-32 | no rule or falsy conditions give `[]`; text gives the parse result, or `[]` when parsing fails; other truthy values are returned unchanged |
| `RuleDetail.EmptyTextSkipsParse` | frontend/audience-manager-frontend/src/pages/RuleDetail.tsx:17-19 | an empty string gives `[]` whatever the parser does |
| `RuleDetail.ParsedConditionsStable` | frontend/audience-manager-frontend/src/pages/RuleDetail.tsx:16-32 | decoding a rule whose conditions are already a truthy, non-text decode result gives that result again |
| `RuleDetail.ParsedIsListWhenParserIs` | frontend/audience-manager-frontend/src/pages/RuleDetail.tsx:16-32 | when the parser yields only arrays and the field is an array, text or falsy, the page ends with an array |
| `RuleDetail.AgreesWithEditPage` | frontend/audience-manager-frontend/src/pages/RuleDetail.tsx:31 | for array conditions the detail page shows exactly the list the edit page loads and would send back |
| `RuleDetail.TextDisagreesWithEditPage` | frontend/audience-manager-frontend/src/pages/RuleForm.tsx:86-89 | for conditions stored as JSON text the edit page keeps its current rows (none when freshly opened), while the detail page shows the parsed non-empty list |
| `RuleDetail.RenderCondition` | frontend/audience-manager-frontend/src/pages/RuleDetail.tsx:68-82 | field, operator and `String(value)` are shown; `AND` and `String(value2)` follow iff `value2` is truthy; the text `0` alone follows iff `value2` is the number 0; nothing follows for any other falsy `value2` |
| `RuleDetail.EmptySecondValueHidden` | frontend/audience-manager-frontend/src/pages/RuleDetail.tsx:74-79 | an empty or missing `value2` shows no second part |
| `RuleDetail.ZeroSecondValuePrinted` | frontend/audience-manager-frontend/src/pages/RuleDetail.tsx:74-79 | a `value2` of 0 shows no `AND` part but prints `0` after the value |
| `Dashboard.RowCount` | frontend/audience-manager-frontend/src/pages/Dashboard.tsx:44 | a missing count contributes 0, a present one its value |
| `Dashboard.ReduceRowCounts` | frontend/audience-manager-frontend/src/pages/Dashboard.tsx:43-46 | with non-negative counts the fold never ends below its start; with all counts zero it ends at its start |
| `Dashboard.ReduceIsSum` | frontend/audience-manager-frontend/src/pages/Dashboard.tsx:43-46 | the left-fold `reduce` from `acc` equals `acc` plus the sum of the row counts |
| `Dashboard.SumAppend` | frontend/audience-manager-frontend/src/pages/Dashboard.tsx:43-46 | the total of two lists is the sum of their totals |
| `Dashboard.SumBoundsEach` | frontend/audience-manager-frontend/src/pages/Dashboard.tsx:43-46 | with non-negative counts, every segment's count lies between 0 and the total |
| `Dashboard.SumNonNegative` | frontend/audience-manager-frontend/src/pages/Dashboard.tsx:43-46 | with non-negative counts, the total is non-negative |
| `Dashboard.Take` | frontend/audience-manager-frontend/src/pages/Dashboard.tsx:50-51 | `slice(0, k)` has `min(k, n)` elements, each equal to the input's at the same index |
| `Dashboard.ComputeView` | frontend/audience-manager-frontend/src/pages/Dashboard.tsx:37-51 | totals are `total_items` or 0; the user total is the sum of row counts (0 with no items); the recent lists are the first 3 segments and the first 5 rules |
| `Dashboard.AfterFetch` | frontend/audience-manager-frontend/src/pages/Dashboard.tsx:27-57 | a failed fetch leaves the initial zero view; a successful one stores the computed view |
| `Api.PageItems` | frontend/audience-manager-frontend/src/pages/Dashboard.tsx:37-38 | missing items are an empty list, present items are kept |
| `Segments.RuleMapOf` | frontend/audience-manager-frontend/src/pages/Segments.tsx:24-27 | every entry of the map is the id and name of some listed rule |
| `Segments.RuleMapLastWins` | frontend/audience-manager-frontend/src/pages/Segments.tsx:24-27 | the keys are exactly the listed ids, and each holds the name of the last rule with that id |
| `Segments.BuildRuleMap` | frontend/audience-manager-frontend/src/pages/Segments.tsx:23-28 | the loop builds that map: every listed id is a key, no other, and the last rule with an id wins |
| `Segments.DependencyLabel` | frontend/audience-manager-frontend/src/pages/Segments.tsx:48 | the mapped name when present and non-empty, else `Rule #` and the id |
| `Segments.FallbackLabelsDiffer` | frontend/audience-manager-frontend/src/pages/Segments.tsx:48 | two different ids never share a fallback label |
| `Segments.OperationText` | frontend/audience-manager-frontend/src/pages/Segments.tsx:52 | the upper-cased operation between spaces when the operation is truthy, else ` & ` |
| `Segments.Links` | frontend/audience-manager-frontend/src/pages/Segments.tsx:46-50 | one link per dependency, in order, with that dependency's label |
| `Segments.Interleave` | frontend/audience-manager-frontend/src/pages/Segments.tsx:56-58 | the reduce adds two pieces per remaining link and keeps its accumulator as a prefix |
| `Segments.InterleaveShape` | frontend/audience-manager-frontend/src/pages/Segments.tsx:56-58 | the reduce appends each link followed by the separator, or by nothing after the last link |
| `Segments.InterleaveSeparators` | frontend/audience-manager-frontend/src/pages/Segments.tsx:56-58 | for n links the reduce inserts exactly n - 1 separators |
| `Segments.RenderDependencies` | frontend/audience-manager-frontend/src/pages/Segments.tsx:41-61 | `Direct` iff dependencies are absent or empty; otherwise 2n pieces: the n labels in order, each followed by the separator except the last, n - 1 separators in all |
| `Js.IntToString` | frontend/audience-manager-frontend/src/pages/Segments.tsx:48 | `${depId}` is non-empty, starts with `-` exactly for a negative integer, and is all digits otherwise |
| `Js.IntToStringRoundTrip` | frontend/audience-manager-frontend/src/pages/Segments.tsx:48 | the text of an integer reads back as that integer |
| `Js.IntToStringInjective` | frontend/audience-manager-frontend/src/pages/Segments.tsx:48 | different integers have different texts |
| `Js.ToUpper` | frontend/audience-manager-frontend/src/pages/Segments.tsx:52 | same length, each ASCII lower-case letter mapped to upper case, every other character kept |
| `Js.ToUpperIdempotent` | frontend/audience-manager-frontend/src/pages/Segments.tsx:52 | upper-casing twice equals once, and leaves no ASCII lower-case letter |
| `Js.ToDisplayString` | frontend/audience-manager-frontend/src/pages/RuleDetail.tsx:73 | `String(v)` of a string is the string, of an integer its decimal text |

## Left out

- HTTP calls, `useEffect` scheduling, `Promise.all` and navigation: each request's outcome is a parameter, and navigation is a returned flag.
- Rule create/edit: the text of the save error (the server's message or the fallback sentence) is not modelled; a failed save sets an abstract `SaveFailed` error.
- Rule create/edit: the intermediate render while a request is pending is visible only as `isSubmitting` between `StartSubmit` and `CompleteSubmit`; the disabled submit button is not modelled.
- Rule create/edit: the tier option list and all rendering (input types, placeholders, labels, CSS) are presentation.
- Rule create/edit: `handleConditionChange` with the `id` key is not modelled; no control of the page issues it.
- JavaScript numbers are modelled as integers: fractions, `NaN` and float formatting in `String(v)` are not captured; arrays inside a condition value are not modelled.
- Js.ToUpper: only ASCII letters are upper-cased; full Unicode case mapping is not modelled.
- Lookups in the operator catalog by names inherited from JavaScript's object prototype (such as `toString`) are not modelled; only the four catalog types and "anything else" are.
- Error logging with `console.error` (on a failed load or save of a rule, a failed parse of its conditions, a failed dashboard fetch) has no effect on the page's state and is not modelled.
- How `JSON.parse` works is not modelled; it is an arbitrary partial function.
- Dashboard: `lastUpdated` (the wall clock) and number/date formatting are left out.
- The rules list page, segment detail page, lineage graph, layout and routing components are not part of this model.
