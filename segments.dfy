/** The segments list page: the lookup from rule id to rule name, and the
    "Depends On" cell that names a segment's source rules joined by its
    set operation. */
module Segments {
  import opened Js
  import opened Api

  /** The map the `forEach` over the rules builds: each rule's id bound to
      its name, a later rule overriding an earlier one with the same id. */
  function RuleMapOf(rules: seq<Rule>): (m: map<int, string>)
    ensures forall id :: id in m ==> exists k :: 0 <= k < |rules| && rules[k].id == id && m[id] == rules[k].ruleName
    decreases |rules|
  {
    if rules == [] then map[]
    else RuleMapOf(rules[..|rules| - 1])[rules[|rules| - 1].id := rules[|rules| - 1].ruleName]
  }

  /** No rule after position `i` has rule `i`'s id. */
  predicate LastWithId(rules: seq<Rule>, i: nat)
    requires i < |rules|
  {
    forall j :: i < j < |rules| ==> rules[j].id != rules[i].id
  }

  /** Every listed id is a key, only listed ids are keys, and each key holds
      the name of the last rule with that id. */
  lemma RuleMapLastWins(rules: seq<Rule>)
    ensures RuleMapOf(rules).Keys == set r | r in rules :: r.id
    ensures forall i :: 0 <= i < |rules| && LastWithId(rules, i) ==>
              RuleMapOf(rules)[rules[i].id] == rules[i].ruleName
  {
    RuleMapKeys(rules);
    RuleMapValues(rules);
  }

  lemma {:induction false} RuleMapKeys(rules: seq<Rule>)
    ensures RuleMapOf(rules).Keys == set r | r in rules :: r.id
    decreases |rules|
  {
    if rules != [] {
      var n := |rules| - 1;
      var init := rules[..n];
      RuleMapKeys(init);
      assert rules == init + [rules[n]];
      assert (set r | r in rules :: r.id) == (set r | r in init :: r.id) + {rules[n].id};
    }
  }

  lemma {:induction false} RuleMapValues(rules: seq<Rule>)
    ensures forall i :: 0 <= i < |rules| && LastWithId(rules, i) ==>
              rules[i].id in RuleMapOf(rules) && RuleMapOf(rules)[rules[i].id] == rules[i].ruleName
    decreases |rules|
  {
    if rules != [] {
      var n := |rules| - 1;
      var init := rules[..n];
      RuleMapKeys(init);
      RuleMapValues(init);
      forall i | 0 <= i < |rules| && LastWithId(rules, i)
        ensures rules[i].id in RuleMapOf(rules) && RuleMapOf(rules)[rules[i].id] == rules[i].ruleName
      {
        if i < n {
          assert rules[i] == init[i];
          assert LastWithId(init, i);
          assert rules[n].id != rules[i].id;
        }
      }
    }
  }

  /** `fetchData`'s loop: a fresh map, then `set(rule.id, rule.rule_name)`
      for each rule in order. */
  method BuildRuleMap(rules: seq<Rule>) returns (ruleMap: map<int, string>)
    ensures ruleMap == RuleMapOf(rules)
    ensures ruleMap.Keys == set r | r in rules :: r.id
    ensures forall i :: 0 <= i < |rules| && LastWithId(rules, i) ==> ruleMap[rules[i].id] == rules[i].ruleName
  {
    ruleMap := map[];
    for i := 0 to |rules|
      invariant ruleMap == RuleMapOf(rules[..i])
    {
      assert rules[..i + 1][..i] == rules[..i];
      ruleMap := ruleMap[rules[i].id := rules[i].ruleName];
    }
    assert rules[..|rules|] == rules;
    RuleMapLastWins(rules);
  }

  /** One element of the "Depends On" cell. `Nothing` is the `null` the
      reduce puts after the last link, which renders as nothing. */
  datatype Piece = RuleLink(ruleId: int, text: string) | Separator(text: string) | Nothing

  datatype DependencyCell = Direct | Chain(pieces: seq<Piece>)

  /** `ruleMap.get(depId) || \`Rule #${depId}\``: an unknown id, or a rule
      with an empty name, falls back to the id. */
  function DependencyLabel(ruleMap: map<int, string>, depId: int): (text: string)
    ensures depId in ruleMap && ruleMap[depId] != "" ==> text == ruleMap[depId]
    ensures depId !in ruleMap || ruleMap[depId] == "" ==> text == "Rule #" + IntToString(depId)
  {
    if depId in ruleMap && ruleMap[depId] != "" then ruleMap[depId] else "Rule #" + IntToString(depId)
  }

  /** Two different ids never share a fallback label. */
  lemma FallbackLabelsDiffer(a: int, b: int)
    requires "Rule #" + IntToString(a) == "Rule #" + IntToString(b)
    ensures a == b
  {
    var p := "Rule #";
    assert ("Rule #" + IntToString(a))[|p|..] == IntToString(a);
    assert ("Rule #" + IntToString(b))[|p|..] == IntToString(b);
    IntToStringInjective(a, b);
  }

  /** The separator: the upper-cased operation between spaces, or ` & `
      when there is no operation. */
  function OperationText(operation: Option<string>): (text: string)
    ensures operation.Some? && operation.value != "" ==> text == " " + ToUpper(operation.value) + " "
    ensures operation.None? || operation.value == "" ==> text == " & "
  {
    if operation.Some? && operation.value != "" then " " + ToUpper(operation.value) + " " else " & "
  }

  /** `dependencies.map(depId => <Link …>)`. */
  function Links(ruleMap: map<int, string>, deps: seq<int>): (r: seq<Piece>)
    ensures |r| == |deps|
    ensures forall k :: 0 <= k < |deps| ==> r[k] == RuleLink(deps[k], DependencyLabel(ruleMap, deps[k]))
  {
    seq(|deps|, k requires 0 <= k < |deps| => RuleLink(deps[k], DependencyLabel(ruleMap, deps[k])))
  }

  /** `links.reduce((prev, curr, i) => [...prev, curr, i < n - 1 ? sep : null], acc)`
      from index `i` on. */
  function Interleave(acc: seq<Piece>, links: seq<Piece>, i: nat, sep: string): (r: seq<Piece>)
    requires i <= |links|
    ensures |r| == |acc| + 2 * (|links| - i)
    ensures r[..|acc|] == acc
    decreases |links| - i
  {
    if i == |links| then acc
    else Interleave(acc + [links[i], if i < |links| - 1 then Separator(sep) else Nothing], links, i + 1, sep)
  }

  /** The reduce appends, for each link from `i` on, the link followed by a
      separator, or by `Nothing` after the last link. */
  lemma {:induction false} InterleaveShape(acc: seq<Piece>, links: seq<Piece>, i: nat, sep: string)
    requires i <= |links|
    ensures var r := Interleave(acc, links, i, sep);
            && |r| == |acc| + 2 * (|links| - i)
            && r[..|acc|] == acc
            && forall k :: i <= k < |links| ==>
                 && r[|acc| + 2 * (k - i)] == links[k]
                 && r[|acc| + 2 * (k - i) + 1] == if k < |links| - 1 then Separator(sep) else Nothing
    decreases |links| - i
  {
    if i < |links| {
      var step := acc + [links[i], if i < |links| - 1 then Separator(sep) else Nothing];
      InterleaveShape(step, links, i + 1, sep);
      var r := Interleave(step, links, i + 1, sep);
      assert r == Interleave(acc, links, i, sep);
      assert r[..|step|][..|acc|] == r[..|acc|];
      forall k | i <= k < |links|
        ensures r[|acc| + 2 * (k - i)] == links[k]
        ensures r[|acc| + 2 * (k - i) + 1] == if k < |links| - 1 then Separator(sep) else Nothing
      {
        if k == i {
          assert r[|acc|] == r[..|step|][|acc|] == step[|acc|];
          assert r[|acc| + 1] == r[..|step|][|acc| + 1] == step[|acc| + 1];
        } else {
          assert |acc| + 2 * (k - i) == |step| + 2 * (k - (i + 1));
        }
      }
    }
  }

  function CountSeparators(pieces: seq<Piece>): nat
  {
    if pieces == [] then 0
    else (if pieces[0].Separator? then 1 else 0) + CountSeparators(pieces[1..])
  }

  lemma {:induction false} CountSeparatorsAppend(a: seq<Piece>, b: seq<Piece>)
    ensures CountSeparators(a + b) == CountSeparators(a) + CountSeparators(b)
    decreases |a|
  {
    if a == [] {
      assert a + b == b;
    } else {
      assert (a + b)[1..] == a[1..] + b;
      CountSeparatorsAppend(a[1..], b);
    }
  }

  /** Among links, the reduce inserts one separator less than there are links. */
  lemma {:induction false} InterleaveSeparators(acc: seq<Piece>, links: seq<Piece>, i: nat, sep: string)
    requires i < |links|
    requires forall k :: 0 <= k < |links| ==> !links[k].Separator?
    ensures CountSeparators(Interleave(acc, links, i, sep)) == CountSeparators(acc) + (|links| - 1 - i)
    decreases |links| - i
  {
    var tail := if i < |links| - 1 then Separator(sep) else Nothing;
    var step := acc + [links[i], tail];
    CountSeparatorsAppend(acc, [links[i], tail]);
    assert [links[i], tail][1..] == [tail] && [tail][1..] == [];
    assert !links[i].Separator?;
    assert CountSeparators([tail]) == if i < |links| - 1 then 1 else 0;
    assert CountSeparators([links[i], tail]) == CountSeparators([tail]);
    if i < |links| - 1 {
      InterleaveSeparators(step, links, i + 1, sep);
    }
  }

  /** The whole reduce, from an empty accumulator: 2n pieces, the links at
      even positions, a separator after each but the last, n - 1 in all. */
  lemma ReduceFromStart(links: seq<Piece>, sep: string)
    requires |links| > 0
    requires forall k :: 0 <= k < |links| ==> !links[k].Separator?
    ensures var r := Interleave([], links, 0, sep);
            && |r| == 2 * |links|
            && CountSeparators(r) == |links| - 1
            && forall k :: 0 <= k < |links| ==>
                 r[2 * k] == links[k] && r[2 * k + 1] == if k < |links| - 1 then Separator(sep) else Nothing
  {
    var empty: seq<Piece> := [];
    InterleaveShape(empty, links, 0, sep);
    InterleaveSeparators(empty, links, 0, sep);
    var r := Interleave(empty, links, 0, sep);
    forall k | 0 <= k < |links|
      ensures r[2 * k] == links[k] && r[2 * k + 1] == if k < |links| - 1 then Separator(sep) else Nothing
    {
      assert |empty| + 2 * (k - 0) == 2 * k;
    }
  }

  /** `renderDependencies`. */
  function RenderDependencies(segment: Segment, ruleMap: map<int, string>): (cell: DependencyCell)
    ensures cell.Direct? <==> segment.dependencies.None? || segment.dependencies.value == []
    ensures cell.Chain? ==>
              var deps := segment.dependencies.value;
              var n := |deps|;
              && |cell.pieces| == 2 * n
              && CountSeparators(cell.pieces) == n - 1
              && forall k :: 0 <= k < n ==>
                   && cell.pieces[2 * k] == RuleLink(deps[k], DependencyLabel(ruleMap, deps[k]))
                   && cell.pieces[2 * k + 1] ==
                        if k < n - 1 then Separator(OperationText(segment.operation)) else Nothing
  {
    if segment.dependencies.None? || |segment.dependencies.value| == 0 then Direct
    else
      var links := Links(ruleMap, segment.dependencies.value);
      ReduceFromStart(links, OperationText(segment.operation));
      Chain(Interleave([], links, 0, OperationText(segment.operation)))
  }
}
