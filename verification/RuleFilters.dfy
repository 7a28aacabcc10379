/** Summaries of the rules in a datasource's rule groups, and the filters the listing applies to each page. */
module RuleFilters {
  import opened Sequences
  import opened Wrappers

  /** D is what a summary copies and no filter looks at. */
  datatype Rule<+D> =
    | Alerting(name: string, labels: map<string, string>, details: D)
    | Recording(name: string, labels: map<string, string>, details: D)
    | Other

  datatype Group<+D> = Group(file: string, name: string, rules: seq<Rule<D>>)

  datatype Summary<+D> = Summary(
    title: string,
    kind: string,
    namespace: string,
    ruleGroup: string,
    labels: map<string, string>,
    details: D)

  /** The summary of one rule; a rule of another type has none. */
  function Summarize<D>(group: Group<D>, rule: Rule<D>): seq<Summary<D>> {
    match rule
    case Alerting(name, labels, details) => [Summary(name, "alerting", group.file, group.name, labels, details)]
    case Recording(name, labels, details) => [Summary(name, "recording", group.file, group.name, labels, details)]
    case Other => []
  }

  function SummarizeRules<D>(group: Group<D>, rules: seq<Rule<D>>): seq<Summary<D>> {
    if rules == [] then []
    else SummarizeRules(group, rules[..|rules| - 1]) + Summarize(group, rules[|rules| - 1])
  }

  function Summaries<D>(groups: seq<Group<D>>): seq<Summary<D>> {
    if groups == [] then []
    else Summaries(groups[..|groups| - 1]) + SummarizeRules(groups[|groups| - 1], groups[|groups| - 1].rules)
  }

  /** The inner loop, over the rules of one group. */
  method AppendGroup<D>(rules: seq<Summary<D>>, group: Group<D>) returns (appended: seq<Summary<D>>)
    ensures appended == rules + SummarizeRules(group, group.rules)
  {
    hide Summarize;
    appended := rules;
    var j := 0;
    while j < |group.rules|
      invariant j <= |group.rules| && appended == rules + SummarizeRules(group, group.rules[..j])
    {
      assert group.rules[..j + 1][..j] == group.rules[..j];
      appended := appended + Summarize(group, group.rules[j]);
      j := j + 1;
    }
    assert group.rules[..j] == group.rules;
  }

  /** convertPrometheusRulesToSummary. */
  method ConvertToSummaries<D>(groups: seq<Group<D>>) returns (rules: seq<Summary<D>>)
    ensures rules == Summaries(groups)
  {
    hide SummarizeRules;
    rules := [];
    var i := 0;
    while i < |groups|
      invariant i <= |groups| && rules == Summaries(groups[..i])
    {
      assert groups[..i + 1][..i] == groups[..i];
      rules := AppendGroup(rules, groups[i]);
      i := i + 1;
    }
    assert groups[..i] == groups;
  }

  // ----- filters

  function KeepIf<S>(keep: S -> bool, rules: seq<S>): seq<S> {
    if rules == [] then []
    else KeepIf(keep, rules[..|rules| - 1]) + if keep(rules[|rules| - 1]) then [rules[|rules| - 1]] else []
  }

  /** As KeepIf, for a test that can fail: the first failure is the result. */
  function KeepChecked<S>(keep: S -> Result<bool, string>, rules: seq<S>): Result<seq<S>, string> {
    if rules == [] then Ok([])
    else match KeepChecked(keep, rules[..|rules| - 1])
      case Err(e) => Err(e)
      case Ok(kept) =>
        match keep(rules[|rules| - 1])
        case Err(e) => Err(e)
        case Ok(matches) => Ok(if matches then kept + [rules[|rules| - 1]] else kept)
  }

  predicate OccursAt(s: string, needle: string, i: int) {
    0 <= i <= |s| - |needle| && s[i..i + |needle|] == needle
  }

  /** strings.Contains. */
  predicate Contains(s: string, needle: string) {
    exists i | 0 <= i <= |s| - |needle| :: OccursAt(s, needle, i)
  }

  /** strings.ToLower and Selector.Matches, whose error result is Err. */
  datatype Library<!Sel> = Library(
    toLower: string -> string,
    matches: (Sel, map<string, string>) -> Result<bool, string>)

  /** All selectors match, tried in order up to the first that does not or fails. */
  function MatchesAll<Sel>(lib: Library<Sel>, selectors: seq<Sel>, labels: map<string, string>): Result<bool, string> {
    if selectors == [] then Ok(true)
    else match lib.matches(selectors[0], labels)
      case Err(e) => Err(e)
      case Ok(false) => Ok(false)
      case Ok(true) => MatchesAll(lib, selectors[1..], labels)
  }

  function OfType<D>(ruleType: string): Summary<D> -> bool {
    (s: Summary<D>) => s.kind == ruleType
  }

  function Named<Sel, D>(lib: Library<Sel>, name: string): Summary<D> -> bool {
    (s: Summary<D>) => Contains(lib.toLower(s.title), lib.toLower(name))
  }

  function Labelled<Sel, D>(lib: Library<Sel>, selectors: seq<Sel>): Summary<D> -> Result<bool, string> {
    (s: Summary<D>) => MatchesAll(lib, selectors, s.labels)
  }

  method FilterSummaryByRuleType<D>(summaries: seq<Summary<D>>, ruleType: string) returns (filtered: seq<Summary<D>>)
    ensures filtered == KeepIf(OfType(ruleType), summaries)
  {
    filtered := [];
    var i := 0;
    while i < |summaries|
      invariant i <= |summaries| && filtered == KeepIf(OfType(ruleType), summaries[..i])
    {
      assert summaries[..i + 1][..i] == summaries[..i];
      if summaries[i].kind == ruleType {
        filtered := filtered + [summaries[i]];
      }
      i := i + 1;
    }
    assert summaries[..i] == summaries;
  }

  method FilterSummaryByRuleName<Sel, D>(lib: Library<Sel>, summaries: seq<Summary<D>>, name: string)
    returns (filtered: seq<Summary<D>>)
    ensures filtered == KeepIf(Named(lib, name), summaries)
  {
    var needle := lib.toLower(name);
    filtered := [];
    var i := 0;
    while i < |summaries|
      invariant i <= |summaries| && filtered == KeepIf(Named(lib, name), summaries[..i])
    {
      assert summaries[..i + 1][..i] == summaries[..i];
      if Contains(lib.toLower(summaries[i].title), needle) {
        filtered := filtered + [summaries[i]];
      }
      i := i + 1;
    }
    assert summaries[..i] == summaries;
  }

  /** The loop over the selectors for one rule. */
  method MatchSelectors<Sel>(lib: Library<Sel>, selectors: seq<Sel>, labels: map<string, string>)
    returns (matches: Result<bool, string>)
    ensures matches == MatchesAll(lib, selectors, labels)
  {
    var i := 0;
    while i < |selectors|
      invariant i <= |selectors| && MatchesAll(lib, selectors, labels) == MatchesAll(lib, selectors[i..], labels)
    {
      var m := lib.matches(selectors[i], labels);
      if m.Err? {
        return m;
      }
      if !m.value {
        return Ok(false);
      }
      assert selectors[i..][1..] == selectors[i + 1..];
      i := i + 1;
    }
    return Ok(true);
  }

  method FilterSummaryByLabels<Sel, D>(lib: Library<Sel>, summaries: seq<Summary<D>>, selectors: seq<Sel>)
    returns (filtered: Result<seq<Summary<D>>, string>)
    ensures filtered == KeepChecked(Labelled(lib, selectors), summaries)
  {
    var kept := [];
    var i := 0;
    while i < |summaries|
      invariant i <= |summaries| && KeepChecked(Labelled(lib, selectors), summaries[..i]) == Ok(kept)
    {
      assert summaries[..i + 1][..i] == summaries[..i];
      var m := MatchSelectors(lib, selectors, summaries[i].labels);
      if m.Err? {
        CheckedStops(Labelled<Sel, D>(lib, selectors), summaries, i);
        return Err(m.error);
      }
      if m.value {
        kept := kept + [summaries[i]];
      }
      i := i + 1;
    }
    assert summaries[..i] == summaries;
    return Ok(kept);
  }

  lemma {:induction false} CheckedStops<S>(keep: S -> Result<bool, string>, rules: seq<S>, i: nat)
    requires i < |rules| && KeepChecked(keep, rules[..i]).Ok? && keep(rules[i]).Err?
    ensures KeepChecked(keep, rules) == Err(keep(rules[i]).error)
  {
    var before := rules[..|rules| - 1];
    if i < |rules| - 1 {
      assert before[..i] == rules[..i];
      CheckedStops(keep, before, i);
    }
  }

  // ----- what a filter keeps

  ghost predicate Ascending(at: seq<nat>) {
    forall m, n | 0 <= m < n < |at| :: at[m] < at[n]
  }

  /** The places that a filter keeps, in their order, are all those and only those that pass the test. */
  ghost predicate KeepsExactly<S>(keep: S -> bool, rules: seq<S>, kept: seq<S>, at: seq<nat>) {
    && |at| == |kept| && Ascending(at)
    && (forall n | 0 <= n < |at| :: at[n] < |rules| && kept[n] == rules[at[n]])
    && (forall i: nat | i < |rules| :: keep(rules[i]) <==> i in at)
  }

  lemma KeepsOneMore<S>(keep: S -> bool, rules: seq<S>, kept: seq<S>, at: seq<nat>)
    requires rules != [] && KeepsExactly(keep, rules[..|rules| - 1], kept, at)
    ensures var last := |rules| - 1;
            if keep(rules[last]) then KeepsExactly(keep, rules, kept + [rules[last]], at + [last]) else KeepsExactly(keep, rules, kept, at)
  {
    var last := |rules| - 1;
    assert forall n | 0 <= n < |at| :: at[n] in at;
    assert forall i: nat | i < last :: i in at + [last] <==> i in at;
    assert last in at + [last];
  }

  lemma {:induction false} KeepIfKeepsExactly<S>(keep: S -> bool, rules: seq<S>) returns (at: seq<nat>)
    ensures KeepsExactly(keep, rules, KeepIf(keep, rules), at)
  {
    if rules == [] {
      at := [];
    } else {
      hide KeepsExactly;
      var before := rules[..|rules| - 1];
      at := KeepIfKeepsExactly(keep, before);
      KeepsOneMore(keep, rules, KeepIf(keep, before), at);
      if keep(rules[|rules| - 1]) {
        at := at + [|rules| - 1];
      } else {
        assert KeepIf(keep, before) + [] == KeepIf(keep, before);
      }
    }
  }

  /** A test that fails nowhere filters like its positive answers; otherwise the first failure is the result. */
  lemma {:induction false} KeepCheckedExactly<S>(keep: S -> Result<bool, string>, rules: seq<S>)
    ensures match KeepChecked(keep, rules)
            case Ok(kept) => (forall s | s in rules :: keep(s).Ok?) && kept == KeepIf(s => keep(s) == Ok(true), rules)
            case Err(e) =>
              exists i :: 0 <= i < |rules| && keep(rules[i]) == Err(e) && forall k | 0 <= k < i :: keep(rules[k]).Ok?
  {
    if rules != [] {
      var last := |rules| - 1;
      KeepCheckedExactly(keep, rules[..last]);
      assert rules == rules[..last] + [rules[last]];
      match KeepChecked(keep, rules[..last])
      case Ok(kept) =>
        assert forall k | 0 <= k < last :: rules[k] in rules[..last];
        assert keep(rules[last]).Err? ==> KeepChecked(keep, rules) == Err(keep(rules[last]).error);
      case Err(e) =>
        var i :| 0 <= i < last && keep(rules[..last][i]) == Err(e) && forall k | 0 <= k < i :: keep(rules[..last][k]).Ok?;
        assert rules[i] == rules[..last][i] && forall k | 0 <= k < i :: rules[k] == rules[..last][k];
    }
  }

  // ----- filtering pages is filtering their concatenation

  function Joined<S>(a: Result<seq<S>, string>, b: Result<seq<S>, string>): Result<seq<S>, string> {
    match a
    case Err(e) => Err(e)
    case Ok(x) => match b case Err(e) => Err(e) case Ok(y) => Ok(x + y)
  }

  /** Splitting off the last element of a concatenation. */
  lemma LastOf<T>(a: seq<T>, b: seq<T>)
    requires b != []
    ensures (a + b)[..|a + b| - 1] == a + b[..|b| - 1] && (a + b)[|a + b| - 1] == b[|b| - 1]
  {
  }

  lemma {:induction false} KeepIfDistributes<S>(keep: S -> bool, a: seq<S>, b: seq<S>)
    ensures KeepIf(keep, a + b) == KeepIf(keep, a) + KeepIf(keep, b)
  {
    if b == [] {
      assert a + b == a;
    } else {
      var last := if keep(b[|b| - 1]) then [b[|b| - 1]] else [];
      LastOf(a, b);
      KeepIfDistributes(keep, a, b[..|b| - 1]);
      Regroup(KeepIf(keep, a), KeepIf(keep, b[..|b| - 1]), last);
    }
  }

  lemma {:induction false} KeepCheckedDistributes<S>(keep: S -> Result<bool, string>, a: seq<S>, b: seq<S>)
    ensures KeepChecked(keep, a + b) == Joined(KeepChecked(keep, a), KeepChecked(keep, b))
  {
    if b == [] {
      assert a + b == a;
      if KeepChecked(keep, a).Ok? {
        assert KeepChecked(keep, a).value + [] == KeepChecked(keep, a).value;
      }
    } else {
      LastOf(a, b);
      KeepCheckedDistributes(keep, a, b[..|b| - 1]);
      if KeepChecked(keep, a).Ok? && KeepChecked(keep, b[..|b| - 1]).Ok? {
        Regroup(KeepChecked(keep, a).value, KeepChecked(keep, b[..|b| - 1]).value, [b[|b| - 1]]);
      }
    }
  }

  lemma {:induction false} SummariesDistribute<D>(a: seq<Group<D>>, b: seq<Group<D>>)
    ensures Summaries(a + b) == Summaries(a) + Summaries(b)
  {
    hide SummarizeRules;
    if b == [] {
      assert a + b == a;
    } else {
      var last := SummarizeRules(b[|b| - 1], b[|b| - 1].rules);
      LastOf(a, b);
      SummariesDistribute(a, b[..|b| - 1]);
      Regroup(Summaries(a), Summaries(b[..|b| - 1]), last);
    }
  }
}
