/** What a summary says of its rule, and what passes each filter. */
module RuleFilterLaws {
  import opened Wrappers
  import opened RuleFilters

  /** The summary carries what the rule and its group are called, and which of the two kinds of rule it is. */
  ghost predicate Summarizes<D>(s: Summary<D>, group: Group<D>, rule: Rule<D>) {
    && !rule.Other?
    && s.title == rule.name && s.labels == rule.labels && s.details == rule.details
    && s.namespace == group.file && s.ruleGroup == group.name
    && s.kind == (if rule.Recording? then "recording" else "alerting")
  }

  ghost predicate Listed<D>(rules: seq<Rule<D>>, at: seq<nat>) {
    && (forall m, n | 0 <= m < n < |at| :: at[m] < at[n])
    && (forall n | 0 <= n < |at| :: at[n] < |rules| && !rules[at[n]].Other?)
    && (forall i: nat | i < |rules| && !rules[i].Other? :: i in at)
  }

  lemma OneSummary<D>(group: Group<D>, rule: Rule<D>)
    ensures if rule.Other? then Summarize(group, rule) == []
            else |Summarize(group, rule)| == 1 && Summarizes(Summarize(group, rule)[0], group, rule)
  {
  }

  lemma ListedOneMore<D>(rules: seq<Rule<D>>, at: seq<nat>)
    requires rules != [] && Listed(rules[..|rules| - 1], at)
    ensures Listed(rules, if rules[|rules| - 1].Other? then at else at + [|rules| - 1])
  {
    var last := |rules| - 1;
    assert forall i | 0 <= i < last :: rules[..last][i] == rules[i];
    assert last in at + [last];
    assert forall i | i in at :: i in at + [last];
    assert forall n | 0 <= n < |at| :: at[n] < last;
  }

  lemma {:induction false} RulesAreSummarized<D>(group: Group<D>, rules: seq<Rule<D>>) returns (at: seq<nat>)
    ensures Listed(rules, at) && |at| == |SummarizeRules(group, rules)|
    ensures forall n | 0 <= n < |at| :: at[n] < |rules| && Summarizes(SummarizeRules(group, rules)[n], group, rules[at[n]])
  {
    hide Listed, Summarize, Summarizes;
    if rules == [] {
      at := [];
      NothingListed<D>();
    } else {
      var last := |rules| - 1;
      at := RulesAreSummarized(group, rules[..last]);
      assert forall i | 0 <= i < last :: rules[..last][i] == rules[i];
      ListedOneMore(rules, at);
      OneSummary(group, rules[last]);
      if !rules[last].Other? {
        at := at + [last];
      }
    }
  }

  lemma NothingListed<D>()
    ensures Listed<D>([], [])
  {
  }

  /** Every alerting and recording rule of the groups has its own summary, in the order of the rules, and nothing else has. */
  lemma GroupIsSummarized<D>(before: seq<Group<D>>, group: Group<D>, after: seq<Group<D>>) returns (at: seq<nat>)
    ensures Listed(group.rules, at)
    ensures var start := |Summaries(before)|;
            && Summaries(before + [group] + after) == Summaries(before) + Summaries([group]) + Summaries(after)
            && |Summaries([group])| == |at|
            && forall n | 0 <= n < |at| :: at[n] < |group.rules| && Summarizes(Summaries([group])[n], group, group.rules[at[n]])
  {
    hide Summarizes, Listed, SummarizeRules;
    SummariesDistribute(before + [group], after);
    SummariesDistribute(before, [group]);
    at := RulesAreSummarized(group, group.rules);
    assert [group][..0] == [] && Summaries([group]) == [] + SummarizeRules(group, group.rules);
    assert [] + SummarizeRules(group, group.rules) == SummarizeRules(group, group.rules);
  }

  // ----- what passes

  /** A name filter passes exactly the titles with the name somewhere in them, in lower case. */
  lemma NamedMeans<Sel, D>(lib: Library<Sel>, name: string, s: Summary<D>)
    ensures Named<Sel, D>(lib, name)(s) <==> exists a, b :: lib.toLower(s.title) == a + (lib.toLower(name) + b)
  {
    var title, needle := lib.toLower(s.title), lib.toLower(name);
    if Contains(title, needle) {
      var i :| 0 <= i <= |title| - |needle| && OccursAt(title, needle, i);
      assert title == title[..i] + (needle + title[i + |needle|..]);
    }
    if a, b :| title == a + (needle + b) {
      assert title[|a|..|a| + |needle|] == needle;
      assert OccursAt(title, needle, |a|);
    }
  }

  /** A type filter passes exactly the summaries of rules of that type. */
  lemma OfTypeMeans<D>(ruleType: string, s: Summary<D>, group: Group<D>, rule: Rule<D>)
    requires Summarizes(s, group, rule)
    ensures OfType(ruleType)(s) <==> (ruleType == "alerting" && rule.Alerting?) || (ruleType == "recording" && rule.Recording?)
  {
    assert "alerting" != "recording" by { assert "alerting"[0] != "recording"[0]; }
  }

  /** A label filter passes exactly when every selector matches, and otherwise the first that does not tells why. */
  lemma {:induction false} MatchesAllMeans<Sel>(lib: Library<Sel>, selectors: seq<Sel>, labels: map<string, string>)
    ensures MatchesAll(lib, selectors, labels) == Ok(true) <==> forall s | s in selectors :: lib.matches(s, labels) == Ok(true)
    ensures MatchesAll(lib, selectors, labels) != Ok(true) ==>
              exists k :: 0 <= k < |selectors| && MatchesAll(lib, selectors, labels) == lib.matches(selectors[k], labels)
                          && forall i | 0 <= i < k :: lib.matches(selectors[i], labels) == Ok(true)
  {
    if selectors != [] {
      var rest := selectors[1..];
      MatchesAllMeans(lib, rest, labels);
      assert selectors == [selectors[0]] + rest;
      if lib.matches(selectors[0], labels) == Ok(true) {
        if MatchesAll(lib, rest, labels) != Ok(true) {
          var k :| 0 <= k < |rest| && MatchesAll(lib, rest, labels) == lib.matches(rest[k], labels)
                   && forall i | 0 <= i < k :: lib.matches(rest[i], labels) == Ok(true);
          assert forall i | 1 <= i <= k + 1 :: selectors[i] == rest[i - 1];
        }
      } else {
        assert MatchesAll(lib, selectors, labels) == lib.matches(selectors[0], labels);
      }
    }
  }
}
