/** Which rules a page filter keeps, and which requests a listing makes, told without the filter and the scan. */
module ListingLaws {
  import opened Wrappers
  import opened RuleFilters
  import opened RuleFilterLaws
  import opened RuleListing

  // ----- filters one after the other

  lemma {:induction false} KeepIfSame<S>(f: S -> bool, g: S -> bool, rules: seq<S>)
    requires forall s | s in rules :: f(s) == g(s)
    ensures KeepIf(f, rules) == KeepIf(g, rules)
  {
    if rules != [] {
      KeepIfSame(f, g, rules[..|rules| - 1]);
    }
  }

  lemma {:induction false} KeepIfTwice<S>(f: S -> bool, g: S -> bool, both: S -> bool, rules: seq<S>)
    requires forall s | s in rules :: both(s) == (g(s) && f(s))
    ensures KeepIf(f, KeepIf(g, rules)) == KeepIf(both, rules)
  {
    if rules != [] {
      var last := rules[|rules| - 1];
      KeepIfTwice(f, g, both, rules[..|rules| - 1]);
      if g(last) {
        var kept := KeepIf(g, rules[..|rules| - 1]);
        assert (kept + [last])[..|kept|] == kept;
      } else {
        assert KeepIf(g, rules[..|rules| - 1]) + [] == KeepIf(g, rules[..|rules| - 1]);
      }
    }
  }

  lemma {:induction false} CheckedKeeps<S>(keep: S -> Result<bool, string>, test: S -> bool, rules: seq<S>)
    requires forall s | s in rules :: (keep(s) == Ok(true)) == test(s)
    ensures KeepChecked(keep, rules).Ok? ==> KeepChecked(keep, rules).value == KeepIf(test, rules)
  {
    if rules != [] {
      CheckedKeeps(keep, test, rules[..|rules| - 1]);
      assert KeepIf(test, rules[..|rules| - 1]) + [] == KeepIf(test, rules[..|rules| - 1]);
    }
  }

  lemma {:induction false} KeptAreThere<S>(keep: S -> bool, rules: seq<S>, s: S)
    ensures s in KeepIf(keep, rules) <==> s in rules && keep(s)
  {
    if rules != [] {
      KeptAreThere(keep, rules[..|rules| - 1], s);
      assert rules == rules[..|rules| - 1] + [rules[|rules| - 1]];
    }
  }

  lemma {:induction false} KeepAll<S>(keep: S -> bool, rules: seq<S>)
    requires forall s | s in rules :: keep(s)
    ensures KeepIf(keep, rules) == rules
  {
    if rules != [] {
      KeepAll(keep, rules[..|rules| - 1]);
      assert rules == rules[..|rules| - 1] + [rules[|rules| - 1]];
    }
  }

  // ----- what a page filter keeps

  /** Of the type that is asked for, and with the name that is asked for in its title, both in lower case. */
  ghost predicate Wanted<Sel, D>(lib: Library<Sel>, opts: Option<Options>, s: Summary<D>) {
    opts.Some? ==>
      && (opts.value.ruleType != "" ==> s.kind == opts.value.ruleType)
      && (opts.value.ruleName != "" ==> exists a, b :: lib.toLower(s.title) == a + (lib.toLower(opts.value.ruleName) + b))
  }

  ghost predicate AllMatch<Sel, D>(lib: Library<Sel>, selectors: seq<Sel>, s: Summary<D>) {
    forall sel | sel in selectors :: lib.matches(sel, s.labels) == Ok(true)
  }

  /** What a page filter lets through. */
  ghost function Passing<Sel, D>(lib: Library<Sel>, opts: Option<Options>, selectors: seq<Sel>): Summary<D> -> bool {
    s => Wanted(lib, opts, s) && AllMatch(lib, selectors, s)
  }

  lemma WantedIs<Sel, D>(lib: Library<Sel>, opts: Option<Options>, rules: seq<Summary<D>>)
    ensures OfOptionalName(lib, opts, OfOptionalType(opts, rules)) == KeepIf(Passing(lib, opts, []), rules)
  {
    hide KeepIf, Contains;
    var wanted := Passing<Sel, D>(lib, opts, []);
    if opts.None? {
      KeepAll(wanted, rules);
    } else {
      var typed, named := OfType<D>(opts.value.ruleType), Named<Sel, D>(lib, opts.value.ruleName);
      forall s | s in rules
        ensures named(s) <==> exists a, b :: lib.toLower(s.title) == a + (lib.toLower(opts.value.ruleName) + b)
      {
        NamedMeans(lib, opts.value.ruleName, s);
      }
      if opts.value.ruleType == "" && opts.value.ruleName == "" {
        KeepAll(wanted, rules);
      } else if opts.value.ruleType == "" {
        KeepIfSame(named, wanted, rules);
      } else if opts.value.ruleName == "" {
        KeepIfSame(typed, wanted, rules);
      } else {
        KeepIfTwice(named, typed, wanted, rules);
      }
    }
  }

  /** The rules kept of a page are, in order, the wanted ones that all selectors match; only on a wanted one can a selector fail. */
  lemma FilteredIs<Sel, D>(lib: Library<Sel>, opts: Option<Options>, selectors: seq<Sel>, groups: seq<Group<D>>)
    ensures match Filtered(lib, opts, selectors, groups)
            case Ok(kept) => kept == KeepIf(Passing(lib, opts, selectors), Summaries(groups))
            case Err(e) =>
              exists s, sel :: s in Summaries(groups) && Wanted(lib, opts, s) && sel in selectors && lib.matches(sel, s.labels) == Err(e)
  {
    hide KeepIf, KeepChecked, Wanted, MatchesAll;
    var rules, wanted := Summaries(groups), Passing<Sel, D>(lib, opts, []);
    WantedIs(lib, opts, rules);
    if selectors != [] {
      LabelledIs(lib, selectors, KeepIf(wanted, rules));
      match Filtered(lib, opts, selectors, groups)
      case Ok(kept) =>
        KeepIfTwice(Passing(lib, None, selectors), wanted, Passing(lib, opts, selectors), rules) by {
          assert forall s: Summary<D> :: Wanted(lib, None, s) by { NothingAsked<Sel, D>(lib); }
        }
      case Err(e) =>
        var s, sel :| s in KeepIf(wanted, rules) && sel in selectors && lib.matches(sel, s.labels) == Err(e);
        KeptAreThere(wanted, rules, s);
    }
  }

  lemma NothingAsked<Sel, D>(lib: Library<Sel>)
    ensures forall s: Summary<D> :: Wanted(lib, None, s)
  {
  }

  lemma LabelledIs<Sel, D>(lib: Library<Sel>, selectors: seq<Sel>, page: seq<Summary<D>>)
    ensures match KeepChecked(Labelled(lib, selectors), page)
            case Ok(kept) => kept == KeepIf(Passing(lib, None, selectors), page)
            case Err(e) => exists s, sel :: s in page && sel in selectors && lib.matches(sel, s.labels) == Err(e)
  {
    hide KeepIf, KeepChecked, MatchesAll;
    var labelled := Labelled<Sel, D>(lib, selectors);
    forall s | s in page
      ensures (labelled(s) == Ok(true)) == AllMatch(lib, selectors, s)
    {
      MatchesAllMeans(lib, selectors, s.labels);
    }
    CheckedKeeps(labelled, Passing(lib, None, selectors), page);
    KeepCheckedExactly(labelled, page);
    if KeepChecked(labelled, page).Err? {
      var e := KeepChecked(labelled, page).error;
      var i :| 0 <= i < |page| && labelled(page[i]) == Err(e);
      MatchesAllMeans(lib, selectors, page[i].labels);
      var k :| 0 <= k < |selectors| && MatchesAll(lib, selectors, page[i].labels) == lib.matches(selectors[k], page[i].labels);
      assert page[i] in page && selectors[k] in selectors;
    }
  }

  // ----- the requests of a listing

  /** The i-th answer is the i-th page and the token of the next request. */
  ghost predicate Leads<D>(backend: Backend<D>, n: nat, chain: seq<string>, pages: seq<seq<Group<D>>>, i: nat)
    requires i + 1 < |chain| && i < |pages|
  {
    chain[i + 1] != "" && backend(n + i, chain[i]) == Ok(Page(pages[i], chain[i + 1]))
  }

  /** Each request after the first asks with the token that the answer before it gave, a new one. */
  ghost predicate Chained<D>(backend: Backend<D>, n: nat, chain: seq<string>, pages: seq<seq<Group<D>>>) {
    && 0 < |chain| <= |pages| + 1
    && (forall i: nat | i < |chain| - 1 :: Leads(backend, n, chain, pages, i))
    && (forall i, j | 1 <= i < j < |chain| :: chain[i] != chain[j])
  }

  /** The listing ends with the last page, a failure, or a token that was already used. */
  ghost predicate EndsThere<D>(backend: Backend<D>, n: nat, chain: seq<string>, seen: set<string>, raw: Listing<seq<Group<D>>>)
    requires chain != []
  {
    var last := |chain| - 1;
    match backend(n + last, chain[last])
    case Err(e) => |raw.rules| == last && raw.ending == Stopped(FetchFailed(e))
    case Ok(page) =>
      && |raw.rules| == last + 1 && raw.rules[last] == page.groups
      && if page.nextToken == "" then raw.ending == Complete
         else raw.ending == Stopped(RepeatedToken) && (page.nextToken in seen || page.nextToken in chain[1..])
  }

  lemma {:induction false} RequestsAre<D>(backend: Backend<D>, tokens: set<string>, n: nat, token: string, seen: set<string>)
    returns (chain: seq<string>)
    requires HandsOut(backend, tokens) && seen <= tokens
    ensures var raw := RawScan(backend, tokens, n, token, seen);
            && Chained(backend, n, chain, raw.rules) && chain[0] == token && EndsThere(backend, n, chain, seen, raw)
            && forall i | 1 <= i < |chain| :: chain[i] !in seen
    decreases |tokens - seen|
  {
    chain := [token];
    assert chain[1..] == [];
    if backend(n, token).Ok? {
      var page := backend(n, token).value;
      if page.nextToken != "" && page.nextToken !in seen {
        FewerTokens(tokens, seen, page.nextToken);
        var seen' := seen + {page.nextToken};
        var more := RequestsAre(backend, tokens, n + 1, page.nextToken, seen');
        ChainGrows(backend, n, token, more, seen, page, RawScan(backend, tokens, n + 1, page.nextToken, seen'));
        chain := [token] + more;
      }
    }
  }

  lemma ChainGrows<D>(backend: Backend<D>, n: nat, token: string, more: seq<string>, seen: set<string>, page: Page<D>,
                      rest: Listing<seq<Group<D>>>)
    requires backend(n, token) == Ok(page) && page.nextToken != "" && page.nextToken !in seen
    requires Chained(backend, n + 1, more, rest.rules) && more[0] == page.nextToken
    requires EndsThere(backend, n + 1, more, seen + {page.nextToken}, rest)
    requires forall i | 1 <= i < |more| :: more[i] !in seen + {page.nextToken}
    ensures var raw, chain := After([page.groups], rest), [token] + more;
            && Chained(backend, n, chain, raw.rules) && EndsThere(backend, n, chain, seen, raw)
            && forall i | 1 <= i < |chain| :: chain[i] !in seen
  {
    hide Leads, EndsThere;
    var raw, chain := After([page.groups], rest), [token] + more;
    assert forall i | 1 <= i < |chain| :: chain[i] == more[i - 1];
    EndMoves(backend, n, token, more, seen, page, rest);
    forall i: nat | i < |chain| - 1
      ensures Leads(backend, n, chain, raw.rules, i)
    {
      LeadMoves(backend, n, token, more, page, rest.rules, i);
    }
  }

  lemma LeadMoves<D>(backend: Backend<D>, n: nat, token: string, more: seq<string>, page: Page<D>, pages: seq<seq<Group<D>>>, i: nat)
    requires backend(n, token) == Ok(page) && page.nextToken != "" && i < |more| <= |pages| + 1 && more[0] == page.nextToken
    requires i > 0 ==> Leads(backend, n + 1, more, pages, i - 1)
    ensures Leads(backend, n, [token] + more, [page.groups] + pages, i)
  {
    if i > 0 {
      assert n + 1 + (i - 1) == n + i;
    }
  }

  lemma EndMoves<D>(backend: Backend<D>, n: nat, token: string, more: seq<string>, seen: set<string>, page: Page<D>,
                    rest: Listing<seq<Group<D>>>)
    requires more != [] && more[0] == page.nextToken && EndsThere(backend, n + 1, more, seen + {page.nextToken}, rest)
    ensures EndsThere(backend, n, [token] + more, seen, After([page.groups], rest))
  {
    assert ([token] + more)[1..] == more && more[0] in more;
    assert forall t | t in more[1..] :: t in more;
    assert n + 1 + (|more| - 1) == n + (|[token] + more| - 1);
  }
}
