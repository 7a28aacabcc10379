/**
 The paginated listing of a datasource's rules: page after page until the limit, the last page or
 a token seen before, compared with filtering everything at once.
 */
module RuleListing {
  import opened Sequences
  import opened Wrappers
  import opened RuleFilters

  const DEFAULT_LIST_ALERT_RULES_LIMIT := 200
  const MAX_RULES_LIMIT := 200

  datatype Page<+D> = Page(groups: seq<Group<D>>, nextToken: string)

  /** The backend: what the n-th request answers to a token. It may answer differently each time. */
  type Backend<!D> = (nat, string) -> Result<Page<D>, string>

  datatype Options = Options(ruleType: string, ruleName: string, ruleLimit: int)

  datatype Error = FetchFailed(message: string) | FilterFailed(message: string) | RepeatedToken

  /** Every token the backend hands out is among these. */
  ghost predicate HandsOut<D>(backend: Backend<D>, tokens: set<string>) {
    forall n: nat, token: string | backend(n, token).Ok? :: backend(n, token).value.nextToken in tokens
  }

  /** What is done to each page. */
  type PageFilter<!D> = seq<Group<D>> -> Result<seq<Summary<D>>, string>

  function OfOptionalType<D>(opts: Option<Options>, page: seq<Summary<D>>): seq<Summary<D>> {
    if opts.Some? && opts.value.ruleType != "" then KeepIf(OfType(opts.value.ruleType), page) else page
  }

  function OfOptionalName<Sel, D>(lib: Library<Sel>, opts: Option<Options>, page: seq<Summary<D>>): seq<Summary<D>> {
    if opts.Some? && opts.value.ruleName != "" then KeepIf(Named(lib, opts.value.ruleName), page) else page
  }

  /** Type, then name, then labels. */
  function Filtered<Sel, D>(lib: Library<Sel>, opts: Option<Options>, selectors: seq<Sel>, groups: seq<Group<D>>)
    : Result<seq<Summary<D>>, string>
  {
    var page := OfOptionalName(lib, opts, OfOptionalType(opts, Summaries(groups)));
    if selectors != [] then KeepChecked(Labelled(lib, selectors), page) else Ok(page)
  }

  function Filter<Sel, D>(lib: Library<Sel>, opts: Option<Options>, selectors: seq<Sel>): PageFilter<D> {
    (groups: seq<Group<D>>) => Filtered(lib, opts, selectors, groups)
  }

  datatype Ending = Complete | Stopped(error: Error)

  /** What an unlimited scan collects, and why it ends. */
  datatype Listing<+S> = Listing(rules: seq<S>, ending: Ending)

  /** The scan from the n-th request on, without a limit. */
  function Scan<D>(backend: Backend<D>, filter: PageFilter<D>, ghost tokens: set<string>, n: nat, token: string, seen: set<string>)
    : Listing<Summary<D>>
    requires HandsOut(backend, tokens) && seen <= tokens
    decreases |tokens - seen|
  {
    match backend(n, token)
    case Err(e) => Listing([], Stopped(FetchFailed(e)))
    case Ok(page) =>
      match filter(page.groups)
      case Err(e) => Listing([], Stopped(FilterFailed(e)))
      case Ok(rules) =>
        if page.nextToken == "" then Listing(rules, Complete)
        else if page.nextToken in seen then Listing(rules, Stopped(RepeatedToken))
        else
          FewerTokens(tokens, seen, page.nextToken);
          var rest := Scan(backend, filter, tokens, n + 1, page.nextToken, seen + {page.nextToken});
          Listing(rules + rest.rules, rest.ending)
  }

  lemma FewerTokens(tokens: set<string>, seen: set<string>, token: string)
    requires token in tokens && token !in seen
    ensures |tokens - (seen + {token})| < |tokens - seen|
  {
    assert tokens - seen == (tokens - (seen + {token})) + {token};
  }

  /** The first limit rules, or the reason there are not as many. */
  function Limited<S>(listing: Listing<S>, limit: nat): Result<seq<S>, Error> {
    if |listing.rules| >= limit then Ok(listing.rules[..limit])
    else match listing.ending
      case Complete => Ok(listing.rules)
      case Stopped(error) => Err(error)
  }

  function LimitOf(opts: Option<Options>): (limit: nat)
    ensures 1 <= limit <= 200
    ensures limit == 200 || (opts.Some? && limit == opts.value.ruleLimit)
    ensures opts.Some? && 0 < opts.value.ruleLimit <= 200 ==> limit == opts.value.ruleLimit
  {
    if opts.Some? && opts.value.ruleLimit > 0 then
      if opts.value.ruleLimit < MAX_RULES_LIMIT then opts.value.ruleLimit else MAX_RULES_LIMIT
    else DEFAULT_LIST_ALERT_RULES_LIMIT
  }

  // ----- the loop as it runs

  method FilterPage<Sel, D>(lib: Library<Sel>, opts: Option<Options>, selectors: seq<Sel>, groups: seq<Group<D>>)
    returns (r: Result<seq<Summary<D>>, string>)
    ensures r == Filtered(lib, opts, selectors, groups)
  {
    var page := ConvertToSummaries(groups);
    if opts.Some? && opts.value.ruleType != "" {
      page := FilterSummaryByRuleType(page, opts.value.ruleType);
    }
    if opts.Some? && opts.value.ruleName != "" {
      page := FilterSummaryByRuleName(lib, page, opts.value.ruleName);
    }
    if |selectors| > 0 {
      r := FilterSummaryByLabels(lib, page, selectors);
      return r;
    }
    return Ok(page);
  }

  function After<S>(summaries: seq<S>, rest: Listing<S>): Listing<S> {
    Listing(summaries + rest.rules, rest.ending)
  }

  /** A page that fills the limit settles the result, whatever would have come after it. */
  lemma FullEnough<S>(summaries: seq<S>, page: seq<S>, rest: Listing<S>, limit: nat)
    requires |summaries| < limit <= |summaries| + |page|
    ensures Limited(After(summaries, After(page, rest)), limit) == Ok(summaries + page[..limit - |summaries|])
  {
    assert (summaries + (page + rest.rules))[..limit] == summaries + page[..limit - |summaries|];
  }

  lemma AfterTwice<S>(a: seq<S>, b: seq<S>, rest: Listing<S>)
    ensures After(a, After(b, rest)) == After(a + b, rest)
  {
    assert a + (b + rest.rules) == (a + b) + rest.rules;
  }

  /** One request, and the filters on its page. */
  method FetchPage<Sel, D>(backend: Backend<D>, lib: Library<Sel>, opts: Option<Options>, selectors: seq<Sel>, n: nat, token: string)
    returns (page: Result<(seq<Summary<D>>, string), Error>)
    ensures page == PageOf(backend, Filter(lib, opts, selectors), n, token)
  {
    var response := backend(n, token);
    if response.Err? {
      return Err(FetchFailed(response.error));
    }
    var filtered := FilterPage(lib, opts, selectors, response.value.groups);
    if filtered.Err? {
      return Err(FilterFailed(filtered.error));
    }
    return Ok((filtered.value, response.value.nextToken));
  }

  function PageOf<D>(backend: Backend<D>, filter: PageFilter<D>, n: nat, token: string)
    : Result<(seq<Summary<D>>, string), Error>
  {
    match backend(n, token)
    case Err(e) => Err(FetchFailed(e))
    case Ok(page) =>
      match filter(page.groups)
      case Err(e) => Err(FilterFailed(e))
      case Ok(rules) => Ok((rules, page.nextToken))
  }

  /** What is left of a scan after a page. */
  ghost function Beyond<D>(backend: Backend<D>, filter: PageFilter<D>, tokens: set<string>, n: nat, next: string, seen: set<string>)
    : Listing<Summary<D>>
    requires HandsOut(backend, tokens) && seen <= tokens && next in tokens
  {
    if next == "" then Listing([], Complete)
    else if next in seen then Listing([], Stopped(RepeatedToken))
    else Scan(backend, filter, tokens, n + 1, next, seen + {next})
  }

  lemma ScanStep<D>(backend: Backend<D>, filter: PageFilter<D>, tokens: set<string>, n: nat, token: string, seen: set<string>)
    requires HandsOut(backend, tokens) && seen <= tokens
    ensures match PageOf(backend, filter, n, token)
            case Err(e) => Scan(backend, filter, tokens, n, token, seen) == Listing([], Stopped(e))
            case Ok((rules, next)) =>
              && next in tokens
              && Scan(backend, filter, tokens, n, token, seen) == After(rules, Beyond(backend, filter, tokens, n, next, seen))
  {
    if PageOf(backend, filter, n, token).Ok? {
      var rules := PageOf(backend, filter, n, token).value.0;
      assert rules + [] == rules;
    }
  }

  /** listDatasourceAlertRules; that it returns at all is the point of tokens being finitely many. */
  method ListDatasourceAlertRules<Sel, D>(backend: Backend<D>, lib: Library<Sel>, opts: Option<Options>, selectors: seq<Sel>,
                                         ghost tokens: set<string>)
    returns (result: Result<seq<Summary<D>>, Error>)
    requires HandsOut(backend, tokens)
    ensures result == Limited(Scan(backend, Filter(lib, opts, selectors), tokens, 0, "", {}), LimitOf(opts))
  {
    hide Limited, Scan, PageOf, After, Filter, HandsOut;
    var limit := LimitOf(opts);
    ghost var filter: PageFilter<D> := Filter(lib, opts, selectors);
    ghost var whole := Scan(backend, filter, tokens, 0, "", {});
    var summaries: seq<Summary<D>> := [];
    var nextToken, seenTokens, calls: nat := "", {}, 0;
    EmptyBefore(whole);
    while true
      invariant |summaries| < limit && seenTokens <= tokens
      invariant Limited(whole, limit) == Limited(After(summaries, Scan(backend, filter, tokens, calls, nextToken, seenTokens)), limit)
      decreases |tokens - seenTokens|
    {
      ScanStep(backend, filter, tokens, calls, nextToken, seenTokens);
      var page := FetchPage(backend, lib, opts, selectors, calls, nextToken);
      if page.Err? {
        StopsHere(summaries, page.error, limit);
        return Err(page.error);
      }
      var (rules, next) := page.value;
      var remaining := limit - |summaries|;
      ghost var before := summaries;
      ghost var rest := Beyond(backend, filter, tokens, calls, next, seenTokens);
      summaries := summaries + rules[..if |rules| < remaining then |rules| else remaining];
      if |summaries| == limit {
        FullEnough(before, rules, rest, limit);
        return Ok(summaries);
      }
      assert summaries == before + rules;
      AfterTwice(before, rules, rest);
      if next == "" {
        CompleteHere(summaries, limit);
        return Ok(summaries);
      }
      if next in seenTokens {
        StopsHere(summaries, RepeatedToken, limit);
        return Err(RepeatedToken);
      }
      FewerTokens(tokens, seenTokens, next);
      seenTokens := seenTokens + {next};
      nextToken, calls := next, calls + 1;
    }
  }

  lemma EmptyBefore<S>(listing: Listing<S>)
    ensures After([], listing) == listing
  {
    assert [] + listing.rules == listing.rules;
  }

  lemma StopsHere<S>(summaries: seq<S>, error: Error, limit: nat)
    requires |summaries| < limit
    ensures Limited(After(summaries, Listing([], Stopped(error))), limit) == Err(error)
  {
  }

  lemma CompleteHere<S>(summaries: seq<S>, limit: nat)
    requires |summaries| < limit
    ensures Limited(After(summaries, Listing([], Complete)), limit) == Ok(summaries)
  {
    assert summaries + [] == summaries;
  }

  // ----- one shot instead of pages

  /** All pages, unfiltered, and why there are no more. */
  function RawScan<D>(backend: Backend<D>, ghost tokens: set<string>, n: nat, token: string, seen: set<string>): Listing<seq<Group<D>>>
    requires HandsOut(backend, tokens) && seen <= tokens
    decreases |tokens - seen|
  {
    match backend(n, token)
    case Err(e) => Listing([], Stopped(FetchFailed(e)))
    case Ok(page) =>
      if page.nextToken == "" then Listing([page.groups], Complete)
      else if page.nextToken in seen then Listing([page.groups], Stopped(RepeatedToken))
      else
        FewerTokens(tokens, seen, page.nextToken);
        After([page.groups], RawScan(backend, tokens, n + 1, page.nextToken, seen + {page.nextToken}))
  }

  /** The concatenation of all pages. */
  function Flatten<G>(pages: seq<seq<G>>): seq<G> {
    if pages == [] then [] else pages[0] + Flatten(pages[1..])
  }

  lemma FilteredDistributes<Sel, D>(lib: Library<Sel>, opts: Option<Options>, selectors: seq<Sel>, a: seq<Group<D>>, b: seq<Group<D>>)
    ensures Filtered(lib, opts, selectors, a + b) ==
            Joined(Filtered(lib, opts, selectors, a), Filtered(lib, opts, selectors, b))
  {
    hide Summaries, KeepIf, KeepChecked;
    SummariesDistribute(a, b);
    OptionalTypeDistributes(opts, Summaries(a), Summaries(b));
    var ta, tb := OfOptionalType(opts, Summaries(a)), OfOptionalType(opts, Summaries(b));
    OptionalNameDistributes(lib, opts, ta, tb);
    if selectors != [] {
      KeepCheckedDistributes(Labelled(lib, selectors), OfOptionalName(lib, opts, ta), OfOptionalName(lib, opts, tb));
    }
  }

  lemma OptionalTypeDistributes<D>(opts: Option<Options>, a: seq<Summary<D>>, b: seq<Summary<D>>)
    ensures OfOptionalType(opts, a + b) == OfOptionalType(opts, a) + OfOptionalType(opts, b)
  {
    if opts.Some? {
      KeepIfDistributes(OfType(opts.value.ruleType), a, b);
    }
  }

  lemma OptionalNameDistributes<Sel, D>(lib: Library<Sel>, opts: Option<Options>, a: seq<Summary<D>>, b: seq<Summary<D>>)
    ensures OfOptionalName(lib, opts, a + b) == OfOptionalName(lib, opts, a) + OfOptionalName(lib, opts, b)
  {
    if opts.Some? {
      KeepIfDistributes(Named(lib, opts.value.ruleName), a, b);
    }
  }

  lemma NothingFiltered<Sel, D>(lib: Library<Sel>, opts: Option<Options>, selectors: seq<Sel>)
    ensures Filtered<Sel, D>(lib, opts, selectors, []) == Ok([])
  {
  }

  /**
   The scan, up to a page k whose filtering fails or to the end, against filtering the concatenation of the pages
   before that at once.
   */
  ghost predicate UpTo<D>(scan: Listing<Summary<D>>, raw: Listing<seq<Group<D>>>, filter: PageFilter<D>, k: nat) {
    && k <= |raw.rules|
    && filter(Flatten(raw.rules[..k])) == Ok(scan.rules)
    && if k == |raw.rules| then scan.ending == raw.ending
       else filter(raw.rules[k]).Err? && scan.ending == Stopped(FilterFailed(filter(raw.rules[k]).error))
  }

  lemma UpToOneMore<Sel, D>(lib: Library<Sel>, opts: Option<Options>, selectors: seq<Sel>, page: seq<Group<D>>,
                            rules: seq<Summary<D>>, scan: Listing<Summary<D>>, raw: Listing<seq<Group<D>>>, k: nat)
    requires Filtered(lib, opts, selectors, page) == Ok(rules) && UpTo(scan, raw, Filter(lib, opts, selectors), k)
    ensures UpTo(After(rules, scan), After([page], raw), Filter(lib, opts, selectors), k + 1)
  {
    hide Filtered, Flatten;
    var pages := [page] + raw.rules;
    assert pages[..k + 1] == [page] + raw.rules[..k];
    FlattenCons(page, raw.rules[..k]);
    FilteredDistributes(lib, opts, selectors, page, Flatten(raw.rules[..k]));
    if k < |raw.rules| {
      assert pages[k + 1] == raw.rules[k];
    }
  }

  lemma FlattenCons<G>(page: seq<G>, pages: seq<seq<G>>)
    ensures Flatten([page] + pages) == page + Flatten(pages)
  {
    assert ([page] + pages)[1..] == pages;
  }

  lemma UpToFirst<Sel, D>(lib: Library<Sel>, opts: Option<Options>, selectors: seq<Sel>, page: seq<Group<D>>, ending: Ending)
    ensures var filter := Filter(lib, opts, selectors);
            match Filtered(lib, opts, selectors, page)
            case Ok(rules) => UpTo(Listing(rules, ending), Listing([page], ending), filter, 1)
            case Err(e) => forall pages, other :: UpTo(Listing([], Stopped(FilterFailed(e))), Listing([page] + pages, other), filter, 0)
  {
    hide Filtered;
    NothingFiltered<Sel, D>(lib, opts, selectors);
    assert [page][..1] == [page] && [page] + [] == [page];
    FlattenCons(page, []);
    assert page + [] == page;
  }

  lemma UpToNothing<Sel, D>(lib: Library<Sel>, opts: Option<Options>, selectors: seq<Sel>, ending: Ending)
    ensures UpTo(Listing([], ending), Listing<seq<Group<D>>>.Listing([], ending), Filter(lib, opts, selectors), 0)
  {
    hide Filtered;
    NothingFiltered<Sel, D>(lib, opts, selectors);
  }

  /**
   Filtering page by page is filtering the concatenation of all pages: the same rules in the same order and the same
   ending. If a label selector fails somewhere, it is so for the pages before that one, and the ending is that failure.
   */
  lemma {:induction false} PagingIsOneShot<Sel, D>(backend: Backend<D>, lib: Library<Sel>, opts: Option<Options>, selectors: seq<Sel>,
                                                   tokens: set<string>, n: nat, token: string, seen: set<string>) returns (k: nat)
    requires HandsOut(backend, tokens) && seen <= tokens
    ensures UpTo(Scan(backend, Filter(lib, opts, selectors), tokens, n, token, seen), RawScan(backend, tokens, n, token, seen),
                 Filter(lib, opts, selectors), k)
    decreases |tokens - seen|
  {
    hide Filtered, UpTo;
    match backend(n, token)
    case Err(e) =>
      UpToNothing<Sel, D>(lib, opts, selectors, Stopped(FetchFailed(e)));
      k := 0;
    case Ok(page) =>
      var last := page.nextToken == "" || page.nextToken in seen;
      UpToFirst(lib, opts, selectors, page.groups, if page.nextToken == "" then Complete else Stopped(RepeatedToken));
      assert [page.groups] + [] == [page.groups];
      match Filtered(lib, opts, selectors, page.groups)
      case Err(e) => k := 0;
      case Ok(rules) =>
        if last {
          k := 1;
        } else {
          FewerTokens(tokens, seen, page.nextToken);
          var seen' := seen + {page.nextToken};
          k := PagingIsOneShot(backend, lib, opts, selectors, tokens, n + 1, page.nextToken, seen');
          UpToOneMore(lib, opts, selectors, page.groups, rules, Scan(backend, Filter(lib, opts, selectors), tokens, n + 1, page.nextToken, seen'),
                      RawScan(backend, tokens, n + 1, page.nextToken, seen'), k);
          k := k + 1;
        }
  }

  /** Where filtering everything at once succeeds, the scan gives just that; where it fails, the scan fails so too. */
  lemma UpToAll<Sel, D>(lib: Library<Sel>, opts: Option<Options>, selectors: seq<Sel>, scan: Listing<Summary<D>>,
                        raw: Listing<seq<Group<D>>>, k: nat)
    requires UpTo(scan, raw, Filter(lib, opts, selectors), k)
    ensures match Filtered(lib, opts, selectors, Flatten(raw.rules))
            case Ok(all) => scan == Listing(all, raw.ending)
            case Err(e) => scan.ending == Stopped(FilterFailed(e))
  {
    hide Filtered, Flatten;
    if k == |raw.rules| {
      assert raw.rules[..k] == raw.rules;
    } else {
      FlattenAt(raw.rules, k);
      var before, after := Flatten(raw.rules[..k]), Flatten(raw.rules[k + 1..]);
      FilteredDistributes(lib, opts, selectors, before, raw.rules[k] + after);
      FilteredDistributes(lib, opts, selectors, raw.rules[k], after);
    }
  }

  lemma {:induction false} FlattenAt<G>(pages: seq<seq<G>>, k: nat)
    requires k < |pages|
    ensures Flatten(pages) == Flatten(pages[..k]) + (pages[k] + Flatten(pages[k + 1..]))
  {
    if k > 0 {
      FlattenAt(pages[1..], k - 1);
      assert pages[1..][..k - 1] == pages[..k][1..] && pages[1..][k..] == pages[k + 1..];
      Regroup(pages[0], Flatten(pages[..k][1..]), pages[k] + Flatten(pages[k + 1..]));
    }
  }

  /**
   The listing as one shot, for every backend: the first limit rules of filtering at once the concatenation of the
   pages up to the first that fails to be filtered, or, if those are fewer, that failure, or what the
   pages end with.
   */
  lemma ListingIsOneShot<Sel, D>(backend: Backend<D>, lib: Library<Sel>, opts: Option<Options>, selectors: seq<Sel>, tokens: set<string>)
    returns (k: nat)
    requires HandsOut(backend, tokens)
    ensures var raw := RawScan(backend, tokens, 0, "", {});
            var limit := LimitOf(opts);
            var result := Limited(Scan(backend, Filter(lib, opts, selectors), tokens, 0, "", {}), limit);
            && k <= |raw.rules| && Filtered(lib, opts, selectors, Flatten(raw.rules[..k])).Ok?
            && var kept := Filtered(lib, opts, selectors, Flatten(raw.rules[..k])).value;
               if |kept| >= limit then result == Ok(kept[..limit])
               else if k < |raw.rules| then
                 && Filtered(lib, opts, selectors, raw.rules[k]).Err?
                 && result == Err(FilterFailed(Filtered(lib, opts, selectors, raw.rules[k]).error))
               else result == match raw.ending case Complete => Ok(kept) case Stopped(e) => Err(e)
  {
    hide Filtered, RawScan, Scan, Flatten;
    k := PagingIsOneShot(backend, lib, opts, selectors, tokens, 0, "", {});
  }

  /**
   A scan that reaches the last page returns the first limit rules of filtering everything at once, and
   with fewer than that the whole of it.
   */
  lemma CompleteScanIsOneShot<Sel, D>(backend: Backend<D>, lib: Library<Sel>, opts: Option<Options>, selectors: seq<Sel>, tokens: set<string>)
    requires HandsOut(backend, tokens)
    requires RawScan(backend, tokens, 0, "", {}).ending == Complete
    requires Filtered(lib, opts, selectors, Flatten(RawScan(backend, tokens, 0, "", {}).rules)).Ok?
    ensures var all := Filtered(lib, opts, selectors, Flatten(RawScan(backend, tokens, 0, "", {}).rules)).value;
            var limit := LimitOf(opts);
            Limited(Scan(backend, Filter(lib, opts, selectors), tokens, 0, "", {}), limit) ==
            Ok(all[..if |all| < limit then |all| else limit])
  {
    hide Filtered, RawScan, Scan, Flatten, UpTo;
    var scan, raw := Scan(backend, Filter(lib, opts, selectors), tokens, 0, "", {}), RawScan(backend, tokens, 0, "", {});
    var k := PagingIsOneShot(backend, lib, opts, selectors, tokens, 0, "", {});
    UpToAll(lib, opts, selectors, scan, raw, k);
    assert scan.rules[..|scan.rules|] == scan.rules;
  }
}
