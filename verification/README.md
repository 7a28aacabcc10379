# Grafana MCP server: proofs about its concurrent writes, query guardrail, client cache and listings

A Dafny model of the parts of the server where correctness depends on several functions, or several
requests, at once:

- **External alerting writes** (`ExternalConfig`, `CreateConditions`, `GateTable`, `CreateMachine`, `GateInvariant`, `GateSafety`, `GateProgress`, `NoLostUpdates`, `CreateOutcomes`).
  Creating a rule or a contact point reads a whole document, appends one entry and replaces the document,
  under a reference-counted gate per destination. The gate table is a class with one method per critical
  section or channel operation; the same table functions drive a transition system with any number of
  threads, in which a request can be cancelled before any step. Every interleaving is shown equivalent to
  the successful creates running one after another, and every outcome has its cause in the run. When a document
  takes a new entry is told in terms of the document's own fields.
- **The Loki guardrail** (`Regex`, `CatchAll`, `Selectivity`, `CatchAllSound`, `CatchAllExact`, `CatchAllComplete`, `SelectorLaws`, `LogQLLexer`, `CommentLaws`,
  `LogQLMatchers`, `LogQLSelectors`, `MatcherRoundTrip`, `SelectorRoundTrip`, `Int64`, `Durations`, `VectorLaws`, `ByteSum`, `Guard`, `GuardLaws`). Regex trees
  have a match relation over positions in a text, and the syntactic catch-all tests are judged against it. The
  hand-written scanners are index loops proved against recursive readings of the text. Durations and byte
  sums are computed with explicit 64-bit wrap-around and compared with the mathematical sums. `Assess` is
  proved against a decision function whose verdicts are then characterised exactly, and comments, matchers, vectors and
  failed estimates are each told once more without the functions that read them.
- **The client cache** (`Lru`, `CacheMachine`, `CacheInvariant`, `CacheSafety`, `CacheProgress`, `CacheRecency`, `ClientCache`, `CacheKey`). LRU cache, one flight per key,
  second lookup, creation and eviction as steps of any number of requests, with the cache emptied at any time; and
  the key strings themselves, down to the quoting, so that no two callers are merged.
- **Rule listing and names** (`RuleFilters`, `RuleFilterLaws`, `RuleListing`, `ListingLaws`, `RefId`, `RulerPath`). The token-paginated scan
  against filtering everything at once, the letters that number alert queries, and the path
  segments of the ruler proxy.

`Wrappers` holds the two result types, `Sequences` and `Totals` shared facts. Strings stand for byte strings, one character a byte, except in `CacheKey`
(decoded pieces) and `RulerPath` (numeric bytes).

Where the code and its own comments differ, the model follows the code:

- `matchesAnyString` is described as true only of patterns that match every string, or every non-empty string. It also
  accepts `.+.+`, which no one-character value matches, `.+^`, which nothing matches, and `.*^`, which only the empty value
  does. `CatchAllSound.Least` computes a length that settles it: a pattern matches every non-empty newline-free value if
  that length is one (`CatchAllSound.LeastSpans`), and only then (`CatchAllExact.CatchAllExactly`) as long as some
  character is left out by whatever consumes characters outside its loops and makes none of its word boundaries come true.
- `nullable` excludes word boundaries because they are said not to match within the empty string. `\b` does not, `\B`
  does: `Selectivity.InnerBoundaryIsNotCalledNullable`, and `Selectivity.NullableExactly` for when that matters.
- A sum of estimates that overflows is said to be over any conceivable budget. It is saturated to the largest 64-bit number,
  so a budget of that number lets it pass, and no other does: `GuardLaws.OverflowIsBlockedIff`.

## Model

| member | source | states |
|---|---|---|
| NoLostUpdates.NothingIsLost | tools/alerting_external_rules.go:45-142 | In every interleaving of creates, with cancellation anywhere, the list stored under a key is the initial list followed by the entries of exactly the successful creates in POST order; no created name repeats or equals an earlier one; all other fields of a stored document are kept; a group that was absent has the name and interval of the first successful create for it; keys without a successful create are untouched. |
| NoLostUpdates.EveryRunIsSerial | tools/alerting_external_contact_points.go:40-99 | The backend after any run is what replaying the successful creates one at a time, in POST order, leaves; every replacement in flight is still the one the current document calls for. |
| NoLostUpdates.ReplayAppends | tools/alerting_external_rules.go:101-141 | A serial replay extends each list by the entries of its own requests and keeps the rest of each document. |
| NoLostUpdates.ReplayCreates | tools/alerting_external_rules.go:62-73 | An absent key stays absent or gets its group from the first request for it, whose name and interval later requests keep. |
| NoLostUpdates.ReplayKeepsNamesApart | tools/alerting_external_rules.go:107-117 | Names added by a serial replay differ from each other and from every name before them. |
| NoLostUpdates.PostKeepsOtherPlans | tools/alerting_external_write.go:67-74 | Because one thread holds a key, a POST never outdates a replacement that another thread has prepared. |
| NoLostUpdates.PostIsSuccess | tools/alerting_external_rules.go:139-142 | A POST that applies makes its thread a success, once, and no other thread. |
| NoLostUpdates.StepWithoutPost | tools/alerting_external_rules.go:57-138 | Every other step, failures and cancellations included, leaves the backend, the successes and the prepared replacements as they were. |
| CreateOutcomes.OutcomeSaysWhy | tools/alerting_external_write.go:47-79 | In every run each outcome has its cause in a step of the same thread: Created a POST, a failure the failed call, a cancellation the cancelled context, and a refusal the document read at that moment, which refuses this very entry with this error. |
| CreateOutcomes.UndisturbedCreate | tools/alerting_external_rules.go:45-142 | Whatever other creates do: where a run can go no further, a create that nobody cancelled and whose calls did not fail is done, and has posted its entry unless the document it read refuses it. |
| CreateOutcomes.EarlyCancelNeverWrites | tools/alerting_external_write.go:47-79 | A create cancelled before it has passed the second context check never reads or posts, however the run goes on, and can only end as cancelled. |
| GateSafety.EveryRunIsSafe | tools/alerting_external_write.go:47-79 | In every run: `refs` counts the threads at the gate, an entry is in the map exactly while `refs` is positive, the receive in `unlock` never blocks, a release finds its own entry under its key, and the map is empty once all threads finish. |
| GateInvariant.RunKeepsGateInv | tools/alerting_external_write.go:28-33 | The inductive invariant of the map, the gate objects and the threads holds in every reachable state. |
| GateInvariant.StepKeepsGateInv | tools/alerting_external_write.go:47-79 | One step of any thread keeps the invariant, whatever the step. |
| GateSafety.OneHolderPerKey | tools/alerting_external_write.go:67-74 | Live threads of one key share one gate object, and at most one of them holds it. |
| GateSafety.NoDeadlock | tools/alerting_external_write.go:67-78 | While some thread is unfinished some thread can move, even if nobody is cancelled and no request arrives. |
| GateProgress.EveryRunEnds | tools/alerting_external_write.go:47-79 | Without new requests a run takes at most seven steps a thread, however they interleave and whatever is cancelled, and where it can go no further every thread is finished and the map is empty. |
| GateProgress.StepLowers | tools/alerting_external_write.go:47-79 | Every step of a thread but a cancellation brings that thread nearer its end and touches no other. |
| GateInvariant.EnterStep | tools/alerting_external_write.go:51-58 | Being counted at a found or new entry keeps the invariant. |
| GateInvariant.ChannelStep | tools/alerting_external_write.go:68-69 | Filling the slot from waiting, or emptying it from holding, keeps the invariant. |
| GateInvariant.LeaveStep | tools/alerting_external_write.go:59-66 | Being uncounted, with the entry deleted at zero, keeps the invariant; nobody left behind loses the gate. |
| GateInvariant.UnderStep | tools/alerting_external_write.go:70-78 | Cancellation, reading, planning and writing leave every gate count alone. |
| GateInvariant.OneMoved | tools/alerting_external_write.go:57-62 | When one thread moves, the users and holders of a gate change by that thread only. |
| GateTable.WriteGates.EnterGate | tools/alerting_external_write.go:51-58 | Finds the key's entry or lists a fresh one, and counts the caller; nothing else in the table changes. |
| GateTable.WriteGates.TrySend | tools/alerting_external_write.go:67-68 | Fills an empty slot and reports it; a full slot is left alone. |
| GateTable.WriteGates.Receive | tools/alerting_external_write.go:69 | Empties the slot and changes nothing else. |
| GateTable.WriteGates.ReleaseGate | tools/alerting_external_write.go:59-66 | Uncounts the caller and removes the key's entry exactly when the count reaches zero. |
| ExternalConfig.PlanAppends | tools/alerting_external_rules.go:61-138 | A plan that succeeds appends exactly the encoded entry, whose name was free, and leaves every other field of the document as it was; a missing rule group starts with its name and interval. |
| ExternalConfig.NoConflictIff | tools/alerting_external_rules.go:107-117 | The duplicate check passes if and only if every entry is readable and none has the name; receivers also need a name. |
| ExternalConfig.EncodedName | tools/alerting_external_rules.go:118-131 | The entry a request adds is read back under the request's own name. |
| ExternalConfig.CheckEntries | tools/alerting_external_contact_points.go:75-85 | The scan reports the first entry, in order, that is unreadable or carries the name. |
| ExternalConfig.EditRuleGroup | tools/alerting_external_rules.go:61-137 | The edit as the handler makes it gives the planned document, or the planned refusal, for every current document. |
| ExternalConfig.EditReceivers | tools/alerting_external_contact_points.go:51-95 | The same for contact points, in the order of checks that the handler has. |
| CreateConditions.RedactedIsNeverReplaced | tools/alerting_external_contact_points.go:67-70 | A configuration in which some path of fields and items, of any depth, ends in a redaction mark is never replaced. |
| CreateConditions.ReceiverGoesThroughIff | tools/alerting_external_contact_points.go:47-95 | A contact point is created if and only if there is a configuration, without a redaction mark at the end of any path, with a root route, with receivers, all of them readable and named, and none with the new name. |
| CreateConditions.ReceiverRefusalMeans | tools/alerting_external_contact_points.go:51-85 | Otherwise the refusal is that of the first of these that fails, in the handler's order. |
| CreateConditions.RuleGoesThroughIff | tools/alerting_external_rules.go:61-138 | A rule is created if and only if the group does not exist, or is an object with the group's own name, a rule list, an interval that agrees with the one asked for, if one is, and only readable rules with other titles. |
| CreateConditions.RuleRefusalMeans | tools/alerting_external_rules.go:74-117 | Otherwise the refusal is that of the first of these that fails, in the handler's order. |
| CreateConditions.IntervalMeans | tools/alerting_external_rules.go:83-96 | An interval is accepted if and only if none is asked for or the stored one is readable and means the same duration. |
| CreateConditions.ConflictMeans | tools/alerting_external_rules.go:107-117 | The conflict reported is that of the first entry that is unreadable or carries the name: a duplicate exactly if it carries the name. |
| CreateConditions.RuleIsWritten | tools/alerting_external_rules.go:118-134 | An appended rule has its title and expression, and the four optional fields exactly when they are given. |
| CreateConditions.ReceiverIsWritten | tools/alerting_external_contact_points.go:19 | An appended receiver has its name and one integration of its type, and nothing else. |
| CreateConditions.NewGroupIsWritten | tools/alerting_external_rules.go:62-73 | A new group has its own name and the interval asked for, or one minute. |
| CreateConditions.SameDestinationIff | tools/alerting_external_write.go:17-20 | Two creates share a gate and a document if and only if they are for the same rule group, or the same Alertmanager, of one instance. |
| Selectivity.OnlyEmptyConsumesNothing | lokiguard/regex.go:84-113 | Every match of a tree accepted by `matchesOnlyEmpty`, at any position of any text, consumes nothing; for all trees. |
| Selectivity.NullableExactly | lokiguard/regex.go:115-142 | A nullable tree matches the empty text, and nullable is exact on a tree if and only if the tree does not owe its empty match to `\B` alone; for every tree. |
| Selectivity.NullableIffEmptyTextMatches | lokiguard/regex.go:118-142 | In particular nullable is exact on every tree without `\B`. |
| Selectivity.InnerBoundaryIsNotCalledNullable | lokiguard/regex.go:115-117 | `\B` matches the empty text but is not nullable. |
| Selectivity.NullableAtMatches | lokiguard/regex.go:118-142 | A nullable tree matches emptily at a position where its anchors hold. |
| CatchAll.ClassTestIsExact | lokiguard/regex.go:203-215 | On ranges sorted by low bound the class test holds if and only if every rune but newline lies in some range. |
| CatchAll.CharClassCoversAll | lokiguard/regex.go:203-215 | The loop over the bounds computes the class test. |
| CatchAll.AnySortIsExact | lokiguard/regex.go:187-198 | However the ranges are ordered by low bound, the test on them holds if and only if the collected ranges cover every rune but newline: sorting keeps the covered set. |
| CatchAll.SortPairsInPlace | lokiguard/regex.go:189-197 | Collecting, sorting and rewriting the bounds in place leaves the sorted ranges in the same array. |
| CatchAll.AlternationCoversAllChars | lokiguard/regex.go:168-199 | The whole procedure answers as the definition over branches does. |
| CatchAllSound.AnyCharSound | lokiguard/regex.go:147-199 | A tree accepted by `matchesAnyChar` matches any one character but newline, at any place in any text; for an alternation, some branch does. |
| CatchAllSound.UnionMatches | lokiguard/regex.go:161-167 | A rune covered by the union of the branches' ranges is matched by one of the branches. |
| CatchAllSound.CatchAllMatchesEverything | lokiguard/regex.go:47-77 | A tree accepted by `matchesAnyString`, anchored at its outer ends only, has a least length and matches every newline-free value from it on, whole, and the empty value if it is nullable. |
| CatchAllSound.LeastSpans | lokiguard/regex.go:47-77 | Any tree, accepted or not and anchored anywhere, matches every newline-free span of any text from its least length at that place on. |
| CatchAllSound.AcceptedHasLeast | lokiguard/regex.go:47-77 | Every accepted tree with outer anchors only has a least length, and it is one if no concatenation has two any-string elements that each need a character. |
| CatchAllSound.CatchAllMatchesEveryNonEmptyValue | lokiguard/regex.go:43-46 | With at most one any-string element in each concatenation that needs a character, every non-empty newline-free value matches. |
| CatchAllSound.TwoNeedyElementsNeedTwoCharacters | lokiguard/regex.go:57-68 | `.+.+` is accepted, its least length is two, and it matches no one-character value. |
| CatchAllSound.InnerAnchorMatchesNothing | lokiguard/regex.go:57-68 | `.+^` is accepted, has no least length, and matches no value at all. |
| CatchAllExact.CatchAllExactly | lokiguard/regex.go:43-77 | Every non-empty newline-free value matches if and only if the least length is one, with anchors anywhere, for every tree in which some character is left out by all that consumes characters outside loops over any character, and makes no word boundary of the tree come true alone; alternations, optional literals, and `\b` or `\B` included. |
| CatchAllExact.ShorterValuesFail | lokiguard/regex.go:43-77 | A value of that character alone matches such a tree if and only if it has the least length or more. |
| CatchAllExact.OnlyShortValuesMatter | lokiguard/regex.go:43-77 | For any tree with a least length, every non-empty newline-free value matches if and only if those shorter than it do. |
| CatchAllExact.LeastIsLeast | lokiguard/regex.go:47-77 | In a text of that character no shorter span is matched, at any place. |
| CatchAllExact.EmptyIsNullable | lokiguard/regex.go:118-142 | In such a text a tree matches emptily only where it is nullable with the anchors that hold there. |
| CatchAllExact.InnerAnchorsAreJudged | lokiguard/regex.go:57-68 | `.*^.*` and `.*^` are both accepted; the first matches every non-empty value, the second none. |
| CatchAllComplete.AcceptedIffLeast | lokiguard/regex.go:43-77 | Every tree with a least length is accepted, and with anchors at the outer ends only the accepted trees are exactly those. |
| CatchAllComplete.CatchAllIsAccepted | lokiguard/regex.go:43-77 | A tree in which some character is consumed by loops over any character alone is accepted as soon as it matches one value made of that character. |
| CatchAllComplete.AnyCharExactly | lokiguard/regex.go:144-199 | On single characters, captured or not, and alternations of them `matchesAnyChar` holds if and only if every character but newline is matched. |
| CatchAllComplete.AnchorsMatchOnlyEmpty | lokiguard/regex.go:84-113 | Every tree made of anchors alone, under any operators, is accepted by `matchesOnlyEmpty`. |
| CatchAllComplete.OnlyEmptyExactly | lokiguard/regex.go:84-113 | On trees without anchors, boundaries and failing parts `matchesOnlyEmpty` holds if and only if no non-empty text is matched. |
| SelectorLaws.NegativeIsNeverSelective | lokiguard/regex.go:9-26 | Negative matchers alone never make a selector selective, whatever their values. |
| SelectorLaws.IdleIsNeverSelective | lokiguard/regex.go:9-41 | Neither do empty equalities, loops over any character however captured, made optional, joined or alternated, and patterns of anchors alone. |
| SelectorLaws.EqualitySelectsExactly | lokiguard/regex.go:15-18 | An equality counts if and only if it rules out the streams without the label. |
| SelectorLaws.RegexSelectsExactly | lokiguard/regex.go:28-41 | A regex without anchors and boundaries, in which loops over any character alone consume some character, counts if and only if it matches some non-empty value, but none made of that character. |
| SelectorLaws.UnparsedIsSelected | lokiguard/regex.go:32-38 | A pattern that does not parse counts as selective. |
| LogQLLexer.StripLogQLComments | lokiguard/scan.go:17-63 | The byte loop, its literal, line-comment and block-comment branches and its fast path included, computes the stripped query. |
| LogQLLexer.StrippingIsIdempotent | lokiguard/scan.go:17-63 | Stripping a stripped query changes nothing, for every query. |
| LogQLLexer.NoMarkerOutsideLiterals | lokiguard/scan.go:9-16 | Wherever a scan of the output stands outside literals there is no `#`, `//` or `/*`: replaced comments never fuse into new ones. |
| LogQLLexer.StrippingKeepsTheRest | lokiguard/scan.go:9-16 | Every byte of every literal and every visible byte outside literals and comments survives, all in one order, each still in or out of a literal; nothing else is in the output. |
| LogQLLexer.StrippedIsClean | lokiguard/scan.go:39-60 | From any lexer state, the output holds no comment marker outside literals. |
| LogQLLexer.NothingToStrip | lokiguard/scan.go:18-20 | The fast path agrees with the loop: without `#` and `/` there is nothing to strip. |
| LogQLLexer.LexAfterConcat | lokiguard/scan.go:23-41 | Scanning a concatenation is scanning its parts one after the other. |
| LogQLLexer.IndexBlockEnd | lokiguard/scan.go:51-56 | Finds the first `*/`, or that the comment never closes. |
| CommentLaws.StrippingBlanksComments | lokiguard/scan.go:9-63 | A query written as plain stretches with comments between them strips to the stretches with a newline for each line comment and a blank for each block comment, the last of which may be left open; how far a comment reaches is read off how it is written. |
| CommentLaws.EveryQueryIsWritten | lokiguard/scan.go:9-63 | Every query is written so, so that this says what stripping does to any query. |
| CommentLaws.CommentIsReplaced | lokiguard/scan.go:42-58 | A line comment ends at its first newline, a block comment at its first closing marker, and stripping goes on right there. |
| CommentLaws.OpenCommentIsDropped | lokiguard/scan.go:42-58 | A line comment at the end leaves nothing, an unterminated block comment a blank. |
| CommentLaws.LiteralIsPlain | lokiguard/scan.go:26-41 | A literal in any of the three quotes belongs to a plain stretch, whatever markers, escapes and other quotes are in it. |
| LogQLSelectors.IndexOutsideStrings | lokiguard/scan.go:106-126 | The loop finds the first target that a fresh scan meets outside literals. |
| LogQLSelectors.IndexAgrees | lokiguard/scan.go:104-126 | A search that starts afresh outside literals finds what one scan of the whole query would, and skips no occurrence. |
| LogQLSelectors.FindIsFirst | lokiguard/scan.go:104-126 | What is found stands outside literals and nothing before it that does is a target; nothing is found only if there is none. |
| LogQLSelectors.GroupsAgreeWithScan | lokiguard/scan.go:85-102 | The groups found by restarted searches are in order, disjoint, none missed, with both brackets outside literals under a single scan from the first byte; after the last there is no opener, or the first one is never closed. |
| LogQLSelectors.ParseLogQLSelectors | lokiguard/scan.go:85-102 | The extraction loop returns the groups that parse, in order, each with its exact text. |
| LogQLSelectors.RawParsesToItself | lokiguard/scan.go:72-78 | Parsing the raw text of a reported selector returns that selector and nothing else. |
| LogQLSelectors.FindInSlice | lokiguard/scan.go:106-126 | A search sees only what lies between its start and what it finds. |
| LogQLMatchers.ParseMatcherList | lokiguard/scan.go:226-286 | The index loop, all accesses in bounds and terminating, accepts exactly the texts that read as matchers and returns those. |
| LogQLMatchers.ParseQuoted | lokiguard/scan.go:298-322 | Reads the quoted value at an index and where it ends, or refuses. |
| LogQLMatchers.FindClose | lokiguard/scan.go:306-321 | Finds the closing quote, past escapes except in backticks, or that there is none. |
| LogQLMatchers.ParseOp | lokiguard/scan.go:259-270 | Reads the longest operator at an index, or refuses. |
| MatcherRoundTrip.AcceptedIffWritten | lokiguard/scan.go:225-322 | A text is accepted with a list of matchers if and only if it is a way to write that list: any blanks between tokens, any of the four operators, bare or quoted names, values in any of the three quotes with escapes, commas between and perhaps after. |
| MatcherRoundTrip.RenderThenParse | lokiguard/scan.go:225-286 | Whatever is written so parses back to exactly what it stands for. |
| MatcherRoundTrip.ParsedWasWritten | lokiguard/scan.go:225-286 | Every accepted text was written so. |
| MatcherRoundTrip.BytesAre | lokiguard/scan.go:229-296 | Blanks are the bytes 9, 10, 13 and 32, and bare names are made of letters, digits and underscores, by number. |
| SelectorRoundTrip.WrittenSelectorIsFound | lokiguard/scan.go:80-102 | A written selector after anything without a brace outside literals is reported first, with its exact text and its matchers, whatever braces and quotes its values hold, and what follows is extracted as if it stood alone. |
| SelectorRoundTrip.SelectorsAreForward | lokiguard/scan.go:85-102 | Extraction from an index does not depend on what stands before it. |
| SelectorRoundTrip.BracedBodyIsSkipped | lokiguard/scan.go:85-102 | Braces around anything else are passed over, and what follows is extracted as if it stood alone. |
| SelectorRoundTrip.NothingIsSelected | lokiguard/scan.go:85-102 | Without an opening brace outside literals there is no selector, nor after one that nothing closes. |
| Int64.ProductOverflow | lokiguard/scan.go:213-216 | The test on the wrapped product fails if and only if the true product does not fit. |
| Int64.SumOverflow | lokiguard/scan.go:217-220 | A sum of two non-negative words turns negative if and only if it does not fit. |
| Int64.DivisionTest | lokiguard/lokiguard.go:320-323 | The quotient test made before multiplying saturates if and only if the product does not fit. |
| Durations.AcceptedIffSumFits | lokiguard/scan.go:179-223 | A value is accepted if and only if the text is a sequence of digits-plus-unit terms whose mathematical sum fits in 63 bits, and it is that sum. |
| Durations.ParsePromStyleDuration | lokiguard/scan.go:180-223 | The loop in wrapping arithmetic accepts exactly when the sum of the terms fits, with that sum. |
| Durations.TermsAreUnique | lokiguard/scan.go:182-212 | A text reads as terms in exactly one way: the sequence it was written from. |
| Durations.ParseTerm | lokiguard/scan.go:183-216 | One term is accepted exactly when its number times its unit fits, with that product. |
| Durations.ParseLogQLDuration | lokiguard/scan.go:162-177 | Bracket content is a digits-and-units duration, else a positive library duration, else nothing. |
| Durations.BracketDurationIff | lokiguard/scan.go:157-177 | Content counts for a duration if and only if, trimmed and not empty, it is written as fitting terms with that sum, or as no such terms while the library reads it as that positive duration. |
| Durations.MaxVectorDuration | lokiguard/scan.go:138-155 | The loop returns the largest duration over all bracket groups outside literals. |
| Durations.LargestIsMaximum | lokiguard/scan.go:134-137 | A number is that result if and only if it is zero or one of the durations, and none exceeds it. |
| Durations.VectorDurationFits | lokiguard/scan.go:138-155 | The result is a non-negative 64-bit duration. |
| VectorLaws.WrittenVectorIsFound | lokiguard/scan.go:134-155 | A bracket outside literals counts with the duration of its content, and the result is the larger of it and that of what follows. |
| VectorLaws.NoVector | lokiguard/scan.go:138-155 | Without an opening bracket outside literals the result is zero, and so it is after one that nothing closes. |
| VectorLaws.UnitsAreRead | lokiguard/scan.go:190-217 | A number with a unit reads as that many milliseconds, seconds, minutes, hours, days, weeks or years of 365 days, in nanoseconds, as long as that fits. |
| VectorLaws.UnitsAreMultiples | lokiguard/scan.go:195-209 | Each unit is so many times the next smaller one. |
| VectorLaws.DecimalIsRead | lokiguard/scan.go:184-193 | What is written in decimal is read as that number. |
| ByteSum.SumSelectorBytes | lokiguard/lokiguard.go:297-330 | The loop reports the sum's outcome and asks about each distinct selector at most once. |
| ByteSum.SumMeans | lokiguard/lokiguard.go:291-330 | A total is the saturated sum over all occurrences, whatever the calls it did not need would have said; a partial total is over the budget and at most any full total; a failure is a real call's error. |
| ByteSum.AllCallsSucceed | lokiguard/lokiguard.go:297-330 | With every call succeeding the result is min(MaxInt64, the sum over all occurrences of the non-negative estimates). |
| ByteSum.AddSaturating | lokiguard/lokiguard.go:315-327 | Both overflow tests together saturate exactly when the true sum does not fit. |
| ByteSum.SeenOneMore | lokiguard/lokiguard.go:292-294 | One estimate times its count is the share of all its occurrences. |
| ByteSum.BudgetOnlyJudgesFailures | lokiguard/lokiguard.go:309-314 | Two budgets give different outcomes only after a failed call. |
| ByteSum.FailureMeans | lokiguard/lokiguard.go:297-330 | With the first failure at a place, the outcome is settled by the sum over all occurrences of the selectors before it: saturated if that overflows, partial if it is over the budget, and otherwise the failure. |
| ByteSum.FailedIff | lokiguard/lokiguard.go:309-314 | It stays a plain failure if and only if what is known is within the budget. |
| ByteSum.FullSumAdds | lokiguard/lokiguard.go:291-330 | The full sum is additive, and a negative estimate counts for nothing. |
| Guard.Assess | lokiguard/lokiguard.go:160-235 | The procedure, built step by step over the imperative scanners, returns the decision that the theorems below are about. |
| Guard.VerdictExactly | lokiguard/lokiguard.go:145-235 | Exactly when each verdict is given: Allow if and only if there are selectors, all selective, the range is within its cap and the byte check, where it applies, ends with a total within budget; Block if and only if one of the three is violated for certain. |
| Guard.VerdictIsSound | lokiguard/lokiguard.go:87-95 | Allow implies selective selectors, range within a positive cap and true saturated scan within a positive budget; Block implies one of them fails, even when a call failed. |
| Guard.VerdictShape | lokiguard/lokiguard.go:127-130 | Reasons are non-empty if and only if the verdict is Block, a cause is set if and only if it is Unknown. |
| Guard.LooserPolicyKeepsAllow | lokiguard/lokiguard.go:43-51 | Raising or disabling a limit never turns Allow into anything else. |
| Guard.EstimateAlwaysIsHarmless | lokiguard/lokiguard.go:52-56 | With or without `EstimateAlways`, for every query and every stats function, verdict and cause are the same, and the reasons without are a prefix of the reasons with it. |
| Guard.CommentsDoNotMatter | lokiguard/lokiguard.go:161 | Assessing a query and assessing it without its comments give the same decision. |
| Guard.UnselectiveMatcherNarrowsNothing | lokiguard/regex.go:28-41 | A positive matcher that does not count as selective accepts no value but the empty one, or is a regex that accepts all newline-free values from its least length on; that length is known unless an anchor stands inside, and is one unless two elements of a concatenation need a character. |
| Guard.HasSelectivePositiveMatcher | lokiguard/regex.go:12-26 | True if and only if some matcher is an equality with a non-empty value or a regex that is not a catch-all. |
| Guard.CheckRange | lokiguard/lokiguard.go:239-263 | The guarded 64-bit addition is the saturated window plus vector, and a reason is given exactly when that exceeds a positive cap. |
| Guard.WindowWidth | lokiguard/lokiguard.go:265-289 | The estimate covers the unsaturated query window plus the vector, up to the query's end or its anchor; there is none exactly for an instant query without a vector; and its width is what the cap is held against. |
| Guard.ComputeStatsWindow | lokiguard/lokiguard.go:274-289 | The window reaches back by the vector from the query's start, or from the anchor of an instant query; none without either. |
| Guard.CheckSelectors | lokiguard/lokiguard.go:185-192 | One reason per unselective selector, in order. |
| Guard.NoReasonIffSelective | lokiguard/lokiguard.go:185-192 | No selector reason is given if and only if all selectors are selective. |
| GuardLaws.ReasonsSayWhy | lokiguard/lokiguard.go:185-227 | A reason is among those given if and only if it is so: an unselective selector by its text, the effective range over a positive cap, the estimate over a positive budget. |
| GuardLaws.IdleSelectorIsBlocked | lokiguard/lokiguard.go:185-192 | A query with a selector of negative, empty, any-value or anchors-only matchers alone is blocked, for that reason. |
| GuardLaws.WrittenIdleSelectorIsBlocked | lokiguard/lokiguard.go:160-192 | The same from the text: a query whose first selector is written with such matchers, in any spelling, is blocked. |
| GuardLaws.TimesOfQuery | lokiguard/lokiguard.go:239-289 | A query that is instant or lacks a start or an end has no window of its own: its vector alone counts, up to its end, else its start, else now. Any other counts from its start, or that much earlier. |
| GuardLaws.NoRoundTrip | lokiguard/lokiguard.go:145-150 | Where the estimate could not matter and is not asked for, the decision is the one without anybody to ask. |
| GuardLaws.EstimateIsReported | lokiguard/lokiguard.go:131-143 | The selectors are always reported; the estimate and the error are those of the sum if anybody was asked, and absent otherwise. |
| GuardLaws.FailureVerdict | lokiguard/lokiguard.go:157-159 | When a call fails, the estimates before it decide: Unknown if they are within a positive budget, Block if they are over it; a saturated total is not over the largest budget there is. |
| GuardLaws.OverflowIsBlockedIff | lokiguard/lokiguard.go:318-327 | With all calls answered and a true sum that does not fit in 64 bits, a query that passes the other checks is blocked if the budget is less than the largest number, and allowed if it is that. |
| GuardLaws.UnknownCause | lokiguard/lokiguard.go:110-122 | An unknown verdict is for want of a selector, and otherwise of an estimate. |
| Lru.AddEvictsOldest | client_cache.go:228 | Adding an uncached key puts it first, keeps the bound and distinct keys, and evicts at most the least recently used entry, only when full. |
| Lru.TouchKeepsEntries | client_cache.go:208-211 | A hit changes the order of the entries and nothing else. |
| Lru.TouchMovesToFront | client_cache.go:208 | A hit moves its entry to the front and leaves the others in their order. |
| Lru.AddKeepsRecent | client_cache.go:228 | An addition costs a key one place at most, and does not evict it if fewer other keys than the cache has places for were used since. |
| CacheRecency.JustUsedStays | client_cache.go:202-237 | In every run a client just returned from the cache stays cached through any steps of any requests that look up or add less often than the cache has places, unless it is emptied. |
| Lru.LruCache.Get | client_cache.go:208-211 | Returns what the key maps to and makes it the most recent entry. |
| Lru.LruCache.Put | client_cache.go:228 | Stores in front, reporting what was evicted. |
| CacheSafety.CacheIsConserved | client_cache.go:202-237 | In every run the size stays within the bound, and per key the creations equal the removals, plus one if it is cached, plus one if a creation is about to be added; so at most one more than the removals. |
| CacheSafety.OneCreationAtATime | client_cache.go:213-225 | No two requests are ever creating a client for the same key. |
| CacheSafety.EveryoneGetsTheirOwn | client_cache.go:198-237 | Every non-nil client returned was created for the caller's own key. |
| CacheSafety.NilIsRetried | client_cache.go:297-301 | Where nil is to be retried it is never cached, in any run, whatever the flight keys. |
| CacheRecency.NilOnlyFromCreateFn | client_cache.go:218-236 | As long as createFn returns clients, everybody who is answered gets one, those who waited for a flight included. |
| CacheSafety.ReusedUntilRemoved | client_cache.go:198-237 | Until an entry of their key is evicted or purged, all requests for it get one and the same client. |
| CacheSafety.NobodyIsStuck | client_cache.go:218-236 | A request that is not done, or the one whose flight it joined, can take a step. |
| CacheProgress.EveryRunEnds | client_cache.go:202-237 | Without new requests a run takes at most six steps a request, whenever the cache is emptied, and where no request can go on every one is answered and no flight is open. |
| CacheSafety.RunKeepsInvariant | client_cache.go:202-237 | The invariant over entries, flights, requests and counts holds in every reachable state. |
| CacheInvariant.StepKeepsFlights | client_cache.go:217-218 | One flight per key with one live leader, and who waits follows a leader of the same flight, after every step. |
| CacheInvariant.StepKeepsCache | client_cache.go:219-228 | Bound, conservation and "nobody creates what is cached" hold after every step, purges included. |
| CacheInvariant.StoreKeepsCache | client_cache.go:227-228 | Adding never overwrites: the second lookup and the flight keep the key uncached until then. |
| CacheInvariant.PurgeKeepsCache | client_cache.go:318-321 | Emptying the cache counts every entry once as removed. |
| CacheInvariant.CreateKeepsCache | client_cache.go:297-303 | A creation that is to be cached is the only one pending for its key. |
| ClientCache.ServerClients | client_cache.go:24-33 | For the server's caches with their real flight keys and bound of a thousand: own clients only, one client per key until it is removed, one creation at a time, creations and removals in balance, and no nil kept that is to be retried. |
| ClientCache.ServerSeparates | client_cache.go:81-85 | No two cache keys share a flight. |
| ClientCache.UndisturbedRequest | client_cache.go:279-312 | The steps of a request that nobody disturbs leave the entries and return the client that the method does. |
| ClientCache.NextRequestHits | client_cache.go:202-237 | What one request returned the next finds in front, unless it is a nil that is to be retried, which leaves the cache alone. |
| ClientCache.Cache.GetOrCreate | client_cache.go:279-312 | One undisturbed call: a hit is reused and refreshed; a miss is created and stored, unless it is a nil that is to be retried. |
| ClientCache.Cache.Close | client_cache.go:318-321 | Leaves no entry. |
| CacheKey.SerializationIsExact | client_cache.go:54-69 | Two header maps serialize to the same string if and only if they are equal. |
| CacheKey.SerializeCancels | client_cache.go:62-67 | Equal serializations have equal names and values in the same order. |
| CacheKey.SortedNamesAreUnique | client_cache.go:56-60 | Sorted names do not depend on the order in which the map yields them. |
| CacheKey.QuoteCancels | client_cache.go:63-65 | A quoted string ends where it ends: texts that begin with quoted strings are equal only if those and the rests are, for all code points and invalid bytes. |
| CacheKey.EscapeCancels | client_cache.go:63-65 | No escape is the beginning of another, nor starts like the closing quote. |
| CacheKey.FlightsSeparateKeys | client_cache.go:81-85 | Equal flight strings come from equal keys, field by field. |
| CacheKey.DecimalIsExact | client_cache.go:83-85 | Distinct organization IDs are written differently. |
| CacheKey.CacheKeyFromRequest | client_cache.go:40-72 | Fills every field from its own source, headers in ascending order of names. |
| CacheKey.KeyFields | client_cache.go:40-72 | Each field comes from its own source, and is empty exactly when the request does not have it. |
| CacheKey.SameKeyIff | client_cache.go:28-37 | Two requests have the same key if and only if URL, override, token, user, password, organization and header map agree, absent ones read as empty. |
| CacheKey.WriteHeaders | client_cache.go:61-68 | The writing loop produces the serialization. |
| RuleListing.ListDatasourceAlertRules | tools/alerting_manage_rules_datasource.go:31-69 | Against any backend with finitely many tokens, answers varying from call to call, the loop ends and returns the first `limit` rules of the unlimited scan, or the reason there are not as many. |
| RuleListing.ListingIsOneShot | tools/alerting_manage_rules_datasource.go:31-69 | For every backend the listing is the first `limit` elements of the filters applied at once to the concatenation of the pages up to the first on which a label selector fails; if those are fewer, it is that failure, or what the pages end with. |
| RuleListing.PagingIsOneShot | tools/alerting_manage_rules_datasource.go:43-68 | Filtering page by page gives the rules, order and ending of filtering that concatenation. |
| RuleListing.UpToAll | tools/alerting_manage_rules_datasource.go:43-68 | Filtering all pages at once succeeds with the same rules, or fails with the same failure. |
| RuleListing.CompleteScanIsOneShot | tools/alerting_manage_rules_datasource.go:58-62 | A scan that reaches the last page returns the first `limit` elements of the filters applied to the concatenation of all pages. |
| RuleListing.LimitOf | tools/alerting_manage_rules_datasource.go:31-34 | A request from 1 to 200 is the limit; without one, or above, it is 200. |
| RuleListing.FilterPage | tools/alerting_manage_rules_datasource.go:43-57 | Type, then name, then labels, each only when asked for. |
| RuleListing.FilteredDistributes | tools/alerting_manage_rules_datasource.go:46-57 | The filters of a concatenation are the concatenation of the filters, the first failure winning. |
| ListingLaws.FilteredIs | tools/alerting_manage_rules_datasource.go:43-57 | The rules kept of a page are, in order, those of the type asked for, with the name asked for in their title, that all selectors match; a failure is one of a selector on a rule of that type and name. |
| ListingLaws.RequestsAre | tools/alerting_manage_rules_datasource.go:35-69 | Each request after the first asks with the token of the answer before it, none of them empty or used twice; the scan ends with an answer without a token, a failed request, or a token that was used. |
| RuleFilters.ConvertToSummaries | tools/alerting_manage_rules_datasource.go:81-122 | The nested loops give the summaries of all alerting and recording rules, group by group, skipping other types. |
| RuleFilters.FilterSummaryByRuleType | tools/alerting_manage_rules_handlers.go:247-255 | Keeps exactly the summaries of the type, in order. |
| RuleFilters.FilterSummaryByRuleName | tools/alerting_manage_rules_handlers.go:257-269 | Keeps exactly the summaries whose lower-cased title contains the lower-cased name, in order. |
| RuleFilters.FilterSummaryByLabels | tools/alerting_manage_rules_handlers.go:340-364 | Keeps exactly the summaries that all selectors match, or returns the first failure. |
| RuleFilters.KeepIfKeepsExactly | tools/alerting_manage_rules_handlers.go:247-269 | What the filters keep stands at exactly the places that pass the test, in their order. |
| RuleFilters.KeepCheckedExactly | tools/alerting_manage_rules_handlers.go:340-364 | A filter that can fail returns the first failure, and otherwise keeps what passes. |
| RuleFilters.KeepCheckedDistributes | tools/alerting_manage_rules_handlers.go:340-364 | A filter that can fail distributes over concatenation, failure first. |
| RuleFilterLaws.GroupIsSummarized | tools/alerting_manage_rules_datasource.go:81-122 | Wherever a group stands, its alerting and recording rules each have one summary, in their order, with the rule's name, labels and kind and the group's name and file. |
| RuleFilterLaws.NamedMeans | tools/alerting_manage_rules_handlers.go:257-269 | A name filter passes exactly the titles with the name somewhere in them, in lower case. |
| RuleFilterLaws.OfTypeMeans | tools/alerting_manage_rules_handlers.go:247-255 | A type filter passes the summaries of exactly one kind of rule. |
| RuleFilterLaws.MatchesAllMeans | tools/alerting_manage_rules_handlers.go:340-364 | A label filter passes if and only if every selector matches, and otherwise gives what the first that does not gives. |
| RefId.IndexToRefID | tools/alerting_manage_rules_types.go:273-283 | The loop computes the ID of an index. |
| RefId.IndexOfRef | tools/alerting_manage_rules_types.go:270-283 | Every index is found again in its ID. |
| RefId.RefOfIndex | tools/alerting_manage_rules_types.go:270-283 | Every non-empty string of capital letters is the ID of its index. |
| RefId.RefOrder | tools/alerting_manage_rules_types.go:270-283 | IDs are ordered by length and then letters exactly as their indices, and equal only for equal indices. |
| RefId.ConvertAlertQueries | tools/alerting_manage_rules_types.go:287-329 | Every query converted in its place with its own or its position's ID and the default range, or the first failure. |
| RefId.IdsDistinctIff | tools/alerting_manage_rules_types.go:293-296 | The resulting IDs are pairwise distinct if and only if the given ones are and none of them is the letter of a position without one. |
| RefId.GivenIdCanClash | tools/alerting_manage_rules_types.go:293-296 | A given B in the first place takes the ID of the second. |
| RefId.ConvertedMeans | tools/alerting_manage_rules_types.go:287-329 | A conversion keeps everything given; a missing range is ten minutes up to now, except for expressions; only a missing query or its model fails. |
| RulerPath.RulerPathSegment | tools/alerting_external_rules.go:23-30 | Returns the segment and sets the query parameter exactly when the placeholder stands in. |
| RulerPath.SegmentReadsBack | tools/alerting_external_rules.go:21-30 | Every name, of any bytes, is read back from its segment by taking the parameter or percent-decoding (section 2.1 of RFC 3986). |
| RulerPath.GroupPathReadsBack | tools/alerting_external_rules.go:55-56 | Namespace and group share one query string and both are read back. |
| RulerPath.SegmentSurvivesNormalization | tools/alerting_external_rules.go:21-30 | A non-empty name gives a non-empty segment without separators that is no dot segment (section 5.2.4 of RFC 3986). |
| RulerPath.DecodedSegmentIsSafe | tools/alerting_external_rules.go:21-30 | A segment decodes to no separator and no dot segment, and the placeholder is used exactly for names that would, and for its own. |
| RulerPath.UnescapedAre | tools/alerting_external_rules.go:29 | The bytes left unescaped are the letters, the digits and the ten marks `-._~$&+:=@` of section 3.3 of RFC 3986. |
| RulerPath.SegmentsAreDistinct | tools/alerting_external_rules.go:23-30 | Two names of one kind never share both segment and parameter. |
| RulerPath.DecodeEscaped | tools/alerting_external_rules.go:29 | Percent-decoding undoes the escaping of any bytes. |

## Left out

- CatchAllExact.CatchAllExactly: a least length of one decides for every tree. Any other leaves the question open for trees whose parts outside the loops consume every character between them, as in `(.+.+)?a?[^a]?`, or that hold both `\b` and `\B`: then only values shorter than it are in question (`CatchAllExact.OnlyShortValuesMatter`), or, without one, as in `(.+^)|a.*|[^a].*`, nothing is said. `(.+^)|x` is accepted for every `x`, and matches every non-empty value exactly if `x` does, so an exact condition for all trees would have to decide universality of arbitrary regexes.
- CatchAllSound.CatchAllMatchesEverything: speaks of anchors at the outer ends only; with anchors inside, the least length may be missing, and `CatchAllSound.LeastSpans` says what there is.
- CacheSafety.EveryoneGetsTheirOwn: a panic inside `createFn` is not modelled.
- CacheSafety.CacheIsConserved: in the Grafana cache a nil creation counts like any other, because that cache keeps what it gets.
- ByteSum.SumSelectorBytes: the stats function is a function of the selector; since each selector is asked about at most once per assessment, that covers any answers a changing backend can give.
- Guard.CheckRange: times are nanoseconds since the zero time, without the monotonic clock reading or the limits of the calendar.
- RuleListing.ListDatasourceAlertRules: without finitely many tokens only the request's time limit ends the loop; the time limit is not part of this model.
- ExternalConfig.EditRuleGroup: JSON is a tree whose objects have distinct field names compared exactly; encoding and decoding bytes, and case-insensitive field matching, are not part of this model.
- Library functions are parameters: `strconv.Unquote` and so double-quote unescaping, `strings.TrimSpace`, `strings.ToLower`, `time.ParseDuration`, `model.ParseDuration`, `regexp/syntax` parsing and `Simplify`, `strconv.IsPrint`, `sort.Strings`, `Selector.Matches`, `createFn`. `sort.Slice` is any order by low bound.
- A POST applies exactly when it answers with success, and only gated creates write to the backend; requests, status codes beyond that, and datasource resolution are not part of this model.
- `externalWriteKey` trims and picks the instance URL; the model starts from the key.
- UTF-8 decoding: `CacheKey` starts from code points and invalid bytes.
- The Incident client cache repeats the Grafana one; metrics, logging and the redacted `String` form are left out.
- Message texts, `Guidance` and byte formatting.
- The remaining fields of rule summaries and their time and state formatting are carried as one opaque value.
- Grafana-managed rules, admin, annotation, folder, silence and routing handlers, URL and token checks, settings and transport caches, reflection and schemas.
