# A verified model of the JIRA stale-issue checker

`jira-stale-checker.py` runs a JQL query. For each issue it works out the
*last meaningful update*: the latest of the issue's creation time and the
times of its changelog entries. An entry counts only when its author is
not excluded and it changes at least one field that is not excluded. The
checker then sorts the issues by that time, most recent first, and can
keep only those whose last meaningful update lies in a `--since` /
`--before` window. The window bounds may be ISO dates, relative phrases
such as `4 weeks ago` or `an hour ago`, or free-form dates.

This project models that core in Dafny and proves properties of it:

- `common.dfy` (`Common`): `Option`/`Result`, plus ASCII versions of the
  string operations the checker uses: `lower()`, `strip()`, `\s`, `\d`
  and `int()` on digit strings. A decimal rendering of naturals,
  `NatToDigits`, is there only to state that `int()` inverts it.
- `changelog.dfy` (`Changelog`): the changelog data and the
  meaningful-update rule, written as a running maximum. It proves the
  rule computes a maximum, that entry order does not matter, and that
  ignored entries have no effect.
- `fields.dfy` (`Fields`): the field catalog and the name-to-id mapping
  built from it. Also the five-step resolution of user-supplied field
  names: exact key, lower-cased key, raw `customfield_` id, the
  standard-field alias table, and otherwise invalid.
- `relative_date.dfy` (`RelativeDate`): `parse_since_date`. The two
  relative-date regular expressions are written out as functions over
  the lower-cased, stripped text. The ISO parser, the dateutil fallback
  and calendar month subtraction are supplied by the caller as a
  `DateLibrary` value. The patterns are proved to accept exactly the texts
  of their grammar. A phrase whose instant would fall before 0001-01-01,
  where Python's `datetime` arithmetic raises, gives a range error.
- `results.dfy` (`Results`): the result record, and the descending sort
  by last meaningful update. The sort is a stable insertion sort done in
  place on an array. It is proved to equal a functional sort that is
  ordered, is a permutation of its input and keeps ties in fetch order.
- `range_filter.dfy` (`RangeFilter`): `filter_issues_by_date_range`, as a
  loop proved against a recursive filter.
- `checker.dfy` (`Checker`): the `StaleChecker` class. Its
  `fieldMapping` field is the lazily built, never rebuilt cache. Its
  methods follow the Python methods loop for loop. The file ends with
  a worked example: issue PROJ-1 with a status change by alice and a
  custom-field change by bot.

Timestamps are integer microseconds since the epoch, the resolution of a
Python `datetime`, so the sub-second parts of the tracker's timestamps
take part in the comparisons and the sort. The tracker calls
(`jira.fields()`, `jira.search_issues(...)`) become parameters: a
`CatalogFetch` value (`Fetched(fields)` or `FetchFailed`) and the
sequence of fetched issues.

Two facts about the field code that are easy to get wrong:

- A failed catalog fetch leaves the mapping empty, yet `customfield_…`
  ids and the standard alias names still resolve, through the later
  steps of the resolution (lines 221-247). `Fields.EmptyMappingResolution`
  states this.
- Only custom-field ids are added as keys mapping to themselves (lines
  182-183). A standard field's id is a key only if some field's display
  name, or its lower-cased form, spells it. `Fields.MappingKeys` states
  exactly which keys exist.

## Model

| member | source | states |
|---|---|---|
| Common.Lower | jira-stale-checker.py:179 | `lower()` keeps the length and lower-cases each ASCII letter, leaving every other character as it is |
| Common.LowerIdempotent | jira-stale-checker.py:217 | lower-casing twice is lower-casing once, so a lower-cased key found by the case-insensitive lookup is stable |
| Common.LowerOfLowerCase | jira-stale-checker.py:291 | text with no upper-case letter is unchanged by `lower()` |
| Common.Strip | jira-stale-checker.py:291 | `strip()` cuts a whitespace prefix and a whitespace suffix off the text and nothing else: the result is a slice of the text, neither end of it is whitespace, and text without surrounding whitespace is unchanged |
| Common.DigitSpan | jira-stale-checker.py:296 | the `\d+` run: its characters are digits and the next character is not |
| Common.DigitsValue | jira-stale-checker.py:308 | `int()` of a string of k decimal digits is a natural number below 10^k |
| Common.LeadingZero | jira-stale-checker.py:296-308 | a leading zero does not change the value `int()` gives, so `\d+` with leading zeros denotes the same amount |
| Common.DigitsRoundTrip | jira-stale-checker.py:308 | `int()` of the decimal rendering of n is n |
| Changelog.LatestFrom | jira-stale-checker.py:113-146 | the running maximum over the entries is never below its start value, and equals it when no entry counts |
| Changelog.LastMeaningful | jira-stale-checker.py:102-146 | the last meaningful update is never before the creation time, and is the creation time when there is no changelog |
| Changelog.LatestIsMaximum | jira-stale-checker.py:102-146 | the running maximum is at least the creation time and every counted entry's time, and it equals the creation time or some counted entry's time |
| Changelog.SameMeaningfulEntriesSameResult | jira-stale-checker.py:113-146 | two changelogs with the same counted entries give the same result |
| Changelog.OrderIndependent | jira-stale-checker.py:113-146 | reordering the changelog entries does not change the last meaningful update |
| Changelog.IgnoredEntryHasNoEffect | jira-stale-checker.py:118-140 | an entry by an excluded author, or one whose items all name excluded fields (or that has no items), changes nothing wherever it stands |
| Changelog.AppendEntry | jira-stale-checker.py:140-146 | a new entry replaces the result exactly when it counts and is strictly later, so the result never decreases |
| Changelog.NoHistoryMeansCreation | jira-stale-checker.py:102-111 | with no changelog, or an empty one, the result is the creation time |
| Fields.AddField | jira-stale-checker.py:173-184 | one catalog entry adds exactly its name, its lower-cased name and (for a custom field) its id as keys, binds them to its id, and leaves every other key as it was |
| Fields.BuildMapping | jira-stale-checker.py:165-184 | the mapping built from the catalog binds every key to the id of some catalog entry |
| Fields.MappingKeys | jira-stale-checker.py:173-184 | a string is a key of the built mapping if and only if some catalog entry contributes it: its name, its lower-cased name, or its id when the id starts with `customfield_` |
| Fields.LastEntryWins | jira-stale-checker.py:173-184 | on a key collision the id of the last catalog entry contributing that key wins |
| Fields.MappingValuesAreIds | jira-stale-checker.py:173-184 | every bound value is the id of a catalog entry that contributes the key |
| Fields.ResolveOne | jira-stale-checker.py:209-250 | one name resolves by the first step that matches, in this order: an exact key gives its binding; otherwise the lower-cased name as a key gives its binding; otherwise a `customfield_` name resolves to itself; otherwise the lower-cased name in the alias table gives the alias id; any result is a bound id, the name itself, or an alias-table id; a `customfield_` name always resolves; a name is unresolved exactly when all four steps fail |
| Fields.FallThrough | jira-stale-checker.py:221-250 | a name that is neither a key of the mapping nor a key once lower-cased resolves exactly as with no catalog, so with a fetched catalog too `link` still resolves to `issuelinks` and a `customfield_` id missing from the catalog to itself |
| Fields.Resolve | jira-stale-checker.py:209-250 | every requested name yields exactly one output entry: the resolved and invalid lists together are as long as the input |
| Fields.ResolveConcat | jira-stale-checker.py:209-250 | resolving a concatenation concatenates both outputs, so the resolved ids follow the input order |
| Fields.ResolveSingle | jira-stale-checker.py:209-250 | a single name lands in exactly one of the two outputs |
| Fields.ResolvePartition | jira-stale-checker.py:209-250 | the two outputs together are as long as the input; a name is invalid if and only if no step resolves it; each resolvable name's id is among the resolved ones |
| Fields.ResolveRoundTrip | jira-stale-checker.py:173-220 | when no later catalog entry contributes any of a field's keys, the field's display name, its lower-cased name and (for a custom field) its raw id all resolve to its id |
| Fields.ResolveSpelling | jira-stale-checker.py:173-220 | for such a field, any spelling whose lower-case form is the lower-cased name resolves to the field's id unless the spelling is itself a key, in which case its own binding wins |
| Fields.EmptyMappingResolution | jira-stale-checker.py:221-250 | with the empty mapping, custom-field ids resolve to themselves, standard alias names resolve through the alias table, and every other name is invalid |
| Fields.WorkLogAlias | jira-stale-checker.py:240 | `Work Log` resolves to `worklog` without any catalog |
| Fields.LinkAlias | jira-stale-checker.py:241 | `LINK` resolves to `issuelinks` without any catalog |
| RelativeDate.UnitPrefix | jira-stale-checker.py:296 | the unit alternative picked is one of the units and a prefix of the text; no unit is a prefix when none is picked |
| RelativeDate.MatchUnitAgo | jira-stale-checker.py:296-298 | the unit clause `<unit>[s]\s+ago$`: a match starts with the unit's name and the text ends in `ago` |
| RelativeDate.ParseNumeric | jira-stale-checker.py:296-308 | the numeric pattern after its digits: a match carries the value of those digits and ends in `ago` |
| RelativeDate.ParseArticle | jira-stale-checker.py:298-306 | the article pattern: a match carries the amount one and ends in `ago` |
| RelativeDate.ParseRelative | jira-stale-checker.py:294-309 | the two patterns in order: a match ends in `ago`, and one not led by a digit has the amount one |
| RelativeDate.Before | jira-stale-checker.py:312-329 | fixed units subtract amount times the unit's length in microseconds and give a result exactly when it is not before 0001-01-01 UTC; a month delta is the library's calendar subtraction and a year delta is twelve months of it |
| RelativeDate.FromRelative | jira-stale-checker.py:329 | a recognised phrase yields its instant, or the range error exactly when that instant does not exist |
| RelativeDate.ParseSinceDate | jira-stale-checker.py:273-340 | empty text is the empty-date error and the only cause of it; text the ISO parser accepts gets the ISO result; otherwise a recognised relative phrase decides (its instant or the range error, the latter exactly when the instant does not exist); otherwise the free-form result; the unparseable error, carrying the original text, arises exactly when all three attempts reject the text |
| RelativeDate.UnitPrefixOfName | jira-stale-checker.py:296 | a unit's own name, followed by anything, selects that unit |
| RelativeDate.MatchUnitAgoOfName | jira-stale-checker.py:296 | a unit name followed by an accepted `[s] ago` tail matches that unit |
| RelativeDate.MatchUnitAgoRejects | jira-stale-checker.py:298 | a unit name followed by a tail the pattern does not accept matches nothing |
| RelativeDate.NumericGrammar | jira-stale-checker.py:296-308 | every instance of the numeric pattern, with any digit string (leading zeros included), any whitespace runs and either unit form, parses to the digits' value and the unit |
| RelativeDate.ArticleGrammar | jira-stale-checker.py:298-306 | every instance of the article pattern, with any whitespace runs, parses to the amount one and the unit |
| RelativeDate.RelativeGrammar | jira-stale-checker.py:294-309 | the relative patterns exactly: text parses to (n, unit) if and only if it is an instance of the numeric pattern whose digits denote n, or n is one and it is an instance of the article pattern |
| RelativeDate.PhraseRoundTrip | jira-stale-checker.py:296-309 | `<n> <unit> ago` and `<n> <unit>s ago` parse back to n and the unit, for every n and unit |
| RelativeDate.ArticleRoundTrip | jira-stale-checker.py:298-306 | `a <unit> ago` and `an <unit> ago` parse to an amount of one and that unit |
| RelativeDate.ArticleRejectsPlural | jira-stale-checker.py:298 | `a <unit>s ago` matches neither relative pattern |
| RelativeDate.PhraseIsNormal | jira-stale-checker.py:291 | lower-case text without surrounding whitespace is unchanged by the normalisation |
| RelativeDate.UnitsAgo | jira-stale-checker.py:287-329 | every instance of the numeric pattern (any digits, any whitespace runs, either unit form) evaluates to now minus its amount of units, or the range error, whenever the ISO parser rejects it |
| RelativeDate.TwoWeeksAgo | jira-stale-checker.py:320-329 | `2 weeks ago` is exactly fourteen days before now, or the range error when that is before 0001-01-01 |
| RelativeDate.ArticleMeansOne | jira-stale-checker.py:304-306 | `a`/`an <unit> ago` evaluates to the same instant as `1 <unit> ago` |
| RelativeDate.ArticleEval | jira-stale-checker.py:298-329 | every instance of the article pattern evaluates to now minus one unit, or the range error, whenever the ISO parser rejects it |
| RelativeDate.UnitConversions | jira-stale-checker.py:312-325 | a minute ago is sixty seconds ago, an hour sixty minutes, a day twenty-four hours, a week seven days, and a year twelve months, for every amount |
| RelativeDate.BeforeAdds | jira-stale-checker.py:312-329 | for fixed units, a + b units ago is b units before a units ago, and does not exist when a units ago does not |
| Results.AssigneeName | jira-stale-checker.py:74 | the assignee's display name, or `Unassigned` when there is none |
| Results.MakeRecord | jira-stale-checker.py:70-79 | the record copies the issue's fields, carries the last meaningful update (never before creation) and the URL `<server>/browse/<key>` |
| Results.InsertDesc | jira-stale-checker.py:83 | one insertion step of the sort adds exactly one record |
| Results.InsertDescElements | jira-stale-checker.py:83 | one insertion step adds the new record to the multiset of records and removes none |
| Results.SortDesc | jira-stale-checker.py:83 | the sort keeps the number of records |
| Results.SortDescPermutes | jira-stale-checker.py:83 | the sort's output is a permutation of its input |
| Results.SortDescSorted | jira-stale-checker.py:83 | the sort's output is non-increasing in last meaningful update |
| Results.SortDescFacts | jira-stale-checker.py:83 | the sort's output is ordered, a permutation of its input, and of the same length |
| Results.InsertDescStable | jira-stale-checker.py:83 | one insertion keeps the relative order of equal timestamps and places the new record after its equals |
| Results.SortDescStable | jira-stale-checker.py:83 | the sort is stable: for every timestamp, the records carrying it keep their input order |
| Results.ShiftRight | jira-stale-checker.py:83 | the inner loop shifts right by one the records just left of the slot with earlier timestamps, and touches nothing else |
| Results.InsertInto | jira-stale-checker.py:83 | one in-place insertion turns the sorted prefix plus the next record into the functional insertion of it; the rest of the array is unchanged |
| Results.SortByLastUpdate | jira-stale-checker.py:83 | the in-place sort leaves the array equal to the stable descending sort of its old contents |
| RangeFilter.FilterIssuesByDateRange | jira-stale-checker.py:343-387 | with neither bound the result is the input itself; otherwise it is the in-order filter by `since <= t <= before` |
| RangeFilter.Filtered | jira-stale-checker.py:360-376 | the in-order filter is no longer than its input and keeps only records whose time lies within the inclusive bounds |
| RangeFilter.NoBoundsKeepsAll | jira-stale-checker.py:355-356 | with neither bound every record passes |
| RangeFilter.FilteredMembers | jira-stale-checker.py:360-376 | a record is kept if and only if it is in the input and its time lies within the inclusive bounds |
| RangeFilter.FilteredIsSubsequence | jira-stale-checker.py:360-376 | the output is a subsequence of the input, so no longer and in the same order |
| RangeFilter.FilterIdempotent | jira-stale-checker.py:360-376 | filtering twice with the same bounds is filtering once |
| RangeFilter.FilterKeepsSorted | jira-stale-checker.py:360-376 | filtering the sorted output keeps it sorted |
| Checker.Records | jira-stale-checker.py:64-79 | one record per fetched issue, in fetch order |
| Checker.MappingFor | jira-stale-checker.py:153-192 | a cached mapping is used as it is; without one, a fetched catalog gives a mapping whose keys are exactly those the entries contribute and whose values are catalog ids, and a failed fetch gives the empty mapping |
| Checker.StaleChecker.constructor | jira-stale-checker.py:36-39 | a new checker has no cached mapping |
| Checker.StaleChecker.GetFieldMapping | jira-stale-checker.py:153-192 | a cached mapping is returned unchanged without consulting the catalog; otherwise the mapping built from the catalog, or the empty one on a failed fetch, is cached and returned |
| Checker.StaleChecker.ResolveFieldIdentifiers | jira-stale-checker.py:194-257 | the resolved ids and invalid names equal the functional resolution against the cached-or-built mapping, which is now cached |
| Checker.StaleChecker.LastMeaningfulUpdate | jira-stale-checker.py:88-151 | the loop computes the last meaningful update: at least the creation time and every counted entry's time, and equal to one of them |
| Checker.StaleChecker.GetIssuesWithHistory | jira-stale-checker.py:41-86 | the result is the stable descending sort of the records built with the resolved exclusions: as many as the issues, ordered, a permutation of the records, ties in fetch order |
| Checker.ExampleResolution | jira-stale-checker.py:221-224 | with a failed catalog fetch, `customfield_10001` still resolves to itself |
| Checker.ExampleExcludingField | jira-stale-checker.py:41-86 | after a failed catalog fetch, `customfield_10001` is resolved and what it resolves to is excluded; PROJ-1 then was last meaningfully updated on 2024-02-01 (alice's status change) |
| Checker.ExampleExcludingFieldAndUser | jira-stale-checker.py:41-86 | with the same resolved exclusion list, excluding alice as well leaves the creation time, 2024-01-01 |
| Checker.ExampleFilter | jira-stale-checker.py:366-373 | a 2024-02-01 record passes `since` 2024-01-15 and fails `before` 2024-01-15 |

## Left out

- The JIRA client: the connection, authentication, `jira.fields()` and `jira.search_issues(...)`. These are network calls. Their results are parameters (`CatalogFetch`, `seq<Issue>`). An exception anywhere in the catalog loop is the `FetchFailed` case, since the code then resets the mapping to empty (lines 188-190).
- `datetime.fromisoformat`, dateutil's `parser.parse` and `relativedelta` month and year arithmetic. These are foreign library code, so `DateLibrary` supplies them. A year delta is passed on as twelve months because `relativedelta` normalises months into years. `minusMonths` returns None where the source raises because the year leaves 1-9999, and the model then reports the range error. `datetime.now` is the parameter `now`.
- RelativeDate.ParseSinceDate: the range error stands for the `ValueError`/`OverflowError` that `now - delta` raises (line 329) when the instant falls before 0001-01-01; the model does not tell the two exception types apart.
- RelativeDate.ParseNumeric: takes the value of any digit string. Recent Python versions make `int()` raise for strings of more than 4300 digits (line 308); that limit depends on the interpreter version and configuration and is not modelled.
- Unicode behaviour of `lower()`, `strip()`, `\s` and `\d`: the model is ASCII only, with `\s` as the ASCII characters Python treats as whitespace. Python's `$` would also accept one trailing newline, but a newline cannot remain after `strip()`.
- The author fallback `str(history.author)` when the author has no `name` (line 115): an entry's author is already its name string.
- Debug output, the counters kept only for debug output, and the warnings printed by `_get_field_mapping` and `_resolve_field_identifiers`. These are I/O.
- `main`, argument parsing, output formats (JSON, table, CSV) and `_list_available_fields`. These are CLI and I/O outside the evaluation core. So are the other scripts in the repository (`jira-add-comment.py`, `jira-add-label.py`, `jira-transition-issue.py`).
- The `Unknown time unit` branch (line 327): it cannot be reached, because the pattern admits only the seven units.
- Checker.StaleChecker.ResolveFieldIdentifiers: also returns the invalid names, which the source only prints as a warning. The resolved list is exactly the source's return value.
- Checker.StaleChecker.LastMeaningfulUpdate: returns an instant in microseconds, not the ISO string the source returns (line 151); the string keeps each timestamp's own UTC offset.
- Results.SortByLastUpdate: orders by the instant. The source sorts by the ISO strings, which keep each timestamp's own UTC offset (line 151). The two orders agree when all timestamps carry the same offset; with mixed offsets (for instance around a daylight-saving change) the source's string order can differ from the order of instants, which the model does not capture.
- RangeFilter.FilterIssuesByDateRange: compares instants. The source parses the stored ISO string back (line 361), which gives the same instant.
