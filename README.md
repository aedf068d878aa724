# transit-alert in Dafny

A model of the alert logic of a service that polls the Toronto Transit
Commission's GTFS Realtime service-alerts feed. The model covers four pieces:

- **The near-duplicate filter** (`filter_duplicates`, module `Filter`).
  - Records are sorted by decreasing length of one text field, using Python's stable sort.
  - The sorted list is then walked. A record is kept unless its field text occurs inside the field text of a record already kept.
  - Python's `sorted` is the stable insertion function `SortByLenDesc`. The walk is the method `Walk`, whose inner `any(...)` scan is the method `IsDuplicate`.
  - The whole filter is the method `FilterDuplicates`, proved equal to the function `Filtered`. `Filtered`'s properties are lemmas.
- **The alert record** (`TTCAlert`, module `AlertModel`).
  - It has four text fields and a header normaliser.
  - The normaliser strips whitespace, then removes the artefacts `": There i"`, `" f"` and `" v"`, each at most once and in that order.
  - It has two fixed renderings, `format` and `__str__`.
  - The field name handed to the filter is a datatype `Field`: one of the four fields, or a name spelled out (`Named`). A spelled-out name reads as `dict.get(name, "")` reads it, so `"description"` gives the description and a name that is not one of the four fields gives `""`.
- **The alert service** (module `Fetcher`).
  - `compare_alerts` is modelled over sets.
  - The decoding and deduplication step of `get_alerts` is a method over the decoded feed entities.
  - The `monitor_alerts` loop is a method over a finite list of polls, proved equal to a function `Run` over abstract cycles.
  - The loop keeps the last successful snapshot, waits `interval_minutes * 60` seconds after a comparison and 60 seconds after an exception, and ends on an interrupt.
- **The stand-alone script** (module `LegacyScript`).
  - It builds one record per feed alert, with the link expression of ttc_alerts_script.py line 59 corrected as described under "## Findings"; the loop exactly as written, which returns no records for any feed holding a link, is modelled beside it:
    - the header and description are chosen among their translations;
    - active periods and informed entities are copied into dictionaries.
  - It renders a record as display lines in a fixed order.
  - Every loop is a method proved equal to a function. Lemmas state what those functions mean: the section order, which optional lines appear, how codes are named, and the samples of the project's formatter and parser tests.

Python's string operations (`in`, `startswith`, `endswith`, `removesuffix`,
`strip()`, `join`, `split`) are modelled in module `Strings`. `strip()` uses
the Unicode whitespace set of `str.isspace`. Module `Options` holds an
`Option` type.

Three behaviours of the loop and the comparison that are easy to miss:

- **Where an interrupt lands.** The 60-second wait of the exception handler (ttc_alerts/controllers/fetcher.py line 108) runs outside the `try`. An interrupt during that wait escapes `monitor_alerts`: the model's ending is `InterruptEscaped`. An interrupt inside the `try` is caught and ends the loop with `StoppedByUser`.
- **A negative interval.** `time.sleep` rejects a negative length by raising `ValueError`. That lands in the handler, which waits 60 seconds (`SuccessWait`).
- **Alert identity.** `compare_alerts` puts the records in sets, so two alerts are the same alert when all four fields are equal.

## Model

| member | source | states |
|---|---|---|
| Strings.Contains | ttc_alerts/models/filter.py:9 | Python's `a in b` on strings holds exactly when `a` occurs as a contiguous block of `b` at some position |
| Strings.RemoveSuffix | ttc_alerts/models/alert.py:13 | `removesuffix` drops exactly one trailing copy of the suffix when there is one, and otherwise returns the text unchanged |
| Strings.Strip | ttc_alerts/models/alert.py:13 | `strip()` yields a text whose two ends are not whitespace, which sits in the input with only whitespace before and after it, and which is never longer than the input |
| AlertModel.NormalizeHeader | ttc_alerts/models/alert.py:10-13 | the normalised header is a prefix of the stripped header, and never longer than it or than the raw header |
| AlertModel.NormalizeRemovesFixedTail | ttc_alerts/models/alert.py:13 | the stripped header is the normalised header followed by one of eight fixed tails: each of the three artefacts at most once, in their fixed order |
| AlertModel.NormalizeWithoutArtefact | ttc_alerts/models/alert.py:13 | a stripped header that ends in none of the three artefacts is returned as just the stripped text |
| AlertModel.ArtefactsOnVEnding | ttc_alerts/models/alert.py:13 | a text ending in `" v"` loses exactly that `" v"`, because the two artefacts tested before it cannot match |
| AlertModel.NormalizeOrder | ttc_alerts/models/alert.py:13 | `"X f v"` becomes `"X f"`, not `"X"`: the `" f"` uncovered by removing `" v"` stays |
| AlertModel.NormalizeOnce | ttc_alerts/models/alert.py:13 | `"X v v"` becomes `"X v"`: an artefact is removed once at most |
| AlertModel.MakeAlertNormalizesHeaderOnly | ttc_alerts/models/alert.py:4-13 | building a record normalises the header and stores description, cause and effect as given; a trimmed header without artefacts is stored as given |
| AlertModel.FormatIsJoinedLines | ttc_alerts/models/alert.py:15-18 | `format()` is the four lines `Header: h`, `Description: d`, `Cause: c`, `Effect: e` joined by line breaks |
| AlertModel.FormatSplitsIntoLines | ttc_alerts/models/alert.py:15-18 | with single-line fields, the display text splits at line breaks into exactly those four labelled lines |
| AlertModel.FormatRoundTrip | ttc_alerts/models/alert.py:15-18 | with single-line fields, reading the four labelled lines back gives the record again |
| AlertModel.StrIsFirstTwoFormatLines | ttc_alerts/models/alert.py:20-21 | `__str__` is the header and description lines of `format()` joined by `", "` |
| Filter.SortByLenDesc | ttc_alerts/models/filter.py:6 | the sort returns a permutation of its input, in non-increasing order of field length |
| Filter.SortIsStable | ttc_alerts/models/filter.py:6 | after the sort, the items of each field length appear in their input order |
| Filter.SortOfDescending | ttc_alerts/models/filter.py:6 | sorting a list already in non-increasing order returns it unchanged |
| Filter.InsertDescWithLen | ttc_alerts/models/filter.py:6 | inserting an item places it ahead of the items of its own length and leaves the items of every other length as they were |
| Filter.IsDuplicate | ttc_alerts/models/filter.py:9 | the `any(...)` scan answers true exactly when the item's field text occurs in the field text of a kept item |
| Filter.Walk | ttc_alerts/models/filter.py:7-12 | the loop returns what the walk specification keeps from the sorted list |
| Filter.KeptIsSubseq | ttc_alerts/models/filter.py:8-10 | the walk keeps items of its input in their order |
| Filter.KeptFirst | ttc_alerts/models/filter.py:8-10 | the first item walked is always kept, and stays first |
| Filter.KeptCovers | ttc_alerts/models/filter.py:9-12 | every item walked, kept or dropped, has its field text inside the field text of a kept item |
| Filter.KeptNoContainment | ttc_alerts/models/filter.py:9-10 | walking a list in non-increasing length order keeps items no two of which have one field text inside the other |
| Filter.KeptOfNoContainment | ttc_alerts/models/filter.py:8-10 | a containment-free list passes the walk unchanged |
| Filter.SameTextLaterDropped | ttc_alerts/models/filter.py:9 | an item whose field text equals that of an earlier one is dropped, since a text lies inside itself |
| Filter.FilteredProperties | ttc_alerts/models/filter.py:6-12 | the output holds input items only and is no longer than the input; it is empty exactly when the input is, and otherwise starts with the first sorted item; it is in non-increasing length order and containment-free; it covers every input item |
| Filter.FilterDuplicates | ttc_alerts/models/filter.py:5-13 | the filter returns the specified list, which holds input items only, is empty exactly when the input is, is in non-increasing length order, is containment-free and covers every input item |
| Filter.FilteredKeepsTieOrder | ttc_alerts/models/filter.py:6-10 | the surviving items of each field length appear in their input order |
| Filter.FilteredIdempotent | ttc_alerts/models/filter.py:6-13 | filtering the filter's own output returns it unchanged, as the re-filtering at ttc_alerts/views/cli.py line 51 needs |
| Filter.OneSurvivorWithEmptyText | ttc_alerts/models/filter.py:9 | a containment-free list that holds an empty field text holds nothing else |
| Filter.FilteredEmptyText | ttc_alerts/models/filter.py:9 | an item with an empty field text survives only when every input field text is empty, and then it is the only survivor |
| Filter.FilteredAllEmpty | ttc_alerts/models/filter.py:9 | when every field text is empty, exactly the first input item survives |
| Fetcher.CompareAlerts | ttc_alerts/controllers/fetcher.py:111-116 | `resolved` holds what was in the previous snapshot and is not in the current one; `unresolved` holds what is in both; `new` holds what is current and was not previous. The three are pairwise disjoint, `unresolved` and `new` make up the current set, and `unresolved` and `resolved` make up the previous set |
| Fetcher.PartitionSizes | ttc_alerts/controllers/fetcher.py:112-116 | each distinct previous alert is counted once, as resolved or as unresolved; each distinct current alert is counted once, as unresolved or as new |
| Fetcher.FirstCycleAllNew | ttc_alerts/controllers/fetcher.py:84-91 | against the initial empty snapshot every current alert is new, and nothing is resolved or unresolved |
| Fetcher.UnchangedSnapshot | ttc_alerts/controllers/fetcher.py:111-116 | comparing a snapshot with itself reports nothing resolved and nothing new |
| Fetcher.DecodeAllSucceeds | ttc_alerts/controllers/fetcher.py:57-62 | decoding succeeds exactly when every alert the feed carries has all four values the record needs |
| Fetcher.DecodeAllIsToAlerts | ttc_alerts/controllers/fetcher.py:57-62 | the decoding loop agrees with a reference definition: it succeeds exactly when every carried alert is complete, and then yields one record per carried alert, in entity order |
| Fetcher.DecodeAllFailurePersists | ttc_alerts/controllers/fetcher.py:58-62 | once some entity fails to decode, the whole fetch fails |
| Fetcher.FetchedAlertsProperties | ttc_alerts/controllers/fetcher.py:57-72 | a successful fetch returns decoded records only, in non-increasing description length, no description inside another, covering the description of every decoded record |
| Fetcher.GetAlerts | ttc_alerts/controllers/fetcher.py:57-72 | the fetch step returns the description-filtered records of the decoded feed, or fails; on success the descriptions are containment-free and in non-increasing length order |
| Fetcher.SuccessWait | ttc_alerts/controllers/fetcher.py:102-108 | after a comparison the loop waits `interval_minutes * 60` seconds, or 60 seconds when the interval is negative and `time.sleep` raises |
| Fetcher.StepSummary | ttc_alerts/controllers/fetcher.py:86-108 | a cycle logs a report unless its fetch is interrupted; the report compares against the snapshot the cycle starts from, or is a 60-second retry; the snapshot becomes the fetched alerts, or stays when the fetch raised; the loop ends exactly when an interrupt arrives, caught inside the `try` and escaping from the handler's wait |
| Fetcher.FailuresKeepSnapshot | ttc_alerts/controllers/fetcher.py:88-108 | failed cycles, however many, leave the snapshot as the last successful fetch set it |
| Fetcher.LastFetchedFirst | ttc_alerts/controllers/fetcher.py:88-89 | the snapshot after several cycles is the one the later cycles produce from the first cycle's snapshot |
| Fetcher.RunReportAt | ttc_alerts/controllers/fetcher.py:84-102 | before the first stopping cycle, cycle `k` yields the `k`-th report. A successful cycle's report compares against the last successful snapshot before it, which is the empty list when there was none |
| Fetcher.RunEndsAt | ttc_alerts/controllers/fetcher.py:103-108 | the first stopping cycle ends the loop, the way its interrupt's place decides; the loop has logged one report per cycle before it, plus that cycle's own unless its fetch was interrupted; it holds the last successful snapshot |
| Fetcher.RunWithoutInterrupt | ttc_alerts/controllers/fetcher.py:86-108 | without an interrupt the loop runs every cycle, logs one report each and holds the last successful snapshot |
| Fetcher.PollOnce | ttc_alerts/controllers/fetcher.py:87-108 | one pass of the loop body: fetch, compare and wait, or log and wait a minute, or stop on an interrupt, as the cycle specification states |
| Fetcher.MonitorAlerts | ttc_alerts/controllers/fetcher.py:79-108 | the loop, started from an empty snapshot, logs the reports, ends and holds the snapshot that the run specification gives for its polls |
| LegacyScript.FirstNonEmpty | ttc_alerts_script.py:66-76 | the reference text is empty exactly when every translation's text is; otherwise it is the text of the first translation whose text is not empty |
| LegacyScript.LastEnglish | ttc_alerts_script.py:69 | the position found is an English translation with no English one after it, or -1 when no translation is English |
| LegacyScript.ChosenFromLastEnglish | ttc_alerts_script.py:66-76 | the translation loop yields the first non-empty text from the last English translation on, or from the first one when none is English |
| LegacyScript.NoEnglishChoosesFirstText | ttc_alerts_script.py:66-76 | with no English translation the result is the first non-empty text, or the empty string |
| LegacyScript.LastEnglishWins | ttc_alerts_script.py:67-70 | the text of the last English translation wins when it is not empty |
| LegacyScript.SelectText | ttc_alerts_script.py:66-76 | the loop over a field's translations yields the selected text, and the empty string when the alert lacks the field |
| LegacyScript.PeriodData | ttc_alerts_script.py:79-85 | a period record has a `start` key exactly when the period has a start, and an `end` key exactly when it has an end, with those values and no other key |
| LegacyScript.EntityData | ttc_alerts_script.py:88-96 | an entity record has each of `route_id`, `stop_id` and `agency_id` exactly when the selector has it, with its value, and no other key |
| LegacyScript.PeriodRecords | ttc_alerts_script.py:79-85 | one record per period, in order |
| LegacyScript.EntityRecords | ttc_alerts_script.py:88-96 | one record per selector, in order |
| LegacyScript.ExtractAlert | ttc_alerts_script.py:54-98 | the record of an alert carries its id, codes, selected header and description, and the period and entity records; its link is the first translation's text, as line 59 corrected under "## Findings" reads it (as written, line 59 raises for every alert with a link) |
| LegacyScript.ParsedAppend | ttc_alerts_script.py:52-98 | the records of two feeds put together are their records put together |
| LegacyScript.ParsedLength | ttc_alerts_script.py:52-98 | there is at most one record per entity, and exactly one when every entity carries an alert |
| LegacyScript.ParseGtfsRtAlerts | ttc_alerts_script.py:45-107 | with line 59 corrected as under "## Findings", the feed loop yields the record of each entity that carries an alert, in feed order, and no records when the data does not decode |
| LegacyScript.ParserSampleRecord | tests/test_parser.py:50-66 | the parser test's feed gives one record with the test's id, codes, English header and description, one period and the route `501` |
| LegacyScript.UrlAsWritten | ttc_alerts_script.py:59 | the link expression as written yields `""` when the alert has no link and raises whenever it has one |
| LegacyScript.AsWrittenLinkLosesFeed | ttc_alerts_script.py:59 | as written, one alert with a link makes the whole feed yield no records |
| LegacyScript.AsWrittenAgreesWithoutLinks | ttc_alerts_script.py:59 | on a feed without links, the code as written and the corrected model give the same records |
| LegacyScript.LinkFindingExample | ttc_alerts_script.py:59 | a one-alert feed with a link gives no records as written, and gives the record with its link text once corrected |
| LegacyScript.CauseUnknown | ttc_alerts_script.py:122-133 | a cause renders as `Unknown` exactly when it is code 1 or lies outside codes 1 to 12 |
| LegacyScript.EffectUnknown | ttc_alerts_script.py:127-134 | an effect renders as `Unknown` exactly when it lies outside codes 1 to 9, and code 8 renders as `Unknown Effect` |
| LegacyScript.PeriodLineOfRange | ttc_alerts_script.py:139-142 | a period's line is `  From: S To: E`, with `Not specified` for a missing start or end |
| LegacyScript.SelectorItems | ttc_alerts_script.py:147-151 | an entity contributes `Route r` before `Stop s`, each when present; an agency-only entity contributes nothing |
| LegacyScript.AffectedItemsEmpty | ttc_alerts_script.py:145-153 | the affected list is empty exactly when no entity record has a route or a stop |
| LegacyScript.DisplayLabelled | ttc_alerts_script.py:111-153 | every display line starts with the label of its section, and the sections come in the fixed order ID, Header, Description?, URL?, Cause, Effect, Periods?, Affected? |
| LegacyScript.DisplayShows | ttc_alerts_script.py:111-153 | some display line starts with a given label exactly when the record has that section |
| LegacyScript.CodeLines | ttc_alerts_script.py:112-134 | the display starts with the ID line and the header line, and the cause and effect lines follow the optional description and link lines |
| LegacyScript.DescriptionShown | ttc_alerts_script.py:115-116 | a `Description: ` line is shown exactly when the description is not empty |
| LegacyScript.UrlShown | ttc_alerts_script.py:118-119 | a `URL: ` line is shown exactly when the link is not empty |
| LegacyScript.PeriodsShown | ttc_alerts_script.py:137-142 | the `Active Periods:` heading is shown exactly when there are periods, and is followed by one line per period |
| LegacyScript.AffectedShown | ttc_alerts_script.py:145-153 | the `Affected: ` line is shown exactly when some entity record has a route or a stop |
| LegacyScript.PeriodBlock | ttc_alerts_script.py:139-142 | the loop over the periods yields their lines in order |
| LegacyScript.AffectedList | ttc_alerts_script.py:146-151 | the loop over the entities yields the route and stop items in entity order |
| LegacyScript.FormatAlert | ttc_alerts_script.py:109-155 | the text is the display lines joined by line breaks |
| LegacyScript.FullSampleLines | tests/test_formatter.py:31-49 | the full sample shows all nine lines, with `Technical Problem`, `Significant Delays`, the period line and `Route 501, Stop 1234` |
| LegacyScript.MinimalSampleLines | tests/test_formatter.py:51-73 | the minimal sample shows only the ID, header, `Cause: Unknown` and `Effect: Unknown Effect` lines |
| LegacyScript.UnknownCodesSample | tests/test_formatter.py:75-91 | codes outside both tables show `Cause: Unknown` and `Effect: Unknown` |

## Left out

- The network is not modelled: the HTTP session, the request and its error handling (ttc_alerts/controllers/fetcher.py lines 44-51, ttc_alerts_script.py lines 29-37). A fetch is a `FeedFetch` value: the received and decoded entities, an exception (`FetchRaised`: a failed request, or a body that `ParseFromString` rejects at fetcher.py line 55, both caught at line 106), or an interrupt.
- Protobuf decoding, JSON marshalling and pydantic's field extraction come from foreign libraries.
  - A decoded entity is a `RawAlert` whose four values may be absent.
  - An absent value is the validation error that makes `get_alerts` raise.
  - For the script, a feed is `None` when `ParseFromString` fails or the bindings are missing.
- Whether `set()` accepts `TTCAlert` instances is library behaviour. The model compares alerts by the equality of all four fields.
- Clocks are not modelled.
  - `time.sleep` is a returned wait length.
  - An interrupt is a flag on each cycle: it arrives during the fetch or during the wait.
  - `datetime.fromtimestamp` is left out: the model carries each timestamp as the text it renders to.
- Fetcher.SuccessWait: does not model the `OverflowError` that `time.sleep` raises for an interval too large for the platform.
- Fetcher.MonitorAlerts: runs over a finite list of polls, not forever. The ending `InputExhausted` marks a run whose polls ran out.
- Fetcher.CompareAlerts: returns sets, because the order of `list(set(...))` is not determined by the code.
- LegacyScript.ParseGtfsRtAlerts: reads the link with line 59 corrected; the loop as written is `ParsedAsWritten`, and `AsWrittenLinkLosesFeed` and `AsWrittenAgreesWithoutLinks` state where the two differ.
- LegacyScript.PeriodData: does not model the errors of `datetime.fromtimestamp` on out-of-range timestamps. Those would reach the whole-feed handler.
- Logging is left out: the `logger` calls and the rendering of reports with `str(alert)` (fetcher.py lines 45-46, 64-70, 92-101, 104, 107).
- These parts are I/O only and are left out:
  - the Telegram message builder and its controller
  - the configuration search
  - the command-line views
  - the logging setup
  - the script's fetch, display, monitor and entry-point functions (ttc_alerts_script.py lines 29-37 and 157-223)

## Findings

| source | as written | input that shows it | evidently intended | confidence | as-written member | corrected member |
|---|---|---|---|---|---|---|
| ttc_alerts_script.py:59 | The link is read by taking index 0 of the repeated translation field, then calling the dictionary method `get` on that protobuf message. Messages have no such method, so any alert with a link raises. The handler at lines 105-107 then returns no records for the whole feed. | a feed of one alert whose link has one translation, `https://example.com` (`LinkFindingExample`) | the text of the link's first translation, or `""` when there is no link or no translation | not executed; high | LegacyScript.UrlAsWritten, LegacyScript.AsWrittenLinkLosesFeed | LegacyScript.UrlText, LegacyScript.ParseResult, LegacyScript.AsWrittenAgreesWithoutLinks |
