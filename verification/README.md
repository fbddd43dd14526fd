# StockViz: what its small machines keep

A Dafny model of the parts of StockViz where several pieces of state, an
interleaving or a piece of exact arithmetic have to agree, with proofs of what
they promise. `dafny verify dfyconfig.toml` checks everything.

| file | what it models |
|---|---|
| `JournalProtocol.dfy` | the journal tab's fetches: month cache, day loads, page loads, aborts, refreshes and URL navigation in any order |
| `JournalCalendar.dfy`, `Dates.dfy` | the Monday-first month grid, the service's week spans, month keys, and the calendar arithmetic under them |
| `TintScale.dfy` | the median-based tint of calendar days |
| `DecimalMath.dfy`, `Numerals.dfy` | exact decimal strings: parse, multiply and round, print, compare |
| `Csv.dfy` | the CSV writer with formula neutralisation, and a reader for section 2 of RFC 4180 |
| `RateLimit.dfy` | the in-process fixed-window limiter and its lazy sweep |
| `JobGuard.dfy` | the Postgres advisory lock around scheduled jobs, for any number of processes |
| `Resample.dfy`, `FxSeed.dfy`, `DateLists.dfy` | collapsing intraday rows into daily bars; the interpolated USD/INR series and its chunked upsert |
| `Drawdown.dfy` | the one-pass maximum drawdown |
| `Compare.dfy` | comparison links: the ticker list under either name, and the timeframe |
| `Signals.dfy`, `MarketsTable.dfy`, `Ranking.dfy`, `Sorting.dfy` | votes rebuilt from rationale lines, and the stable sorts of two tables |
| `Wrappers.dfy`, `Reals.dfy`, `Sequences.dfy` | `Option`, for null and undefined; facts shared by several modules |

Where the code changes state step by step (the journal panel, the limiter, the
lock, the two table loops of the seeding script, the grid builder, the drawdown
loop, the vote matcher, the rounding of a product) the model is a class or a
method with a loop, proved equal to a specification function or predicate; the
theorems are lemmas about that specification.

## Assumptions

- Journal: a React state update and the effects it triggers are one step; the
  body of a response carries the date or month it was asked for; a date's list
  of executions does not change while it is being paged through. The panel's
  requests name no page size, so every page holds the service's default of 100
  rows (`apps/api/src/stockviz/routers/journal.py:156`); only the results that
  say so rely on it. Abort
  controllers are numbers, one per request, and the panel remembers which of
  them are aborted.
- Limiter: the clock that successive attempts read does not go backwards. The
  limits on attempts per stretch are for one policy per key, without resets.
- Job guard: a run's lock session lives as long as the run. `LostSessionOverlaps`
  shows that the guard needs this. What is guaranteed is that runs under one
  key do not overlap, not that a job fires once per tick.
- Numbers: prices, magnitudes and rates are reals, decimal digits are integers
  without bound (as `bigint`), day numbers count from 1970-01-01.
- `localeCompare` is any total preorder; `toLowerCase` and `toUpperCase` are
  functions of which only the laws stated in the contracts are used; SHA-256 is
  any function to at least eight bytes.

## What the proofs turned up

- Closing the journal inspector while a page is loading leaves the page
  spinner's flag on until another date is selected: the abort skips the
  `finally`, and only a day load clears the flag. `LeftOverRun` gives the run,
  `PageSpinnerExplained` says over every run when the flag is on, and
  `LeftOverReachable` that a date with more executions than one page holds, a
  hundred as the service is called, is enough and needed.
- If the panel is mounted with server data (or a server error) for a month
  other than the one the URL names, the initial month counts as requested
  without being visited, and after enough other months its calendar shows
  neither data, spinner nor error (`BlankMonthReachable`). A mount from a fresh
  server render gets the month of the URL, and then this cannot happen
  (`MonthNeverBlank`). Month changes go through `pushState` without running the
  page again; whether the router can mount the panel with older properties
  under a newer URL is outside this model.
- A CSV row with no fields prints like a row with one empty field; every other
  shape survives (`ShapeSurvives`), and a table without harmful fields comes
  back unchanged (`ReadsBackExactly`).
- The limiter's bound of `(k+1)·limit` attempts per `k` windows is never
  reached: `(k+1)·limit - 1` holds, and calls on the limiter reach that for
  every `k ≥ 1` unless windows last a single tick and the limit exceeds 1
  (`AtMostPerStretch`, `StretchBoundMet`).
- The one-pass drawdown is the largest fall over all pairs for every series in
  which no negative close follows a positive one, which is exactly when it stays
  within 100% (`PeakFallIsLargestFall`, `OverAllIffNegativeAfterGain`). Otherwise
  it can be smaller (`NegativeCloseBreaksPairs`), exactly when some fall to below
  zero is larger (`PairsDifferBelowZero`). Bars with a close of zero or less are
  rejected at ingestion (`apps/api/src/stockviz/services/ingest/screening.py:85-90`),
  so such a series is not one the service is meant to serve.
- A vote given with an id outside the seven known ones, or a second vote with
  the same id, is dropped when the panel is completed; with known, distinct ids
  nothing is lost (`CompletionKeepsSupport`).

## Model

| member | source | states |
|---|---|---|
| JournalProtocol.JournalPanel.constructor | apps/web/components/journal/journal-panel.tsx:39-68 | first render: URL parameters, the server-rendered month or its failure, then both effects |
| JournalProtocol.JournalPanel.LoadMonth | apps/web/components/journal/journal-panel.tsx:90-98 | a month load supersedes the month channel's request, marks the month requested, starts the spinner and clears the error; nothing else changes |
| JournalProtocol.JournalPanel.LoadDay | apps/web/components/journal/journal-panel.tsx:142-151 | a day load supersedes whatever day or page request is out and empties the inspector |
| JournalProtocol.JournalPanel.LoadMorePage | apps/web/components/journal/journal-panel.tsx:166-172 | a page is asked for only for the selected day, with more to come and no page under way, from the first row not yet loaded |
| JournalProtocol.JournalPanel.MonthEffect | apps/web/components/journal/journal-panel.tsx:126-129 | entering a month resets the spinner and loads it unless it is already requested |
| JournalProtocol.JournalPanel.DayEffect | apps/web/components/journal/journal-panel.tsx:215-224 | entering a date loads it; entering none aborts the day channel and clears the day |
| JournalProtocol.JournalPanel.CleanUp | apps/web/components/journal/journal-panel.tsx:129-132 | leaving a month or a date aborts its channel's request, and the month left no longer counts as requested |
| JournalProtocol.JournalPanel.GoTo | apps/web/components/journal/journal-panel.tsx:126-225 | a URL change runs the clean-ups of the effects whose inputs changed, then those effects |
| JournalProtocol.JournalPanel.RefreshAll | apps/web/components/journal/journal-panel.tsx:227-235 | a focus refresh reloads the month on screen and the open day |
| JournalProtocol.JournalPanel.RetrySelectedDay | apps/web/components/journal/journal-panel.tsx:380-382 | retry reloads the selected day and does nothing without one |
| JournalProtocol.JournalPanel.ResumeMonth | apps/web/components/journal/journal-panel.tsx:99-122 | a live month answer replaces that month's entry and keeps the five others used last; a failure lets the month be requested again |
| JournalProtocol.JournalPanel.ResumeDay | apps/web/components/journal/journal-panel.tsx:152-163 | a live day answer becomes the open day, a failure its error; the spinner goes off either way |
| JournalProtocol.JournalPanel.ResumePage | apps/web/components/journal/journal-panel.tsx:173-190 | a live page answer is appended to the day it belongs to, and its has-more flag taken |
| JournalProtocol.JournalPanel.Resume | apps/web/components/journal/journal-panel.tsx:99-190 | after an abort a late answer changes nothing but the set of open requests |
| JournalProtocol.JournalPanel.Dispatch | apps/web/components/journal/journal-panel.tsx:90-235 | every event takes the component through exactly one step of the protocol |
| JournalProtocol.JournalPanel.Play | apps/web/components/journal/journal-panel.tsx:90-235 | any sequence of events takes the component along the protocol's run, so the theorems about runs are about the component |
| JournalProtocol.StepKeepsInvariant | apps/web/components/journal/journal-panel.tsx:90-235 | every event keeps: one live request per channel, held by the current controller; spinners equal to requests; loaded rows a prefix; a sound cache |
| JournalProtocol.RunKeepsInvariant | apps/web/components/journal/journal-panel.tsx:90-235 | any sequence of events, in any interleaving, keeps it |
| JournalProtocol.MountEstablishes | apps/web/components/journal/journal-panel.tsx:39-68 | the first render establishes it, whatever the page handed over |
| JournalProtocol.FirstRender | apps/web/components/journal/journal-panel.tsx:39-68 | the month and date are the URL's, the cache and the error what the page handed over, the month is fetched unless it was handed over, and a date written as the month, a dash and anything is selected and asked for, no other |
| JournalProtocol.UrlSelectsDay | apps/web/components/journal/journal-panel.tsx:43 | from any reachable state a URL whose date is the month, a dash and anything selects that date; when it is new it is asked for, alone, and the inspector emptied |
| JournalProtocol.UrlSelectsNothing | apps/web/components/journal/journal-panel.tsx:43 | any other date, or none, closes the inspector: no day, no spinner, no error, no day or page request |
| JournalCalendar.UrlOpensDaysOfItsMonth | apps/web/components/journal/journal-panel.tsx:43 | the key of a calendar date is selected in a month exactly when the date is of that year and month |
| JournalProtocol.LoadedRowsArePrefix | apps/web/components/journal/journal-panel.tsx:142-191 | in every reachable state the rows shown are a prefix of the selected day's list, with no gap, repeat or row of another date, and are all of it exactly when no more is offered |
| JournalProtocol.SpinnersMatchRequests | apps/web/components/journal/journal-panel.tsx:90-225 | in every reachable state each channel has at most one live request, the current controller's, and each spinner is on exactly while its request is (the page spinner: while a date is selected) |
| JournalProtocol.InspectorNeverStuck | apps/web/components/journal/journal-panel.tsx:370 | the inspector's skeleton shows exactly while the selected day is on its way; otherwise there is a day or an error |
| JournalProtocol.PageSpinnerExplained | apps/web/components/journal/journal-panel.tsx:142-225 | over every run the page spinner's flag is on exactly while a page is loading, or since a page was loading when the selection was cleared |
| JournalProtocol.LeftOverReachable | apps/web/components/journal/journal-panel.tsx:153-222 | for pages of any one size some run from first render leaves the flag on with no page on its way exactly when a date has more executions than one page |
| JournalProtocol.ShortDaysNeverLeaveSpinner | apps/api/src/stockviz/routers/journal.py:156 | at the service's own page size, with no date above a hundred executions, the flag is on exactly while a page is loading |
| JournalProtocol.LeftOverRun | apps/web/components/journal/journal-panel.tsx:153-222 | for every such date and any handed-over month the run is exhibited: the first page arrives, the next is asked for, the inspector is closed |
| JournalProtocol.StaleResponsesInvisible | apps/web/components/journal/journal-panel.tsx:107-190 | a run with late answers to aborted requests ends as the run without them, whatever they carry |
| JournalProtocol.CachePutSound | apps/web/components/journal/journal-panel.tsx:109-115 | filing a month keeps the keys distinct, each entry under its own month, at most six, and the filed month in |
| JournalProtocol.MonthCacheBounded | apps/web/components/journal/journal-panel.tsx:46-48 | in every reachable state the cache holds at most six months, each once and under the month it answers |
| JournalProtocol.OnScreenMonthNeverEvicted | apps/web/components/journal/journal-panel.tsx:109-115 | over every run that stays on a cached month, that month stays cached |
| JournalProtocol.CacheHistory | apps/web/components/journal/journal-panel.tsx:46-48 | over every run the cache is the last six distinct months answered, the handed-over one counting as the first, in the order they were answered and each with its latest answer |
| JournalProtocol.LiveAnswerLands | apps/web/components/journal/journal-panel.tsx:107-190 | an answer still wanted is shown: the month filed last, the day from its first row, a page after the rows before it; the other channel is untouched |
| JournalProtocol.LiveFailureReported | apps/web/components/journal/journal-panel.tsx:116-190 | a failure still wanted is reported, costs no data, and leaves the month to be asked for again |
| JournalProtocol.RefreshReloads | apps/web/components/journal/journal-panel.tsx:227-235 | a refresh asks afresh for the month, which stays on screen, and for the open day, errors cleared |
| JournalProtocol.RetryMonthReloads | apps/web/components/journal/journal-panel.tsx:314-328 | retrying the month asks for it afresh with its error cleared, keeps what is cached and leaves the day alone |
| JournalProtocol.RetryDayReloads | apps/web/components/journal/journal-panel.tsx:380-382 | retrying the day asks for it afresh, alone, with the inspector emptied, and without a day does nothing |
| JournalProtocol.LoadMoreAsks | apps/web/components/journal/journal-panel.tsx:166-175 | load more asks for the rows after those shown when there are more and none are on their way, keeps what is shown, and otherwise does nothing |
| JournalProtocol.EveryVisitRevalidates | apps/web/components/journal/journal-panel.tsx:125-133 | after every run from a page that handed over its URL's month, or nothing, going to another month asks for it again, while what is cached paints |
| JournalProtocol.InitialMonthNotRefetched | apps/web/components/journal/journal-panel.tsx:65-68 | over every run that stays in the handed-over month and does not ask for it by hand, that month is never fetched |
| JournalProtocol.PageRoundShrinks | apps/web/components/journal/journal-panel.tsx:166-191 | asking for a page that arrives leaves strictly fewer rows to load while any are left |
| JournalProtocol.PagingCompletes | apps/api/src/stockviz/routers/journal.py:153-176 | whatever the page sizes, at most as many pages as rows are left load the whole day |
| JournalProtocol.PagesNeeded | apps/api/src/stockviz/routers/journal.py:155-175 | with pages of one size, as many as it takes to hold the rows that are left load the whole day, and one fewer does not |
| JournalProtocol.MonthNeverBlank | apps/web/app/(product)/(authed)/portfolio/page.tsx:14-19 | when the page hands over the URL's own month, or nothing, the calendar always has data, a spinner or an error |
| JournalProtocol.BlankMonthReachable | apps/web/components/journal/journal-panel.tsx:65-68 | otherwise some run ends with none of the three |
| JournalCalendar.SplitUndoesMonthKey | apps/web/lib/journal-view-model.ts:51-81 | a month's key parses and splits back to its year and month |
| JournalCalendar.ShiftMonthAdds | apps/web/lib/journal-view-model.ts:83-91 | shifting a month adds to its index, held to January 1970 and December 2200 |
| JournalCalendar.ShiftMonthComposes | apps/web/lib/journal-view-model.ts:83-91 | two shifts are one shift by the sum when the first meets no end of the range |
| JournalCalendar.ShiftMonthUndone | apps/web/lib/journal-view-model.ts:83-91 | a shift that meets no end of the range is undone by its opposite |
| JournalCalendar.ParseMonthKeyAccepts | apps/web/lib/journal-view-model.ts:51-60 | a text is accepted exactly when it is the key of a month from January 1970 to December 2200, and any other gives the fallback |
| JournalCalendar.BuildCell | apps/web/lib/journal-view-model.ts:153-170 | one cell: its date, day of month, flags and summary |
| JournalCalendar.BuildRow | apps/web/lib/journal-view-model.ts:151-171 | one row of seven cells from a cursor |
| JournalCalendar.BuildCalendar | apps/web/lib/journal-view-model.ts:140-180 | the two nested loops build exactly the specified grid |
| JournalCalendar.GridIsConsecutive | apps/web/lib/journal-view-model.ts:140-180 | the flattened grid is a gap-free run of days from a Monday, four to six rows of seven, each cell labelled with its own day and flagged as in the month, weekend and today exactly when it is |
| JournalCalendar.January2024 | apps/web/lib/journal-view-model.ts:150-169 | January 2024, which began on a Monday, begins the grid unpadded with the cell 2024-01-01 |
| JournalCalendar.FindDayAt | apps/web/lib/journal-view-model.ts:147 | of several summaries for a date the last is shown |
| JournalCalendar.MonthDaysInOrder | apps/web/lib/journal-view-model.ts:153-170 | each day of the month is in the grid exactly once, in order, and no other cell is in the month |
| JournalCalendar.RowHasMonthDay | apps/web/lib/journal-view-model.ts:172-175 | every row has a day of the month and takes its key from the first, so the fallback key is never used |
| JournalCalendar.WeekSpans | apps/api/src/stockviz/services/journal/aggregate.py:134-144 | the service's loop computes the specified clipped spans |
| JournalCalendar.SpansAreRows | apps/api/src/stockviz/services/journal/aggregate.py:134-144 | for every month the service's week spans are the rows of the grid, one for one |
| JournalCalendar.RowsFindTheirWeeks | apps/web/lib/journal-view-model.ts:174-176 | so every row finds the service's summary of its week under its key |
| JournalCalendar.SummaryLandsOnce | apps/web/lib/journal-view-model.ts:147-170 | each day summary is in exactly one cell, that of its date |
| JournalCalendar.TotalsConserved | apps/web/lib/journal-view-model.ts:147-170 | the cells' profit and loss adds up to the summaries' |
| JournalCalendar.LabelInRow | apps/web/components/journal/journal-panel.tsx:248-253 | comparing YYYY-MM-DD strings with a week's ends picks exactly the days of its row |
| JournalCalendar.WeeksPartitionDays | apps/web/components/journal/journal-panel.tsx:248-253 | each of the month's summaries is picked by exactly one week |
| Dates.KeyOrder | apps/web/lib/journal-view-model.ts:110-112 | string order of date keys is calendar order, and equal keys are equal dates |
| Dates.NumberOrder | apps/web/lib/journal-view-model.ts:114-128 | Gregorian day numbers order dates as the calendar does and name each once |
| Dates.MonthRollsOver | apps/web/lib/journal-view-model.ts:114-116 | the day after a month's last is the first of the next |
| Dates.NormaliseKeepsNumber | apps/web/lib/journal-view-model.ts:125-128 | carrying an out-of-range day into its month keeps the day number |
| Dates.GregorianAnchors | apps/web/lib/journal-view-model.ts:118-123 | day 0 is the first of January 1970, a Thursday, and the first of January 2024 was a Monday |
| Dates.WeekdayStep | apps/web/lib/journal-view-model.ts:118-123 | weekdays follow one another, Monday after Sunday |
| Dates.DayNumberSteps | apps/web/lib/journal-view-model.ts:125-128 | day numbers follow one another within a month, and 400 years are 146097 days |
| Dates.MonthLengths | apps/web/lib/journal-view-model.ts:114-116 | the twelve lengths, with the Gregorian leap rule; February 2000 has 29 days and February 2100 has 28 |
| Dates.KeyAnchor | apps/web/lib/journal-view-model.ts:110-112 | the key of the first of January 2024 is 2024-01-01 |
| TintScale.RanksInterlace | apps/web/lib/journal-view-model.ts:201-206 | replacing one day that moved by another that moved shifts no order statistic past the old one of the next rank |
| TintScale.ScaleStaysBetweenNeighbours | apps/web/lib/journal-view-model.ts:207-212 | so the median scale stays between the old values one rank below and one rank above it, for odd and even months |
| TintScale.ScaleIsMedian | apps/web/lib/journal-view-model.ts:201-212 | the scale is the middle size in rising order, or the mean of the middle two, and 0 when nothing moved |
| TintScale.SizesOfDays | apps/web/lib/journal-view-model.ts:202-204 | a day of exactly zero has no size, any other its distance from zero |
| TintScale.HalfOnEitherSide | apps/web/lib/journal-view-model.ts:234-243 | at least half of the days that moved get level at most 2 and at least half get level at least 2, and there is a scale exactly when a day moved |
| TintScale.TintCuts | apps/web/lib/journal-view-model.ts:215-243 | a day that moved is light below 0.6, strong from 1.4 times the scale, medium between, with the sign of its result |
| TintScale.TintEdges | apps/web/lib/journal-view-model.ts:234-237 | a day of exactly zero is flat and untinted, and without a scale any other is light with its own sign |
| TintScale.UnitsDoNotMatter | apps/web/lib/journal-view-model.ts:201-243 | stating the whole month in another unit changes no tint |
| TintScale.TimesChangesUnit | apps/web/lib/journal-view-model.ts:201-243 | multiplying by a positive factor is such a change of unit |
| DecimalMath.Rescale | apps/web/lib/decimal-math.ts:43-50 | padding, or dividing and looking at twice the remainder, is adding one half and flooring |
| DecimalMath.MultiplyScaled | apps/web/lib/decimal-math.ts:39-57 | the update of `digits` and the printing give the printed rounded product, with no sign on a zero |
| DecimalMath.MultiplyDecimalStrings | apps/web/lib/decimal-math.ts:29-58 | the whole function, with its null results, computes `Product` |
| DecimalMath.MultiplyRoundsToNearest | apps/web/lib/decimal-math.ts:29-58 | the printed product is canonical, parses back at the scale asked for, is the exact product rounded to the nearest multiple with ties away from zero, and is exact when the scales fit |
| DecimalMath.ProductValue | apps/web/lib/decimal-math.ts:39-41 | the fraction that is rounded is the product of the two values |
| DecimalMath.PrintParses | apps/web/lib/decimal-math.ts:13-22 | what is printed parses back to the same digits, scale and sign, and zero has no sign |
| DecimalMath.PrintCanonical | apps/web/lib/decimal-math.ts:52-57 | every printed text is canonical: no spare zeros in front, no negative zero |
| DecimalMath.CanonicalPrints | apps/web/lib/decimal-math.ts:52-57 | and every canonical text is printed from what it parses to |
| DecimalMath.DecimalRead | apps/web/lib/decimal-math.ts:13-22 | blanks, perhaps a minus, figures, perhaps a point and figures, and blanks are read as those figures, with as many decimals as follow the point, and negative after a minus unless zero |
| DecimalMath.NothingElseRead | apps/web/lib/decimal-math.ts:9-15 | no other text is a decimal |
| DecimalMath.BlanksAroundDecimal | apps/web/lib/decimal-math.ts:14 | blanks around a decimal change neither its value nor whether it parses |
| DecimalMath.ProductMissing | apps/web/lib/decimal-math.ts:34-37 | the result is null exactly when a factor is not a decimal or the number of decimals is not between 0 and 12 |
| DecimalMath.CompareIsRationalOrder | apps/web/lib/decimal-math.ts:60-69 | the comparator answers exactly when both texts parse, and then with the order of the rationals |
| DecimalMath.CompareTotalPreorder | apps/web/lib/decimal-math.ts:60-69 | it is reflexive, antisymmetric in sign and transitive |
| DecimalMath.CompareIgnoresZeros | apps/web/lib/decimal-math.ts:24-27 | any number of zeros in front of the whole part and behind the fraction makes no difference |
| DecimalMath.MultiplyMonotone | apps/web/lib/decimal-math.ts:29-58 | x ≤ y and z ≥ 0 give x·z ≤ y·z after rounding, negative values included |
| Csv.FieldReadsBack | apps/web/lib/csv.ts:52-59 | a reader stops exactly at the end of a written field and recovers its neutralised text, quotes, commas and line ends included |
| Csv.RowReadsBack | apps/web/lib/csv.ts:62-64 | a written row of at least one field reads back field by field |
| Csv.CsvReadsBack | apps/web/lib/csv.ts:72-77 | after the byte order mark an RFC 4180 reader recovers every row and every neutralised field of the document |
| Csv.ShapeSurvives | apps/web/lib/csv.ts:62-77 | the table comes back with its own shape exactly when no row is without fields |
| Csv.PrintsAlike | apps/web/lib/csv.ts:72-77 | two tables print alike exactly when their recovered tables agree |
| Csv.EveryFieldHarmless | apps/web/lib/csv.ts:41-49 | every field of a document that is read back has no formula prefix or is a whole negative number |
| Csv.EveryFieldFate | apps/web/lib/csv.ts:27-59 | for every cell of every document: null comes back empty; a text beginning with none of = + - @ tab CR comes back unchanged, one beginning with such a character comes back behind a quote mark, except that a negative numeral may and one of figures with or without decimals does come back unchanged |
| Csv.NoFormulaReadBack | apps/web/lib/csv.ts:27-49 | no field read back begins with = + @ tab or CR, and one beginning with - is a minus, figures with at most one point, perhaps an exponent, and blanks |
| Csv.DocumentMarks | apps/web/lib/csv.ts:72-77 | a document begins with the byte order mark, separates fields by commas and ends every record in CR LF |
| Csv.ReadsBackExactly | apps/web/lib/csv.ts:41-77 | the very table, unchanged, comes back exactly when every row has a field and every field has no formula prefix or is a whole negative number |
| Csv.WritesBack | apps/web/lib/csv.ts:52-77 | writing what was read from a document gives the document back, character for character |
| Csv.PlainNumberHasNoPayload | apps/web/lib/csv.ts:29-39 | an exempted number holds digits, signs, a point, an exponent and space, and nothing else |
| Csv.NeutraliseCollides | apps/web/lib/csv.ts:41-49 | neutralising is idempotent and confuses two texts only when one is the other with the quote mark already in front |
| RateLimit.RateLimiter.constructor | apps/web/lib/rate-limit.ts:27-30 | the limiter starts with no windows |
| RateLimit.RateLimiter.Sweep | apps/web/lib/rate-limit.ts:38-44 | below 10,000 windows nothing is deleted, from there exactly the expired ones |
| RateLimit.RateLimiter.RecordHit | apps/web/lib/rate-limit.ts:52-70 | one attempt: the sweep, then a fresh window or a counted one, and the answer with its retry time |
| RateLimit.RateLimiter.Forget | apps/web/lib/rate-limit.ts:73-75 | a reset drops the key's window and no other |
| RateLimit.RateLimiter.Clear | apps/web/lib/rate-limit.ts:78-80 | clearing drops every window |
| RateLimit.RateLimiter.Serve | apps/web/lib/rate-limit.ts:38-80 | any sequence of calls on the object gives the specified answers and windows |
| RateLimit.SweepInvisible | apps/web/lib/rate-limit.ts:38-70 | under a clock that never goes back, every call sequence is answered as by a limiter that never deletes |
| RateLimit.SizeBounded | apps/web/lib/rate-limit.ts:38-44 | after an attempt the map holds at most 10,000 windows, or only live ones |
| RateLimit.KeysIndependent | apps/web/lib/rate-limit.ts:52-70 | a key's answers are those of a lone counter fed its own attempts |
| RateLimit.AtMostPerStretch | apps/web/lib/rate-limit.ts:52-70 | in every half-open stretch of k windows at most (k+1)·limit − 1 attempts on a key get through |
| RateLimit.StretchBoundMet | apps/web/lib/rate-limit.ts:52-70 | for every number of windows some call sequence on the limiter reaches that bound exactly when the limit is 1, or the windows are longer than one tick and the stretch is not empty |
| RateLimit.BurstOutcomes | apps/web/lib/rate-limit.ts:56-69 | of a burst that meets no live window the first is let through and then as many as the limit allows; only a denial reports a time, of at least a second |
| RateLimit.ResetForgives | apps/web/lib/rate-limit.ts:73-80 | after a reset of its key, or of everything, the next attempt is let through, and a reset touches no other key |
| RateLimit.RetryTimeSuffices | apps/web/lib/rate-limit.ts:63-68 | after a denial the next attempt on the key at or after the reported time is let through, whatever other keys do |
| RateLimit.RetryTimeNeeded | apps/web/lib/rate-limit.ts:63-68 | a whole second before the reported time the key is still denied |
| JobGuard.KeyOfDigest | apps/api/src/stockviz/scheduler.py:77-80 | the key of an eight-byte digest is a signed 64-bit integer from which the digest is recovered |
| JobGuard.BigEndian | apps/api/src/stockviz/scheduler.py:80 | the key is the eight bytes read with the first weighing most and carrying the sign |
| JobGuard.DigestOfKey | apps/api/src/stockviz/scheduler.py:77-80 | every signed 64-bit integer is the key of some digest |
| JobGuard.KeysCollide | apps/api/src/stockviz/scheduler.py:77-80 | two jobs share a key exactly when their digests begin with the same eight bytes |
| JobGuard.StepKeepsGuard | apps/api/src/stockviz/scheduler.py:93-117 | every step of any process keeps: runs between lock and unlock own their key, and only they or dead runs own keys |
| JobGuard.MutualExclusion | apps/api/src/stockviz/scheduler.py:83-121 | in every interleaving of returns, exceptions, refusals and crashes no two runs are in a body under one key, and a run in its body owns its lock |
| JobGuard.ExclusionNeedsPostgres | apps/api/src/stockviz/scheduler.py:91-98 | overlap is excluded over every run exactly when the database has advisory locks |
| JobGuard.LostSessionOverlaps | apps/api/src/stockviz/scheduler.py:101-117 | if a lock session could end before its run, bodies could overlap |
| JobGuard.FinishedHoldsNothing | apps/api/src/stockviz/scheduler.py:112-117 | a run that has ended in any way holds no lock |
| JobGuard.EveryExitReleases | apps/api/src/stockviz/scheduler.py:103-117 | in every interleaving a run that leaves its body by a return, an exception or a crash holds its key until it unlocks or its dead session is noticed, whatever the others do meanwhile, and frees it then |
| JobGuard.AttemptDecided | apps/api/src/stockviz/scheduler.py:103-111 | in every interleaving an attempt is refused while another run holds its key, only because of such a run or one that died, and otherwise gets the lock |
| JobGuard.RunsOnlyAdvance | apps/api/src/stockviz/scheduler.py:95-117 | no step takes a run back or moves another run, and a refused run never reaches its body |
| JobGuard.NeverBlocked | apps/api/src/stockviz/scheduler.py:103-117 | an unfinished run always has a next step of its own: nobody waits for the lock |
| JobGuard.LockServer.constructor | apps/api/src/stockviz/scheduler.py:101-108 | a database starts with no advisory locks held |
| JobGuard.LockServer.TryAdvisoryLock | apps/api/src/stockviz/scheduler.py:104-108 | the attempt succeeds exactly when nobody else holds the key, and counts one more hold on that key only |
| JobGuard.LockServer.AdvisoryUnlock | apps/api/src/stockviz/scheduler.py:114-117 | the unlock gives up one hold if this session has one, and the key with the last |
| JobGuard.UnlockUndoesLock | apps/api/src/stockviz/scheduler.py:104-117 | an unlock after a lock leaves the table as it was, for a first hold and a repeated one |
| JobGuard.LockServer.SingleInstance | apps/api/src/stockviz/scheduler.py:95-117 | one undisturbed call runs the job, or skips it when the database has advisory locks and the key is held; without advisory locks it always runs; it leaves the lock table as it was and is a run of the step model |
| Resample.DailyFromIntraday | apps/api/scripts/seed_bulk_daily.py:58-78 | the result is in date order and has, for each date, the one bar summarising that date's rows, and no other bar |
| Resample.BarFromRows | apps/api/scripts/seed_bulk_daily.py:66-77 | every bar opens where its date's first row opens, closes where its last row closes, reaches exactly as high and as low as its rows and trades what they trade |
| Resample.FileRows | apps/api/scripts/seed_bulk_daily.py:62-64 | the first loop fills the bucket dictionary, keys in order of first appearance |
| Resample.Collapse | apps/api/scripts/seed_bulk_daily.py:65-78 | the second loop makes one bar per bucket: first open, highest high, lowest low, last close, summed volume |
| Resample.HighIsHighest | apps/api/scripts/seed_bulk_daily.py:72 | a bar's high is the high of some row and at least every row's |
| Resample.LowIsLowest | apps/api/scripts/seed_bulk_daily.py:73 | a bar's low is the low of some row and at most every row's |
| Resample.ResampledUnique | apps/api/scripts/seed_bulk_daily.py:58-78 | the bars are determined by the rows |
| Resample.DatesKept | apps/api/scripts/seed_bulk_daily.py:66-70 | the bars' dates are exactly the rows' dates |
| Resample.SameDailyBars | apps/api/scripts/seed_bulk_daily.py:62-64 | only each date's own rows matter: rows of different dates may interleave freely |
| Resample.PartMayResampleFirst | apps/api/scripts/seed_bulk_daily.py:58-78 | any contiguous part of the rows, even one ending within a day, may be replaced by its own daily bars |
| Resample.RunMaySummarise | apps/api/scripts/seed_bulk_daily.py:67-77 | a contiguous run of one date's rows may be replaced by its aggregate |
| Resample.ResampleIdempotent | apps/api/scripts/seed_bulk_daily.py:58-78 | daily bars resample to themselves |
| Resample.VolumeConserved | apps/api/scripts/seed_bulk_daily.py:75 | the bars trade exactly the rows' volume |
| Resample.PlausibilityCarries | apps/api/scripts/seed_bulk_daily.py:67-77 | when low ≤ open, close ≤ high holds of every row it holds of every bar |
| FxSeed.FxTable.constructor | apps/api/scripts/seed_bulk_daily.py:160 | a table holding given rates |
| FxSeed.FxTable.Upsert | apps/api/scripts/seed_bulk_daily.py:170-176 | one statement inserts or overwrites each of its rows; its keys must differ, as the database demands |
| FxSeed.FxTable.UpsertInChunks | apps/api/scripts/seed_bulk_daily.py:170-177 | the loop over chunks of 1000 does what one statement over all rows would, in as few statements as chunks of 1000 take, and never names a key twice in one |
| FxSeed.FxTable.WriteFxInr | apps/api/scripts/seed_bulk_daily.py:160-178 | afterwards the INR rate of every date asked for is the interpolated one, nothing else has changed, and the count is the number of dates |
| FxSeed.RateBetweenAnchors | apps/api/scripts/seed_bulk_daily.py:161-166 | the rate lies between the anchors, equals an anchor exactly on its side, and is linear between |
| FxSeed.RateAnchors | apps/api/scripts/seed_bulk_daily.py:52-55 | 0.01613 on the first of January 2015, 0.01163 on the 30th of June 2026, 4198 days apart |
| FxSeed.RateFalls | apps/api/scripts/seed_bulk_daily.py:49-55 | the series never rises, and falls strictly wherever it passes between the anchors |
| Drawdown.MaxDrawdownPct | apps/web/lib/compare-workspace.ts:123-132 | null below two closes, otherwise the largest fall below the running peak, or 0, in percent |
| Drawdown.PeakFallIsLargestFall | apps/web/lib/compare-workspace.ts:123-132 | for every series without a negative close after a positive one that is the largest fall over all pairs of days, and at most everything |
| Drawdown.PairsDifferBelowZero | apps/web/lib/compare-workspace.ts:123-132 | for any series the pairs never find less, and find more exactly when some fall to a close below zero is larger than every fall from the peak |
| Drawdown.NoDrawdownIffNeverFalls | apps/web/lib/compare-workspace.ts:123-132 | for any series it is zero exactly when no close is below an earlier positive one |
| Drawdown.OverAllIffNegativeAfterGain | apps/web/lib/compare-workspace.ts:123-132 | it exceeds 100% exactly when a negative close follows a positive one |
| Drawdown.NegativeCloseBreaksPairs | apps/web/lib/compare-workspace.ts:123-132 | for the closes 1, 2, −1 the one pass finds 150% and the pairs 200% |
| Compare.ParsedIsCanonical | apps/web/lib/compare-workspace.ts:51-61 | whatever the address holds, the comparison is of at most six distinct, trimmed, upper-case tickers |
| Compare.AddressNamesTickers | apps/web/lib/compare-workspace.ts:51-61 | an address names, of its parts trimmed and in capitals, the first six distinct ones that are not blank, in the order in which they first occur; one is missing only behind six others |
| Compare.AddressParameters | apps/web/lib/compare-workspace.ts:63-73 | the list is read from `tickers` when given and from `symbols` otherwise, and a timeframe that is not one of the five texts is a year |
| Compare.LinkReadsBack | apps/web/lib/compare-workspace.ts:63-90 | under either name of the list parameter a link reads back as the comparison it was built from exactly when that has a list of this form; the timeframe always reads back |
| Compare.LinksAreStable | apps/web/lib/compare-workspace.ts:51-90 | parsing an address, building the link and parsing again changes nothing |
| Signals.VotesFromRationale | apps/web/lib/signals-workspace.ts:113-128 | vote by vote in spec order: the first line that mentions the vote and backs no earlier one, or a failed vote when there is none |
| Signals.OneLinePerVote | apps/web/lib/signals-workspace.ts:113-128 | when every line is about one vote and no vote has two lines, a vote passes exactly when a line is about it and quotes that line |
| Signals.VoteTable | apps/web/lib/signals-workspace.ts:85-93 | the seven votes, with their captions and the text that stands for each |
| Signals.BackingUnique | apps/web/lib/signals-workspace.ts:113-128 | the reconstruction is determined by the rationale |
| Signals.LinesConserved | apps/web/lib/signals-workspace.ts:114-118 | the lines quoted by passed votes and the lines left over are the rationale, as multisets |
| Signals.SupportBounded | apps/web/lib/signals-workspace.ts:113-128 | a rationale supports at most seven votes and at most one per line |
| Signals.CompletedPanel | apps/web/lib/signals-workspace.ts:100-111 | the completed panel has the seven votes in order, and what it adds are failed votes for ids that had none |
| Signals.LastVoteShown | apps/web/lib/signals-workspace.ts:101-110 | of several votes with an id the last is shown, and an id without one gets an explicit failure |
| Signals.CompleteIdempotent | apps/web/lib/signals-workspace.ts:100-111 | completing twice is completing once |
| Signals.CompletionKeepsSupport | apps/web/lib/signals-workspace.ts:95-111 | votes with known, distinct ids all survive, so the support does not change |
| Signals.RecommendationToSignal | apps/web/lib/signals-workspace.ts:68-83 | structured votes are kept when there are any, else rebuilt from the rationale; supporting votes are the passed ones, at most seven and at most one per line on the rationale path |
| Signals.FilterThenSort | apps/web/lib/signals-workspace.ts:130-180 | filtering then sorting shows the same table as sorting then filtering |
| Signals.SignalOrderPreorder | apps/web/lib/signals-workspace.ts:159-178 | every column in either direction is a total preorder |
| Signals.SortSignalsIsTheStableSort | apps/web/lib/signals-workspace.ts:153-180 | the sorted copy is a permutation of the rows and the only stable ordered one |
| Signals.SentimentBlanksLast | apps/web/lib/signals-workspace.ts:164-171 | by sentiment, rows without one come last in either direction, by ticker |
| Signals.ScoresInOrder | apps/web/lib/signals-workspace.ts:174-176 | by score, rows run in the direction asked for and equal scores by ticker ascending |
| Signals.TextColumnsInOrder | apps/web/lib/signals-workspace.ts:162-173 | by ticker or time of computing, rows run in the direction asked for |
| Signals.EqualRowsKeepOrder | apps/web/lib/signals-workspace.ts:164-173 | rows of one sentiment, or computed at one time, keep the order they came in |
| Signals.FilterKeepsExactly | apps/web/lib/signals-workspace.ts:130-151 | a row stays exactly when its class and sector are the ones asked for and its ticker or name contains the query; empty filters ask for nothing |
| MarketsTable.SorterPreorder | apps/web/lib/markets-table.ts:57-73 | every column in either direction is a total preorder |
| MarketsTable.CompareIsTheStableSort | apps/web/lib/markets-table.ts:54-74 | the sorted copy is a permutation of the rows and the only stable ordered one |
| MarketsTable.UnpricedRowsLast | apps/web/lib/markets-table.ts:49-67 | by change or price, rows without one come last in either direction, by ticker |
| MarketsTable.TickersInOrder | apps/web/lib/markets-table.ts:69-70 | by ticker, rows run in the direction asked for |
| MarketsTable.EqualRowsKeepOrder | apps/web/lib/markets-table.ts:57-67 | rows of one price, or of one change, keep the order they came in |
| MarketsTable.SectorThenSort | apps/web/lib/markets-table.ts:54-74 | restricting the table before or after sorting shows the same rows in the same order |
| Sorting.StableSortUnique | apps/web/lib/signals-workspace.ts:158-159 | there is one stable sort by a total preorder, whatever algorithm an engine uses |
| Sorting.SortFilterCommute | apps/web/lib/signals-workspace.ts:130-180 | a stable sort commutes with every filter |

## Left out

- The trading ledger, the outbox publisher, the event consumers, the replay and
  the backtest engine are not part of this model.
- The journal panel's week-detail request: one request per effect, cancelled by
  its own clean-up, with none of the sharing of the other two channels.
- The journal panel's abort controllers as heap objects: they are request
  numbers, so aliasing between a ref and a closure is not modelled.
- The text of error messages, rendering, locale formatting and URL encoding; a
  comparison link is modelled by its decoded query parameters.
- JournalCalendar.BuildCalendar: does not cover month keys outside 1970 to 2200, which
  `parseMonthKey` never lets through.
- Csv.PlainNumberHasNoPayload: decimal literals only; `Number` also reads hexadecimal,
  octal and binary ones, which admit no sign and so are never asked about.
- TintScale.HalfOnEitherSide: magnitudes are finite reals, so the filter on non-finite
  numbers and binary rounding are not modelled.
- Drawdown.MaxDrawdownPct: closes are reals, so binary rounding and NaN are not modelled.
- FxSeed.RateBetweenAnchors: rates are exact, not rounded to the 28 digits of Python's decimal context.
- JobGuard.MutualExclusion: in the step model a run locks once, as the code does; repeated
  holds by one session are modelled in `LockServer` only.
- Compare.LinkReadsBack: the query string itself, `URLSearchParams` and its encoding, is a
  library's.
- Strings are sequences of characters: surrogate pairs, normalisation and the
  locale's case mapping are not modelled beyond the laws named in the contracts.
- The parsing of seed files, the plausibility screening and the transaction around
  the seeding script.
- `week_spans` is modelled only to show that its labels meet the grid's; the
  rest of the journal's aggregation is database queries.
