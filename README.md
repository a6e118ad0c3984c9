# Amazon India test-suite helpers in Dafny

This project models the deterministic logic inside a Selenium test suite for
the Amazon India storefront, and proves properties of it. The browser is
treated as an oracle: for every selector, the elements it finds and what
they answer (displayed, enabled, text, whether a click works), and the list
of open window handles, are inputs. What is modelled:

- **Fallback chains and retries** (`utils/test_helpers.py`):
  - classifying selector strings;
  - finding the first element, price or product list a selector chain yields;
  - the bounded retry click;
  - the bounded multi-pass popup dismissal;
  - the single-window wrappers around navigation and clicks.
- **Single-window enforcement** (`utils/browser_config.py`): closing every
  window but the first. Also the refusal of headless arguments and the
  window geometry checks.
- **The session reporter** (`utils/enhanced_reporting.py`):
  - its results, metrics and screenshots, as a class whose methods update
    them;
  - the summary counts and success rate that both of its reports print.
- **The pytest hooks** (`tests/conftest.py`):
  - turning a test report into a passed/failed/skipped record, with a
    screenshot on failure and a duration metric;
  - the order of the session fixture;
  - the metric written when the session finishes.
- **The scoring and extraction logic of the two large test files**:
  - price accuracy against a tolerance;
  - search relevance;
  - priority language choice;
  - the fallback price scan;
  - `measure_performance`;
  - product title and price extraction;
  - container choice;
  - the backup file's popup loop and interaction rates.

Modules:
- **Shared:** `Wrappers`, `Text` (Python string operations), `Ratio` (the
  percentage), `Scan` (first match over per-selector lists), `PopupPasses`
  (the pass structure both popup loops share) and `Driver` (the window part
  of the WebDriver).
- **One per source file:** `TestHelpers`, `BrowserConfig`,
  `EnhancedReporting`, `Conftest`, `AmazonComplete` and
  `AmazonCompleteBackup`.
- **Shared by the two test files:** `PriceValidation` (their identical
  `validate_price_accuracy`) and `ProductExtraction` (their title and price
  readers).

Two behaviours of the code a reader might not expect are modelled as written:
- `measure_performance` reports an exception as `success: False` instead of
  re-raising it.
- `smart_product_finder` with `max_products == 0` falls back to scraping even
  when a selector matched, because `products[:0]` is empty.

## Model

| member | source | states |
|---|---|---|
| TestHelpers.AutoDetectSelectorType | utils/test_helpers.py:105-118 | rules tried in the order `#`, `.`, `//`, brackets, `name=`, default CSS; each strategy holds iff its rule is the first that applies; the stripped prefix plus the answer rebuilds the input |
| TestHelpers.ConditionFor | utils/test_helpers.py:80-85 | "visible" and "clickable" select their conditions; any other name means presence |
| TestHelpers.AdvancedElementFinder | utils/test_helpers.py:74-102 | answers the first selector, in list order, whose wait yields a displayed element; every earlier one fails; `None` iff every selector fails |
| TestHelpers.RobustElementClick | utils/test_helpers.py:121-146 | at most `max_attempts` attempts; true iff some attempt (native click, or script click after an interception) succeeds, the last attempt made being the first success; false only after all attempts |
| TestHelpers.PriceText | utils/test_helpers.py:190-204 | text source order: stripped `.text` if non-blank, else stripped `textContent`, else `innerHTML` with tags removed |
| TestHelpers.ElementPrice | utils/test_helpers.py:206-213 | the price is the number the price text reads as (commas dropped, first digit run) when it lies in [50, 10000000], exactly as ParsePrice reads it; an empty price text gives none |
| TestHelpers.ExtractPriceFromElement | utils/test_helpers.py:161-225 | the answer is the first element, selector order then element order, that yields a price, with its text and selector; `None` iff none does |
| TestHelpers.ExtractedPriceIsFirst | utils/test_helpers.py:184-225 | the element read yields a price and none scanned before it does; no price iff no element yields one (out-of-range values do not stop the search) |
| TestHelpers.WinsAtUnique | utils/test_helpers.py:253-258 | at most one selector is the first with three or more products |
| TestHelpers.SmartProductFinder | utils/test_helpers.py:228-271 | the first selector with at least three products wins, cut to `max_products`; the scraping fallback is used when none reaches three or the cut is empty |
| TestHelpers.DismissalPass | utils/test_helpers.py:340-392 | one pass dismisses exactly the first displayed, enabled element, in selector priority order, that scrolls and whose robust click succeeds |
| TestHelpers.IntelligentPopupDismissal | utils/test_helpers.py:325-406 | the count and the dismissed positions equal the pass semantics: one dismissal per pass, stop after an empty pass, at most `max_attempts` passes |
| TestHelpers.PopupCountBounded | utils/test_helpers.py:367-406 | the count is at most `max_attempts`, and 0 when the first pass finds nothing |
| TestHelpers.EnforcedActionKeepsMainWindow | utils/test_helpers.py:35-52 | whatever windows the action opens, enforcement after it leaves only the window that was first before it |
| TestHelpers.AfterEnforceShrinks | utils/browser_config.py:316-322 | enforcement opens no window |
| TestHelpers.NavigateSingleTab | utils/test_helpers.py:35-52 | enforce, load, enforce: the exact driver calls and the windows left; false exactly when the load raised, and then the second enforcement is skipped |
| TestHelpers.ClickElementSingleTab | utils/test_helpers.py:55-71 | enforce, script click, enforce, with the same guarantees as navigation |
| Driver.Browser.SwitchTo | utils/browser_config.py:318-322 | switching succeeds iff the window is open; only the current window and the call log change |
| Driver.Browser.Close | utils/browser_config.py:318-320 | closing removes the current window from the handle list and logs it; the handles stay distinct |
| Driver.Browser.InjectScript | utils/browser_config.py:283-313 | the script injection leaves the windows alone and is logged iff it did not raise |
| Driver.Browser.Act | utils/test_helpers.py:41-44 | a load or script click that succeeds appends the windows it opened and logs itself; one that raises changes nothing |
| BrowserConfig.EnforceSingleTabMode | utils/browser_config.py:279-328 | with more than one window every window but the first is switched to and closed in list order, then the first is focused; false and no window touched when the script injection raises |
| BrowserConfig.CloseExtraWindows | utils/browser_config.py:316-320 | the close loop leaves exactly `[handles[0]]` and logs a switch and a close per extra window |
| BrowserConfig.EnforceClosesAllButFirst | utils/browser_config.py:316-323 | the windows closed are `handles[1..]`, in order, so `len(handles) - 1` of them; none with one window |
| BrowserConfig.CloseTraceCloses | utils/browser_config.py:319-321 | the loop's switch/close pairs close exactly the handles it walks, in order |
| BrowserConfig.EnforceIsIdempotent | utils/browser_config.py:316-317 | a second enforcement leaves the windows as they are and only re-injects the script |
| BrowserConfig.ValidateNoHeadlessMode | utils/browser_config.py:331-340 | fails iff some argument, lower-cased, contains `--headless`; otherwise answers true |
| BrowserConfig.EnsureWindowVisibility | utils/browser_config.py:223-248 | one focus always; one maximize, plus one more if width or height is below 100 (also when the position read then fails) and one more if x or y is below -1000; a move to (0, 0) exactly in the off-screen case, and to no other place; visible iff both reads worked |
| EnhancedReporting.EnhancedReporter.constructor | utils/enhanced_reporting.py:17-22 | a new reporter has no results, metrics or screenshots, no start or end time, and an empty session log |
| EnhancedReporting.EnhancedReporter.StartSession | utils/enhanced_reporting.py:24-26 | sets the start time only, and logs the start with its clock reading |
| EnhancedReporting.EnhancedReporter.EndSession | utils/enhanced_reporting.py:28-30 | sets the end time only, and logs the end with its clock reading |
| EnhancedReporting.EnhancedReporter.AddTestResult | utils/enhanced_reporting.py:32-42 | appends exactly one record, its duration as StoredDuration keeps it, and logs that record; nothing else changes |
| EnhancedReporting.EnhancedReporter.AddPerformanceMetric | utils/enhanced_reporting.py:44-50 | the entry for the key is replaced; every other key keeps its entry; results, screenshots, times and log are untouched |
| EnhancedReporting.EnhancedReporter.AddScreenshot | utils/enhanced_reporting.py:52-59 | appends iff the file exists; otherwise nothing changes; results, metrics, times and log are untouched |
| EnhancedReporting.EnhancedReporter.GenerateHtmlReport | utils/enhanced_reporting.py:61-76 | the figures printed are the HTML summary of the results and times held now, plus the total of the test durations; the report is logged with the summary and nothing else changes |
| EnhancedReporting.EnhancedReporter.GenerateJsonReport | utils/enhanced_reporting.py:657-682 | the summary block is the JSON summary of the results and times held now; the report is logged with it and nothing else changes |
| EnhancedReporting.RecordEventsAppend | utils/enhanced_reporting.py:32-42 | logging two lists of records one after the other logs their concatenation |
| EnhancedReporting.StoredDuration | utils/enhanced_reporting.py:37 | `duration or 0`: a missing duration becomes 0, a given one is kept |
| EnhancedReporting.LastMetricWins | utils/enhanced_reporting.py:46-50 | of two writes to a key the last one is read back; other keys are untouched |
| EnhancedReporting.AppendedResultCounted | utils/enhanced_reporting.py:66-72 | one more result raises its own status count by one and no other, and adds its duration to the total |
| EnhancedReporting.TotalDurationNonNegative | utils/enhanced_reporting.py:72 | with no negative duration the total duration is not negative |
| EnhancedReporting.StatusCountsAddUp | utils/enhanced_reporting.py:65-69 | passed + failed + skipped is at most the total, and equal to it iff every status is one of the three |
| EnhancedReporting.SessionDuration | utils/enhanced_reporting.py:74-76 | 0 unless both start and end are set; otherwise start plus duration is end |
| EnhancedReporting.SummariesAgree | utils/enhanced_reporting.py:661-673 | the HTML and JSON summaries give identical counts, rate and session duration |
| EnhancedReporting.SuccessRateInRange | utils/enhanced_reporting.py:71 | the success rate is 100·passed/total, 0 without results, and lies in [0, 100] |
| Conftest.StatusAndError | tests/conftest.py:49-58 | passed gives no error; failed always has one: the report text when there is one, else exactly "Test failed"; otherwise skipped with the report text or none |
| Conftest.DurationKey | tests/conftest.py:77-78 | the metric key is `test_`, the test name, `_duration` |
| Conftest.MakeReport | tests/conftest.py:38-78 | only the call phase records; then exactly one result is appended and logged, with the status and error of StatusAndError; a screenshot is attached only to a failed test using the browser, and a duration metric is set only when duration > 0 |
| Conftest.RecordsMatchReports | tests/conftest.py:46-74 | the reporter's passed, failed and skipped counts are the call-phase reports of each verdict, and together they are all records |
| Conftest.BrowserSetup | tests/conftest.py:13-35 | the reporter's log reads: session start at the first clock reading, one record per call-phase report in test order, session end at the second reading, the HTML report, then the JSON report; both reports see every call-phase record and a session lasting end minus start |
| Conftest.RunTests | tests/conftest.py:23 | while the fixture yields, exactly the call-phase records are appended and logged, in test order; the session times stay as they were |
| Conftest.SessionFinish | tests/conftest.py:96-102 | `total_tests_collected` is stored with unit "tests" when known; results, screenshots, session times and log are untouched |
| Ratio.Percent | tests/test_amazon_complete.py:891 | `100·part/whole` or 0 for an empty whole; in [0, 100], and 100 iff every part counts |
| PriceValidation.ShownTitle | tests/test_amazon_complete.py:886 | `title[:50]`, or "Unknown" when the key is missing; at most 50 characters, a prefix of the title |
| PriceValidation.ValidPrices | tests/test_amazon_complete.py:878-883 | only non-zero prices within `expected + expected·tol/100` are kept |
| PriceValidation.CountsAddUp | tests/test_amazon_complete.py:875-899 | valid + invalid equals the number of priced products, at most the total |
| PriceValidation.EveryPricedProductClassified | tests/test_amazon_complete.py:878-889 | each priced product within the limit is counted valid, each one over it invalid |
| PriceValidation.StrictPassesIffSevenInTen | tests/test_amazon_complete.py:891-901 | `passed` iff accuracy ≥ 70, that is iff at least 7 in 10 priced products are valid |
| PriceValidation.LenientPassesIffTwoInFive | tests/test_amazon_complete.py:1143-1148 | the enhanced rule passes iff accuracy ≥ 40 or at least two are valid; never with no priced product |
| PriceValidation.Tally | tests/test_amazon_complete.py:875-889 | the loop's valid prices and invalid entries equal their specifications |
| PriceValidation.ValidatePriceAccuracy | tests/test_amazon_complete.py:870-902 | empty input gives accuracy 0 and nothing else; otherwise the counts add up, accuracy is 100·valid/priced in [0, 100], at most three invalid entries, and `passed` iff accuracy ≥ 70 |
| PriceValidation.Validate | tests/test_amazon_complete.py:870-902 | the body both validators share: counts, accuracy, the first three invalid entries and the pass rule, tied to their specifications |
| PriceValidation.ValidatePriceAccuracyEnhanced | tests/test_amazon_complete.py:1117-1152 | as above with tolerance 30; `passed` iff accuracy ≥ 40 or two are valid; empty input fails |
| ProductExtraction.ExtractProductTitle | tests/test_amazon_complete_backup.py:264-282 | a title found is longer than ten characters |
| ProductExtraction.TitleIsFirstUsable | tests/test_amazon_complete_backup.py:273-282 | the title is the stripped text of the first selector with a usable one; none iff no selector has one |
| ProductExtraction.PriceTextOf | tests/test_amazon_complete_backup.py:296 | the stripped `.text`, or the stripped `textContent` when it is blank |
| ProductExtraction.ExtractProductPrice | tests/test_amazon_complete_backup.py:284-306 | a price found lies in [50, 1000000] |
| ProductExtraction.LookupPrice | tests/test_amazon_complete_backup.py:296-302 | no element or no readable text gives none; otherwise the price is ParsePrice of the stripped text with the range [50, 1000000]: the first digit run, commas dropped, when in range |
| ProductExtraction.PriceIsFirstPriced | tests/test_amazon_complete_backup.py:293-306 | the price is the one of the first selector that yields one; out-of-range values move on; none iff no selector yields one |
| ProductExtraction.FirstClassRun | tests/test_amazon_complete.py:769 | the first match of the class as written is absent iff no character is a backslash, `d` or comma |
| ProductExtraction.AsWrittenNeverFindsPrice | tests/test_amazon_complete.py:754-776 | the main file's copy never returns a price |
| ProductExtraction.WrittenLookupNeverPrices | tests/test_amazon_complete.py:769-771 | in the main file's copy no single selector yields a price: every run of the class starts with a backslash or `d` once commas are gone |
| ProductExtraction.PriceRegexCounterexample | tests/test_amazon_complete.py:769 | for a container reading "1299" the backup rule gives 1299 and the main file's copy gives none |
| AmazonComplete.LongWords | tests/test_amazon_complete.py:967 | one word is kept, lowered, iff it is longer than two characters; the result is never longer than the input and holds only words longer than two characters |
| AmazonComplete.LongWordsAppend | tests/test_amazon_complete.py:967 | the filter works piece by piece: filtering a concatenation concatenates the filtered parts, so the kept words keep their order |
| AmazonComplete.LongWordsMembers | tests/test_amazon_complete.py:967 | every word longer than two characters is searched for, lowered, and every search word is such a word lowered |
| AmazonComplete.RelevanceScore | tests/test_amazon_complete.py:969-975 | the score is the percentage of relevant products, in [0, 100] |
| AmazonComplete.CountRelevant | tests/test_amazon_complete.py:969-973 | the loop counts exactly the relevant products |
| AmazonComplete.CalculateSearchRelevance | tests/test_amazon_complete.py:961-975 | 0 for no products or a blank term; otherwise 100·relevant/len(products), in [0, 100] |
| AmazonComplete.RelevantCountExtremes | tests/test_amazon_complete.py:969-973 | every product counts iff all are relevant; none counts without search words |
| AmazonComplete.ShortWordsAreIgnored | tests/test_amazon_complete.py:967 | a term of words of at most two characters gives no search word |
| AmazonComplete.MeasurePerformance | tests/test_amazon_complete.py:950-959 | never raises: success iff the operation returned, with its result; otherwise the error text |
| AmazonComplete.LanguagesToTest | tests/test_amazon_complete.py:2335-2340 | the chosen languages are the first two available ones in the order hindi, tamil, english, telugu, kannada |
| AmazonComplete.LanguageChoice | tests/test_amazon_complete.py:2335-2340 | at most two languages are tested, each available and a priority language; no language twice and priority indices strictly increasing; Hindi first whenever available; fewer than two only when fewer than two priority languages are available |
| AmazonComplete.Rank | tests/test_amazon_complete.py:2334 | the rank of a priority language is its index in the priority list |
| AmazonComplete.RanksIncrease | tests/test_amazon_complete.py:2338-2340 | the available languages taken from the first n priority languages come in strictly increasing priority order, each with index below n |
| AmazonComplete.HindiLeads | tests/test_amazon_complete.py:2338-2340 | when Hindi is available it leads the available priority languages |
| AmazonComplete.PrefixOfAvailable | tests/test_amazon_complete.py:2338-2340 | walking further down the priority list only extends the languages found |
| AmazonComplete.InlineHit | tests/test_amazon_complete.py:262-277 | an entry exactly when the element is displayed and its text reads as a number in [50, 50000]; the entry's price is that number, with the text and selector recorded |
| AmazonComplete.InlinePriceFilter | tests/test_amazon_complete.py:242-289 | with three or more prices the list is untouched; otherwise the extracted prices are followed by the first accepted scan entries, selector order then element order, up to five |
| AmazonComplete.ScanSelector | tests/test_amazon_complete.py:260-285 | one selector's turn appends its entries in page order until five prices are held |
| AmazonComplete.FinalFilterKeepsAll | tests/test_amazon_complete.py:291 | the final `>= 50` filter keeps every entry whose price is at least 50 |
| AmazonComplete.InlineResultShape | tests/test_amazon_complete.py:242-291 | after the scan at most five prices are held and the final filter keeps them all |
| AmazonCompleteBackup.ContainerChoice | tests/test_amazon_complete_backup.py:230-237 | the first selector with three containers wins; with none the last selector's list is kept; a short choice means no selector reached three |
| AmazonCompleteBackup.ChooseContainers | tests/test_amazon_complete_backup.py:224-237 | the selector loop yields the specified choice |
| AmazonCompleteBackup.KeptSound | tests/test_amazon_complete_backup.py:239-251 | each record carries the title and price of the container at its 1-based index |
| AmazonCompleteBackup.KeptOrdered | tests/test_amazon_complete_backup.py:239-251 | records keep container order |
| AmazonCompleteBackup.KeptComplete | tests/test_amazon_complete_backup.py:250-251 | every container with a title has a record |
| AmazonCompleteBackup.RecordsInRange | tests/test_amazon_complete_backup.py:239-251 | every record's title is longer than ten characters and its price, when found, lies in [50, 1000000] |
| AmazonCompleteBackup.ExtractComprehensiveProductData | tests/test_amazon_complete_backup.py:218-262 | the records are those of the first `max_products` chosen containers that have a title; none without containers |
| AmazonCompleteBackup.CollectRecords | tests/test_amazon_complete_backup.py:239-251 | the loop keeps one record per container with a title, in order |
| AmazonCompleteBackup.RecordsValidate | tests/test_amazon_complete_backup.py:399-431 | the records can always be validated, and a record counts as priced iff a price was found |
| AmazonCompleteBackup.KeptBounded | tests/test_amazon_complete_backup.py:239-251 | records inherit the bounds of the title and price readers |
| AmazonCompleteBackup.BackupDismissalPass | tests/test_amazon_complete_backup.py:175-210 | one pass dismisses exactly the first dismissible element in selector order |
| AmazonCompleteBackup.BackupPopupDismissal | tests/test_amazon_complete_backup.py:153-216 | the count is that of the pass semantics with three passes, and at most 3 |
| AmazonCompleteBackup.AdvancedMouseInteractions | tests/test_amazon_complete_backup.py:433-465 | the count is the successful image hovers among the first three products, at most 3 |
| AmazonCompleteBackup.InteractionThresholds | tests/test_amazon_complete_backup.py:645-650 | with three products the test passes iff at least two hovers and one navigation succeed; with none it fails |
| Scan.FirstHitIsFirst | utils/test_helpers.py:184-225 | the first hit is accepted and nothing before it is; there is none iff nothing is accepted |
| Scan.FirstFromIsFirst | utils/test_helpers.py:184-225 | from any selector on, the hit found is accepted and nothing scanned before it is |
| PopupPasses.DismissalsShape | utils/test_helpers.py:367-406 | at most one dismissal per pass and never more than the budget; the k-th dismissal is pass k's first hit; a run shorter than the budget ends on an empty pass |
| PopupPasses.DismissalsFromShape | utils/test_helpers.py:367-406 | from any pass on: never more dismissals than passes left, each the first hit of its pass, and a run ending early ends on an empty pass |
| Text.Strip | utils/test_helpers.py:193-194 | `strip()`: no surrounding whitespace (tab to carriage return, U+001C to U+001F, space), never longer, empty iff the text is all whitespace |
| Text.StripCutsWhitespace | utils/test_helpers.py:193-194 | the stripped text is the slice of the input between its leading and its trailing whitespace, both of which are all whitespace |
| Text.Lower | tests/test_amazon_complete.py:967 | `lower()`: same length, each character lowered |
| Text.NoWords | tests/test_amazon_complete.py:967 | `split()` gives no word iff the text is all whitespace, that is iff it strips to the empty string |
| Text.WordsAreRuns | tests/test_amazon_complete.py:967 | every word of `split()` is non-empty and holds no whitespace |
| Text.WordsSplit | tests/test_amazon_complete.py:967 | the text is its words, in order, with whitespace runs around and between them, each run between two words non-empty: the words are its maximal non-whitespace runs |
| Text.RemoveCommas | tests/test_amazon_complete_backup.py:299 | `replace(',', '')`: no comma left, never longer, comma-free text unchanged, a single character dropped iff it is a comma |
| Text.RemoveCommasAppend | tests/test_amazon_complete_backup.py:299 | commas are dropped piece by piece: the result for a concatenation is the concatenation of the results, so exactly the other characters remain, in order |
| Text.FirstDigitRun | tests/test_amazon_complete_backup.py:299 | the first match of `[\d,]+` in comma-free text: none iff there is no digit, else the maximal digit run at the first digit |
| Text.ParsePrice | utils/test_helpers.py:206-213 | a price is read iff the text reads as a number (ReadNumber) within the range, and then it is that number |
| Text.ReadNumber | tests/test_amazon_complete_backup.py:299-300 | the text reads as no number iff it has no digit |
| Text.CommasIgnored | tests/test_amazon_complete_backup.py:299-300 | a comma anywhere in the text changes nothing: "1,299" reads as 1299 |
| Text.ReadNumberSkips | tests/test_amazon_complete_backup.py:299-300 | text without a digit in front of the number is skipped |
| Text.ReadNumberRun | tests/test_amazon_complete_backup.py:299-300 | a digit run followed by the end or by a character that is neither digit nor comma reads as the value of that run |
| Text.RemoveTags | utils/test_helpers.py:204 | removing tags never lengthens the text; the lemmas below say what is kept and what is dropped |
| Text.RemoveTagsKeepsText | utils/test_helpers.py:204 | text without `<` in front is copied through unchanged |
| Text.RemoveTagsPlain | utils/test_helpers.py:204 | text without `<` is left as it is |
| Text.RemoveTagsDropsTag | utils/test_helpers.py:204 | a tag, `<` then at least one character other than `>` then `>`, is dropped whole |
| Text.RemoveTagsKeepsEmptyTag | utils/test_helpers.py:204 | `<>` is not a tag: both characters are kept |
| Text.RemoveTagsKeepsUnclosed | utils/test_helpers.py:204 | without a `>` nothing is dropped |

## Left out

- Driver creation, Chrome options, the webdriver download and cache clearing
  are I/O and foreign libraries. The injected JavaScript runs in the browser.
  The single-tab script is only logged.
- Report rendering is left out: the HTML template, the file writes,
  timestamps and `datetime.now()`. Clock readings are passed in as numbers.
  Durations and metric values are `real`, with no float rounding. The same
  holds for every percentage and rate the code computes in floating point:
  the relevance score (tests/test_amazon_complete.py:975), the price
  accuracy (tests/test_amazon_complete.py:891), the success rate
  (utils/enhanced_reporting.py:71) and the interaction and navigation rates
  (tests/test_amazon_complete_backup.py:645-646) are exact rationals in the
  model, so a value such as `29 / 100 * 100`, which Python prints as
  `28.999999999999996`, is exactly 29 here, and a threshold comparison at
  such a boundary may come out differently from the source.
- Sleeps, random delays, ActionChains movements, typing, BeautifulSoup
  scraping and the bodies of the scenario tests are browser interaction. Only
  their outcomes are inputs. `web_scraping_product_fallback` is an input of
  `SmartProductFinder`.
- `run_tests.py` is an interactive launcher. `tests/test_amazon_india.py` is
  a scenario script. Neither is part of this model.
- Strings are ASCII-only: `strip()`, `lower()`, `\d` and `split()` are
  modelled on ASCII whitespace (tab to carriage return, U+001C to U+001F and
  space), ASCII letters and ASCII digits. Python's other whitespace, such as
  U+0085, U+00A0 and U+2028, other cased letters and other decimal digits are
  not modelled.
- Exceptions other than the ones each operation models are not modelled, for
  example a stale element, or `is_displayed()` itself raising.
- The rating, availability, image and Prime fields of the comprehensive data
  are not modelled. Neither is the main file's rating regex, a float parser.
- PriceValidation.ValidatePriceAccuracy: requires every over-limit product to
  have a sliceable title. A title key present with value `None` makes
  `[:50]` raise.
- PriceValidation.ValidatePriceAccuracyEnhanced: carries the same title
  requirement.
- BrowserConfig.EnforceSingleTabMode: only a raising script injection is
  modelled. In the source a switch or close that raises is also caught and
  the answer is false; the model's switches and closes do not raise.
- Conftest.BrowserSetup: `ensure_directories`, driver creation and
  `driver.quit()` are file system and browser I/O. The order proved is that
  of the reporter's calls, as its session log records them.
- AmazonComplete.InlineHit: the `textContent` fallback of the scan is used
  unstripped, as written. Only its digit run matters.

## Findings

| source | as written | input that shows it | evidently intended | confidence | as-written member | corrected member |
|---|---|---|---|---|---|---|
| tests/test_amazon_complete.py:769 | `re.search(r'[\\d,]+', ...)` in a raw string matches only backslash, `d` and comma, so `int()` never reads a price and every lookup ends in a caught `ValueError`; the main file's own flow calls `extract_product_price_enhanced` (line 680) instead, so the defect is latent there | a container whose price element reads "1299" | the backup file's `[\d,]+`: the first digit run, giving 1299 | not executed | ProductExtraction.AsWrittenNeverFindsPrice | ProductExtraction.ExtractProductPrice |
