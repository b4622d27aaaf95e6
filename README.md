# QuickFund, modelled in Dafny

QuickFund reads a list of six-digit Chinese mutual-fund codes from a text
file. For each fund it fetches three groups of facts from public web APIs:
- the latest net value;
- the intraday estimate;
- the increase-amount ranking by category (IARBC), the fund's rank among its peers over eight windows.

The results go to a spreadsheet. Fetched records are cached in a shelf, a
persistent dictionary. A group is fetched again only when it is stale.
Staleness follows the Chinese market calendar:
- net values change at 20:00;
- estimates change only while the market is open, 9:30–11:30 and 13:00–15:00 on weekdays.

The repository holds two generations of the program: the `quickfund`
package and the older `fetcher` script with its `main.py`. This project
models the core of both.

- **Dates** (`quickfund/utils/datetime.py`). A date is its proleptic
  ordinal, with `weekday` computed from it; a time of day is microseconds.
  The module covers `is_weekend` and `last_friday`.
- **Models** (`quickfund/models.py`) and **LegacyModels**
  (`fetcher/models.py`). The records are value datatypes, with `combine`
  and `replace`. `replace` is proved to act group by group.
- **Freshness** (`quickfund/models.py`, duplicated in
  `quickfund/getter.py:29-111`). These are the predicates that decide
  whether a cached group is latest, with the clock as a parameter. The
  module also holds `is_market_opening` and `last_market_close_datetime`.
- **Lru** (`fetcher/lru.py`). The LRU container is a class holding the
  fields of the original:
  - a storage list with tombstone cells;
  - an index map;
  - a tombstone counter;
  - an offset.

  Its methods are proved against an abstract recency list. So are the
  compaction that runs beyond 200 tombstones and the property tests of
  `tests/test_lru.py`, which appear as **LruScenarios**.
- **FetchParsing** (`quickfund/fetcher.py`, `fetcher/fetcher.py`). This
  covers:
  - the `jsonpgz(...);` envelope of the estimate API;
  - the check that the payload names the requested fund;
  - the `R | T` to `R/T` reformatting of ranking cells;
  - the `on_failure_raises(RuntimeError, ...)` wrapping.
- **Getter** (`quickfund/getter.py`). The shelf is a class with a map
  field. `update_*_info`, `update_fund_info`, `update_fund_infos`,
  `check_db_version` and `get_fund_infos` are methods on it. Each is
  proved equal to a specification function, and lemmas describe which
  fetches are made and what the shelf holds afterwards.
- **LegacyMain** (`fetcher/__main__.py`). This is the older freshness rule
  and the memoised read-through cache `get_fund_info`.
- **Paragraphs** (`quickfund/utils/misc.py`, `quickfund/utils.py` and
  `fetcher/utils.py`). It covers:
  - the three `split_paragraphs` variants;
  - `retrieve_succinct_traceback`;
  - `localize`;
  - the numbering and indenting of `print_traceback_digest`.
- **Versions** (`main.py`). This is `parse_version_number` and the update
  test of `check_update`.
- **FundCodes** (`quickfund/cli.py`, `quickfund/__main__.py`, `main.py`,
  `fetcher/__main__.py`). These are the fund-code filters applied to the
  input lines.
- **Text** and **Base**. These hold helpers for Python's string builtins
  (`splitlines` on `\n`, `strip`, `str.replace`, `join`, `int` on digit
  strings) and the `Option`/`Result`/`Error` types. Python exceptions are
  modelled as error values.

Where the code and its documentation disagree, the model is explicit about which one it follows:

- `last_friday` (`quickfund/utils/datetime.py:15-18`) returns the Friday *on
  or after* its argument, because `-(weekday + 3) % 7` is Python's floored
  remainder. The freshness rules follow the code as written: on a weekend
  the net value is "latest" only if it is dated next Friday. The intended
  previous Friday is modelled beside it (`Dates.PreviousFriday`,
  `Freshness.IntendedLastMarketClose`, `Freshness.IntendedNetValueDate`).
  See "## Findings".
- `china_now.date()` in `quickfund/models.py:40` and
  `quickfund/getter.py:43` calls `.date()` on the function, not on its
  result, which raises `AttributeError`. `china_timezone` in
  `quickfund/getter.py:109` is an undefined name, which raises `NameError`.
  The freshness rules and the getter's refresh model the evident
  intent, "today in China", as `now.date` of the one clock reading each
  predicate receives. The code as written is modelled separately, by
  `Getter.RefreshFundAsWritten`: every stored code fails before any
  fetch. See "## Findings".
- `on_failure_raises` wraps `async def` fetchers in a synchronous wrapper.
  The wrapper's `try` only creates the coroutine, so the exceptions raised
  when it is awaited keep their own kind. The fetchers are modelled as
  written, and the wrapping they evidently intend is modelled beside them.
  See "## Findings".
- `quickfund/getter.py:15` imports four fetch functions that
  `quickfund/fetcher.py` does not define. They exist there, if at all, only
  as methods of `FundInfoFetcher`. The getter's fetches are modelled as those
  methods (see "## Left out").

## Model

| member | source | states |
|---|---|---|
| Dates.Weekday | quickfund/utils/datetime.py:12 | `date.weekday()` of an ordinal lies in 0..6 |
| Dates.IsWeekendMeaning | quickfund/utils/datetime.py:7-12 | `is_weekend` holds exactly on Saturdays (5) and Sundays (6) |
| Dates.WeekdayShift | quickfund/utils/datetime.py:12 | moving a date by n days moves its weekday by n modulo 7 |
| Dates.FridayOffsetRange | quickfund/utils/datetime.py:17 | the `timedelta` of `last_friday` is 0..6 days, is 0 exactly on a Friday, and always lands on weekday 4 |
| Dates.LastFridayIsFriday | quickfund/utils/datetime.py:15-18 | `last_friday` always returns a Friday |
| Dates.LastFridayIsNextFriday | quickfund/utils/datetime.py:15-18 | the result is the first Friday on or after the date: within 7 days, the date itself on a Friday, no Friday in between |
| Dates.LastFridayIdempotent | quickfund/utils/datetime.py:15-18 | applying `last_friday` twice is applying it once |
| Dates.LastFridayOnWeekend | quickfund/utils/datetime.py:15-18 | on a Saturday it is 6 days ahead, on a Sunday 5 days ahead |
| Dates.PreviousFridayIsLatestFriday | quickfund/utils/datetime.py:15-18 | intended: the previous Friday is a Friday, at most six days back, `d` itself on a Friday, and no Friday lies after it up to `d` |
| Dates.LastFridayMissesPreviousFriday | quickfund/utils/datetime.py:17 | `last_friday` as written equals the intended previous Friday on a Friday, is that Friday plus seven days on every other day, and so lies after the date on a weekend |
| Dates.WeekendSincePreviousFriday | quickfund/utils/datetime.py:15-18 | on a weekend, every day after the previous Friday up to `d` is a weekend day |
| Models.Combine | quickfund/models.py:107-118 | `FundInfo.combine` yields a record whose three groups are exactly the given infos |
| Models.GroupsDetermineRecord | quickfund/models.py:82-86 | a `FundInfo` is nothing but its net-value, estimate and IARBC groups |
| Models.CombineOfGroups | quickfund/models.py:107-118 | combining a record's own groups gives the record back |
| Models.WithNetValue | quickfund/models.py:95-97 | copying a net-value info over a record changes that group only |
| Models.WithEstimate | quickfund/models.py:99-101 | copying an estimate info over a record changes that group only |
| Models.WithIARBC | quickfund/models.py:103-105 | copying an IARBC info over a record changes that group only |
| Models.Replace | quickfund/models.py:88-105 | every group given to `replace` is taken over, every group not given is kept |
| Models.ReplaceNothing | quickfund/models.py:88-105 | `replace()` with no argument changes nothing |
| Models.ReplaceAllIsCombine | quickfund/models.py:88-118 | replacing all three groups is `combine` of them, whatever the record was |
| Models.CombineThenReplace | quickfund/models.py:88-118 | replacing a combined record's groups with themselves changes nothing |
| Models.ReplaceIdempotent | quickfund/models.py:88-105 | replacing twice with the same infos is replacing once |
| Models.ReplaceInSteps | quickfund/models.py:88-105 | one `replace` with several groups equals one call per group in the order net value, estimate, IARBC |
| LegacyModels.Combine | fetcher/models.py:58-64 | the older `combine` yields a record whose two groups are the given infos |
| LegacyModels.GroupsDetermineRecord | fetcher/models.py:38-42 | an older record is nothing but its net-value and estimate groups |
| LegacyModels.Replace | fetcher/models.py:44-56 | a group given to the older `replace` is taken over, a group not given is kept |
| LegacyModels.ReplaceNothing | fetcher/models.py:44-56 | `replace()` with no argument changes nothing |
| LegacyModels.ReplaceNetValueOnly | fetcher/models.py:44-56 | replacing the net value keeps the record's estimate |
| LegacyModels.ReplaceEstimateOnly | fetcher/models.py:44-56 | replacing the estimate keeps the record's net value |
| LegacyModels.ReplaceBothIsCombine | fetcher/models.py:44-64 | replacing both groups is `combine` of them |
| LegacyModels.ReplaceIdempotent | fetcher/models.py:44-56 | replacing twice with the same infos is replacing once |
| Freshness.NetValueOnWeekday | quickfund/models.py:26-49 | on a weekday the net value is latest iff it is dated yesterday before 20:00 and today from 20:00 on |
| Freshness.NetValueOnWeekendAhead | quickfund/models.py:43-44 | on a weekend only a Friday after today counts as latest (the forward `last_friday`) |
| Freshness.NetValueFreshUnique | quickfund/models.py:26-49 | at any moment at most one net-value date is latest |
| Freshness.NetValueCutoffFlips | quickfund/models.py:46-49 | on a weekday no date is latest both before and after 20:00 |
| Freshness.MarketOpeningBounds | quickfund/models.py:121-123 | the four session bounds 9:30, 11:30, 13:00, 15:00 are inside the sessions and the microsecond beyond each is outside |
| Freshness.MarketClosedOutsideSessions | quickfund/models.py:121-123 | the market is open iff the time is not before 9:30, not strictly between 11:30 and 13:00, and not after 15:00 |
| Freshness.LastMarketClose | quickfund/models.py:126-142 | the result is always a close point: 11:30 or 15:00 of some day |
| Freshness.LastMarketCloseIsLatestClose | quickfund/models.py:126-142 | on a weekday the result is not after now, and is the latest close point that is not after now |
| Freshness.LastMarketCloseMondayMorning | quickfund/models.py:134-136 | on Monday before 11:30 the result is Sunday 15:00, a weekend day |
| Freshness.LastMarketCloseWeekendAhead | quickfund/models.py:131-132 | on a weekend the result lies in the future, on a Friday |
| Freshness.EstimateStaleWhileOpen | quickfund/models.py:159-160 | while the market is open no estimate is latest |
| Freshness.EstimateFreshOnWeekday | quickfund/models.py:145-162 | on a weekday with the market closed an estimate is latest iff its time is the last close point |
| Freshness.EstimateOverMiddayBreak | quickfund/models.py:145-162 | over the midday break only today's 11:30 estimate is latest |
| Freshness.EstimateOvernight | quickfund/models.py:145-162 | before 9:30 or after 15:00 on a weekday only the 15:00 estimate of the last close day is latest |
| Freshness.IARBCFreshAllDay | quickfund/models.py:165-176 | a ranking is latest iff it is dated today, at every time of day |
| Freshness.PreviousTradingDay | quickfund/models.py:134-136 | intended: the trading day before `d`, with only weekend days in between |
| Freshness.IntendedLastMarketCloseIsLatest | quickfund/models.py:126-142 | intended: the latest session end of a trading day at or before `now`, on every day of the week |
| Freshness.LastMarketCloseAsWrittenDiffers | quickfund/models.py:131-136 | on a weekend and on a Monday before 11:30, the rule as written misses the intended close and gives no trading-day close at or before `now` |
| Freshness.IntendedNetValueDateIsLatest | quickfund/models.py:26-49 | intended: the last trading day whose 20:00 publication is at or before `now` |
| Freshness.NetValueAsWrittenDiffers | quickfund/models.py:43-49 | on a weekend and on a Monday before 20:00, the rule as written rejects the intended date |
| Lru.LastIndex | tests/test_lru.py:39-43 | `rfind` returns a position holding the element, with no later position holding it |
| Lru.TouchAllKeys | fetcher/lru.py:119-123 | after `batch_update` on an empty container the keys are distinct, are exactly the elements of the list, and number `len(set(l))` |
| Lru.TouchAllOrder | fetcher/lru.py:119-123 | after `batch_update` keys are ordered by their last occurrence in the list |
| Lru.Reindex | fetcher/lru.py:160-163 | the rebuilt index maps every kept key to its new position and keeps every old key |
| Lru.Compacted | fetcher/lru.py:152-163 | compaction drops the tombstones, keeps the live keys in order and the index keys, and restores the invariant with no tombstone |
| Lru.LRU.constructor | fetcher/lru.py:60-65 | a new container is empty, with all four fields at their initial values |
| Lru.LRU.Size | fetcher/lru.py:69-75 | `size` (storage length minus tombstones) equals the number of keys and the number of index entries, and the keys are distinct |
| Lru.LRU.Empty | fetcher/lru.py:77-79 | `empty()` holds iff there are no keys |
| Lru.LRU.Copy | fetcher/lru.py:81-89 | `copy()` is a fresh container with the same four fields, the same keys in the same order and the same size |
| Lru.LRU.Update | fetcher/lru.py:100-117 | `update(e)` moves `e` to the most-recent end. The old cell becomes a tombstone and `e` is appended. With more than 200 tombstones the storage is compacted |
| Lru.LRU.BatchUpdate | fetcher/lru.py:119-123 | `batch_update(l)` is `update` of each element of `l` in order |
| Lru.LRU.Evict | fetcher/lru.py:125-150 | `evict()` on an empty container raises `KeyError` and changes nothing. Otherwise it returns the least recently used key and removes it from the keys and the index. The first live cell from the offset becomes a tombstone and the offset moves past it. With more than 200 tombstones the storage is compacted |
| Lru.LRU.Reconstruct | fetcher/lru.py:152-163 | `_reconstruct` keeps the keys in order and the index keys, and resets the tombstone count and offset to 0 |
| LruScenarios.SizeAfterBatchUpdate | tests/test_lru.py:13-17 | after `batch_update(l)` the size is `len(set(l))` |
| LruScenarios.UpdateThenEvict | tests/test_lru.py:20-24 | evicting after a single `update(i)` returns `i` |
| LruScenarios.CopyThenDrain | tests/test_lru.py:27-36 | a copy evicts the same keys as the original, as many as `len(set(l))`, and both end empty |
| LruScenarios.DrainOrder | tests/test_lru.py:46-58 | draining yields every element of `l` once, in increasing `rfind` order, and ends empty |
| FetchParsing.EnvelopeRoundTrip | quickfund/fetcher.py:139-147 | unwrapping `jsonpgz(p);` gives back any newline-free payload `p` |
| FetchParsing.EnvelopeAccepted | quickfund/fetcher.py:139-147 | only texts of the form `jsonpgz(` payload `);` are accepted, and the payload holds no newline |
| FetchParsing.EnvelopeRejectsNewline | fetcher/fetcher.py:139-145 | a payload with a newline is a `ValueError` even inside the envelope |
| FetchParsing.Wrapped | quickfund/utils/misc.py:217-225 | around a synchronous call, the wrapper keeps a result and turns every exception into `RuntimeError` |
| FetchParsing.EstimateFromText | quickfund/fetcher.py:121-167 | an accepted estimate came from an envelope, is its decoded payload and names the requested fund. As written, a text that is not an envelope raises `ValueError`, a decoding error is raised as itself, and a payload naming another fund raises `AssertionError` |
| FetchParsing.IntendedEstimate | quickfund/fetcher.py:121-122 | intended: the same estimate on success, and `RuntimeError` for every failure |
| FetchParsing.AwaitedErrorEscapes | quickfund/fetcher.py:139-145 | the text `xyz` raises `ValueError` as written, where `RuntimeError` is intended |
| FetchParsing.EstimateAccepted | quickfund/fetcher.py:139-167 | a well-formed response naming the fund is accepted with its decoded payload, as written and as intended |
| FetchParsing.EstimateOtherFund | quickfund/fetcher.py:165 | a payload naming another fund raises `AssertionError` as written, and `RuntimeError` as intended |
| FetchParsing.ParseEstimateResponse | fetcher/fetcher.py:129-148 | a non-envelope is a `ValueError`, and otherwise the result is `json.loads` of the payload |
| FetchParsing.LegacyEstimateFromText | fetcher/fetcher.py:170-180 | an accepted estimate is packed from parsed data whose `fundcode` is the requested code. As written, a parse or pack error is raised as itself, a missing `fundcode` is `KeyError`, and another fund's code is `AssertionError` |
| FetchParsing.IntendedLegacyEstimate | fetcher/fetcher.py:170-171 | intended: the same estimate on success, and `RuntimeError` for every failure |
| FetchParsing.ReformatAccepts | quickfund/fetcher.py:186-193 | every cell `R \| T` of two numerals becomes `R/T` |
| FetchParsing.ReformatOnlyShape | quickfund/fetcher.py:186-193 | only such cells are accepted: the result has one `/`, between two numerals that, joined by ` \| `, are the cell |
| FetchParsing.IARBCFromTable | quickfund/fetcher.py:169-207 | the ranking is built iff all eight cells reformat. It carries the cutoff date, and as written a malformed cell raises the `ValueError` of `reformat_IARBC` |
| FetchParsing.IntendedIARBC | quickfund/fetcher.py:169-170 | intended: the same ranking on success, and `RuntimeError` for a malformed cell |
| FetchParsing.ReformattedIsPacked | fetcher/fetcher.py:215-226 | the newer ranking is the older verbatim one with every cell reformatted |
| FundCodes.FundCodeExact | quickfund/cli.py:51-53 | `is_fund_code` accepts six digits and rejects five, seven, or digits with anything around them |
| FundCodes.FundCodeStripped | quickfund/cli.py:111 | a fund code is unchanged by `strip()` |
| FundCodes.ExtractFundCodes | quickfund/cli.py:111 | the extracted codes are all valid and no more than the lines |
| FundCodes.KeptLines | quickfund/cli.py:111 | one kept position per extracted code, each a line position |
| FundCodes.ExtractionIsOrderedFilter | quickfund/cli.py:111 | the extraction keeps the stripped form of exactly the lines whose stripped form is a code, in input order |
| FundCodes.ExtractConcat | quickfund/__main__.py:142 | extraction distributes over concatenating line lists |
| FundCodes.SurroundedCode | quickfund/__main__.py:142 | a code with whitespace around it is read as that code |
| FundCodes.CliFundCodes | quickfund/cli.py:110-115 | the command exits before fetching iff no stripped line is a code, and otherwise gets a non-empty list of valid codes |
| FundCodes.RawFundCodes | main.py:219 | the raw filter keeps only codes, and a value is kept iff it is a line that is a code as it stands |
| FundCodes.RawKeptLines | main.py:219 | one kept line position per kept code |
| FundCodes.RawIsOrderedFilter | main.py:219 | the raw filter keeps, in input order and with their repeats, exactly the lines that are codes as they stand: increasing kept positions, each kept value that line, and a line kept iff it is a code |
| FundCodes.RawWithinStripped | fetcher/__main__.py:311 | everything the raw filter keeps, the stripping one keeps, and on lines with nothing to strip the two agree |
| FundCodes.FetcherFundCodes | fetcher/__main__.py:311-314 | the older script exits iff no line is a code, and otherwise fetches the raw filter's list |
| FundCodes.PaddedLineDiffers | fetcher/__main__.py:311 | a space-padded code is read by the newer tools and dropped by the older script |
| Versions.DigitRun | main.py:63 | a greedy `\d+` takes digits only, and stops at the first non-digit |
| Versions.Group | main.py:63 | a group `(\d+)` matches iff the text starts with a digit |
| Versions.VersionMatch | main.py:63-66 | a successful `re.match` cuts the text into optional `v`, three digit groups with dots, and a rest not starting with a digit |
| Versions.ParseVersionNumber | main.py:61-69 | any failure is re-raised as `RuntimeError` |
| Versions.MatchComplete | main.py:63-66 | every text of that shape is matched, and cut exactly there |
| Versions.ParseComplete | main.py:61-67 | every text of the version shape parses to the `int` values of its three groups |
| Versions.ParseSound | main.py:61-67 | every text that parses has the version shape, and the result is the values of its groups |
| Versions.ParseFailsIffNoVersion | main.py:61-69 | `parse_version_number` raises iff no prefix of the text has the version shape |
| Versions.ParseRender | main.py:61-67 | the text `X.Y.Z`, with or without a leading `v` and any non-digit suffix, parses back to `(X, Y, Z)` |
| Versions.LeadingVIgnored | main.py:63 | `v1.2.3` and `1.2.3` parse alike |
| Versions.LeadingZerosCollapse | main.py:67 | a leading zero in a component changes nothing, through `int` |
| Versions.OneDigitVersion | main.py:61-67 | three one-digit components parse to their digits |
| Versions.CurrentVersionParses | main.py:20 | `__version__` `"0.2.0"` parses to `(0, 2, 0)` |
| Versions.NewerIsStrictTotalOrder | main.py:180 | the tuple `>` is irreflexive, asymmetric, transitive and total on distinct versions |
| Versions.UpdateAvailable | main.py:180 | the update test fails iff the latest version does not parse, and then raises `RuntimeError` |
| Versions.UpdateOffered | main.py:180 | for a well-formed latest version, the update is offered iff the version is newer than `(0, 2, 0)` as a tuple |
| Getter.Shelf.constructor | quickfund/getter.py:170-177 | the shelf opens with the given entries |
| Getter.Access | quickfund/getter.py:115 | a record field reads back the stored record. A missing key is `KeyError`, and the version entry has no record fields (`AttributeError`) |
| Getter.FetchGroup | quickfund/getter.py:117-118 | a fetched group merged with `replace` leaves the other groups alone |
| Getter.RefreshGroup | quickfund/getter.py:114-132 | an `update_*_info` step changes no key but its own, adds none, and on error leaves the shelf as it was |
| Getter.UpdateGroupInfo | quickfund/getter.py:114-132 | the in-place step on the shelf is `RefreshGroup` |
| Getter.UpdateFundInfo | quickfund/getter.py:137-145 | the in-place `update_fund_info` is `RefreshFund` |
| Getter.UpdateFundInfos | quickfund/getter.py:148-150 | the loop over the distinct codes is `RefreshAll` of them |
| Getter.CheckedVersion | quickfund/getter.py:153-157 | the shelf ends with the current version. It is unchanged if it already had it, and is otherwise cleared to hold only the version |
| Getter.CheckDbVersion | quickfund/getter.py:153-157 | the in-place `check_db_version` is `CheckedVersion` |
| Getter.CheckedVersionIdempotent | quickfund/getter.py:153-157 | checking the version twice is checking it once |
| Getter.Collect | quickfund/getter.py:185 | one record per requested code, in order, each the stored one |
| Getter.Serve | quickfund/getter.py:160-185 | a successful `get_fund_infos` returns one record per requested code, each the one the shelf now holds |
| Getter.GetFundInfos | quickfund/getter.py:160-185 | the method returns and fetches what `Serve` says. With the cache disabled the persistent shelf is left untouched, and otherwise it holds `Serve`'s shelf |
| Getter.RefreshAllNext | quickfund/getter.py:148-150 | one more code is one more `update_fund_info` after the batch so far |
| Getter.RefreshAllStops | quickfund/getter.py:148-150 | after an error the remaining codes are not processed |
| Getter.RefreshAbsent | quickfund/getter.py:143-145 | a code not on the shelf costs exactly one full fetch. Its result is stored on success, and the shelf is unchanged on error |
| Getter.RefreshGroupStored | quickfund/getter.py:114-132 | on a stored record a group step fetches iff the group is stale, and stores the replaced record on success |
| Getter.StaleReadsOwnGroup | quickfund/getter.py:115-130 | whether a group is stale depends only on that group's fields |
| Getter.GroupRecordKeepsStale | quickfund/getter.py:139-142 | a step on one group does not change whether another group is stale |
| Getter.RefreshStoredNetValueFails | quickfund/getter.py:140 | when the stale net value's fetch fails, the refresh is the planned one: that single fetch, its error, the record unchanged |
| Getter.RefreshStoredEstimateFails | quickfund/getter.py:141 | when the stale estimate's fetch fails after the net-value step, the refresh is the planned one. The net value stays replaced and the ranking is not fetched |
| Getter.RefreshStoredChain | quickfund/getter.py:139-142 | when the first two steps succeed, the three steps run in order on the record each leaves |
| Getter.ChainIsPlanned | quickfund/getter.py:139-142 | the fetches and the error of the three steps are those of the stale groups, in order |
| Getter.RefreshStoredReachesRanking | quickfund/getter.py:142 | when neither of the first two fetches fails, the refresh, ranking step included, is the planned one |
| Getter.RefreshStoredSteps | quickfund/getter.py:139-142 | the refresh of a stored record, step by step, in closed form |
| Getter.StepRecordIsPlanned | quickfund/getter.py:139-142 | the record after the steps is one `replace` with every stale group that was fetched |
| Getter.RefreshStored | quickfund/getter.py:139-142 | a stored record fetches exactly its stale groups, in the order net value, estimate, ranking, stopping at the first error. It becomes one `replace` with the fetched groups |
| Getter.RefreshFundRecord | quickfund/getter.py:137-145 | a refresh that raises nothing leaves a record under its code |
| Getter.RefreshFundKeys | quickfund/getter.py:137-145 | a refresh changes no other key and adds no key but its own |
| Getter.RefreshAllRecords | quickfund/getter.py:148-150 | after a batch without error every requested code holds a record |
| Getter.RefreshAllKeys | quickfund/getter.py:148-150 | after a batch without error the shelf has gained exactly the requested codes it lacked |
| Getter.DedupMembers | quickfund/getter.py:149 | the enumeration of `set(fund_codes)` holds every code once |
| Getter.FullFetches | quickfund/getter.py:144 | one full fetch per code, in order |
| Getter.RefreshAllNew | quickfund/getter.py:143-145 | distinct codes none of which is stored are fetched whole, once each, in order |
| Getter.ServeWithoutCache | quickfund/getter.py:170-172 | with the cache disabled every distinct code is fetched whole, exactly once |
| Getter.UpdateTwice | quickfund/getter.py:145 | storing twice under one key keeps the second value |
| Getter.GroupCheckAsWritten | quickfund/getter.py:29-111 | as written, the net-value test raises `AttributeError` and the ranking test `NameError`. Only the estimate test runs, and it agrees with the intended rule |
| Getter.RefreshGroupAsWritten | quickfund/getter.py:114-132 | as written, a stored record's net-value or ranking step raises before any fetch, and its estimate step is the intended one |
| Getter.StoredRefreshRaises | quickfund/getter.py:137-145 | as written, every stored code raises `AttributeError` with nothing fetched and the shelf unchanged, and only codes not yet stored are served |
| Getter.FreshRecordRefreshDiffers | quickfund/getter.py:121-125 | a stored record with all three groups fresh: nothing happens under the intended rule, and `AttributeError` is raised as written |
| LegacyMain.RawDateIsLatest | fetcher/__main__.py:239-246 | a date parse error is raised, and otherwise the result is the older freshness rule on the parsed date |
| LegacyMain.LegacyFreshIsYesterdayOrToday | fetcher/__main__.py:243-246 | only yesterday or today can be latest, and exactly one of them is |
| LegacyMain.LegacyAgreesOnWeekdays | fetcher/__main__.py:239-246 | on a weekday the older rule and the rule of `quickfund/models.py` agree |
| LegacyMain.LegacyDisagreesOnWeekends | fetcher/__main__.py:239-246 | on a weekend no date is latest under both rules |
| LegacyMain.GetFundInfo | fetcher/__main__.py:260-268 | a cache hit or an error leaves the shelf as it was, and a returned record is the one now stored |
| LegacyMain.Fetched | fetcher/__main__.py:264-268 | the `else` branch always fetches |
| LegacyMain.CachedIffFresh | fetcher/__main__.py:261-263 | the stored record is returned without a fetch iff it exists, is non-empty and its date parses as latest |
| LegacyMain.CacheErrorsRaise | fetcher/__main__.py:261-262 | a stored record with a missing or unreadable date raises (`KeyError` when missing) and nothing is fetched |
| LegacyMain.FetchedOtherwise | fetcher/__main__.py:264-268 | in every other case the record is fetched, and stored and returned on success |
| LegacyMain.ServeAllInv | fetcher/__main__.py:259-277 | the memoised batch keeps its invariant: every memoised code holds its memo on the shelf, and the results are the memo's records |
| LegacyMain.ServeAllResults | fetcher/__main__.py:272-277 | a batch without error returns one record per code, each the one on the shelf, and `lru_cache` never fetches a code twice |
| LegacyMain.ServeAllStops | fetcher/__main__.py:272-273 | an error ends the batch |
| LegacyMain.ServeNextInv | fetcher/__main__.py:259-260 | one more code preserves the batch invariant |
| LegacyMain.ServeMemoHit | fetcher/__main__.py:259 | a memoised code is answered from the memo |
| LegacyMain.ServeLookup | fetcher/__main__.py:260-268 | a code not yet memoised is looked up and memoised |
| LegacyMain.LegacyShelf.constructor | fetcher/__main__.py:257 | the shelf opens with the given records |
| LegacyMain.GetFundInfoOnShelf | fetcher/__main__.py:260-268 | the in-place `get_fund_info` is `GetFundInfo` |
| LegacyMain.GetFundInfos | fetcher/__main__.py:249-277 | the in-place `get_fund_infos` is `ServeAll` |
| Paragraphs.SplitRuns | quickfund/utils.py:68 | `regex.split(r"\n{2,}")` returns at least one piece and no piece holds two newlines in a row. A single piece is the whole text, and every piece strictly between the first and the last is non-empty |
| Paragraphs.JoinSplitRuns | quickfund/utils.py:68 | joining the pieces with a blank line gives the text back when it holds no three newlines in a row |
| Paragraphs.SplitRunsLastEmpty | quickfund/utils/misc.py:67-70 | there is an empty last piece after others iff the text ends with two newlines |
| Paragraphs.PlainSplitParagraphs | quickfund/utils.py:64-68 | the split without the trailing fix: at least one piece, none with a double newline, and `[""]` for the empty text |
| Paragraphs.PlainSplitProperties | quickfund/utils.py:64-68 | a text ending with two newlines gets a trailing empty paragraph, and joining with a blank line gives the text back |
| Paragraphs.MiscSplitParagraphs | quickfund/utils/misc.py:56-72 | the empty text gives `[]`, and a trailing boundary adds no extra paragraph |
| Paragraphs.MiscSplitJoin | quickfund/utils/misc.py:56-72 | joining with a blank line gives the text back, minus a final boundary |
| Paragraphs.SplitAtEmpty | fetcher/utils.py:61 | `split_at` gives one run more than there are empty lines, and no run holds an empty line |
| Paragraphs.UnsplitSplitAtEmpty | fetcher/utils.py:61 | putting the runs back with an empty line between them gives the lines |
| Paragraphs.FetcherSplitParagraphs | fetcher/utils.py:55-63 | each paragraph is a run of non-empty lines joined by newlines, and holds no double newline |
| Paragraphs.FetcherSplitProperties | fetcher/utils.py:55-63 | one paragraph more than there are empty lines |
| Paragraphs.LastLine | quickfund/utils/misc.py:81 | `pg.splitlines()[-1]` is `IndexError` iff the paragraph is empty, and is otherwise free of newlines |
| Paragraphs.LastLineIsTail | quickfund/utils/misc.py:81 | the last line ends the paragraph, less one final newline, and starts the paragraph or follows a newline |
| Paragraphs.LastLines | quickfund/utils/misc.py:81 | one last line per paragraph, in order, or `IndexError` iff some paragraph is empty |
| Paragraphs.DigestLines | quickfund/utils/misc.py:80-81 | the digest splits into one line per paragraph, that paragraph's last line |
| Paragraphs.EmptyTraceback | quickfund/utils/misc.py:64-65 | the empty traceback digests to the empty text under `misc.py`, and raises `IndexError` under `quickfund/utils.py` |
| Paragraphs.MiscTracebackFails | quickfund/utils/misc.py:75-81 | the digest fails iff a paragraph is empty. Only the first can be, in a non-empty text |
| Paragraphs.PlainTracebackFails | quickfund/utils.py:71-77 | the digest fails iff a paragraph is empty. That takes an empty text, an empty first paragraph, or a text ending with two newlines |
| Paragraphs.RunParagraph | fetcher/utils.py:63 | a run of non-empty lines joins to an empty paragraph only when the run is empty |
| Paragraphs.FetcherTracebackLines | fetcher/utils.py:66-71 | the last lines exist iff no run of non-empty lines is empty, and then line k is the last line of run k |
| Paragraphs.RunsDigest | fetcher/utils.py:66-71 | the last lines of paragraphs made of runs are the runs' last lines |
| Paragraphs.TranslationTable | fetcher/utils.py:86-99 | the table is non-empty iff the locale is `zh_CN`, and is then the `zh_CN` entry |
| Paragraphs.Localize | fetcher/utils.py:102-116 | the loop of `localize` applies each entry's replacement in table order, and an empty table changes nothing |
| Paragraphs.LocalizeConcat | fetcher/utils.py:113-114 | localising with two tables in a row is localising with their concatenation |
| Paragraphs.LocalizeAbsent | fetcher/utils.py:113-114 | a text holding none of the source strings is left alone |
| Paragraphs.LocalizeOtherLocale | quickfund/utils/misc.py:96-126 | outside `zh_CN` `localize` is the identity |
| Paragraphs.Numbered | fetcher/utils.py:140-144 | line k is prefixed with `k+1` and `". "` |
| Paragraphs.NumberLines | fetcher/utils.py:140-144 | the numbering loop computes `Numbered` |
| Paragraphs.NumberedReadBack | fetcher/utils.py:140-144 | a numbered line reads back as the number k+1 in decimal, `". "`, and the line |
| Paragraphs.Indented | fetcher/utils.py:146-147 | every line gets four spaces in front, and the count is kept |
| Paragraphs.ReformatKeepsLines | fetcher/utils.py:140-147 | re-joining the numbered or indented lines and splitting again gives the same lines |
| Paragraphs.FormatDigest | fetcher/utils.py:133-152 | `print_traceback_digest` without the printing computes the digest, then localising, numbering and indenting |
| Paragraphs.FormattedLines | fetcher/utils.py:133-147 | numbered and indented, line k of the output is four spaces, `k+1`, `". "` and line k of the localised digest, and the line count is kept |
| Paragraphs.IndentedNumbered | fetcher/utils.py:140-147 | indenting numbered lines prefixes line k with four spaces, `k+1` and `". "` |
| Paragraphs.MiscNumberIndentAsWritten | quickfund/utils/misc.py:155-162 | the loop as written, updating `lines[i]` in place |
| Paragraphs.MiscNumberIndent | quickfund/utils/misc.py:155-162 | the corrected loop computes `MiscFormatted` |
| Paragraphs.MiscFormatted | quickfund/utils/misc.py:155-162 | numbering (for two or more lines) and indenting keep the line count |
| Paragraphs.IndentOverwritesNumber | quickfund/utils.py:150-157 | as written, numbered and indented lines come out indented without number, unlike the intended result |
| Paragraphs.MiscFormattedLines | quickfund/utils/misc.py:155-162 | intended: with two or more lines, line k is four spaces, `k+1`, `". "` and the line. A single line is only indented, and numbering alone numbers |

## Findings

| source | as written | input that shows it | evidently intended | confidence | as-written member | corrected member |
|---|---|---|---|---|---|---|
| quickfund/utils/misc.py:155-162 (also quickfund/utils.py:150-157) | the indenting step `lines[i] = "    " + line` prefixes the loop variable `line`, overwriting the numbered `lines[i]` just written | any digest of two or more lines with `numbered` and `indented` (the defaults): `["a", "b"]` comes out `["    a", "    b"]` | `"    " + lines[i]`, giving `["    1. a", "    2. b"]`, as fetcher/utils.py:140-147 does | not executed; the lemma holds for every input of two or more lines | Paragraphs.IndentOverwritesNumber | Paragraphs.MiscFormattedLines |

| quickfund/utils/misc.py:217-225 (also fetcher/utils.py:234-242), applied at quickfund/fetcher.py:121, :169 and fetcher/fetcher.py:170 | the synchronous `wrapper` only creates the coroutine of the `async def` it decorates. Exceptions raised when it is awaited escape unwrapped | the estimate response `xyz`: `fetch_estimate` raises `ValueError` | every failure of the fetch becomes the decorator's `RuntimeError`, as its docstring says | not executed; follows from Python's coroutine semantics | FetchParsing.AwaitedErrorEscapes | FetchParsing.IntendedEstimate |
| quickfund/utils/datetime.py:17, used at quickfund/models.py:43-44, :131-132 and quickfund/getter.py:46-47, :65-66 | `-(_date.weekday() + 3) % 7` negates before the remainder, so `last_friday` gives the Friday on or after the date. The Monday-morning branch at quickfund/models.py:134-136 gives Sunday | any Saturday: `last_friday` gives the Friday six days later, so no stored net value is latest on a weekend | the Friday on or before the date, `-((weekday + 3) % 7)`, and the last trading day's close | not executed; the lemmas hold for every weekend date and every Monday morning | Freshness.LastMarketCloseAsWrittenDiffers | Freshness.IntendedLastMarketCloseIsLatest |
| quickfund/getter.py:43 (also quickfund/models.py:40) and quickfund/getter.py:109 | `china_now.date()` calls `.date()` on the function `china_now`, raising `AttributeError`. `datetime.now(china_timezone)` reads an undefined name, raising `NameError` | any code already on the shelf: `update_net_value_info` raises `AttributeError` before fetching | today's date from the one clock reading, `china_now().date()`, as quickfund/models.py:175 does | not executed; the lemma holds for every stored code | Getter.StoredRefreshRaises | Getter.RefreshStored |

## Left out

- Network access is left out: HTTP sessions, `aiohttp`, `pandas.read_html`, `etree` and the random URL salts. The fetches are oracle functions (`Getter.Fetcher`; the `decode`, `loads`, `pack` and `fetch` parameters).
- `json.loads`, `strptime`, `float` and the dataframe lookups are library calls. They appear as parameters or as already-decoded fields.
- Floating-point fields (net values, growth rates) are carried but never computed with. The `* 0.01` scaling is not modelled.
- Concurrency is not modelled: `asyncio.gather`, `tqdm_asyncio.gather` and the `ThreadPoolExecutor`. The codes are processed one after another. `set(fund_codes)` is enumerated in first-occurrence order. The first exception ends the batch, where the source may have started other tasks already.
- The clock is not read. `china_now()` and `datetime.now()`, including the `_date or datetime.now()` defaults, become one `now` argument per call. Each predicate of the source reads the clock on its own.
- Time zones are left out: `CHINA_TIMEZONE` and offset-aware comparison. The rules of the quickfund package take China local time as their `now`.
- LegacyMain.LegacyNetValueDateIsLatest: fetcher/__main__.py:241-242 reads the machine's local clock, with no time zone, through two separate calls, `datetime.now()` and `date.today()`. The model takes one reading of that local clock as its `now`, so a call straddling midnight is not modelled.
- Persistence is left out: `shelve`, pickling, `writeback`, the cache directory and its creation. The shelf is an in-memory map.
- `FundInfo.replace` sets attributes in place. The model returns a new record and stores it under the code, which is what the write-back shelf ends up holding. Aliasing of that record elsewhere is not modelled.
- Console output is left out: `print`, `Logger`, colorama colours (`bright_red`, `bright_blue`) and `tqdm` progress bars. The colouring of `print_traceback_digest` is dropped, so the digest is modelled before colouring.
- `traceback.format_exc()` is the parameter `tb`.
- Process and environment handling is left out: `sys.exit`/`exit`, `atexit`, click argument handling, `check_args`, file reading, `write_to_xlsx`, and the interactive prompt, download and install of `check_update`/`update`. Only the version comparison of `check_update` is modelled.
- `locale.getdefaultlocale()` is the parameter of `TranslationTable`.
- Text handling is ASCII only. `splitlines` breaks at `\n` only, while Python also breaks at `\r`, `\v`, `\f` and others. `strip` removes ASCII whitespace only. `\d` in `main.py:63`, `main.py:219`, `fetcher/__main__.py:311` and `quickfund/fetcher.py:187` matches ASCII digits only, while Python's `re` also accepts other Unicode decimal digits.
- `on_failure_raises` formats a message from the signature with `inspect`. Only its effect is modelled: every exception of a synchronous call becoming `RuntimeError` (`FetchParsing.Wrapped`).
- LegacyMain.GetFundInfo: fetcher/__main__.py cannot run as written. It imports `parse_version_number` from fetcher/utils.py, which does not define it (:25). It calls the `async def fetch_fund_info` without `await` (:265), so it would store a coroutine, which the shelf cannot pickle. `fetch_fund_info` calls the two-argument `combine` of fetcher/models.py with three arguments (fetcher/fetcher.py:242). The `fetch` parameter models the evident intent, the awaited fetch of one record.
- FetchParsing.ReformatIARBC: the `\d+` of `regex.fullmatch` at quickfund/fetcher.py:187 also accepts non-ASCII decimal digits. The model accepts ASCII digits only.
- Versions.ParseComplete: on Python 3.11 and later, `int()` of a digit string longer than 4300 digits raises `ValueError` (main.py:67), which the `try` turns into `RuntimeError`. The model parses components of any length.
- `fetch_net_value` is left out. Its dataframe field extraction is library work, and its result is the `netValue` oracle.
- Getter.Fetcher: quickfund/getter.py cannot run as written. Its import at :15 names `fetch_estimate`, `fetch_fund_info`, `fetch_IARBC` and `fetch_net_value` from quickfund/fetcher.py, which exports only the class `FundInfoFetcher` (:22). Three of those names exist only as methods of that class (:90, :122, :170), and `fetch_fund_info` exists nowhere, because the method is `fetch` (:210). So the import raises `ImportError`, and so would the calls at quickfund/getter.py:117, :124, :131 and :144. The four `Fetcher` oracles model the evident intent, the `FundInfoFetcher` methods at quickfund/fetcher.py:90-219. The `fundInfo` oracle stands for `fetch`, whose combining step is `Models.Combine`.
- `fetcher/models.py` has no IARBC info class, so `LegacyModels` has no ranking group. `FetchParsing.PackToIARBCInfo` uses the newer record type for the older fetcher's ranking.
- `fetcher/github_utils.py`, `fetcher/schema.py`, the `tqdm` helpers, `release.py`, `setup.py`, `scripts/`, `client_script.py` and `quickfund/writter.py` are not part of this model.
- Paragraphs.FormatDigest: the functions are tied to the fetcher/utils.py arrangement, in which numbering applies regardless of the line count. The misc.py variant is modelled separately, by `MiscNumberIndent` and `MiscNumberIndentAsWritten`.
