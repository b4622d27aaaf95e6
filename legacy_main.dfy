/** The older command-line front end, fetcher/__main__.py: its net-value
    freshness rule and the read-through cache `get_fund_info` over a shelf
    of plain records.

    A record is a `Dict[str, str]`, as the annotations of `get_fund_info`
    say. As the script stands it cannot run: it imports a
    `parse_version_number` that fetcher/utils.py does not define, it calls
    the `async def fetch_fund_info` without `await` and so would store a
    coroutine, and that function calls the two-argument `combine` with
    three. The parameter `fetch` stands for what the code evidently means:
    the awaited fetch of one record. The clock is the parameter `now`, and
    `strptime(raw, "%Y-%m-%d")` is the parameter `parseDate`. */
module LegacyMain {
  import opened Base
  import opened Dates
  import opened Freshness

  /** A record of the old front end: column name to text. */
  type Record = map<string, string>

  /** The column holding the net-value date. */
  const NetValueDateKey: string := "净值日期"

  /** `net_value_date_is_latest` on a parsed date: before 20:00 the latest
      date is yesterday, from 20:00 on it is today; there is no weekend
      rule. `now.hour < 20` is `now.time < 20:00`. */
  predicate LegacyNetValueDateIsLatest(d: Date, now: DateTime) {
    if now.time < NetValueCutoff then d + 1 == now.date else d == now.date
  }

  /** `net_value_date_is_latest(raw_date)`: the parse error, if any, is
      raised. */
  function RawDateIsLatest(raw: string, now: DateTime, parseDate: string -> Result<Date>): (r: Result<bool>)
    ensures r.Ok? <==> parseDate(raw).Ok?
    ensures r.Ok? ==> r.value == LegacyNetValueDateIsLatest(parseDate(raw).value, now)
    ensures r.Err? ==> r.error == parseDate(raw).error
  {
    var d :- parseDate(raw);
    Ok(LegacyNetValueDateIsLatest(d, now))
  }

  /** Only yesterday or today can ever be latest, and exactly one of them
      is at any moment. */
  lemma LegacyFreshIsYesterdayOrToday(d: Date, now: DateTime)
    ensures LegacyNetValueDateIsLatest(d, now) ==> d == now.date - 1 || d == now.date
    ensures LegacyNetValueDateIsLatest(now.date - 1, now) != LegacyNetValueDateIsLatest(now.date, now)
  {
  }

  /** On a weekday the old rule and the rule of quickfund/models.py agree. */
  lemma LegacyAgreesOnWeekdays(d: Date, now: DateTime)
    requires !IsWeekend(now.date)
    ensures LegacyNetValueDateIsLatest(d, now) == NetValueDateIsLatest(d, now)
  {
  }

  /** On a weekend they never agree that a date is latest: the old rule
      looks back to yesterday or today, the new one ahead to a Friday. */
  lemma LegacyDisagreesOnWeekends(d: Date, now: DateTime)
    requires IsWeekend(now.date)
    ensures !(LegacyNetValueDateIsLatest(d, now) && NetValueDateIsLatest(d, now))
  {
    NetValueOnWeekendAhead(d, now);
  }

  // ---------------------------------------------------------------------
  // The read-through cache

  /** What one call of `get_fund_info` leaves on the shelf, whether it
      called `fetch_fund_info`, and what it returned or raised. */
  datatype Lookup = Lookup(db: map<string, Record>, fetched: bool, result: Result<Record>)

  /** The stored record is returned as it is: it exists, is not empty,
      and its net-value date parses and is latest. */
  predicate ServedFromCache(db: map<string, Record>, code: string, now: DateTime, parseDate: string -> Result<Date>) {
    code in db && db[code] != map[] && NetValueDateKey in db[code]
    && RawDateIsLatest(db[code][NetValueDateKey], now, parseDate) == Ok(true)
  }

  /** The stored record is consulted and raises: its date column is
      missing, or its date does not parse. */
  predicate CacheRaises(db: map<string, Record>, code: string, now: DateTime, parseDate: string -> Result<Date>) {
    code in db && db[code] != map[]
    && (NetValueDateKey !in db[code] || RawDateIsLatest(db[code][NetValueDateKey], now, parseDate).Err?)
  }

  /** The inner `get_fund_info(fund_code)`, without the memo. */
  function GetFundInfo(db: map<string, Record>, code: string, now: DateTime,
                       parseDate: string -> Result<Date>, fetch: string -> Result<Record>): (r: Lookup)
    ensures !r.fetched || r.result.Err? ==> r.db == db
    ensures r.result.Ok? ==> code in r.db && r.db[code] == r.result.value
  {
    if code in db && db[code] != map[] then
      var stored := db[code];
      if NetValueDateKey !in stored then Lookup(db, false, Err(KeyError))
      else match RawDateIsLatest(stored[NetValueDateKey], now, parseDate)
        case Err(e) => Lookup(db, false, Err(e))
        case Ok(latest) =>
          if latest then Lookup(db, false, Ok(stored)) else Fetched(db, code, fetch)
    else Fetched(db, code, fetch)
  }

  /** The `else` branch: fetch (the awaited intent of the call that
      fetcher/__main__.py:265 makes without `await`), store, return. */
  function Fetched(db: map<string, Record>, code: string, fetch: string -> Result<Record>): (r: Lookup)
    ensures r.fetched
  {
    match fetch(code)
    case Err(e) => Lookup(db, true, Err(e))
    case Ok(rec) => Lookup(db[code := rec], true, Ok(rec))
  }

  /** The cached record is returned without a fetch exactly when it exists,
      is not empty and is latest. */
  lemma CachedIffFresh(db: map<string, Record>, code: string, now: DateTime,
                       parseDate: string -> Result<Date>, fetch: string -> Result<Record>)
    ensures var r := GetFundInfo(db, code, now, parseDate, fetch);
      (!r.fetched && r.result.Ok?) <==> ServedFromCache(db, code, now, parseDate)
    ensures var r := GetFundInfo(db, code, now, parseDate, fetch);
      ServedFromCache(db, code, now, parseDate) ==> r == Lookup(db, false, Ok(db[code]))
  {
  }

  /** A stored record with a missing or unreadable date raises, and no
      fetch happens. */
  lemma CacheErrorsRaise(db: map<string, Record>, code: string, now: DateTime,
                         parseDate: string -> Result<Date>, fetch: string -> Result<Record>)
    ensures var r := GetFundInfo(db, code, now, parseDate, fetch);
      (!r.fetched && r.result.Err?) <==> CacheRaises(db, code, now, parseDate)
    ensures var r := GetFundInfo(db, code, now, parseDate, fetch);
      code in db && db[code] != map[] && NetValueDateKey !in db[code] ==> r.result == Err(KeyError)
  {
  }

  /** In every other case the record is fetched; on success it is stored
      under the code and returned, and nothing else on the shelf changes. */
  lemma FetchedOtherwise(db: map<string, Record>, code: string, now: DateTime,
                         parseDate: string -> Result<Date>, fetch: string -> Result<Record>)
    requires !ServedFromCache(db, code, now, parseDate) && !CacheRaises(db, code, now, parseDate)
    ensures var r := GetFundInfo(db, code, now, parseDate, fetch);
      r.fetched
      && (fetch(code).Ok? ==> r == Lookup(db[code := fetch(code).value], true, Ok(fetch(code).value)))
      && (fetch(code).Err? ==> r == Lookup(db, true, Err(fetch(code).error)))
  {
  }

  /** The batch so far: the shelf, the memo of `lru_cache`, the codes
      fetched in order, the records returned and the error raised. */
  datatype Batch = Batch(db: map<string, Record>, memo: map<string, Record>,
                         fetches: seq<string>, results: seq<Record>, error: Option<Error>)

  /** `[get_fund_info(code) for code in fund_codes]` with the memoised
      `get_fund_info`, one code after another, ending at the first error. */
  function ServeAll(db: map<string, Record>, codes: seq<string>, now: DateTime,
                    parseDate: string -> Result<Date>, fetch: string -> Result<Record>): Batch
  {
    if codes == [] then Batch(db, map[], [], [], None)
    else
      var b := ServeAll(db, codes[..|codes| - 1], now, parseDate, fetch);
      ServeNext(b, codes[|codes| - 1], now, parseDate, fetch)
  }

  /** One more code after the batch `b`. */
  function ServeNext(b: Batch, code: string, now: DateTime,
                     parseDate: string -> Result<Date>, fetch: string -> Result<Record>): Batch
  {
    if b.error.Some? then b
    else if code in b.memo then b.(results := b.results + [b.memo[code]])
    else
      var l := GetFundInfo(b.db, code, now, parseDate, fetch);
      var fetches := b.fetches + (if l.fetched then [code] else []);
      match l.result
      case Err(e) => Batch(l.db, b.memo, fetches, b.results, Some(e))
      case Ok(v) => Batch(l.db, b.memo[code := v], fetches, b.results + [v], None)
  }

  /** Every memoised code holds its memoised record on the shelf. */
  predicate MemoOnShelf(memo: map<string, Record>, db: map<string, Record>) {
    forall c :: c in memo ==> c in db && db[c] == memo[c]
  }

  /** The results are the memo's records for the codes, in order. */
  predicate ResultsFromMemo(results: seq<Record>, memo: map<string, Record>, codes: seq<string>) {
    |results| == |codes|
    && forall k :: 0 <= k < |codes| ==> codes[k] in memo && results[k] == memo[codes[k]]
  }

  predicate DistinctCodes(xs: seq<string>) {
    forall i, j :: 0 <= i < j < |xs| ==> xs[i] != xs[j]
  }

  /** What a batch keeps: the memo holds the codes served, each with the
      record now on the shelf; the results are the memo's records for the
      codes in order; no code is fetched twice, and every fetched code is
      in the memo unless it is the one that raised. */
  predicate BatchInv(b: Batch, codes: seq<string>) {
    MemoOnShelf(b.memo, b.db)
    && DistinctCodes(b.fetches)
    && (b.error.None? ==> ResultsFromMemo(b.results, b.memo, codes))
    && (b.error.None? ==> b.memo.Keys == set c | c in codes)
    && (b.error.None? ==> forall x :: x in b.fetches ==> x in b.memo)
  }

  lemma ResultsSnoc(results: seq<Record>, memo: map<string, Record>, memo1: map<string, Record>,
                    codes: seq<string>, code: string)
    requires ResultsFromMemo(results, memo, codes)
    requires forall c :: c in memo ==> c in memo1 && memo1[c] == memo[c]
    requires code in memo1
    ensures ResultsFromMemo(results + [memo1[code]], memo1, codes + [code])
  {
    var cs := codes + [code];
    forall k | 0 <= k < |cs|
      ensures cs[k] in memo1 && (results + [memo1[code]])[k] == memo1[cs[k]]
    {
      if k < |codes| {
        assert cs[k] == codes[k];
      }
    }
  }

  lemma DistinctSnoc(xs: seq<string>, x: string)
    requires DistinctCodes(xs) && x !in xs
    ensures DistinctCodes(xs + [x])
  {
  }

  /** A code served from the memo. */
  lemma ServeMemoHit(b: Batch, codes: seq<string>, code: string)
    requires BatchInv(b, codes) && b.error.None? && code in b.memo
    ensures BatchInv(b.(results := b.results + [b.memo[code]]), codes + [code])
  {
    ResultsSnoc(b.results, b.memo, b.memo, codes, code);
    ElementsSnoc(codes, code);
  }

  /** A code looked up with `get_fund_info`. */
  lemma ServeLookup(b: Batch, codes: seq<string>, code: string, now: DateTime,
                    parseDate: string -> Result<Date>, fetch: string -> Result<Record>)
    requires BatchInv(b, codes) && b.error.None? && code !in b.memo
    ensures BatchInv(ServeNext(b, code, now, parseDate, fetch), codes + [code])
  {
    var l := GetFundInfo(b.db, code, now, parseDate, fetch);
    var fetches := b.fetches + (if l.fetched then [code] else []);
    assert DistinctCodes(fetches) by {
      if l.fetched {
        DistinctSnoc(b.fetches, code);
      }
    }
    if l.result.Ok? {
      var memo1 := b.memo[code := l.result.value];
      assert MemoOnShelf(memo1, l.db);
      ResultsSnoc(b.results, b.memo, memo1, codes, code);
      ElementsSnoc(codes, code);
    }
  }

  lemma ServeNextInv(b: Batch, codes: seq<string>, code: string, now: DateTime,
                     parseDate: string -> Result<Date>, fetch: string -> Result<Record>)
    requires BatchInv(b, codes)
    ensures BatchInv(ServeNext(b, code, now, parseDate, fetch), codes + [code])
  {
    if b.error.None? {
      if code in b.memo {
        ServeMemoHit(b, codes, code);
      } else {
        ServeLookup(b, codes, code, now, parseDate, fetch);
      }
    }
  }

  /** A batch keeps its invariant. */
  lemma {:induction false} ServeAllInv(db: map<string, Record>, codes: seq<string>, now: DateTime,
                                       parseDate: string -> Result<Date>, fetch: string -> Result<Record>)
    ensures BatchInv(ServeAll(db, codes, now, parseDate, fetch), codes)
  {
    if codes != [] {
      var p := codes[..|codes| - 1];
      ServeAllInv(db, p, now, parseDate, fetch);
      ServeNextInv(ServeAll(db, p, now, parseDate, fetch), p, codes[|codes| - 1], now, parseDate, fetch);
      assert p + [codes[|codes| - 1]] == codes;
    }
  }

  /** A batch without error returns one record per requested code, in
      order and with repeats, each the record the shelf then holds; no
      code is fetched twice. */
  lemma ServeAllResults(db: map<string, Record>, codes: seq<string>, now: DateTime,
                        parseDate: string -> Result<Date>, fetch: string -> Result<Record>)
    ensures var b := ServeAll(db, codes, now, parseDate, fetch);
      b.error.None? ==> |b.results| == |codes|
    ensures var b := ServeAll(db, codes, now, parseDate, fetch);
      b.error.None? ==> forall k :: 0 <= k < |codes| ==> codes[k] in b.db && b.results[k] == b.db[codes[k]]
    ensures var b := ServeAll(db, codes, now, parseDate, fetch);
      forall i, j :: 0 <= i < j < |b.fetches| ==> b.fetches[i] != b.fetches[j]
  {
    ServeAllInv(db, codes, now, parseDate, fetch);
  }

  // ---------------------------------------------------------------------
  // The shelf

  /** The shelf opened by `get_fund_infos`. */
  class LegacyShelf {
    var db: map<string, Record>

    constructor(db0: map<string, Record>)
      ensures db == db0
    {
      db := db0;
    }
  }

  /** `get_fund_info(fund_code)` on the shelf. */
  method GetFundInfoOnShelf(shelf: LegacyShelf, code: string, now: DateTime,
                            parseDate: string -> Result<Date>, fetch: string -> Result<Record>)
    returns (fetched: bool, r: Result<Record>)
    modifies shelf
    ensures Lookup(shelf.db, fetched, r) == GetFundInfo(old(shelf.db), code, now, parseDate, fetch)
  {
    fetched := false;
    if code in shelf.db && shelf.db[code] != map[] {
      var stored := shelf.db[code];
      if NetValueDateKey !in stored {
        return false, Err(KeyError);
      }
      var latest := RawDateIsLatest(stored[NetValueDateKey], now, parseDate);
      if latest.Err? {
        return false, Err(latest.error);
      }
      if latest.value {
        return false, Ok(stored);
      }
    }
    fetched := true;
    r := fetch(code);
    if r.Ok? {
      shelf.db := shelf.db[code := r.value];
    }
  }

  /** `get_fund_infos(fund_codes)`: the memo of `lru_cache` lives for one
      call, so it starts empty. The codes are served one after another. */
  method GetFundInfos(shelf: LegacyShelf, codes: seq<string>, now: DateTime,
                      parseDate: string -> Result<Date>, fetch: string -> Result<Record>)
    returns (r: Result<seq<Record>>, fetches: seq<string>)
    modifies shelf
    ensures var b := ServeAll(old(shelf.db), codes, now, parseDate, fetch);
      shelf.db == b.db && fetches == b.fetches
      && r == (if b.error.Some? then Err(b.error.value) else Ok(b.results))
  {
    ghost var db0 := shelf.db;
    var memo: map<string, Record> := map[];
    var results: seq<Record> := [];
    var err: Option<Error> := None;
    fetches := [];
    var i := 0;
    while i < |codes| && err.None?
      invariant 0 <= i <= |codes|
      invariant Batch(shelf.db, memo, fetches, results, err) == ServeAll(db0, codes[..i], now, parseDate, fetch)
    {
      assert codes[..i + 1][..i] == codes[..i];
      var code := codes[i];
      if code in memo {
        results := results + [memo[code]];
      } else {
        var fetched, v := GetFundInfoOnShelf(shelf, code, now, parseDate, fetch);
        if fetched {
          fetches := fetches + [code];
        }
        if v.Err? {
          err := Some(v.error);
        } else {
          memo := memo[code := v.value];
          results := results + [v.value];
        }
      }
      i := i + 1;
    }
    if i < |codes| {
      ServeAllStops(db0, codes, i, now, parseDate, fetch);
    } else {
      assert codes[..i] == codes;
    }
    r := if err.Some? then Err(err.value) else Ok(results);
  }

  /** An error ends the batch. */
  lemma {:induction false} ServeAllStops(db: map<string, Record>, codes: seq<string>, j: nat, now: DateTime,
                                         parseDate: string -> Result<Date>, fetch: string -> Result<Record>)
    requires j <= |codes| && ServeAll(db, codes[..j], now, parseDate, fetch).error.Some?
    ensures ServeAll(db, codes, now, parseDate, fetch) == ServeAll(db, codes[..j], now, parseDate, fetch)
    decreases |codes|
  {
    if j < |codes| {
      var p := codes[..|codes| - 1];
      assert p[..j] == codes[..j];
      ServeAllStops(db, p, j, now, parseDate, fetch);
    } else {
      assert codes[..j] == codes;
    }
  }
}
