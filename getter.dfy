/** The refresh of cached fund records in quickfund/getter.py.

    The shelf maps fund codes to records, plus the key `"version"` holding
    the cache's version string. The network fetches are the functions of a
    `Fetcher`; every spec function reports the fetches it makes, in order,
    and the first error, which ends the batch. */
module Getter {
  import opened Base
  import opened Dates
  import opened Models
  import opened Freshness

  /** `__version__` of quickfund/__version__.py. */
  const Version: string := "v1.4.0"
  const VersionKey: string := "version"

  /** A value on the shelf: the version string or a fund record. */
  datatype Entry = VersionTag(version: string) | Record(info: FundInfo)

  /** The three groups a stored record is refreshed by. */
  datatype Group = NetValueGroup | EstimateGroup | IARBCGroup

  /** A call to `fetch_fund_info`, or to the fetch of one group. */
  datatype Fetch = FullFetch(code: string) | GroupFetch(group: Group, code: string)

  /** The fetch functions `fetch_fund_info`, `fetch_net_value`,
      `fetch_estimate` and `fetch_IARBC`, as answers per fund code. */
  datatype Fetcher = Fetcher(
    fundInfo: string -> Result<FundInfo>,
    netValue: string -> Result<NetValueInfo>,
    estimate: string -> Result<EstimateInfo>,
    iarbc: string -> Result<IARBCInfo>)

  /** The shelf after a step, the fetches made, and the error raised. */
  datatype Outcome = Outcome(entries: map<string, Entry>, calls: seq<Fetch>, error: Option<Error>)

  /** The `Shelf[FundInfo]` handed from function to function. */
  class Shelf {
    var entries: map<string, Entry>

    constructor(entries0: map<string, Entry>)
      ensures entries == entries0
    {
      entries := entries0;
    }
  }

  // ---------------------------------------------------------------------
  // Specification

  /** `fund_info_db[code].<field>`: a missing key is a `KeyError` and the
      version string has no record fields. */
  function Access(entries: map<string, Entry>, code: string): (r: Result<FundInfo>)
    ensures r.Ok? <==> code in entries && entries[code].Record?
    ensures r.Ok? ==> entries[code] == Record(r.value)
    ensures r.Err? ==> r.error == (if code in entries then AttributeError else KeyError)
  {
    if code !in entries then Err(KeyError)
    else match entries[code]
      case VersionTag(_) => Err(AttributeError)
      case Record(info) => Ok(info)
  }

  /** The freshness test each `update_*_info` applies to its group. */
  predicate GroupIsLatest(g: Group, info: FundInfo, now: DateTime) {
    match g
    case NetValueGroup => NetValueDateIsLatest(info.netValueDate, now)
    case EstimateGroup => EstimateDateTimeIsLatest(info.estimateDateTime, now)
    case IARBCGroup => IARBCDateIsLatest(info.rankDate, now)
  }

  /** The two records agree on every group but `g`. */
  predicate SameOutside(g: Group, a: FundInfo, b: FundInfo) {
    (g == NetValueGroup || NetValueOf(a) == NetValueOf(b))
    && (g == EstimateGroup || EstimateOf(a) == EstimateOf(b))
    && (g == IARBCGroup || IARBCOf(a) == IARBCOf(b))
  }

  /** Fetch group `g` and merge it into `info` with `FundInfo.replace`. */
  function FetchGroup(g: Group, code: string, info: FundInfo, f: Fetcher): (r: Result<FundInfo>)
    ensures r.Ok? ==> SameOutside(g, info, r.value)
  {
    match g
    case NetValueGroup =>
      var n :- f.netValue(code);
      Ok(Replace(info, Some(n), None, None))
    case EstimateGroup =>
      var e :- f.estimate(code);
      Ok(Replace(info, None, Some(e), None))
    case IARBCGroup =>
      var i :- f.iarbc(code);
      Ok(Replace(info, None, None, Some(i)))
  }

  /** `update_net_value_info`, `update_estimate_info` and
      `update_IARBC_info`: a stale group is fetched and merged. */
  function RefreshGroup(g: Group, entries: map<string, Entry>, code: string, now: DateTime, f: Fetcher): (o: Outcome)
    ensures o.error.Some? ==> o.entries == entries
    ensures o.entries.Keys == entries.Keys
    ensures forall k :: k in entries && k != code ==> o.entries[k] == entries[k]
  {
    match Access(entries, code)
    case Err(e) => Outcome(entries, [], Some(e))
    case Ok(info) =>
      if GroupIsLatest(g, info, now) then Outcome(entries, [], None)
      else match FetchGroup(g, code, info, f)
        case Err(e) => Outcome(entries, [GroupFetch(g, code)], Some(e))
        case Ok(info1) => Outcome(entries[code := Record(info1)], [GroupFetch(g, code)], None)
  }

  /** Run `second` after `first`, which raised nothing. */
  function Chain(first: Outcome, second: Outcome): Outcome {
    Outcome(second.entries, first.calls + second.calls, second.error)
  }

  /** `update_fund_info(code)`: a stored code has its three groups
      refreshed in turn, stopping at the first error; any other code is
      fetched whole and stored. */
  function RefreshFund(entries: map<string, Entry>, code: string, now: DateTime, f: Fetcher): Outcome
  {
    if code in entries then
      var o1 := RefreshGroup(NetValueGroup, entries, code, now, f);
      if o1.error.Some? then o1
      else
        var o2 := Chain(o1, RefreshGroup(EstimateGroup, o1.entries, code, now, f));
        if o2.error.Some? then o2
        else Chain(o2, RefreshGroup(IARBCGroup, o2.entries, code, now, f))
    else
      match f.fundInfo(code)
      case Err(e) => Outcome(entries, [FullFetch(code)], Some(e))
      case Ok(info) => Outcome(entries[code := Record(info)], [FullFetch(code)], None)
  }

  /** `update_fund_infos` over an enumeration of the distinct codes, one
      code after another, stopping at the first error. */
  function RefreshAll(entries: map<string, Entry>, cs: seq<string>, now: DateTime, f: Fetcher): Outcome
  {
    if cs == [] then Outcome(entries, [], None)
    else
      var o := RefreshAll(entries, cs[..|cs| - 1], now, f);
      if o.error.Some? then o
      else Chain(o, RefreshFund(o.entries, cs[|cs| - 1], now, f))
  }

  /** The distinct elements of `xs` in order of first occurrence: the
      enumeration of `set(fund_codes)` this model fixes. */
  function Dedup(xs: seq<string>): seq<string>
  {
    if xs == [] then []
    else
      var d := Dedup(xs[..|xs| - 1]);
      if xs[|xs| - 1] in xs[..|xs| - 1] then d else d + [xs[|xs| - 1]]
  }

  predicate Distinct(xs: seq<string>) {
    forall i, j :: 0 <= i < j < |xs| ==> xs[i] != xs[j]
  }

  /** `check_db_version`: unless the shelf holds the current version, it
      is cleared and given the current version. */
  function CheckedVersion(entries: map<string, Entry>): (r: map<string, Entry>)
    ensures VersionKey in r && r[VersionKey] == VersionTag(Version)
    ensures VersionKey in entries && entries[VersionKey] == VersionTag(Version) ==> r == entries
    ensures !(VersionKey in entries && entries[VersionKey] == VersionTag(Version)) ==> r == map[VersionKey := VersionTag(Version)]
  {
    if VersionKey in entries && entries[VersionKey] == VersionTag(Version) then entries
    else map[VersionKey := VersionTag(Version)]
  }

  /** `[fund_info_db[code] for code in fund_codes]`. */
  function Collect(entries: map<string, Entry>, codes: seq<string>): (r: seq<FundInfo>)
    requires forall c :: c in codes ==> c in entries && entries[c].Record?
    ensures |r| == |codes|
    ensures forall k :: 0 <= k < |codes| ==> entries[codes[k]] == Record(r[k])
  {
    if codes == [] then []
    else Collect(entries, codes[..|codes| - 1]) + [entries[codes[|codes| - 1]].info]
  }

  /** What `get_fund_infos` leaves and returns. */
  datatype Served = Served(entries: map<string, Entry>, calls: seq<Fetch>, result: Result<seq<FundInfo>>)

  /** `get_fund_infos(fund_codes, disable_cache)` on the stored shelf
      `stored`: with the cache disabled the work is done on an empty map. */
  function Serve(stored: map<string, Entry>, codes: seq<string>, disableCache: bool, now: DateTime, f: Fetcher): (s: Served)
    ensures s.result.Ok? ==> |s.result.value| == |codes|
    ensures s.result.Ok? ==> forall k :: 0 <= k < |codes| ==> codes[k] in s.entries && s.entries[codes[k]] == Record(s.result.value[k])
  {
    var o := RefreshAll(CheckedVersion(if disableCache then map[] else stored), Dedup(codes), now, f);
    if o.error.Some? then Served(o.entries, o.calls, Err(o.error.value))
    else
      RefreshAllRecords(CheckedVersion(if disableCache then map[] else stored), Dedup(codes), now, f);
      DedupMembers(codes);
      Served(o.entries, o.calls, Ok(Collect(o.entries, codes)))
  }

  // ---------------------------------------------------------------------
  // The operations on the shelf

  /** `update_net_value_info`, `update_estimate_info`, `update_IARBC_info`. */
  method UpdateGroupInfo(g: Group, code: string, db: Shelf, now: DateTime, f: Fetcher)
    returns (calls: seq<Fetch>, err: Option<Error>)
    modifies db
    ensures Outcome(db.entries, calls, err) == RefreshGroup(g, old(db.entries), code, now, f)
  {
    var info := Access(db.entries, code);
    if info.Err? {
      return [], Some(info.error);
    }
    if GroupIsLatest(g, info.value, now) {
      return [], None;
    }
    calls := [GroupFetch(g, code)];
    var fetched := FetchGroup(g, code, info.value, f);
    if fetched.Err? {
      err := Some(fetched.error);
    } else {
      db.entries := db.entries[code := Record(fetched.value)];
      err := None;
    }
  }

  /** `update_fund_info`. */
  method UpdateFundInfo(code: string, db: Shelf, now: DateTime, f: Fetcher)
    returns (calls: seq<Fetch>, err: Option<Error>)
    modifies db
    ensures Outcome(db.entries, calls, err) == RefreshFund(old(db.entries), code, now, f)
  {
    if code in db.entries {
      var c1, e1 := UpdateGroupInfo(NetValueGroup, code, db, now, f);
      if e1.Some? {
        return c1, e1;
      }
      var c2, e2 := UpdateGroupInfo(EstimateGroup, code, db, now, f);
      if e2.Some? {
        return c1 + c2, e2;
      }
      var c3, e3 := UpdateGroupInfo(IARBCGroup, code, db, now, f);
      return c1 + c2 + c3, e3;
    } else {
      var fetched := f.fundInfo(code);
      calls := [FullFetch(code)];
      if fetched.Err? {
        err := Some(fetched.error);
      } else {
        db.entries := db.entries[code := Record(fetched.value)];
        err := None;
      }
    }
  }

  /** `update_fund_infos`: every distinct code once. */
  method UpdateFundInfos(codes: seq<string>, db: Shelf, now: DateTime, f: Fetcher)
    returns (calls: seq<Fetch>, err: Option<Error>)
    modifies db
    ensures Outcome(db.entries, calls, err) == RefreshAll(old(db.entries), Dedup(codes), now, f)
  {
    var cs := Dedup(codes);
    ghost var e0 := db.entries;
    calls, err := [], None;
    var i := 0;
    while i < |cs| && err.None?
      invariant 0 <= i <= |cs|
      invariant Outcome(db.entries, calls, err) == RefreshAll(e0, cs[..i], now, f)
    {
      RefreshAllNext(e0, cs, i, now, f);
      var c, e := UpdateFundInfo(cs[i], db, now, f);
      calls, err := calls + c, e;
      i := i + 1;
    }
    assert cs[..|cs|] == cs;
    if i < |cs| {
      RefreshAllStops(e0, cs, i, now, f);
    }
  }

  /** `check_db_version`. */
  method CheckDbVersion(db: Shelf)
    modifies db
    ensures db.entries == CheckedVersion(old(db.entries))
  {
    if !(VersionKey in db.entries && db.entries[VersionKey] == VersionTag(Version)) {
      db.entries := map[];
      db.entries := db.entries[VersionKey := VersionTag(Version)];
    }
  }

  /** `get_fund_infos`: the persistent shelf is used unless the cache is
      disabled, in which case it is left alone. */
  method GetFundInfos(shelf: Shelf, codes: seq<string>, disableCache: bool, now: DateTime, f: Fetcher)
    returns (r: Result<seq<FundInfo>>, calls: seq<Fetch>)
    modifies shelf
    ensures var s := Serve(old(shelf.entries), codes, disableCache, now, f);
      r == s.result && calls == s.calls
      && shelf.entries == (if disableCache then old(shelf.entries) else s.entries)
  {
    var db := shelf;
    if disableCache {
      db := new Shelf(map[]);
    }
    CheckDbVersion(db);
    var err;
    calls, err := UpdateFundInfos(codes, db, now, f);
    if err.Some? {
      r := Err(err.value);
    } else {
      RefreshAllRecords(CheckedVersion(if disableCache then map[] else old(shelf.entries)), Dedup(codes), now, f);
      DedupMembers(codes);
      r := Ok(Collect(db.entries, codes));
    }
  }

  // ---------------------------------------------------------------------
  // Properties

  /** One more code is one more `RefreshFund` after the batch so far. */
  lemma RefreshAllNext(entries: map<string, Entry>, cs: seq<string>, i: nat, now: DateTime, f: Fetcher)
    requires i < |cs| && RefreshAll(entries, cs[..i], now, f).error.None?
    ensures var o := RefreshAll(entries, cs[..i], now, f);
      RefreshAll(entries, cs[..i + 1], now, f) == Chain(o, RefreshFund(o.entries, cs[i], now, f))
  {
    assert cs[..i + 1][..i] == cs[..i];
  }

  /** An error ends the batch: the codes after it are not processed. */
  lemma {:induction false} RefreshAllStops(entries: map<string, Entry>, cs: seq<string>, j: nat, now: DateTime, f: Fetcher)
    requires j <= |cs| && RefreshAll(entries, cs[..j], now, f).error.Some?
    ensures RefreshAll(entries, cs, now, f) == RefreshAll(entries, cs[..j], now, f)
    decreases |cs|
  {
    if j < |cs| {
      var p := cs[..|cs| - 1];
      assert p[..j] == cs[..j];
      RefreshAllStops(entries, p, j, now, f);
    } else {
      assert cs[..j] == cs;
    }
  }

  /** A code missing from the shelf costs exactly one full fetch, whose
      record is stored under the code. */
  lemma RefreshAbsent(entries: map<string, Entry>, code: string, now: DateTime, f: Fetcher)
    requires code !in entries
    ensures RefreshFund(entries, code, now, f).calls == [FullFetch(code)]
    ensures f.fundInfo(code).Ok? ==>
      RefreshFund(entries, code, now, f) == Outcome(entries[code := Record(f.fundInfo(code).value)], [FullFetch(code)], None)
    ensures f.fundInfo(code).Err? ==>
      RefreshFund(entries, code, now, f) == Outcome(entries, [FullFetch(code)], Some(f.fundInfo(code).error))
  {
  }

  /** The group `g` of `info` is stale. */
  predicate Stale(g: Group, info: FundInfo, now: DateTime) {
    !GroupIsLatest(g, info, now)
  }

  /** The fetch of a stale group did not fail. */
  predicate FetchOk(g: Group, info: FundInfo, code: string, now: DateTime, f: Fetcher) {
    match g
    case NetValueGroup => !Stale(g, info, now) || f.netValue(code).Ok?
    case EstimateGroup => !Stale(g, info, now) || f.estimate(code).Ok?
    case IARBCGroup => !Stale(g, info, now) || f.iarbc(code).Ok?
  }

  /** The calls for the groups that are stale and reached. */
  function PlannedCalls(info: FundInfo, code: string, now: DateTime, f: Fetcher): seq<Fetch> {
    var nvOk := FetchOk(NetValueGroup, info, code, now, f);
    var estOk := FetchOk(EstimateGroup, info, code, now, f);
    (if Stale(NetValueGroup, info, now) then [GroupFetch(NetValueGroup, code)] else [])
    + (if nvOk && Stale(EstimateGroup, info, now) then [GroupFetch(EstimateGroup, code)] else [])
    + (if nvOk && estOk && Stale(IARBCGroup, info, now) then [GroupFetch(IARBCGroup, code)] else [])
  }

  /** The record after the groups that are stale, reached and fetched
      without error have been replaced. */
  function PlannedRecord(info: FundInfo, code: string, now: DateTime, f: Fetcher): FundInfo {
    var nvOk := FetchOk(NetValueGroup, info, code, now, f);
    var estOk := FetchOk(EstimateGroup, info, code, now, f);
    Replace(info,
      if Stale(NetValueGroup, info, now) && f.netValue(code).Ok? then Some(f.netValue(code).value) else None,
      if nvOk && Stale(EstimateGroup, info, now) && f.estimate(code).Ok? then Some(f.estimate(code).value) else None,
      if nvOk && estOk && Stale(IARBCGroup, info, now) && f.iarbc(code).Ok? then Some(f.iarbc(code).value) else None)
  }

  /** The first error among the fetches of stale groups. */
  function PlannedError(info: FundInfo, code: string, now: DateTime, f: Fetcher): Option<Error> {
    if !FetchOk(NetValueGroup, info, code, now, f) then Some(f.netValue(code).error)
    else if !FetchOk(EstimateGroup, info, code, now, f) then Some(f.estimate(code).error)
    else if !FetchOk(IARBCGroup, info, code, now, f) then Some(f.iarbc(code).error)
    else None
  }

  /** The record after one `update_*_info` step on a stored record. */
  function GroupRecord(g: Group, info: FundInfo, code: string, now: DateTime, f: Fetcher): FundInfo {
    if Stale(g, info, now) && FetchGroup(g, code, info, f).Ok? then FetchGroup(g, code, info, f).value else info
  }

  function GroupCalls(g: Group, info: FundInfo, code: string, now: DateTime): seq<Fetch> {
    if Stale(g, info, now) then [GroupFetch(g, code)] else []
  }

  function GroupError(g: Group, info: FundInfo, code: string, now: DateTime, f: Fetcher): Option<Error> {
    if Stale(g, info, now) && FetchGroup(g, code, info, f).Err? then Some(FetchGroup(g, code, info, f).error) else None
  }

  /** One group step on a stored record, in closed form. */
  lemma RefreshGroupStored(g: Group, entries: map<string, Entry>, code: string, now: DateTime, f: Fetcher)
    requires code in entries && entries[code].Record?
    ensures var info := entries[code].info;
      RefreshGroup(g, entries, code, now, f)
      == Outcome(entries[code := Record(GroupRecord(g, info, code, now, f))],
                 GroupCalls(g, info, code, now), GroupError(g, info, code, now, f))
  {
    var info := entries[code].info;
    assert entries[code := Record(info)] == entries;
  }

  /** A group's freshness reads only that group's fields. */
  lemma StaleReadsOwnGroup(g: Group, h: Group, a: FundInfo, b: FundInfo, now: DateTime)
    requires g != h && SameOutside(h, a, b)
    ensures Stale(g, a, now) == Stale(g, b, now)
  {
  }

  /** A step on group `g` leaves the freshness of the other groups as it
      was. */
  lemma GroupRecordKeepsStale(g: Group, h: Group, info: FundInfo, code: string, now: DateTime, f: Fetcher)
    requires g != h
    ensures Stale(h, GroupRecord(g, info, code, now, f), now) == Stale(h, info, now)
  {
    if Stale(g, info, now) && FetchGroup(g, code, info, f).Ok? {
      StaleReadsOwnGroup(h, g, info, FetchGroup(g, code, info, f).value, now);
    }
  }

  /** The record after the steps reached: each step leaves the record
      alone when its fetch fails, and the first failure ends the chain. */
  function StepRecord(info: FundInfo, code: string, now: DateTime, f: Fetcher): FundInfo {
    var i1 := GroupRecord(NetValueGroup, info, code, now, f);
    var i2 := GroupRecord(EstimateGroup, i1, code, now, f);
    if !FetchOk(NetValueGroup, info, code, now, f) then i1
    else if !FetchOk(EstimateGroup, info, code, now, f) then i2
    else GroupRecord(IARBCGroup, i2, code, now, f)
  }

  /** `RefreshFund` on a stored record whose net-value fetch fails. */
  lemma RefreshStoredNetValueFails(entries: map<string, Entry>, code: string, now: DateTime, f: Fetcher)
    requires code in entries && entries[code].Record?
    requires !FetchOk(NetValueGroup, entries[code].info, code, now, f)
    ensures var info := entries[code].info;
      RefreshFund(entries, code, now, f)
      == Outcome(entries[code := Record(StepRecord(info, code, now, f))],
                 PlannedCalls(info, code, now, f), PlannedError(info, code, now, f))
  {
    RefreshGroupStored(NetValueGroup, entries, code, now, f);
  }

  /** `RefreshFund` on a stored record whose estimate fetch fails. */
  lemma RefreshStoredEstimateFails(entries: map<string, Entry>, code: string, now: DateTime, f: Fetcher)
    requires code in entries && entries[code].Record?
    requires FetchOk(NetValueGroup, entries[code].info, code, now, f)
    requires !FetchOk(EstimateGroup, entries[code].info, code, now, f)
    ensures var info := entries[code].info;
      RefreshFund(entries, code, now, f)
      == Outcome(entries[code := Record(StepRecord(info, code, now, f))],
                 PlannedCalls(info, code, now, f), PlannedError(info, code, now, f))
  {
    var info := entries[code].info;
    RefreshGroupStored(NetValueGroup, entries, code, now, f);
    var i1 := GroupRecord(NetValueGroup, info, code, now, f);
    var e1 := entries[code := Record(i1)];
    GroupRecordKeepsStale(NetValueGroup, EstimateGroup, info, code, now, f);
    RefreshGroupStored(EstimateGroup, e1, code, now, f);
    var i2 := GroupRecord(EstimateGroup, i1, code, now, f);
    assert e1[code := Record(i2)] == entries[code := Record(i2)];
  }

  /** Storing twice under one key keeps the second value. */
  lemma UpdateTwice(m: map<string, Entry>, k: string, a: Entry, b: Entry)
    ensures m[k := a][k := b] == m[k := b]
  {
  }

  /** The three steps on a stored record when the first two raise
      nothing, in terms of the records between the steps. */
  lemma RefreshStoredChain(entries: map<string, Entry>, code: string, now: DateTime, f: Fetcher)
    requires code in entries && entries[code].Record?
    requires GroupError(NetValueGroup, entries[code].info, code, now, f).None?
    requires GroupError(EstimateGroup, GroupRecord(NetValueGroup, entries[code].info, code, now, f), code, now, f).None?
    ensures var i1 := GroupRecord(NetValueGroup, entries[code].info, code, now, f);
      var i2 := GroupRecord(EstimateGroup, i1, code, now, f);
      RefreshFund(entries, code, now, f)
      == Outcome(entries[code := Record(GroupRecord(IARBCGroup, i2, code, now, f))],
                 GroupCalls(NetValueGroup, entries[code].info, code, now)
                 + GroupCalls(EstimateGroup, i1, code, now) + GroupCalls(IARBCGroup, i2, code, now),
                 GroupError(IARBCGroup, i2, code, now, f))
  {
    var info := entries[code].info;
    RefreshGroupStored(NetValueGroup, entries, code, now, f);
    var i1 := GroupRecord(NetValueGroup, info, code, now, f);
    var e1 := entries[code := Record(i1)];
    RefreshGroupStored(EstimateGroup, e1, code, now, f);
    var i2 := GroupRecord(EstimateGroup, i1, code, now, f);
    var e2 := e1[code := Record(i2)];
    UpdateTwice(entries, code, Record(i1), Record(i2));
    RefreshGroupStored(IARBCGroup, e2, code, now, f);
    var i3 := GroupRecord(IARBCGroup, i2, code, now, f);
    UpdateTwice(entries, code, Record(i2), Record(i3));
  }

  /** The calls and the error of the chain are the planned ones. */
  lemma ChainIsPlanned(info: FundInfo, code: string, now: DateTime, f: Fetcher)
    requires FetchOk(NetValueGroup, info, code, now, f) && FetchOk(EstimateGroup, info, code, now, f)
    ensures var i1 := GroupRecord(NetValueGroup, info, code, now, f);
      var i2 := GroupRecord(EstimateGroup, i1, code, now, f);
      GroupError(NetValueGroup, info, code, now, f).None?
      && GroupError(EstimateGroup, i1, code, now, f).None?
      && GroupCalls(NetValueGroup, info, code, now) + GroupCalls(EstimateGroup, i1, code, now)
         + GroupCalls(IARBCGroup, i2, code, now) == PlannedCalls(info, code, now, f)
      && GroupError(IARBCGroup, i2, code, now, f) == PlannedError(info, code, now, f)
      && GroupRecord(IARBCGroup, i2, code, now, f) == StepRecord(info, code, now, f)
  {
    var i1 := GroupRecord(NetValueGroup, info, code, now, f);
    GroupRecordKeepsStale(NetValueGroup, EstimateGroup, info, code, now, f);
    GroupRecordKeepsStale(NetValueGroup, IARBCGroup, info, code, now, f);
    GroupRecordKeepsStale(EstimateGroup, IARBCGroup, i1, code, now, f);
  }

  /** `RefreshFund` on a stored record whose first two steps succeed. */
  lemma RefreshStoredReachesRanking(entries: map<string, Entry>, code: string, now: DateTime, f: Fetcher)
    requires code in entries && entries[code].Record?
    requires FetchOk(NetValueGroup, entries[code].info, code, now, f)
    requires FetchOk(EstimateGroup, entries[code].info, code, now, f)
    ensures var info := entries[code].info;
      RefreshFund(entries, code, now, f)
      == Outcome(entries[code := Record(StepRecord(info, code, now, f))],
                 PlannedCalls(info, code, now, f), PlannedError(info, code, now, f))
  {
    ChainIsPlanned(entries[code].info, code, now, f);
    RefreshStoredChain(entries, code, now, f);
  }

  /** `RefreshFund` on a stored record, step by step. */
  lemma RefreshStoredSteps(entries: map<string, Entry>, code: string, now: DateTime, f: Fetcher)
    requires code in entries && entries[code].Record?
    ensures var info := entries[code].info;
      RefreshFund(entries, code, now, f)
      == Outcome(entries[code := Record(StepRecord(info, code, now, f))],
                 PlannedCalls(info, code, now, f), PlannedError(info, code, now, f))
  {
    var info := entries[code].info;
    if !FetchOk(NetValueGroup, info, code, now, f) {
      RefreshStoredNetValueFails(entries, code, now, f);
    } else if !FetchOk(EstimateGroup, info, code, now, f) {
      RefreshStoredEstimateFails(entries, code, now, f);
    } else {
      RefreshStoredReachesRanking(entries, code, now, f);
    }
  }

  /** The step-by-step record is one `replace` with the groups fetched. */
  lemma StepRecordIsPlanned(info: FundInfo, code: string, now: DateTime, f: Fetcher)
    ensures StepRecord(info, code, now, f) == PlannedRecord(info, code, now, f)
  {
    var nv := if Stale(NetValueGroup, info, now) && f.netValue(code).Ok? then Some(f.netValue(code).value) else None;
    var est := if Stale(EstimateGroup, info, now) && f.estimate(code).Ok? then Some(f.estimate(code).value) else None;
    var ia := if Stale(IARBCGroup, info, now) && f.iarbc(code).Ok? then Some(f.iarbc(code).value) else None;
    var i1 := GroupRecord(NetValueGroup, info, code, now, f);
    assert i1 == Replace(info, nv, None, None) by {
      if nv.None? { ReplaceNothing(info); }
    }
    GroupRecordKeepsStale(NetValueGroup, EstimateGroup, info, code, now, f);
    GroupRecordKeepsStale(NetValueGroup, IARBCGroup, info, code, now, f);
    var i2 := GroupRecord(EstimateGroup, i1, code, now, f);
    assert i2 == Replace(i1, None, est, None) by {
      if est.None? { ReplaceNothing(i1); }
    }
    GroupRecordKeepsStale(EstimateGroup, IARBCGroup, i1, code, now, f);
    var i3 := GroupRecord(IARBCGroup, i2, code, now, f);
    assert i3 == Replace(i2, None, None, ia) by {
      if ia.None? { ReplaceNothing(i2); }
    }
    if !FetchOk(NetValueGroup, info, code, now, f) {
      ReplaceNothing(info);
    } else if !FetchOk(EstimateGroup, info, code, now, f) {
      ReplaceNothing(i1);
      ReplaceInSteps(info, nv, None, None);
    } else {
      ReplaceInSteps(info, nv, est, ia);
    }
  }

  /** A stored record is refreshed group by group in the order net value,
      estimate, ranking: each group is fetched only when stale and replaced
      whole, and the first failing fetch ends the refresh with the groups
      before it merged and the ones after it neither fetched nor changed. */
  lemma RefreshStored(entries: map<string, Entry>, code: string, now: DateTime, f: Fetcher)
    requires code in entries && entries[code].Record?
    ensures var info := entries[code].info;
      RefreshFund(entries, code, now, f)
      == Outcome(entries[code := Record(PlannedRecord(info, code, now, f))],
                 PlannedCalls(info, code, now, f), PlannedError(info, code, now, f))
  {
    RefreshStoredSteps(entries, code, now, f);
    StepRecordIsPlanned(entries[code].info, code, now, f);
  }

  /** A refresh that raises nothing leaves a record under its code. */
  lemma RefreshFundRecord(entries: map<string, Entry>, code: string, now: DateTime, f: Fetcher)
    ensures var o := RefreshFund(entries, code, now, f);
      o.error.None? ==> code in o.entries && o.entries[code].Record?
  {
    if code in entries && entries[code].Record? {
      RefreshStored(entries, code, now, f);
    }
  }

  /** A refresh changes no other key, adds no key but its code, and adds
      that one only when it succeeds. */
  lemma RefreshFundKeys(entries: map<string, Entry>, code: string, now: DateTime, f: Fetcher)
    ensures var o := RefreshFund(entries, code, now, f);
      o.entries.Keys == entries.Keys + (if o.error.None? then {code} else {})
    ensures var o := RefreshFund(entries, code, now, f);
      forall k :: k in entries && k != code ==> o.entries[k] == entries[k]
  {
    if code in entries && entries[code].Record? {
      RefreshStored(entries, code, now, f);
    }
  }

  /** After a batch without error every requested code holds a record. */
  lemma {:induction false} RefreshAllRecords(entries: map<string, Entry>, cs: seq<string>, now: DateTime, f: Fetcher)
    ensures var o := RefreshAll(entries, cs, now, f);
      o.error.None? ==> forall c :: c in cs ==> c in o.entries && o.entries[c].Record?
  {
    if cs != [] {
      var p := cs[..|cs| - 1];
      var c := cs[|cs| - 1];
      RefreshAllRecords(entries, p, now, f);
      var o := RefreshAll(entries, p, now, f);
      if o.error.None? {
        RefreshFundRecord(o.entries, c, now, f);
        RefreshFundKeys(o.entries, c, now, f);
        assert cs == p + [c];
      }
    }
  }

  /** After a batch without error the shelf has gained exactly the
      requested codes. */
  lemma {:induction false} RefreshAllKeys(entries: map<string, Entry>, cs: seq<string>, now: DateTime, f: Fetcher)
    ensures var o := RefreshAll(entries, cs, now, f);
      o.error.None? ==> o.entries.Keys == entries.Keys + set c | c in cs
  {
    if cs != [] {
      var p := cs[..|cs| - 1];
      var c := cs[|cs| - 1];
      RefreshAllKeys(entries, p, now, f);
      var o := RefreshAll(entries, p, now, f);
      if o.error.None? {
        RefreshFundKeys(o.entries, c, now, f);
        var r := RefreshFund(o.entries, c, now, f);
        assert RefreshAll(entries, cs, now, f) == Chain(o, r);
        assert cs == p + [c];
        ElementsSnoc(p, c);
      }
    }
  }

  /** `Dedup` keeps every element once. */
  lemma {:induction false} DedupMembers(xs: seq<string>)
    ensures forall x :: x in Dedup(xs) <==> x in xs
    ensures Distinct(Dedup(xs))
  {
    if xs != [] {
      var p := xs[..|xs| - 1];
      DedupMembers(p);
      assert xs == p + [xs[|xs| - 1]];
    }
  }

  /** The version check is idempotent. */
  lemma CheckedVersionIdempotent(entries: map<string, Entry>)
    ensures CheckedVersion(CheckedVersion(entries)) == CheckedVersion(entries)
  {
  }

  /** One full fetch per code, in order. */
  function FullFetches(cs: seq<string>): (r: seq<Fetch>)
    ensures |r| == |cs| && forall k :: 0 <= k < |cs| ==> r[k] == FullFetch(cs[k])
  {
    if cs == [] then [] else FullFetches(cs[..|cs| - 1]) + [FullFetch(cs[|cs| - 1])]
  }

  /** Distinct codes none of which is on the shelf are fetched whole, one
      full fetch each. */
  lemma {:induction false} RefreshAllNew(entries: map<string, Entry>, cs: seq<string>, now: DateTime, f: Fetcher)
    requires Distinct(cs) && forall c :: c in cs ==> c !in entries
    ensures var o := RefreshAll(entries, cs, now, f);
      o.error.None? ==> o.calls == FullFetches(cs)
  {
    if cs != [] {
      var p := cs[..|cs| - 1];
      var c := cs[|cs| - 1];
      RefreshAllNew(entries, p, now, f);
      RefreshAllKeys(entries, p, now, f);
      var o := RefreshAll(entries, p, now, f);
      if o.error.None? {
        assert c !in o.entries;
      }
    }
  }

  /** With the cache disabled every distinct code is fetched whole, once,
      whatever the persistent shelf holds. */
  lemma ServeWithoutCache(stored: map<string, Entry>, codes: seq<string>, now: DateTime, f: Fetcher)
    requires VersionKey !in codes
    ensures var s := Serve(stored, codes, true, now, f);
      s.result.Ok? ==> s.calls == FullFetches(Dedup(codes))
  {
    DedupMembers(codes);
    RefreshAllNew(CheckedVersion(map[]), Dedup(codes), now, f);
  }
  // ---------------------------------------------------------------------
  // The freshness tests as written

  /** The freshness test of each `update_*_info` as the code stands:
      `net_value_date_is_latest` calls `.date()` on the function
      `china_now` itself, an `AttributeError`, and `IARBC_date_is_latest`
      reads the undefined name `china_timezone`, a `NameError`. Only the
      estimate test runs. */
  function GroupCheckAsWritten(g: Group, info: FundInfo, now: DateTime): (r: Result<bool>)
    ensures r.Ok? <==> g == EstimateGroup
    ensures r.Ok? ==> r.value == GroupIsLatest(g, info, now)
    ensures g == NetValueGroup ==> r == Err(AttributeError)
    ensures g == IARBCGroup ==> r == Err(NameError)
  {
    match g
    case NetValueGroup => Err(AttributeError)
    case EstimateGroup => Ok(EstimateDateTimeIsLatest(info.estimateDateTime, now))
    case IARBCGroup => Err(NameError)
  }

  /** `update_*_info` as written: the test raises before any fetch. */
  function RefreshGroupAsWritten(g: Group, entries: map<string, Entry>, code: string, now: DateTime, f: Fetcher): (o: Outcome)
    ensures Access(entries, code).Err? ==> o == Outcome(entries, [], Some(Access(entries, code).error))
    ensures Access(entries, code).Ok? && g != EstimateGroup ==>
      o == Outcome(entries, [], Some(if g == NetValueGroup then AttributeError else NameError))
    ensures g == EstimateGroup ==> o == RefreshGroup(g, entries, code, now, f)
  {
    match Access(entries, code)
    case Err(e) => Outcome(entries, [], Some(e))
    case Ok(info) =>
      match GroupCheckAsWritten(g, info, now)
      case Err(e) => Outcome(entries, [], Some(e))
      case Ok(_) => RefreshGroup(g, entries, code, now, f)
  }

  /** `update_fund_info` as written. */
  function RefreshFundAsWritten(entries: map<string, Entry>, code: string, now: DateTime, f: Fetcher): Outcome
  {
    if code in entries then
      var o1 := RefreshGroupAsWritten(NetValueGroup, entries, code, now, f);
      if o1.error.Some? then o1
      else
        var o2 := Chain(o1, RefreshGroupAsWritten(EstimateGroup, o1.entries, code, now, f));
        if o2.error.Some? then o2
        else Chain(o2, RefreshGroupAsWritten(IARBCGroup, o2.entries, code, now, f))
    else RefreshFund(entries, code, now, f)
  }

  /** As written, every stored code raises `AttributeError` with nothing
      fetched and the shelf unchanged; only codes not yet stored are
      served, by a full fetch. */
  lemma StoredRefreshRaises(entries: map<string, Entry>, code: string, now: DateTime, f: Fetcher)
    ensures code in entries ==> RefreshFundAsWritten(entries, code, now, f) == Outcome(entries, [], Some(AttributeError))
    ensures code !in entries ==> RefreshFundAsWritten(entries, code, now, f) == RefreshFund(entries, code, now, f)
  {
  }

  /** A stored record whose three groups are all fresh: the intended
      refresh does nothing and raises nothing, the code as written raises. */
  lemma FreshRecordRefreshDiffers(entries: map<string, Entry>, code: string, now: DateTime, f: Fetcher)
    requires code in entries && entries[code].Record?
    requires var info := entries[code].info;
      GroupIsLatest(NetValueGroup, info, now) && GroupIsLatest(EstimateGroup, info, now)
      && GroupIsLatest(IARBCGroup, info, now)
    ensures RefreshFund(entries, code, now, f) == Outcome(entries, [], None)
    ensures RefreshFundAsWritten(entries, code, now, f).error == Some(AttributeError)
  {
    StoredRefreshRaises(entries, code, now, f);
  }
}
