/** The older two-group fund record of fetcher/models.py: net value and
    estimate, with a group-wise `replace` and `combine`. */
module LegacyModels {
  import opened Base
  import opened Dates

  /** `FundNetValueInfo`. */
  datatype NetValueInfo = NetValueInfo(
    netValueDate: Date,
    netValue: real,
    dailyGrowthRate: real,
    dividend: string,
    previousNetValue: real,
    previousNetValueDate: Date)

  /** `FundEstimateInfo`. */
  datatype EstimateInfo = EstimateInfo(
    fundCode: string,
    fundName: string,
    estimateDateTime: DateTime,
    estimateValue: real,
    estimateGrowthRate: real)

  /** `FundInfo`: the fields of both groups. */
  datatype FundInfo = FundInfo(
    netValueDate: Date,
    netValue: real,
    dailyGrowthRate: real,
    dividend: string,
    previousNetValue: real,
    previousNetValueDate: Date,
    fundCode: string,
    fundName: string,
    estimateDateTime: DateTime,
    estimateValue: real,
    estimateGrowthRate: real)

  function NetValueOf(f: FundInfo): NetValueInfo {
    NetValueInfo(f.netValueDate, f.netValue, f.dailyGrowthRate, f.dividend,
                 f.previousNetValue, f.previousNetValueDate)
  }

  function EstimateOf(f: FundInfo): EstimateInfo {
    EstimateInfo(f.fundCode, f.fundName, f.estimateDateTime, f.estimateValue, f.estimateGrowthRate)
  }

  /** The two groups share no field and cover every field. */
  lemma GroupsDetermineRecord(f: FundInfo, g: FundInfo)
    requires NetValueOf(f) == NetValueOf(g) && EstimateOf(f) == EstimateOf(g)
    ensures f == g
  {
  }

  /** `FundInfo.combine(n, e)`. */
  function Combine(n: NetValueInfo, e: EstimateInfo): (r: FundInfo)
    ensures NetValueOf(r) == n && EstimateOf(r) == e
  {
    FundInfo(n.netValueDate, n.netValue, n.dailyGrowthRate, n.dividend,
             n.previousNetValue, n.previousNetValueDate,
             e.fundCode, e.fundName, e.estimateDateTime, e.estimateValue, e.estimateGrowthRate)
  }

  /** `FundInfo.replace(net_value_info, estimate_info)`, returning the
      updated record. The net-value fields are written first. */
  function Replace(f: FundInfo, n: Option<NetValueInfo>, e: Option<EstimateInfo>): (r: FundInfo)
    ensures NetValueOf(r) == (if n.Some? then n.value else NetValueOf(f))
    ensures EstimateOf(r) == (if e.Some? then e.value else EstimateOf(f))
  {
    var f1 := if n.Some? then
      f.(netValueDate := n.value.netValueDate, netValue := n.value.netValue,
         dailyGrowthRate := n.value.dailyGrowthRate, dividend := n.value.dividend,
         previousNetValue := n.value.previousNetValue,
         previousNetValueDate := n.value.previousNetValueDate)
    else f;
    if e.Some? then
      f1.(fundCode := e.value.fundCode, fundName := e.value.fundName,
          estimateDateTime := e.value.estimateDateTime, estimateValue := e.value.estimateValue,
          estimateGrowthRate := e.value.estimateGrowthRate)
    else f1
  }

  /** `replace()` changes nothing. */
  lemma ReplaceNothing(f: FundInfo)
    ensures Replace(f, None, None) == f
  {
    GroupsDetermineRecord(Replace(f, None, None), f);
  }

  /** Replacing the net-value group alone keeps the estimate group. */
  lemma ReplaceNetValueOnly(f: FundInfo, n: NetValueInfo)
    ensures Replace(f, Some(n), None) == Combine(n, EstimateOf(f))
  {
    GroupsDetermineRecord(Replace(f, Some(n), None), Combine(n, EstimateOf(f)));
  }

  /** Replacing the estimate group alone keeps the net-value group. */
  lemma ReplaceEstimateOnly(f: FundInfo, e: EstimateInfo)
    ensures Replace(f, None, Some(e)) == Combine(NetValueOf(f), e)
  {
    GroupsDetermineRecord(Replace(f, None, Some(e)), Combine(NetValueOf(f), e));
  }

  /** Replacing both groups gives their combination. */
  lemma ReplaceBothIsCombine(f: FundInfo, n: NetValueInfo, e: EstimateInfo)
    ensures Replace(f, Some(n), Some(e)) == Combine(n, e)
  {
    GroupsDetermineRecord(Replace(f, Some(n), Some(e)), Combine(n, e));
  }

  /** Replacing twice with the same arguments is replacing once. */
  lemma ReplaceIdempotent(f: FundInfo, n: Option<NetValueInfo>, e: Option<EstimateInfo>)
    ensures Replace(Replace(f, n, e), n, e) == Replace(f, n, e)
  {
    GroupsDetermineRecord(Replace(Replace(f, n, e), n, e), Replace(f, n, e));
  }
}
