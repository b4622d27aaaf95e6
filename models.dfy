/** The fund records of quickfund/models.py and the group-wise `replace`
    and `combine` of `FundInfo`.

    A `FundInfo` has the fields of the three groups it inherits from:
    net value, estimate and ranking by category ("IARBC", increase amount
    ranking by category). Floating-point fields are `real`s; nothing in the
    model computes with them. */
module Models {
  import opened Base
  import opened Dates

  /** `FundNetValueInfo`. */
  datatype NetValueInfo = NetValueInfo(
    netValueDate: Date,
    netValue: real,
    dailyGrowthRate: real,
    dividend: string,
    previousNetValue: real,
    previousNetValueDate: Date)

  /** `FundEstimateInfo`. */
  datatype EstimateInfo = EstimateInfo(
    fundCode: string,
    fundName: string,
    estimateDateTime: DateTime,
    estimateValue: real,
    estimateGrowthRate: real)

  /** `FundIARBCInfo`: the ranking cutoff date and eight rank strings. */
  datatype IARBCInfo = IARBCInfo(
    rankDate: Date,
    week1: string,
    month1: string,
    month3: string,
    month6: string,
    thisYear: string,
    year1: string,
    year2: string,
    year3: string)

  /** `FundInfo`: every field of the three groups. */
  datatype FundInfo = FundInfo(
    netValueDate: Date,
    netValue: real,
    dailyGrowthRate: real,
    dividend: string,
    previousNetValue: real,
    previousNetValueDate: Date,
    fundCode: string,
    fundName: string,
    estimateDateTime: DateTime,
    estimateValue: real,
    estimateGrowthRate: real,
    rankDate: Date,
    week1: string,
    month1: string,
    month3: string,
    month6: string,
    thisYear: string,
    year1: string,
    year2: string,
    year3: string)

  /** The net-value fields of a record, as `attr.asdict` would list them. */
  function NetValueOf(f: FundInfo): NetValueInfo {
    NetValueInfo(f.netValueDate, f.netValue, f.dailyGrowthRate, f.dividend,
                 f.previousNetValue, f.previousNetValueDate)
  }

  function EstimateOf(f: FundInfo): EstimateInfo {
    EstimateInfo(f.fundCode, f.fundName, f.estimateDateTime, f.estimateValue, f.estimateGrowthRate)
  }

  function IARBCOf(f: FundInfo): IARBCInfo {
    IARBCInfo(f.rankDate, f.week1, f.month1, f.month3, f.month6,
              f.thisYear, f.year1, f.year2, f.year3)
  }

  /** A record is determined by its three groups: they share no field and
      together cover every field. */
  lemma GroupsDetermineRecord(f: FundInfo, g: FundInfo)
    requires NetValueOf(f) == NetValueOf(g)
    requires EstimateOf(f) == EstimateOf(g)
    requires IARBCOf(f) == IARBCOf(g)
    ensures f == g
  {
  }

  /** `FundInfo.combine(n, e, i)`: the record whose fields are those of the
      three groups. */
  function Combine(n: NetValueInfo, e: EstimateInfo, i: IARBCInfo): (r: FundInfo)
    ensures NetValueOf(r) == n && EstimateOf(r) == e && IARBCOf(r) == i
  {
    FundInfo(n.netValueDate, n.netValue, n.dailyGrowthRate, n.dividend,
             n.previousNetValue, n.previousNetValueDate,
             e.fundCode, e.fundName, e.estimateDateTime, e.estimateValue, e.estimateGrowthRate,
             i.rankDate, i.week1, i.month1, i.month3, i.month6,
             i.thisYear, i.year1, i.year2, i.year3)
  }

  /** Every record is the combination of its own groups. */
  lemma CombineOfGroups(f: FundInfo)
    ensures Combine(NetValueOf(f), EstimateOf(f), IARBCOf(f)) == f
  {
    GroupsDetermineRecord(Combine(NetValueOf(f), EstimateOf(f), IARBCOf(f)), f);
  }

  /** One `setattr` pass over the net-value group's fields. */
  function WithNetValue(f: FundInfo, n: NetValueInfo): (r: FundInfo)
    ensures NetValueOf(r) == n && EstimateOf(r) == EstimateOf(f) && IARBCOf(r) == IARBCOf(f)
  {
    f.(netValueDate := n.netValueDate, netValue := n.netValue,
       dailyGrowthRate := n.dailyGrowthRate, dividend := n.dividend,
       previousNetValue := n.previousNetValue, previousNetValueDate := n.previousNetValueDate)
  }

  /** One `setattr` pass over the estimate group's fields. */
  function WithEstimate(f: FundInfo, e: EstimateInfo): (r: FundInfo)
    ensures NetValueOf(r) == NetValueOf(f) && EstimateOf(r) == e && IARBCOf(r) == IARBCOf(f)
  {
    f.(fundCode := e.fundCode, fundName := e.fundName, estimateDateTime := e.estimateDateTime,
       estimateValue := e.estimateValue, estimateGrowthRate := e.estimateGrowthRate)
  }

  /** One `setattr` pass over the ranking group's fields. */
  function WithIARBC(f: FundInfo, i: IARBCInfo): (r: FundInfo)
    ensures NetValueOf(r) == NetValueOf(f) && EstimateOf(r) == EstimateOf(f) && IARBCOf(r) == i
  {
    f.(rankDate := i.rankDate, week1 := i.week1, month1 := i.month1, month3 := i.month3,
       month6 := i.month6, thisYear := i.thisYear, year1 := i.year1, year2 := i.year2,
       year3 := i.year3)
  }

  /** `FundInfo.replace(net_value_info, estimate_info, IARBC_info)`: the
      groups given are written in that order; a `None` group is skipped.
      The record is returned instead of being updated in place. */
  function Replace(f: FundInfo, n: Option<NetValueInfo>, e: Option<EstimateInfo>, i: Option<IARBCInfo>): (r: FundInfo)
    ensures NetValueOf(r) == (if n.Some? then n.value else NetValueOf(f))
    ensures EstimateOf(r) == (if e.Some? then e.value else EstimateOf(f))
    ensures IARBCOf(r) == (if i.Some? then i.value else IARBCOf(f))
  {
    var f1 := if n.Some? then WithNetValue(f, n.value) else f;
    var f2 := if e.Some? then WithEstimate(f1, e.value) else f1;
    if i.Some? then WithIARBC(f2, i.value) else f2
  }

  /** `replace()` with no group changes nothing. */
  lemma ReplaceNothing(f: FundInfo)
    ensures Replace(f, None, None, None) == f
  {
    GroupsDetermineRecord(Replace(f, None, None, None), f);
  }

  /** Replacing every group gives the combination of the new groups,
      whatever the record was before. */
  lemma ReplaceAllIsCombine(f: FundInfo, n: NetValueInfo, e: EstimateInfo, i: IARBCInfo)
    ensures Replace(f, Some(n), Some(e), Some(i)) == Combine(n, e, i)
  {
    GroupsDetermineRecord(Replace(f, Some(n), Some(e), Some(i)), Combine(n, e, i));
  }

  /** `combine(n, e, i)` followed by `replace(n, e, i)` changes nothing. */
  lemma CombineThenReplace(n: NetValueInfo, e: EstimateInfo, i: IARBCInfo)
    ensures Replace(Combine(n, e, i), Some(n), Some(e), Some(i)) == Combine(n, e, i)
  {
    ReplaceAllIsCombine(Combine(n, e, i), n, e, i);
  }

  /** Replacing twice with the same groups is replacing once. */
  lemma ReplaceIdempotent(f: FundInfo, n: Option<NetValueInfo>, e: Option<EstimateInfo>, i: Option<IARBCInfo>)
    ensures Replace(Replace(f, n, e, i), n, e, i) == Replace(f, n, e, i)
  {
    GroupsDetermineRecord(Replace(Replace(f, n, e, i), n, e, i), Replace(f, n, e, i));
  }

  /** Replacing groups one call at a time, as the refresh of a stored record
      does, is one call with all of them. */
  lemma ReplaceInSteps(f: FundInfo, n: Option<NetValueInfo>, e: Option<EstimateInfo>, i: Option<IARBCInfo>)
    ensures Replace(Replace(Replace(f, n, None, None), None, e, None), None, None, i) == Replace(f, n, e, i)
  {
    var g := Replace(Replace(Replace(f, n, None, None), None, e, None), None, None, i);
    GroupsDetermineRecord(g, Replace(f, n, e, i));
  }
}
