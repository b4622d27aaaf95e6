/** The string handling inside the fetchers of quickfund/fetcher.py and
    fetcher/fetcher.py: the `jsonpgz(...);` envelope of the estimate API,
    the `R | T` ranking cells of the fund page, and the fund-code check on
    an estimate payload.

    JSON decoding, `strptime`, `float` and the HTML parsing are library
    calls; their results are the function parameters `decode`, `loads` and
    `pack`, or the table of ranking cells. */
module FetchParsing {
  import opened Base
  import opened Text
  import opened Dates
  import Models
  import LegacyModels

  const EnvelopePrefix: string := "jsonpgz("
  const EnvelopeSuffix: string := ");"

  /** `fullmatch(r"jsonpgz\((?P<json>.*)\);", text)` and its `json` group.
      `.` matches anything but `\n`. A mismatch is a `ValueError`. */
  function MatchEnvelope(text: string): Result<string>
  {
    if |text| >= |EnvelopePrefix| + |EnvelopeSuffix|
       && text[..|EnvelopePrefix|] == EnvelopePrefix
       && text[|text| - |EnvelopeSuffix|..] == EnvelopeSuffix
       && '\n' !in text[|EnvelopePrefix|..|text| - |EnvelopeSuffix|]
    then Ok(text[|EnvelopePrefix|..|text| - |EnvelopeSuffix|])
    else Err(ValueError)
  }

  /** Unwrapping a wrapped newline-free payload gives it back. */
  lemma EnvelopeRoundTrip(p: string)
    requires '\n' !in p
    ensures MatchEnvelope(EnvelopePrefix + p + EnvelopeSuffix) == Ok(p)
  {
    var t := EnvelopePrefix + p + EnvelopeSuffix;
    assert t[..8] == EnvelopePrefix;
    assert t[|t| - 2..] == EnvelopeSuffix;
    assert t[8..|t| - 2] == p;
  }

  /** Only envelopes are accepted, and the payload is what they wrap. */
  lemma EnvelopeAccepted(text: string)
    requires MatchEnvelope(text).Ok?
    ensures text == EnvelopePrefix + MatchEnvelope(text).value + EnvelopeSuffix
    ensures '\n' !in MatchEnvelope(text).value
  {
    var p := MatchEnvelope(text).value;
    assert text == text[..8] + text[8..|text| - 2] + text[|text| - 2..];
  }

  /** A payload holding a line break is rejected even inside the envelope. */
  lemma EnvelopeRejectsNewline(p: string)
    requires '\n' in p
    ensures MatchEnvelope(EnvelopePrefix + p + EnvelopeSuffix) == Err(ValueError)
  {
    var t := EnvelopePrefix + p + EnvelopeSuffix;
    assert t[8..|t| - 2] == p;
  }

  /** `on_failure_raises(RuntimeError, ...)` around a synchronous call:
      the wrapper's `try` passes a result through and turns any exception
      of the call into a `RuntimeError`. */
  function Wrapped<T>(r: Result<T>): (w: Result<T>)
    ensures w.Ok? <==> r.Ok?
    ensures w.Ok? ==> w == r
    ensures w.Err? ==> w.error == RuntimeError
  {
    if r.Err? then Err(RuntimeError) else r
  }

  /** The estimate step of quickfund's `FundInfoFetcher.fetch_estimate`,
      from the response text on: envelope, decoding (`decode` stands for
      `json.loads` and the field conversions), then the assertion that the
      payload names the requested fund. The method is an `async def`, so
      the decorator's wrapper only creates its coroutine; the exceptions
      raised when it is awaited keep their own kind. */
  function EstimateFromText(code: string, text: string, decode: string -> Result<Models.EstimateInfo>): (r: Result<Models.EstimateInfo>)
    ensures r.Ok? ==> MatchEnvelope(text).Ok? && decode(MatchEnvelope(text).value) == r && r.value.fundCode == code
    ensures MatchEnvelope(text).Err? ==> r == Err(ValueError)
    ensures MatchEnvelope(text).Ok? && decode(MatchEnvelope(text).value).Err? ==> r == decode(MatchEnvelope(text).value)
    ensures (MatchEnvelope(text).Ok? && decode(MatchEnvelope(text).value).Ok?
             && decode(MatchEnvelope(text).value).value.fundCode != code) ==> r == Err(AssertionError)
  {
    var payload :- MatchEnvelope(text);
    var info :- decode(payload);
    if info.fundCode != code then Err(AssertionError) else Ok(info)
  }

  /** What the decorator evidently means for `fetch_estimate`: the same
      estimate on success and a `RuntimeError` for every failure. */
  function IntendedEstimate(code: string, text: string, decode: string -> Result<Models.EstimateInfo>): (r: Result<Models.EstimateInfo>)
    ensures r.Ok? <==> EstimateFromText(code, text, decode).Ok?
    ensures r.Ok? ==> r == EstimateFromText(code, text, decode)
    ensures r.Err? ==> r.error == RuntimeError
  {
    Wrapped(EstimateFromText(code, text, decode))
  }

  /** A response that is no envelope: as written the `ValueError` escapes
      the decorator, where a `RuntimeError` is intended. */
  lemma AwaitedErrorEscapes(code: string, decode: string -> Result<Models.EstimateInfo>)
    ensures EstimateFromText(code, "xyz", decode) == Err(ValueError)
    ensures IntendedEstimate(code, "xyz", decode) == Err(RuntimeError)
  {
    assert MatchEnvelope("xyz").Err?;
  }

  /** A well-formed response naming the requested fund is accepted with its
      decoded payload. */
  lemma EstimateAccepted(code: string, p: string, decode: string -> Result<Models.EstimateInfo>)
    requires '\n' !in p && decode(p).Ok? && decode(p).value.fundCode == code
    ensures EstimateFromText(code, EnvelopePrefix + p + EnvelopeSuffix, decode) == decode(p)
    ensures IntendedEstimate(code, EnvelopePrefix + p + EnvelopeSuffix, decode) == decode(p)
  {
    EnvelopeRoundTrip(p);
  }

  /** A payload naming another fund fails the assertion, which as written
      escapes as an `AssertionError`. */
  lemma EstimateOtherFund(code: string, text: string, decode: string -> Result<Models.EstimateInfo>)
    requires MatchEnvelope(text).Ok? && decode(MatchEnvelope(text).value).Ok?
    requires decode(MatchEnvelope(text).value).value.fundCode != code
    ensures EstimateFromText(code, text, decode) == Err(AssertionError)
    ensures IntendedEstimate(code, text, decode) == Err(RuntimeError)
  {
  }

  // ---------------------------------------------------------------------
  // The older fetcher of fetcher/fetcher.py

  /** `parse_estimate_api_response_text(text)`: the envelope, then
      `json.loads` (the parameter `loads`). Not wrapped: a mismatch is a
      `ValueError`. */
  function ParseEstimateResponse(text: string, loads: string -> Result<map<string, string>>): (r: Result<map<string, string>>)
    ensures MatchEnvelope(text).Err? ==> r == Err(ValueError)
    ensures MatchEnvelope(text).Ok? ==> r == loads(MatchEnvelope(text).value)
  {
    var payload :- MatchEnvelope(text);
    loads(payload)
  }

  /** `fetch_estimate` of fetcher/fetcher.py from the response text on:
      parse, pack (`pack` stands for `pack_to_FundEstimateInfo`), then
      assert `data["fundcode"] == fund_code`. Being an `async def` under a
      synchronous decorator, it raises each error as itself. */
  function LegacyEstimateFromText(code: string, text: string,
                                  loads: string -> Result<map<string, string>>,
                                  pack: map<string, string> -> Result<LegacyModels.EstimateInfo>): (r: Result<LegacyModels.EstimateInfo>)
    ensures r.Ok? ==> ParseEstimateResponse(text, loads).Ok?
    ensures r.Ok? ==> var data := ParseEstimateResponse(text, loads).value;
      "fundcode" in data && data["fundcode"] == code && pack(data) == r
    ensures ParseEstimateResponse(text, loads).Err? ==> r == Err(ParseEstimateResponse(text, loads).error)
    ensures ParseEstimateResponse(text, loads).Ok? ==> var data := ParseEstimateResponse(text, loads).value;
      && (pack(data).Err? ==> r == pack(data))
      && (pack(data).Ok? && "fundcode" !in data ==> r == Err(KeyError))
      && (pack(data).Ok? && "fundcode" in data && data["fundcode"] != code ==> r == Err(AssertionError))
  {
    var data :- ParseEstimateResponse(text, loads);
    var info :- pack(data);
    if "fundcode" !in data then Err(KeyError)
    else if data["fundcode"] != code then Err(AssertionError)
    else Ok(info)
  }

  /** The older `fetch_estimate` as its decorator evidently means it: the
      same estimate on success and a `RuntimeError` for every failure. */
  function IntendedLegacyEstimate(code: string, text: string,
                                  loads: string -> Result<map<string, string>>,
                                  pack: map<string, string> -> Result<LegacyModels.EstimateInfo>): (r: Result<LegacyModels.EstimateInfo>)
    ensures r.Ok? <==> LegacyEstimateFromText(code, text, loads, pack).Ok?
    ensures r.Ok? ==> r == LegacyEstimateFromText(code, text, loads, pack)
    ensures r.Err? ==> r.error == RuntimeError
  {
    Wrapped(LegacyEstimateFromText(code, text, loads, pack))
  }

  // ---------------------------------------------------------------------
  // Rankings

  /** `\d+`. */
  predicate IsNumeral(s: string) {
    s != [] && AllDigits(s)
  }

  /** The inner `reformat_IARBC` of `fetch_IARBC`: a cell
      `fullmatch(r"(?P<rank>\d+) \| (?P<total>\d+)")` becomes `rank/total`;
      anything else is a `ValueError`. Since a numeral holds no space, the
      rank ends at the first space. */
  function ReformatIARBC(cell: string): Result<string>
  {
    var i := IndexOf(cell, ' ');
    if i + 3 <= |cell| && cell[i..i + 3] == " | " && IsNumeral(cell[..i]) && IsNumeral(cell[i + 3..])
    then Ok(cell[..i] + "/" + cell[i + 3..])
    else Err(ValueError)
  }

  /** Every `R | T` cell of two numerals is reformatted to `R/T`. */
  lemma ReformatAccepts(rank: string, total: string)
    requires IsNumeral(rank) && IsNumeral(total)
    ensures ReformatIARBC(rank + " | " + total) == Ok(rank + "/" + total)
  {
    var cell := rank + " | " + total;
    assert cell[..|rank|] == rank;
    IndexOfAt(cell, ' ', |rank|);
    assert cell[|rank|..|rank| + 3] == " | ";
    assert cell[|rank| + 3..] == total;
  }

  /** Only such cells are accepted: the result holds a single `/`, and
      splitting it there gives back a rank and a total that, joined by
      ` | `, are the cell. */
  lemma ReformatOnlyShape(cell: string)
    requires ReformatIARBC(cell).Ok?
    ensures var v := ReformatIARBC(cell).value;
      var j := IndexOf(v, '/');
      j < |v| && '/' !in v[j + 1..] && IsNumeral(v[..j]) && IsNumeral(v[j + 1..])
      && cell == v[..j] + " | " + v[j + 1..]
  {
    var i := IndexOf(cell, ' ');
    var rank, total := cell[..i], cell[i + 3..];
    var v := rank + "/" + total;
    assert v[..i] == rank && v[i + 1..] == total;
    assert '/' !in rank by {
      forall k | 0 <= k < |rank| ensures rank[k] != '/' {
        assert IsDigit(rank[k]);
      }
    }
    IndexOfAt(v, '/', i);
    assert '/' !in total by {
      forall k | 0 <= k < |total| ensures total[k] != '/' {
        assert IsDigit(total[k]);
      }
    }
    assert cell == rank + cell[i..i + 3] + total;
  }

  /** The eight `同类排名` cells of the ranking table, most recent window
      first, as the HTML parser returns them. */
  datatype RankTable = RankTable(
    week1: string, month1: string, month3: string, month6: string,
    thisYear: string, year1: string, year2: string, year3: string)

  /** The `FundIARBCInfo` built by quickfund's `fetch_IARBC`: every cell
      passes through `reformat_IARBC`, and the first malformed one fails
      the whole fetch with its `ValueError`, which escapes the decorator of
      the `async def`. */
  function IARBCFromTable(cutoff: Date, t: RankTable): (r: Result<Models.IARBCInfo>)
    ensures r.Ok? <==> (ReformatIARBC(t.week1).Ok? && ReformatIARBC(t.month1).Ok?
      && ReformatIARBC(t.month3).Ok? && ReformatIARBC(t.month6).Ok?
      && ReformatIARBC(t.thisYear).Ok? && ReformatIARBC(t.year1).Ok?
      && ReformatIARBC(t.year2).Ok? && ReformatIARBC(t.year3).Ok?)
    ensures r.Err? ==> r.error == ValueError
    ensures r.Ok? ==> r.value.rankDate == cutoff
  {
    var w1 :- ReformatIARBC(t.week1);
    var m1 :- ReformatIARBC(t.month1);
    var m3 :- ReformatIARBC(t.month3);
    var m6 :- ReformatIARBC(t.month6);
    var ty :- ReformatIARBC(t.thisYear);
    var y1 :- ReformatIARBC(t.year1);
    var y2 :- ReformatIARBC(t.year2);
    var y3 :- ReformatIARBC(t.year3);
    Ok(Models.IARBCInfo(cutoff, w1, m1, m3, m6, ty, y1, y2, y3))
  }

  /** `fetch_IARBC` as its decorator evidently means it: a malformed cell
      is a `RuntimeError`. */
  function IntendedIARBC(cutoff: Date, t: RankTable): (r: Result<Models.IARBCInfo>)
    ensures r.Ok? <==> IARBCFromTable(cutoff, t).Ok?
    ensures r.Ok? ==> r == IARBCFromTable(cutoff, t)
    ensures r.Err? ==> r.error == RuntimeError
  {
    Wrapped(IARBCFromTable(cutoff, t))
  }

  /** `pack_to_FundIARBCInfo` of fetcher/fetcher.py: the cells are kept
      verbatim. */
  function PackToIARBCInfo(cutoff: Date, t: RankTable): Models.IARBCInfo
  {
    Models.IARBCInfo(cutoff, t.week1, t.month1, t.month3, t.month6,
                     t.thisYear, t.year1, t.year2, t.year3)
  }

  /** The newer fetcher's ranking is the older one's with every cell
      reformatted: an accepted cell reads `R | T` in the older record and
      `R/T` in the newer one. */
  lemma ReformattedIsPacked(cutoff: Date, t: RankTable)
    requires IARBCFromTable(cutoff, t).Ok?
    ensures var packed := PackToIARBCInfo(cutoff, t);
      var info := IARBCFromTable(cutoff, t).value;
      packed.rankDate == info.rankDate
      && ReformatIARBC(packed.week1) == Ok(info.week1)
      && ReformatIARBC(packed.month1) == Ok(info.month1)
      && ReformatIARBC(packed.month3) == Ok(info.month3)
      && ReformatIARBC(packed.month6) == Ok(info.month6)
      && ReformatIARBC(packed.thisYear) == Ok(info.thisYear)
      && ReformatIARBC(packed.year1) == Ok(info.year1)
      && ReformatIARBC(packed.year2) == Ok(info.year2)
      && ReformatIARBC(packed.year3) == Ok(info.year3)
  {
  }
}
