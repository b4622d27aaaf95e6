/** Reading the list of fund codes from the input file's lines: the
    six-digit check of quickfund/cli.py and quickfund/__main__.py, which
    strips each line first, and the raw-line filter of main.py and
    fetcher/__main__.py, which does not. */
module FundCodes {
  import opened Text

  /** `is_fund_code(s)`: `re.fullmatch(r"[0-9]{6}", s)`. */
  predicate IsFundCode(s: string) {
    |s| == 6 && AllDigits(s)
  }

  /** `fullmatch` rejects five or seven digits and digits with anything
      around them. */
  lemma FundCodeExact(s: string, x: string)
    requires AllDigits(s) && |s| == 6
    ensures IsFundCode(s)
    ensures !IsFundCode(s[..5]) && !IsFundCode(s + "0")
    ensures x != [] ==> !IsFundCode(s + x) && !IsFundCode(x + s)
  {
  }

  /** A fund code has no surrounding whitespace to strip. */
  lemma FundCodeStripped(s: string)
    requires IsFundCode(s)
    ensures Strip(s) == s
  {
    StripUnchanged(s);
  }

  /** `[line.strip() for line in lines if is_fund_code(line.strip())]`,
      written from the last line back. */
  function ExtractFundCodes(lines: seq<string>): (r: seq<string>)
    ensures |r| <= |lines|
    ensures forall k :: 0 <= k < |r| ==> IsFundCode(r[k])
  {
    if lines == [] then []
    else
      var code := Strip(lines[|lines| - 1]);
      ExtractFundCodes(lines[..|lines| - 1]) + (if IsFundCode(code) then [code] else [])
  }

  /** The positions of the lines the extraction keeps. */
  function KeptLines(lines: seq<string>): (idx: seq<nat>)
    ensures |idx| == |ExtractFundCodes(lines)|
    ensures forall k :: 0 <= k < |idx| ==> idx[k] < |lines|
  {
    if lines == [] then []
    else
      var n := |lines| - 1;
      KeptLines(lines[..n]) + (if IsFundCode(Strip(lines[n])) then [n] else [])
  }

  /** Strictly increasing positions. */
  predicate Increasing(idx: seq<nat>) {
    forall k, l :: 0 <= k < l < |idx| ==> idx[k] < idx[l]
  }

  lemma {:induction false} KeptIncreasing(lines: seq<string>)
    ensures Increasing(KeptLines(lines))
  {
    if lines != [] {
      KeptIncreasing(lines[..|lines| - 1]);
    }
  }

  lemma {:induction false} KeptPicks(lines: seq<string>)
    ensures var idx := KeptLines(lines); var r := ExtractFundCodes(lines);
      forall k :: 0 <= k < |idx| ==> r[k] == Strip(lines[idx[k]])
  {
    if lines != [] {
      var init := lines[..|lines| - 1];
      KeptPicks(init);
      assert forall k :: 0 <= k < |KeptLines(init)| ==> lines[KeptLines(init)[k]] == init[KeptLines(init)[k]];
    }
  }

  lemma {:induction false} KeptExactly(lines: seq<string>)
    ensures var idx := KeptLines(lines);
      forall j :: 0 <= j < |lines| ==> (IsFundCode(Strip(lines[j])) <==> j in idx)
  {
    if lines != [] {
      var init := lines[..|lines| - 1];
      KeptExactly(init);
      assert forall j :: 0 <= j < |init| ==> lines[j] == init[j];
    }
  }

  /** The extraction keeps, in input order, the stripped form of exactly
      the lines whose stripped form is a fund code. */
  lemma ExtractionIsOrderedFilter(lines: seq<string>)
    ensures var idx := KeptLines(lines); var r := ExtractFundCodes(lines);
      && Increasing(idx)
      && (forall k :: 0 <= k < |idx| ==> r[k] == Strip(lines[idx[k]]))
      && (forall j :: 0 <= j < |lines| ==> (IsFundCode(Strip(lines[j])) <==> j in idx))
  {
    KeptIncreasing(lines);
    KeptPicks(lines);
    KeptExactly(lines);
  }

  /** Extraction distributes over splitting the lines. */
  lemma {:induction false} ExtractConcat(xs: seq<string>, ys: seq<string>)
    ensures ExtractFundCodes(xs + ys) == ExtractFundCodes(xs) + ExtractFundCodes(ys)
  {
    if ys == [] {
      assert xs + ys == xs;
    } else {
      var init := ys[..|ys| - 1];
      var code := Strip(ys[|ys| - 1]);
      var tail := if IsFundCode(code) then [code] else [];
      assert (xs + ys)[..|xs + ys| - 1] == xs + init && (xs + ys)[|xs + ys| - 1] == ys[|ys| - 1];
      ExtractConcat(xs, init);
      assert ExtractFundCodes(xs + ys) == (ExtractFundCodes(xs) + ExtractFundCodes(init)) + tail;
    }
  }

  /** A line holding a fund code between whitespace is read as that code. */
  lemma SurroundedCode(w1: string, code: string, w2: string)
    requires IsFundCode(code)
    requires forall i :: 0 <= i < |w1| ==> IsSpace(w1[i])
    requires forall i :: 0 <= i < |w2| ==> IsSpace(w2[i])
    ensures ExtractFundCodes([w1 + code + w2]) == [code]
  {
    var s := w1 + code + w2;
    LeadingSpaceOf(w1, code + w2);
    assert s == w1 + (code + w2);
    assert StripLeft(s) == code + w2;
    TrailingStartOf(code, w2);
    assert Strip(s) == code;
  }

  lemma {:induction false} LeadingSpaceOf(w: string, t: string)
    requires forall i :: 0 <= i < |w| ==> IsSpace(w[i])
    requires t != [] && !IsSpace(t[0])
    ensures LeadingSpace(w + t) == |w|
    decreases |w|
  {
    if w != [] {
      assert (w + t)[1..] == w[1..] + t;
      LeadingSpaceOf(w[1..], t);
    }
  }

  lemma {:induction false} TrailingStartOf(t: string, w: string)
    requires forall i :: 0 <= i < |w| ==> IsSpace(w[i])
    requires t != [] && !IsSpace(t[|t| - 1])
    ensures TrailingStart(t + w) == |t|
    decreases |w|
  {
    if w != [] {
      var w' := w[..|w| - 1];
      assert (t + w)[..|t + w| - 1] == t + w';
      TrailingStartOf(t, w');
    } else {
      assert t + w == t;
    }
  }

  /** What the command does with the extracted codes: exit when there are
      none, otherwise go on to fetch them. */
  datatype Outcome = NoFundCodes | Proceed(codes: seq<string>)

  /** quickfund/cli.py and quickfund/__main__.py: the codes of the input
      text, or an exit before any fetch when no line holds one. */
  function CliFundCodes(text: string): (o: Outcome)
    ensures o.NoFundCodes? <==> forall line :: line in SplitLines(text) ==> !IsFundCode(Strip(line))
    ensures o.Proceed? ==> o.codes != [] && forall k :: 0 <= k < |o.codes| ==> IsFundCode(o.codes[k])
  {
    var codes := ExtractFundCodes(SplitLines(text));
    ExtractionIsOrderedFilter(SplitLines(text));
    if codes == [] then
      NoFundCodes
    else
      assert IsFundCode(Strip(SplitLines(text)[KeptLines(SplitLines(text))[0]]));
      Proceed(codes)
  }

  /** `[code for code in lines if re.fullmatch(r"\d{6}", code)]` of main.py
      and fetcher/__main__.py: the lines themselves, unstripped. */
  function RawFundCodes(lines: seq<string>): (r: seq<string>)
    ensures |r| <= |lines|
    ensures forall k :: 0 <= k < |r| ==> IsFundCode(r[k])
    ensures forall x :: x in r <==> x in lines && IsFundCode(x)
  {
    if lines == [] then []
    else
      var init := lines[..|lines| - 1];
      var line := lines[|lines| - 1];
      assert lines == init + [line];
      RawFundCodes(init) + (if IsFundCode(line) then [line] else [])
  }

  /** The positions of the lines the raw filter keeps. */
  function RawKeptLines(lines: seq<string>): (idx: seq<nat>)
    ensures |idx| == |RawFundCodes(lines)|
    ensures forall k :: 0 <= k < |idx| ==> idx[k] < |lines|
  {
    if lines == [] then []
    else
      var n := |lines| - 1;
      RawKeptLines(lines[..n]) + (if IsFundCode(lines[n]) then [n] else [])
  }

  lemma {:induction false} RawKeptIncreasing(lines: seq<string>)
    ensures Increasing(RawKeptLines(lines))
  {
    if lines != [] {
      RawKeptIncreasing(lines[..|lines| - 1]);
    }
  }

  lemma {:induction false} RawKeptPicks(lines: seq<string>)
    ensures var idx := RawKeptLines(lines); var r := RawFundCodes(lines);
      forall k :: 0 <= k < |idx| ==> r[k] == lines[idx[k]]
  {
    if lines != [] {
      var n := |lines| - 1;
      var init := lines[..n];
      RawKeptPicks(init);
      forall k | 0 <= k < |RawKeptLines(lines)|
        ensures RawFundCodes(lines)[k] == lines[RawKeptLines(lines)[k]]
      {
        if k < |RawKeptLines(init)| {
          assert RawFundCodes(init)[k] == init[RawKeptLines(init)[k]];
        }
      }
    }
  }

  lemma {:induction false} RawKeptExactly(lines: seq<string>)
    ensures var idx := RawKeptLines(lines);
      forall j :: 0 <= j < |lines| ==> (IsFundCode(lines[j]) <==> j in idx)
  {
    if lines != [] {
      var n := |lines| - 1;
      var init := lines[..n];
      RawKeptExactly(init);
      var idx0 := RawKeptLines(init);
      var idx := RawKeptLines(lines);
      assert idx == idx0 + (if IsFundCode(lines[n]) then [n] else []);
      forall j | 0 <= j < |lines|
        ensures IsFundCode(lines[j]) <==> j in idx
      {
        assert j in idx <==> j in idx0 || (IsFundCode(lines[n]) && j == n);
        if j < n {
          assert lines[j] == init[j];
          assert IsFundCode(init[j]) <==> j in idx0;
        } else {
          assert j !in idx0;
        }
      }
    }
  }

  /** The raw filter keeps, in input order and with their repeats, exactly
      the lines that are fund codes as they stand. */
  lemma RawIsOrderedFilter(lines: seq<string>)
    ensures var idx := RawKeptLines(lines); var r := RawFundCodes(lines);
      && Increasing(idx)
      && (forall k :: 0 <= k < |idx| ==> r[k] == lines[idx[k]])
      && (forall j :: 0 <= j < |lines| ==> (IsFundCode(lines[j]) <==> j in idx))
  {
    RawKeptIncreasing(lines);
    RawKeptPicks(lines);
    RawKeptExactly(lines);
  }

  /** The raw filter never keeps more than the stripping one: every code it
      keeps the stripping one keeps too, and on lines with nothing to strip
      the two agree. */
  lemma {:induction false} RawWithinStripped(lines: seq<string>)
    ensures forall x :: x in RawFundCodes(lines) ==> x in ExtractFundCodes(lines)
    ensures (forall k :: 0 <= k < |lines| ==> Strip(lines[k]) == lines[k]) ==>
      RawFundCodes(lines) == ExtractFundCodes(lines)
  {
    if lines != [] {
      var init := lines[..|lines| - 1];
      var line := lines[|lines| - 1];
      RawWithinStripped(init);
      if IsFundCode(line) {
        FundCodeStripped(line);
      }
      if forall k :: 0 <= k < |lines| ==> Strip(lines[k]) == lines[k] {
        assert forall k :: 0 <= k < |init| ==> init[k] == lines[k];
        assert Strip(line) == line;
      }
    }
  }

  /** fetcher/__main__.py: exit when no line is a code, otherwise fetch the
      lines that are. */
  function FetcherFundCodes(text: string): (o: Outcome)
    ensures o.NoFundCodes? <==> forall line :: line in SplitLines(text) ==> !IsFundCode(line)
    ensures o.Proceed? ==> o.codes == RawFundCodes(SplitLines(text)) && o.codes != []
  {
    var codes := RawFundCodes(SplitLines(text));
    if codes == [] then NoFundCodes else (assert codes[0] in codes; Proceed(codes))
  }

  /** A line padded with a space is a code for the command-line tools but
      not for the older script. */
  lemma PaddedLineDiffers(code: string)
    requires IsFundCode(code)
    ensures ExtractFundCodes([" " + code]) == [code]
    ensures RawFundCodes([" " + code]) == []
  {
    SurroundedCode(" ", code, "");
    assert " " + code + "" == " " + code;
    assert !IsFundCode(" " + code);
  }
}
