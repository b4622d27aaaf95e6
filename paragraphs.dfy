/** Paragraph splitting of quickfund/utils/misc.py, quickfund/utils.py
    and fetcher/utils.py, the tracebacks digested from the paragraphs,
    and the numbering and indenting of a digest.

    Line breaks are `\n` only. */
module Paragraphs {
  import opened Base
  import opened Text

  // ---------------------------------------------------------------------
  // Splitting at runs of two or more newlines

  /** `p` holds no two newlines in a row. */
  predicate NoDoubleNewline(p: string) {
    forall i :: 0 <= i < |p| - 1 ==> p[i] != '\n' || p[i + 1] != '\n'
  }

  /** `s` holds no three newlines in a row. */
  predicate NoTripleNewline(s: string) {
    forall i :: 0 <= i < |s| - 2 ==> s[i] != '\n' || s[i + 1] != '\n' || s[i + 2] != '\n'
  }

  /** `s` ends with two newlines. */
  predicate EndsWithSeparator(s: string) {
    |s| >= 2 && s[|s| - 2] == '\n' && s[|s| - 1] == '\n'
  }

  /** The number of newlines `s` starts with. */
  function NewlineRun(s: string): (n: nat)
    ensures n <= |s|
    ensures forall i :: 0 <= i < n ==> s[i] == '\n'
    ensures n < |s| ==> s[n] != '\n'
  {
    if s == [] || s[0] != '\n' then 0 else 1 + NewlineRun(s[1..])
  }

  /** `regex.split(r"\n{2,}", s)`: the pieces between maximal runs of two
      or more newlines. A single newline stays inside its paragraph. */
  function SplitRuns(s: string): (r: seq<string>)
    ensures |r| >= 1
    ensures forall k :: 0 <= k < |r| ==> NoDoubleNewline(r[k])
    ensures |r| == 1 ==> r[0] == s
    ensures |s| < 2 ==> |r| == 1
    ensures s != [] && s[0] != '\n' ==> r[0] != [] && r[0][0] == s[0]
    ensures forall k :: 1 <= k < |r| - 1 ==> r[k] != []
    decreases |s|
  {
    if s == [] then [[]]
    else if |s| >= 2 && s[0] == '\n' && s[1] == '\n' then [[]] + SplitRuns(s[NewlineRun(s)..])
    else
      var rest := SplitRuns(s[1..]);
      [[s[0]] + rest[0]] + rest[1..]
  }

  /** `sep.join` of a sequence with a first element is that element, then
      the separator and the join of the rest. */
  lemma JoinCons(sep: string, x: string, xs: seq<string>)
    ensures Join(sep, [x] + xs) == if xs == [] then x else x + sep + Join(sep, xs)
  {
    assert ([x] + xs)[1..] == xs;
  }

  lemma JoinSnoc(sep: string, xs: seq<string>, y: string)
    requires xs != []
    ensures Join(sep, xs + [y]) == Join(sep, xs) + sep + y
    decreases |xs|
  {
    if |xs| == 1 {
      JoinCons(sep, xs[0], [y]);
      JoinSingleton(sep, y);
    } else {
      JoinCons(sep, xs[0], xs[1..] + [y]);
      assert [xs[0]] + (xs[1..] + [y]) == xs + [y];
      JoinSnoc(sep, xs[1..], y);
      JoinCons(sep, xs[0], xs[1..]);
      assert [xs[0]] + xs[1..] == xs;
    }
  }

  /** Putting text before the first piece puts it before the join. */
  lemma JoinPrepend(sep: string, c: string, x: string, xs: seq<string>)
    ensures Join(sep, [c + x] + xs) == c + Join(sep, [x] + xs)
  {
    JoinCons(sep, c + x, xs);
    JoinCons(sep, x, xs);
  }

  /** Joining the paragraphs with a blank line gives the text back
      whenever it has no run of three or more newlines. */
  lemma {:induction false} JoinSplitRuns(s: string)
    requires NoTripleNewline(s)
    ensures Join("\n\n", SplitRuns(s)) == s
    decreases |s|
  {
    if s == [] {
    } else if |s| >= 2 && s[0] == '\n' && s[1] == '\n' {
      var n := NewlineRun(s);
      assert n == 2 by {
        if |s| > 2 {
          assert s[2] != '\n';
        }
      }
      var t := s[2..];
      assert NoTripleNewline(t) by {
        forall i | 0 <= i < |t| - 2 ensures t[i] != '\n' || t[i + 1] != '\n' || t[i + 2] != '\n' {
          assert t[i] == s[i + 2] && t[i + 1] == s[i + 3] && t[i + 2] == s[i + 4];
        }
      }
      JoinSplitRuns(t);
      JoinCons("\n\n", [], SplitRuns(t));
      assert SplitRuns(t) != [];
      assert s == "\n\n" + t;
    } else {
      var t := s[1..];
      assert NoTripleNewline(t) by {
        forall i | 0 <= i < |t| - 2 ensures t[i] != '\n' || t[i + 1] != '\n' || t[i + 2] != '\n' {
          assert t[i] == s[i + 1] && t[i + 1] == s[i + 2] && t[i + 2] == s[i + 3];
        }
      }
      JoinSplitRuns(t);
      var rest := SplitRuns(t);
      JoinPrepend("\n\n", [s[0]], rest[0], rest[1..]);
      assert [rest[0]] + rest[1..] == rest;
      assert [s[0]] + t == s;
    }
  }

  /** The last paragraph of `s` is an extra empty one exactly when `s`
      ends with a paragraph boundary. */
  predicate LastEmptyAtBoundary(s: string) {
    var r := SplitRuns(s);
    (|r| > 1 && r[|r| - 1] == []) <==> EndsWithSeparator(s)
  }

  /** The last paragraph is an extra empty one exactly when the text ends
      with a paragraph boundary. */
  lemma {:induction false} SplitRunsLastEmpty(s: string)
    ensures LastEmptyAtBoundary(s)
    decreases |s|
  {
    if s == [] {
    } else if |s| >= 2 && s[0] == '\n' && s[1] == '\n' {
      SplitRunsLastEmpty(s[NewlineRun(s)..]);
      LastEmptyAfterRun(s);
    } else {
      SplitRunsLastEmpty(s[1..]);
      LastEmptyAfterChar(s);
    }
  }

  lemma LastEmptyAfterRun(s: string)
    requires |s| >= 2 && s[0] == '\n' && s[1] == '\n'
    requires LastEmptyAtBoundary(s[NewlineRun(s)..])
    ensures LastEmptyAtBoundary(s)
  {
    var t := s[NewlineRun(s)..];
    assert SplitRuns(s) == [[]] + SplitRuns(t);
    if t != [] {
      assert s[|s| - 1] == t[|t| - 1];
      if |t| >= 2 {
        assert s[|s| - 2] == t[|t| - 2];
      }
    }
  }

  lemma LastEmptyAfterChar(s: string)
    requires s != [] && !(|s| >= 2 && s[0] == '\n' && s[1] == '\n')
    requires LastEmptyAtBoundary(s[1..])
    ensures LastEmptyAtBoundary(s)
  {
    var t := s[1..];
    var rest := SplitRuns(t);
    var r := SplitRuns(s);
    assert r == [[s[0]] + rest[0]] + rest[1..];
    if |rest| == 1 {
      assert r[0] == s && NoDoubleNewline(s);
      if |s| >= 2 {
        assert s[|s| - 2] != '\n' || s[|s| - 1] != '\n';
      }
    } else {
      assert |t| >= 2;
      assert s[|s| - 1] == t[|t| - 1] && s[|s| - 2] == t[|t| - 2];
    }
  }

  /** `split_paragraphs` of quickfund/utils.py. */
  function PlainSplitParagraphs(text: string): (r: seq<string>)
    ensures |r| >= 1
    ensures forall k :: 0 <= k < |r| ==> NoDoubleNewline(r[k])
    ensures text == [] ==> r == [[]]
  {
    SplitRuns(text)
  }

  /** quickfund/utils.py: a trailing boundary leaves a trailing empty
      paragraph, and the split is undone by joining with a blank line. */
  lemma PlainSplitProperties(text: string)
    ensures var r := PlainSplitParagraphs(text);
      EndsWithSeparator(text) ==> |r| > 1 && r[|r| - 1] == []
    ensures NoTripleNewline(text) ==> Join("\n\n", PlainSplitParagraphs(text)) == text
  {
    SplitRunsLastEmpty(text);
    if NoTripleNewline(text) {
      JoinSplitRuns(text);
    }
  }

  /** `split_paragraphs` of quickfund/utils/misc.py: nothing for the empty
      text, and no extra empty paragraph for a trailing boundary. */
  function MiscSplitParagraphs(text: string): (r: seq<string>)
    ensures text == [] <==> r == []
    ensures forall k :: 0 <= k < |r| ==> NoDoubleNewline(r[k])
    ensures |r| > 1 ==> r[|r| - 1] != []
  {
    if text == [] then []
    else
      var paras := SplitRuns(text);
      if |paras| > 1 && paras[|paras| - 1] == [] then paras[..|paras| - 1] else paras
  }

  /** quickfund/utils/misc.py: joining with a blank line gives the text
      back, short of the trailing boundary that was dropped. */
  lemma MiscSplitJoin(text: string)
    requires NoTripleNewline(text)
    ensures var r := MiscSplitParagraphs(text);
      Join("\n\n", r) + (if EndsWithSeparator(text) then "\n\n" else "") == text
  {
    if text != [] {
      var paras := SplitRuns(text);
      JoinSplitRuns(text);
      SplitRunsLastEmpty(text);
      if EndsWithSeparator(text) {
        var init := paras[..|paras| - 1];
        JoinSnoc("\n\n", init, []);
        assert init + [[]] == paras;
      }
    }
  }

  // ---------------------------------------------------------------------
  // Splitting at empty lines

  /** The number of empty lines. */
  function EmptyLines(lines: seq<string>): nat
  {
    if lines == [] then 0 else (if lines[0] == [] then 1 else 0) + EmptyLines(lines[1..])
  }

  /** `split_at(lines, lambda line: line == "")`: the runs of lines between
      the empty ones, which are dropped; always one more run than there are
      empty lines. */
  function SplitAtEmpty(lines: seq<string>): (r: seq<seq<string>>)
    ensures |r| == EmptyLines(lines) + 1
    ensures forall k, j :: 0 <= k < |r| && 0 <= j < |r[k]| ==> r[k][j] != [] && r[k][j] in lines
  {
    if lines == [] then [[]]
    else
      var rest := SplitAtEmpty(lines[1..]);
      if lines[0] == [] then [[]] + rest
      else [[lines[0]] + rest[0]] + rest[1..]
  }

  /** The runs put back together, an empty line between two runs. */
  function Unsplit(runs: seq<seq<string>>): seq<string>
  {
    if runs == [] then []
    else if |runs| == 1 then runs[0]
    else runs[0] + [[]] + Unsplit(runs[1..])
  }

  /** `split_at` loses nothing: putting the runs back gives the lines. */
  lemma {:induction false} UnsplitSplitAtEmpty(lines: seq<string>)
    ensures Unsplit(SplitAtEmpty(lines)) == lines
  {
    if lines != [] {
      var rest := SplitAtEmpty(lines[1..]);
      UnsplitSplitAtEmpty(lines[1..]);
      if lines[0] == [] {
        assert ([[]] + rest)[1..] == rest;
      } else {
        var r := [[lines[0]] + rest[0]] + rest[1..];
        if |rest| == 1 {
          assert r == [[lines[0]] + rest[0]];
        } else {
          assert r[1..] == rest[1..];
          assert Unsplit(rest) == rest[0] + [[]] + Unsplit(rest[1..]);
        }
        assert [lines[0]] + lines[1..] == lines;
      }
    }
  }

  /** Lines without newlines, none of them empty, joined with single
      newlines hold no two newlines in a row. */
  lemma {:induction false} JoinLinesNoDouble(xs: seq<string>)
    requires forall k :: 0 <= k < |xs| ==> xs[k] != [] && '\n' !in xs[k]
    ensures NoDoubleNewline(Join("\n", xs))
    ensures xs != [] ==> Join("\n", xs) != [] && Join("\n", xs)[0] == xs[0][0]
  {
    if |xs| > 1 {
      JoinLinesNoDouble(xs[1..]);
      var a := xs[0];
      var b := Join("\n", xs[1..]);
      var j := a + "\n" + b;
      forall i | 0 <= i < |j| - 1 ensures j[i] != '\n' || j[i + 1] != '\n' {
        if i < |a| {
          assert j[i] == a[i];
        } else if i > |a| {
          assert j[i] == b[i - |a| - 1] && j[i + 1] == b[i - |a|];
        } else {
          assert j[i + 1] == b[0] == xs[1][0];
          assert xs[1][0] in xs[1];
        }
      }
    }
  }

  /** `split_paragraphs` of fetcher/utils.py: each run of non-empty lines
      joined with newlines. */
  function FetcherSplitParagraphs(s: string): (r: seq<string>)
    ensures var runs := SplitAtEmpty(SplitLines(s));
      |r| == |runs| && forall k :: 0 <= k < |r| ==> r[k] == Join("\n", runs[k])
  {
    var runs := SplitAtEmpty(SplitLines(s));
    seq(|runs|, k requires 0 <= k < |runs| => Join("\n", runs[k]))
  }

  /** fetcher/utils.py: one more paragraph than there are empty lines, and
      no paragraph holds two newlines in a row. */
  lemma FetcherSplitProperties(s: string)
    ensures |FetcherSplitParagraphs(s)| == EmptyLines(SplitLines(s)) + 1
    ensures var r := FetcherSplitParagraphs(s);
      forall k :: 0 <= k < |r| ==> NoDoubleNewline(r[k])
  {
    var runs := SplitAtEmpty(SplitLines(s));
    var r := FetcherSplitParagraphs(s);
    forall k | 0 <= k < |r| ensures NoDoubleNewline(r[k]) {
      JoinLinesNoDouble(runs[k]);
    }
  }

  // ---------------------------------------------------------------------
  // Succinct tracebacks

  /** The last element of a `\n`-join ends the joined text, after a
      newline unless it is the only element. */
  lemma JoinLastShape(xs: seq<string>)
    requires |xs| >= 1
    ensures var j := Join("\n", xs); var l := xs[|xs| - 1];
      |l| <= |j| && j[|j| - |l|..] == l
      && (|xs| == 1 ==> |l| == |j|)
      && (|xs| > 1 ==> |l| < |j| && j[|j| - |l| - 1] == '\n')
  {
    if |xs| > 1 {
      var init := xs[..|xs| - 1];
      JoinSnoc("\n", init, xs[|xs| - 1]);
      assert init + [xs[|xs| - 1]] == xs;
    }
  }

  /** `pg.splitlines()[-1]`: the last line of the paragraph, an
      `IndexError` for the empty paragraph. */
  function LastLine(pg: string): (r: Result<string>)
    ensures r.Ok? <==> pg != []
    ensures r.Err? ==> r.error == IndexError
    ensures r.Ok? ==> '\n' !in r.value
  {
    if pg == [] then Err(IndexError)
    else
      var ls := SplitLines(pg);
      Ok(ls[|ls| - 1])
  }

  /** The last line is the end of the paragraph, less a final newline, and
      starts the paragraph or follows a newline. */
  lemma LastLineIsTail(pg: string)
    requires LastLine(pg).Ok?
    ensures var l := LastLine(pg).value;
      var body := if pg[|pg| - 1] == '\n' then pg[..|pg| - 1] else pg;
      |l| <= |body| && body[|body| - |l|..] == l
      && (|l| < |body| ==> body[|body| - |l| - 1] == '\n')
  {
    LastLineShape(pg);
  }

  lemma LastLineShape(pg: string)
    requires pg != []
    ensures var ls := SplitLines(pg); var l := ls[|ls| - 1];
      var body := if pg[|pg| - 1] == '\n' then pg[..|pg| - 1] else pg;
      |l| <= |body| && body[|body| - |l|..] == l
      && (|l| < |body| ==> body[|body| - |l| - 1] == '\n')
  {
    JoinSplit(pg, '\n');
    SplitOnLastEmpty(pg, '\n');
    if pg[|pg| - 1] == '\n' {
      LastLineShapeBreak(pg);
    } else {
      JoinLastShape(SplitOn(pg, '\n'));
    }
  }

  /** A paragraph ending with a newline: its lines are the pieces before
      the final empty one. */
  lemma LastLineShapeBreak(pg: string)
    requires pg != [] && pg[|pg| - 1] == '\n'
    requires Join("\n", SplitOn(pg, '\n')) == pg
    requires var parts := SplitOn(pg, '\n'); |parts| >= 2 && parts[|parts| - 1] == []
    ensures var ls := SplitLines(pg); var l := ls[|ls| - 1];
      var body := pg[..|pg| - 1];
      |l| <= |body| && body[|body| - |l|..] == l
      && (|l| < |body| ==> body[|body| - |l| - 1] == '\n')
  {
    var parts := SplitOn(pg, '\n');
    var init := parts[..|parts| - 1];
    assert SplitLines(pg) == init;
    JoinSnoc("\n", init, []);
    assert init + [[]] == parts;
    assert pg[..|pg| - 1] == Join("\n", init);
    JoinLastShape(init);
  }

  /** No paragraph is empty. */
  predicate AllNonEmpty(paras: seq<string>) {
    forall k :: 0 <= k < |paras| ==> paras[k] != []
  }

  /** The last line of every paragraph, in order; an `IndexError` when a
      paragraph is empty. */
  function LastLines(paras: seq<string>): (r: Result<seq<string>>)
    ensures r.Ok? <==> AllNonEmpty(paras)
    ensures r.Ok? ==> |r.value| == |paras|
    ensures r.Ok? ==> forall k :: 0 <= k < |paras| ==> LastLine(paras[k]) == Ok(r.value[k])
    ensures r.Err? ==> r.error == IndexError
  {
    if paras == [] then Ok([])
    else
      var h :- LastLine(paras[0]);
      var t :- LastLines(paras[1..]);
      Ok([h] + t)
  }

  /** `"\n".join(pg.splitlines()[-1] for pg in paras)`. */
  function Digest(paras: seq<string>): Result<string>
  {
    var lines :- LastLines(paras);
    Ok(Join("\n", lines))
  }

  /** The digest has one line per paragraph, that paragraph's last line,
      unless the last of them is blank and so not a line of its own. */
  lemma DigestLines(paras: seq<string>)
    requires LastLines(paras).Ok? && paras != []
    requires LastLines(paras).value[|paras| - 1] != []
    ensures Digest(paras).Ok?
    ensures SplitLines(Digest(paras).value) == LastLines(paras).value
  {
    var lines := LastLines(paras).value;
    forall k | 0 <= k < |lines|
      ensures '\n' !in lines[k]
    {
      assert LastLine(paras[k]) == Ok(lines[k]);
    }
    SplitLinesJoin(lines);
  }

  /** `retrieve_succinct_traceback` of quickfund/utils/misc.py, on the
      traceback text `tb`. */
  function MiscSuccinctTraceback(tb: string): Result<string>
  {
    Digest(MiscSplitParagraphs(tb))
  }

  /** `retrieve_succinct_traceback` of quickfund/utils.py. */
  function PlainSuccinctTraceback(tb: string): Result<string>
  {
    Digest(PlainSplitParagraphs(tb))
  }

  /** `retrieve_succinct_traceback(tb)` of fetcher/utils.py. */
  function FetcherSuccinctTraceback(tb: string): Result<string>
  {
    Digest(FetcherSplitParagraphs(tb))
  }

  /** The empty traceback digests to nothing under quickfund/utils/misc.py,
      and raises `IndexError` under the other two, whose split yields one
      empty paragraph. */
  lemma EmptyTraceback()
    ensures MiscSuccinctTraceback("") == Ok("")
    ensures PlainSuccinctTraceback("") == Err(IndexError)
    ensures FetcherSuccinctTraceback("") == Err(IndexError)
  {
    assert SplitLines("") == [];
    assert FetcherSplitParagraphs("") == [""];
  }

  /** Paragraphs whose middle and last ones are non-empty: if one is
      empty, it is the first. */
  lemma OnlyFirstEmpty(r: seq<string>)
    requires r != [] && !AllNonEmpty(r)
    requires forall k :: 1 <= k < |r| - 1 ==> r[k] != []
    requires |r| > 1 ==> r[|r| - 1] != []
    ensures r[0] == []
  {
  }

  /** quickfund/utils/misc.py: the digest fails exactly when a paragraph
      is empty, and only the first can be: the text starts with a
      boundary. */
  lemma MiscTracebackFails(tb: string)
    ensures MiscSuccinctTraceback(tb).Err? <==> !AllNonEmpty(MiscSplitParagraphs(tb))
    ensures MiscSuccinctTraceback(tb).Err? ==> tb != [] && MiscSplitParagraphs(tb)[0] == []
  {
    var r := MiscSplitParagraphs(tb);
    if tb != [] && !AllNonEmpty(r) {
      var paras := SplitRuns(tb);
      assert forall k :: 1 <= k < |r| - 1 ==> r[k] == paras[k];
      OnlyFirstEmpty(r);
    }
  }

  /** quickfund/utils.py: the digest fails only for the empty text or a
      text that starts or ends with a boundary. */
  lemma PlainTracebackFails(tb: string)
    ensures PlainSuccinctTraceback(tb).Err? <==> !AllNonEmpty(PlainSplitParagraphs(tb))
    ensures PlainSuccinctTraceback(tb).Err? ==>
      tb == [] || PlainSplitParagraphs(tb)[0] == [] || EndsWithSeparator(tb)
  {
    var r := SplitRuns(tb);
    SplitRunsLastEmpty(tb);
    if !AllNonEmpty(r) && tb != [] && !EndsWithSeparator(tb) {
      OnlyFirstEmpty(r);
    }
  }

  /** A run of non-empty lines joins to an empty paragraph only when the
      run is empty; otherwise the paragraph's last line is the run's. */
  lemma RunParagraph(run: seq<string>)
    requires forall j :: 0 <= j < |run| ==> run[j] != [] && '\n' !in run[j]
    ensures Join("\n", run) == [] <==> run == []
    ensures run != [] ==> LastLine(Join("\n", run)) == Ok(run[|run| - 1])
  {
    if run != [] {
      JoinEmpty(run, "\n");
      SplitLinesJoin(run);
    }
  }

  /** fetcher/utils.py: line `k` of the digest is the last line of the
      `k`-th run of non-empty lines, and the digest raises `IndexError`
      exactly when a run is empty: an empty line first or last, two in a
      row, or no line at all. */
  lemma FetcherTracebackLines(tb: string)
    ensures LastLines(FetcherSplitParagraphs(tb)).Ok? <==> NoEmptyRun(SplitAtEmpty(SplitLines(tb)))
    ensures var runs := SplitAtEmpty(SplitLines(tb));
      var r := LastLines(FetcherSplitParagraphs(tb));
      r.Ok? ==> forall k :: 0 <= k < |runs| ==> r.value[k] == runs[k][|runs[k]| - 1]
  {
    var lines := SplitLines(tb);
    var runs := SplitAtEmpty(lines);
    assert forall k, j :: 0 <= k < |runs| && 0 <= j < |runs[k]| ==> runs[k][j] != [] && '\n' !in runs[k][j] by {
      forall k, j | 0 <= k < |runs| && 0 <= j < |runs[k]| ensures runs[k][j] != [] && '\n' !in runs[k][j] {
        var x := runs[k][j];
        assert x in lines;
      }
    }
    RunsDigest(runs, FetcherSplitParagraphs(tb));
  }

  predicate NoEmptyRun(runs: seq<seq<string>>) {
    forall k :: 0 <= k < |runs| ==> runs[k] != []
  }

  /** The last lines of paragraphs made of runs of non-empty lines. */
  lemma RunsDigest(runs: seq<seq<string>>, paras: seq<string>)
    requires |paras| == |runs|
    requires forall k :: 0 <= k < |runs| ==> paras[k] == Join("\n", runs[k])
    requires forall k, j :: 0 <= k < |runs| && 0 <= j < |runs[k]| ==> runs[k][j] != [] && '\n' !in runs[k][j]
    ensures LastLines(paras).Ok? <==> NoEmptyRun(runs)
    ensures LastLines(paras).Ok? ==> forall k :: 0 <= k < |runs| ==> LastLines(paras).value[k] == runs[k][|runs[k]| - 1]
  {
    forall k | 0 <= k < |runs|
      ensures paras[k] == [] <==> runs[k] == []
      ensures runs[k] != [] ==> LastLine(paras[k]) == Ok(runs[k][|runs[k]| - 1])
    {
      RunParagraph(runs[k]);
    }
    assert AllNonEmpty(paras) <==> NoEmptyRun(runs);
  }

  // ---------------------------------------------------------------------
  // Localisation

  /** A translation table: replacements in table order. */
  type Table = seq<(string, string)>

  /** The `zh_CN` entry of `localization_table`. */
  const ZhCnTable: Table := [
    ("During handling of the above exception, another exception occurred:", "在处理以上所述的错误时，发生了如下的另一个错误:"),
    ("The above exception was the direct cause of the following exception:", "以上所述的错误直接引发了以下错误:"),
    ("PermissionError", "权限错误"),
    ("RuntimeError", "运行时错误"),
    ("KeyboardInterrupt", "来自键盘的中断信号"),
    ("Server Error", "服务器错误")
  ]

  /** `translation_dict` for the detected locale `localLang`: an unknown or
      missing locale falls back to `en_US`, and English needs no table. */
  function TranslationTable(localLang: Option<string>): (t: Table)
    ensures t != [] <==> localLang == Some("zh_CN")
    ensures t != [] ==> t == ZhCnTable
  {
    var lang := if localLang.None? || localLang.value == "" || localLang.value != "zh_CN" then "en_US" else localLang.value;
    assert "en_US"[..2] == "en" && "zh_CN"[..2][0] == 'z' && "en"[0] == 'e';
    if |lang| >= 2 && lang[..2] == "en" then [] else ZhCnTable
  }

  /** `localize(s)`: each entry's `str.replace` in table order. */
  function LocalizeWith(s: string, table: Table): string
  {
    if table == [] then s
    else
      var (src, dst) := table[|table| - 1];
      ReplaceAll(LocalizeWith(s, table[..|table| - 1]), src, dst)
  }

  /** The loop of `localize`. */
  method Localize(s: string, table: Table) returns (r: string)
    ensures r == LocalizeWith(s, table)
    ensures table == [] ==> r == s
  {
    r := s;
    for i := 0 to |table|
      invariant r == LocalizeWith(s, table[..i])
    {
      assert table[..i + 1][..i] == table[..i];
      var (src, dst) := table[i];
      r := ReplaceAll(r, src, dst);
    }
    assert table[..|table|] == table;
  }

  /** Localising with two tables in a row is localising with their
      concatenation: the order of the entries is the order of the
      replacements. */
  lemma {:induction false} LocalizeConcat(s: string, t1: Table, t2: Table)
    ensures LocalizeWith(LocalizeWith(s, t1), t2) == LocalizeWith(s, t1 + t2)
    decreases |t2|
  {
    if t2 == [] {
      assert t1 + t2 == t1;
    } else {
      LocalizeConcat(s, t1, t2[..|t2| - 1]);
      assert (t1 + t2)[..|t1 + t2| - 1] == t1 + t2[..|t2| - 1];
    }
  }

  /** A text holding none of the table's (non-empty) source strings is left
      alone. */
  lemma {:induction false} LocalizeAbsent(s: string, table: Table)
    requires forall k :: 0 <= k < |table| ==> table[k].0 != []
    requires forall k, i :: 0 <= k < |table| && 0 <= i <= |s| ==> !OccursAt(s, table[k].0, i)
    ensures LocalizeWith(s, table) == s
    decreases |table|
  {
    if table != [] {
      var init := table[..|table| - 1];
      LocalizeAbsent(s, init);
      ReplaceAbsent(s, table[|table| - 1].0, table[|table| - 1].1);
    }
  }

  /** Outside the `zh_CN` locale, `localize` is the identity. */
  lemma LocalizeOtherLocale(s: string, localLang: Option<string>)
    requires localLang != Some("zh_CN")
    ensures LocalizeWith(s, TranslationTable(localLang)) == s
  {
  }

  // ---------------------------------------------------------------------
  // Numbering and indenting the digest

  /** The lines, each prefixed with its number from 1 and `". "`. */
  function Numbered(lines: seq<string>): (r: seq<string>)
    ensures |r| == |lines|
    ensures forall k :: 0 <= k < |lines| ==> r[k] == NatToString(k + 1) + ". " + lines[k]
  {
    if lines == [] then []
    else Numbered(lines[..|lines| - 1]) + [NatToString(|lines|) + ". " + lines[|lines| - 1]]
  }

  /** The loop `for i, line in enumerate(lines, start=1)` of
      `print_traceback_digest`. */
  method NumberLines(lines: seq<string>) returns (numbered: seq<string>)
    ensures numbered == Numbered(lines)
  {
    numbered := [];
    var i := 0;
    while i < |lines|
      invariant 0 <= i <= |lines|
      invariant numbered == Numbered(lines[..i])
    {
      assert lines[..i + 1][..i] == lines[..i];
      numbered := numbered + [NatToString(i + 1) + ". " + lines[i]];
      i := i + 1;
    }
    assert lines[..i] == lines;
  }

  /** A numbered line reads back as its number, `". "` and the line: the
      numbers count 1, 2, 3, ... */
  lemma NumberedReadBack(lines: seq<string>, k: nat)
    requires k < |lines|
    ensures var r := Numbered(lines)[k]; var n := NatToString(k + 1);
      |n| + 2 <= |r| && AllDigits(r[..|n|]) && DigitsValue(r[..|n|]) == k + 1
      && r[|n|..|n| + 2] == ". " && r[|n| + 2..] == lines[k]
  {
    var n := NatToString(k + 1);
    var r := Numbered(lines)[k];
    assert r[..|n|] == n;
    NatToStringValue(k + 1);
  }

  /** `"    " + line` for every line. */
  function Indented(lines: seq<string>): (r: seq<string>)
    ensures |r| == |lines|
    ensures forall k :: 0 <= k < |lines| ==> r[k] == "    " + lines[k]
  {
    if lines == [] then [] else ["    " + lines[0]] + Indented(lines[1..])
  }

  /** Re-joining the numbered or indented lines of a text and splitting
      again gives the same lines: neither step changes the line count. */
  lemma ReformatKeepsLines(d: string)
    ensures SplitLines(Join("\n", Numbered(SplitLines(d)))) == Numbered(SplitLines(d))
    ensures SplitLines(Join("\n", Indented(SplitLines(d)))) == Indented(SplitLines(d))
  {
    var ls := SplitLines(d);
    if ls != [] {
      var ns := Numbered(ls);
      forall k | 0 <= k < |ns| ensures '\n' !in ns[k] {
        assert '\n' !in NatToString(k + 1);
      }
      SplitLinesJoin(ns);
      SplitLinesJoin(Indented(ls));
    }
  }

  /** The digest `print_traceback_digest` of fetcher/utils.py prints,
      before colouring. */
  function FormattedDigest(tb: string, table: Table, localized: bool, numbered: bool, indented: bool): Result<string>
  {
    var d :- FetcherSuccinctTraceback(tb);
    var d1 := if localized then LocalizeWith(d, table) else d;
    var d2 := if numbered then Join("\n", Numbered(SplitLines(d1))) else d1;
    Ok(if indented then Join("\n", Indented(SplitLines(d2))) else d2)
  }

  /** `print_traceback_digest` without the printing. */
  method FormatDigest(tb: string, table: Table, localized: bool, numbered: bool, indented: bool)
    returns (r: Result<string>)
    ensures r == FormattedDigest(tb, table, localized, numbered, indented)
  {
    var d := FetcherSuccinctTraceback(tb);
    if d.Err? {
      return Err(d.error);
    }
    var digest := d.value;
    if localized {
      digest := Localize(digest, table);
    }
    if numbered {
      var lines := NumberLines(SplitLines(digest));
      digest := Join("\n", lines);
    }
    if indented {
      digest := Join("\n", Indented(SplitLines(digest)));
    }
    r := Ok(digest);
  }

  /** Numbered and indented, line `k` of the printed digest is four spaces,
      the number `k + 1`, `". "` and line `k` of the localised digest. */
  lemma FormattedLines(tb: string, table: Table, localized: bool)
    requires FetcherSuccinctTraceback(tb).Ok?
    ensures var d := FetcherSuccinctTraceback(tb).value;
      var d1 := if localized then LocalizeWith(d, table) else d;
      var out := SplitLines(FormattedDigest(tb, table, localized, true, true).value);
      |out| == |SplitLines(d1)|
      && forall k :: 0 <= k < |out| ==> out[k] == "    " + NatToString(k + 1) + ". " + SplitLines(d1)[k]
  {
    var d := FetcherSuccinctTraceback(tb).value;
    var d1 := if localized then LocalizeWith(d, table) else d;
    var d2 := Join("\n", Numbered(SplitLines(d1)));
    assert FormattedDigest(tb, table, localized, true, true) == Ok(Join("\n", Indented(SplitLines(d2))));
    ReformatKeepsLines(d1);
    ReformatKeepsLines(d2);
    IndentedNumbered(SplitLines(d1));
  }

  lemma IndentedNumbered(ls: seq<string>)
    ensures |Indented(Numbered(ls))| == |ls|
    ensures forall k :: 0 <= k < |ls| ==> Indented(Numbered(ls))[k] == "    " + NatToString(k + 1) + ". " + ls[k]
  {
  }

  // ---------------------------------------------------------------------
  // The line loop of quickfund/utils/misc.py and quickfund/utils.py

  /** Line `k` after the loop `for i, line in enumerate(lines)` of
      `print_traceback_digest` in quickfund/utils/misc.py and
      quickfund/utils.py, as written: the indenting step prefixes the
      loop variable `line`, so it replaces the numbered line. */
  function MiscLineAsWritten(lines: seq<string>, k: nat, numbered: bool, indented: bool): string
    requires k < |lines|
  {
    if indented then "    " + lines[k]
    else if numbered && |lines| > 1 then NatToString(k + 1) + ". " + lines[k]
    else lines[k]
  }

  function MiscFormattedAsWritten(lines: seq<string>, numbered: bool, indented: bool): seq<string>
  {
    seq(|lines|, k requires 0 <= k < |lines| => MiscLineAsWritten(lines, k, numbered, indented))
  }

  /** The loop as written, updating `lines[i]` in place. */
  method MiscNumberIndentAsWritten(lines: seq<string>, numbered: bool, indented: bool) returns (out: seq<string>)
    ensures out == MiscFormattedAsWritten(lines, numbered, indented)
  {
    out := lines;
    for i := 0 to |out|
      invariant |out| == |lines|
      invariant forall k :: 0 <= k < i ==> out[k] == MiscLineAsWritten(lines, k, numbered, indented)
      invariant forall k :: i <= k < |lines| ==> out[k] == lines[k]
    {
      var line := out[i];
      if numbered && |out| > 1 {
        out := out[i := NatToString(i + 1) + ". " + line];
      }
      if indented {
        out := out[i := "    " + line];
      }
    }
  }

  /** The evidently intended result: number the lines when there are two
      or more, then indent the numbered lines. */
  function MiscFormatted(lines: seq<string>, numbered: bool, indented: bool): (r: seq<string>)
    ensures |r| == |lines|
  {
    var n := if numbered && |lines| > 1 then Numbered(lines) else lines;
    if indented then Indented(n) else n
  }

  /** The loop with the indenting step applied to the numbered line. */
  method MiscNumberIndent(lines: seq<string>, numbered: bool, indented: bool) returns (out: seq<string>)
    ensures out == MiscFormatted(lines, numbered, indented)
  {
    out := lines;
    for i := 0 to |out|
      invariant |out| == |lines|
      invariant forall k :: 0 <= k < i ==> out[k] == MiscFormatted(lines, numbered, indented)[k]
      invariant forall k :: i <= k < |lines| ==> out[k] == lines[k]
    {
      if numbered && |out| > 1 {
        out := out[i := NatToString(i + 1) + ". " + out[i]];
      }
      if indented {
        out := out[i := "    " + out[i]];
      }
    }
  }

  /** Numbered and indented, two or more lines come out as the loop as
      written makes them: indented, with no number. */
  lemma IndentOverwritesNumber(lines: seq<string>)
    requires |lines| > 1
    ensures MiscFormattedAsWritten(lines, true, true) == Indented(lines)
    ensures MiscFormattedAsWritten(lines, true, true) != MiscFormatted(lines, true, true)
  {
    AsWrittenOnlyIndents(lines);
    var n := Numbered(lines);
    assert MiscFormatted(lines, true, true)[0] == "    " + n[0];
    assert |n[0]| >= 2 + |lines[0]|;
  }

  lemma AsWrittenOnlyIndents(lines: seq<string>)
    ensures MiscFormattedAsWritten(lines, true, true) == Indented(lines)
  {
    var w := MiscFormattedAsWritten(lines, true, true);
    assert forall k :: 0 <= k < |lines| ==> w[k] == Indented(lines)[k];
  }

  /** The intended loop: with two or more lines, line `k` is four spaces,
      the number `k + 1`, `". "` and line `k`; a single line is only
      indented; without indenting the lines are only numbered. */
  lemma MiscFormattedLines(lines: seq<string>)
    ensures |lines| > 1 ==> forall k :: 0 <= k < |lines| ==>
      MiscFormatted(lines, true, true)[k] == "    " + NatToString(k + 1) + ". " + lines[k]
    ensures |lines| <= 1 ==> MiscFormatted(lines, true, true) == Indented(lines)
    ensures |lines| > 1 ==> MiscFormatted(lines, true, false) == Numbered(lines)
    ensures MiscFormatted(lines, false, false) == lines
  {
    if |lines| > 1 {
      IndentedNumbered(lines);
    }
  }
}
