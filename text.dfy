/** String helpers standing for the Python built-ins the core relies on:
    `str.split`, `str.splitlines`, `str.join`, `str.strip`, `str.replace`,
    `int(...)` on a digit string and `str(n)` on a natural number.
    Line breaks are `\n` only, digits are ASCII only and whitespace is
    ASCII whitespace only. */
module Text {

  predicate IsDigit(c: char) {
    '0' <= c <= '9'
  }

  predicate AllDigits(s: string) {
    forall i :: 0 <= i < |s| ==> IsDigit(s[i])
  }

  /** The characters Python's `str.isspace` accepts below code point 128. */
  predicate IsSpace(c: char) {
    c in Whitespace
  }

  const Whitespace: set<char> :=
    {' ', '\t', '\n', '\r', '\U{0B}', '\U{0C}', '\U{1C}', '\U{1D}', '\U{1E}', '\U{1F}'}

  // ---------------------------------------------------------------------------
  // Splitting and joining

  /** `s.split(c)`: the pieces between occurrences of `c`, always at least one. */
  function SplitOn(s: string, c: char): (r: seq<string>)
    ensures |r| >= 1
    ensures forall k :: 0 <= k < |r| ==> c !in r[k]
  {
    if s == [] then [[]]
    else
      var rest := SplitOn(s[1..], c);
      if s[0] == c then [[]] + rest
      else [[s[0]] + rest[0]] + rest[1..]
  }

  /** `sep.join(xs)`. */
  function Join(sep: string, xs: seq<string>): string
  {
    if xs == [] then []
    else if |xs| == 1 then xs[0]
    else xs[0] + sep + Join(sep, xs[1..])
  }

  /** `s.splitlines()` with `\n` as the only line break: no element for a
      final line break, and none at all for the empty string. */
  function SplitLines(s: string): (r: seq<string>)
    ensures forall k :: 0 <= k < |r| ==> '\n' !in r[k]
    ensures s == [] <==> r == []
  {
    if s == [] then []
    else
      var parts := SplitOn(s, '\n');
      if s[|s| - 1] == '\n' then (SplitOnLastEmpty(s, '\n'); parts[..|parts| - 1])
      else parts
  }

  /** A text holding the separator splits into at least two pieces. */
  lemma {:induction false} SplitOnCount(s: string, c: char)
    requires c in s
    ensures |SplitOn(s, c)| >= 2
  {
    if s[0] != c {
      SplitOnCount(s[1..], c);
    }
  }

  /** The last piece is empty exactly when the text is empty or ends with the separator. */
  lemma {:induction false} SplitOnLast(s: string, c: char)
    ensures var parts := SplitOn(s, c);
            parts[|parts| - 1] == [] <==> (s == [] || s[|s| - 1] == c)
  {
    if s != [] {
      var t := s[1..];
      var rest := SplitOn(t, c);
      SplitOnLast(t, c);
      if s[0] != c && t != [] && t[|t| - 1] == c {
        SplitOnCount(t, c);
      }
      if t != [] {
        assert s[|s| - 1] == t[|t| - 1];
      }
    }
  }

  /** The last piece of a split is empty exactly when the text ends with the separator. */
  lemma SplitOnLastEmpty(s: string, c: char)
    ensures var parts := SplitOn(s, c);
            (s != [] && s[|s| - 1] == c) <==> (|parts| >= 2 && parts[|parts| - 1] == [])
  {
    SplitOnLast(s, c);
    if s != [] && s[|s| - 1] == c {
      SplitOnCount(s, c);
    }
  }

  /** Splitting a join gives the pieces back when no piece holds the separator. */
  lemma {:induction false} SplitJoin(xs: seq<string>, c: char)
    requires |xs| >= 1
    requires forall k :: 0 <= k < |xs| ==> c !in xs[k]
    ensures SplitOn(Join([c], xs), c) == xs
  {
    if |xs| == 1 {
      SplitNoSeparator(xs[0], c);
    } else {
      SplitJoin(xs[1..], c);
      SplitPrefix(xs[0], Join([c], xs[1..]), c);
      assert Join([c], xs) == xs[0] + ([c] + Join([c], xs[1..]));
      assert [xs[0]] + xs[1..] == xs;
    }
  }

  lemma {:induction false} SplitNoSeparator(s: string, c: char)
    requires c !in s
    ensures SplitOn(s, c) == [s]
  {
    if s != [] {
      SplitNoSeparator(s[1..], c);
      assert [s[0]] + s[1..] == s;
    }
  }

  /** A separator-free prefix followed by the separator becomes the first piece. */
  lemma {:induction false} SplitPrefix(p: string, t: string, c: char)
    requires c !in p
    ensures SplitOn(p + ([c] + t), c) == [p] + SplitOn(t, c)
  {
    if p == [] {
      assert p + ([c] + t) == [c] + t;
      assert ([c] + t)[1..] == t;
    } else {
      SplitPrefix(p[1..], t, c);
      assert (p + ([c] + t))[1..] == p[1..] + ([c] + t);
      assert [p[0]] + p[1..] == p;
    }
  }

  /** Joining the pieces of a split gives the text back. */
  lemma {:induction false} JoinSplit(s: string, c: char)
    ensures Join([c], SplitOn(s, c)) == s
  {
    if s != [] {
      JoinSplit(s[1..], c);
      var rest := SplitOn(s[1..], c);
      if s[0] == c {
        assert SplitOn(s, c)[1..] == rest;
        assert [s[0]] + s[1..] == s;
      } else {
        var r := SplitOn(s, c);
        assert r[0] == [s[0]] + rest[0];
        if |rest| == 1 {
          assert [s[0]] + s[1..] == s;
        } else {
          assert r[1..] == rest[1..];
          assert Join([c], rest) == rest[0] + [c] + Join([c], rest[1..]);
          assert s == [s[0]] + s[1..];
        }
      }
    }
  }

  lemma JoinSingleton(sep: string, x: string)
    ensures Join(sep, [x]) == x
  {
  }

  /** The lines of text built by joining separator-free lines with `\n`. */
  lemma {:induction false} SplitLinesJoin(xs: seq<string>)
    requires |xs| >= 1 && xs[|xs| - 1] != []
    requires forall k :: 0 <= k < |xs| ==> '\n' !in xs[k]
    ensures SplitLines(Join("\n", xs)) == xs
  {
    SplitJoin(xs, '\n');
    var s := Join("\n", xs);
    JoinEndsWith(xs, "\n");
    if s == [] {
      // only possible with a single empty line, excluded by the requires
      JoinEmpty(xs, "\n");
    }
  }

  lemma {:induction false} JoinEmpty(xs: seq<string>, sep: string)
    requires |xs| >= 1 && xs[|xs| - 1] != []
    ensures Join(sep, xs) != []
  {
    if |xs| > 1 {
      JoinEmpty(xs[1..], sep);
    }
  }

  /** A join ends with the last piece. */
  lemma {:induction false} JoinEndsWith(xs: seq<string>, sep: string)
    requires |xs| >= 1
    ensures var s := Join(sep, xs); var last := xs[|xs| - 1];
            |s| >= |last| && s[|s| - |last|..] == last
  {
    if |xs| > 1 {
      JoinEndsWith(xs[1..], sep);
    }
  }

  /** The index of the first `c` in `s`, or `|s|` when there is none. */
  function IndexOf(s: string, c: char): (i: nat)
    ensures i <= |s| && c !in s[..i]
    ensures i < |s| ==> s[i] == c
  {
    if s == [] then 0
    else if s[0] == c then 0
    else (assert s[..1 + IndexOf(s[1..], c)] == [s[0]] + s[1..][..IndexOf(s[1..], c)]; 1 + IndexOf(s[1..], c))
  }

  /** The first `c` is found at the first position holding it. */
  lemma IndexOfAt(s: string, c: char, i: nat)
    requires i < |s| && s[i] == c && c !in s[..i]
    ensures IndexOf(s, c) == i
  {
  }

  // ---------------------------------------------------------------------------
  // Numbers

  function DigitValue(c: char): nat
    requires IsDigit(c)
  {
    (c as int - '0' as int) as nat
  }

  function DigitChar(d: nat): (c: char)
    requires d < 10
    ensures IsDigit(c) && DigitValue(c) == d
  {
    ('0' as int + d) as char
  }

  /** `int(s)` for a string of ASCII digits. */
  function DigitsValue(s: string): nat
    requires AllDigits(s)
  {
    if s == [] then 0 else DigitsValue(s[..|s| - 1]) * 10 + DigitValue(s[|s| - 1])
  }

  /** `str(n)` for a natural number: decimal, no leading zero. */
  function NatToString(n: nat): (r: string)
    ensures AllDigits(r) && |r| >= 1
    ensures |r| > 1 ==> r[0] != '0'
  {
    if n < 10 then [DigitChar(n)] else NatToString(n / 10) + [DigitChar(n % 10)]
  }

  lemma {:induction false} NatToStringValue(n: nat)
    ensures DigitsValue(NatToString(n)) == n
  {
    if n >= 10 {
      NatToStringValue(n / 10);
      var s := NatToString(n);
      assert s[..|s| - 1] == NatToString(n / 10);
    }
  }

  /** Leading zeros do not change the value, as with Python's `int("02")`. */
  lemma {:induction false} LeadingZero(s: string)
    requires AllDigits(s)
    ensures AllDigits("0" + s) && DigitsValue("0" + s) == DigitsValue(s)
  {
    if s != [] {
      LeadingZero(s[..|s| - 1]);
      assert ("0" + s)[..|s|] == "0" + s[..|s| - 1];
    }
  }

  // ---------------------------------------------------------------------------
  // Stripping

  /** The number of whitespace characters `s` starts with. */
  function LeadingSpace(s: string): (n: nat)
    ensures n <= |s|
    ensures forall i :: 0 <= i < n ==> IsSpace(s[i])
    ensures n < |s| ==> !IsSpace(s[n])
  {
    if s != [] && IsSpace(s[0]) then 1 + LeadingSpace(s[1..]) else 0
  }

  /** The length of `s` without the whitespace it ends with. */
  function TrailingStart(s: string): (n: nat)
    ensures n <= |s|
    ensures forall i :: n <= i < |s| ==> IsSpace(s[i])
    ensures n > 0 ==> !IsSpace(s[n - 1])
  {
    if s != [] && IsSpace(s[|s| - 1]) then TrailingStart(s[..|s| - 1]) else |s|
  }

  /** `s.lstrip()`. */
  function StripLeft(s: string): string {
    s[LeadingSpace(s)..]
  }

  /** `s.rstrip()`. */
  function StripRight(s: string): string {
    s[..TrailingStart(s)]
  }

  /** `s.strip()`: `s` without its leading and trailing whitespace. */
  function Strip(s: string): string
  {
    StripRight(StripLeft(s))
  }

  /** Stripping a text leaves it alone when it neither starts nor ends with whitespace. */
  lemma StripUnchanged(s: string)
    requires s != [] ==> !IsSpace(s[0]) && !IsSpace(s[|s| - 1])
    ensures Strip(s) == s
  {
  }

  /** Stripping keeps a contiguous slice of the text and removes only
      whitespace on either side of it. */
  lemma StripShape(s: string)
    ensures var i := LeadingSpace(s);
            var j := i + |Strip(s)|;
            && j <= |s| && Strip(s) == s[i..j]
            && (forall k :: 0 <= k < i ==> IsSpace(s[k]))
            && (forall k :: j <= k < |s| ==> IsSpace(s[k]))
  {
    var i := LeadingSpace(s);
    var l := s[i..];
    var j := i + TrailingStart(l);
    forall k | j <= k < |s| ensures IsSpace(s[k]) {
      assert s[k] == l[k - i];
    }
  }

  /** A stripped text neither starts nor ends with whitespace. */
  lemma StripEnds(s: string)
    requires Strip(s) != []
    ensures !IsSpace(Strip(s)[0]) && !IsSpace(Strip(s)[|Strip(s)| - 1])
  {
    var l := StripLeft(s);
    assert Strip(s)[|Strip(s)| - 1] == l[TrailingStart(l) - 1];
  }

  // ---------------------------------------------------------------------------
  // Replacement

  /** `s.replace(src, dst)` for a non-empty `src`: every non-overlapping
      occurrence, from left to right. */
  function ReplaceNonEmpty(s: string, src: string, dst: string): string
    requires src != []
    decreases |s|
  {
    if |s| < |src| then s
    else if s[..|src|] == src then dst + ReplaceNonEmpty(s[|src|..], src, dst)
    else [s[0]] + ReplaceNonEmpty(s[1..], src, dst)
  }

  /** `s.replace("", dst)`: `dst` before every character and at the end. */
  function InsertEverywhere(s: string, dst: string): string
  {
    if s == [] then dst else dst + [s[0]] + InsertEverywhere(s[1..], dst)
  }

  /** Python's `str.replace` with two arguments. */
  function ReplaceAll(s: string, src: string, dst: string): string
  {
    if src == [] then InsertEverywhere(s, dst) else ReplaceNonEmpty(s, src, dst)
  }

  /** `src` occurs in `s` at index `i`. */
  predicate OccursAt(s: string, src: string, i: nat)
  {
    i + |src| <= |s| && s[i..i + |src|] == src
  }

  /** Replacing a non-empty text that does not occur changes nothing. */
  lemma {:induction false} ReplaceAbsent(s: string, src: string, dst: string)
    requires src != []
    requires forall i :: 0 <= i <= |s| ==> !OccursAt(s, src, i)
    ensures ReplaceAll(s, src, dst) == s
  {
    if |s| >= |src| {
      assert !OccursAt(s, src, 0);
      forall i | 0 <= i <= |s[1..]| ensures !OccursAt(s[1..], src, i) {
        assert !OccursAt(s, src, i + 1);
        if i + |src| <= |s[1..]| {
          assert s[1..][i..i + |src|] == s[i + 1..i + 1 + |src|];
        }
      }
      ReplaceAbsent(s[1..], src, dst);
      assert [s[0]] + s[1..] == s;
    }
  }

  /** Replacing a text by itself changes nothing. */
  lemma {:induction false} ReplaceSelf(s: string, src: string)
    ensures ReplaceAll(s, src, src) == s
  {
    if src == [] {
      InsertEmpty(s);
    } else if |s| >= |src| {
      if s[..|src|] == src {
        ReplaceSelf(s[|src|..], src);
        assert s[..|src|] + s[|src|..] == s;
      } else {
        ReplaceSelf(s[1..], src);
        assert [s[0]] + s[1..] == s;
      }
    }
  }

  lemma {:induction false} InsertEmpty(s: string)
    ensures InsertEverywhere(s, []) == s
  {
    if s != [] {
      InsertEmpty(s[1..]);
      assert [s[0]] + s[1..] == s;
    }
  }
}
