/** The release-version parser of main.py and the update test built on
    it. A version is `v?` followed by three dot-separated runs of digits,
    matched at the start of the text only: a loose take on the `X.Y.Z`
    form of section 2 of Semantic Versioning 2.0.0 that also admits a
    leading `v`, leading zeros and trailing text. */
module Versions {
  import opened Base
  import opened Text

  /** `(major, minor, patch)`, the tuple `parse_version_number` returns. */
  datatype Version = Version(major: nat, minor: nat, patch: nat)

  /** `__version__` of main.py. */
  const CurrentVersion: string := "0.2.0"

  /** `parse_version_number(__version__)`. */
  const Current: Version := Version(0, 2, 0)

  /** The number of digits `s` starts with: what a greedy `\d+` takes. */
  function DigitRun(s: string): (n: nat)
    ensures n <= |s| && AllDigits(s[..n])
    ensures n < |s| ==> !IsDigit(s[n])
  {
    if s != [] && IsDigit(s[0]) then
      var n := 1 + DigitRun(s[1..]);
      assert s[..n] == [s[0]] + s[1..][..n - 1];
      n
    else 0
  }

  /** A group `(\d+)` at the start of `t`: its digits and the text after
      them, which does not start with a digit. */
  function Group(t: string): (r: Option<(string, string)>)
    ensures r.None? <==> t == [] || !IsDigit(t[0])
    ensures r.Some? ==> var (a, rest) := r.value;
      t == a + rest && a != [] && AllDigits(a) && (rest != [] ==> !IsDigit(rest[0]))
  {
    var n := DigitRun(t);
    if n == 0 then None else Some((t[..n], t[n..]))
  }

  /** A group followed by `\.`: its digits and the text after the dot. */
  function DottedGroup(t: string): (r: Option<(string, string)>)
    ensures r.Some? ==> var (a, rest) := r.value;
      t == a + "." + rest && a != [] && AllDigits(a)
  {
    match Group(t)
    case None => None
    case Some((a, rest)) =>
      if rest != [] && rest[0] == '.' then
        (assert t == a + "." + rest[1..]; Some((a, rest[1..])))
      else None
  }

  /** The text the version pattern matches at the start of `s`, cut into
      its parts: the optional `v`, the three digit runs, and what follows
      the match, which cannot continue the last run. */
  predicate VersionShape(s: string, v: bool, a: string, b: string, c: string, rest: string) {
    && s == (if v then "v" else "") + a + "." + b + "." + c + rest
    && a != [] && b != [] && c != []
    && AllDigits(a) && AllDigits(b) && AllDigits(c)
    && (rest != [] ==> !IsDigit(rest[0]))
  }

  /** `s` without the optional `v` the pattern starts with. */
  function AfterV(s: string): string {
    if s != [] && s[0] == 'v' then s[1..] else s
  }

  /** The parts of a successful `re.match` of `v?(\d+)\.(\d+)\.(\d+)`:
      whether the `v` was there, the three groups, and the text after the
      match. */
  datatype Parts = Parts(v: bool, major: string, minor: string, patch: string, rest: string)

  /** `re.match(version_pattern, s)`: `None` when `s` does not start with a
      version; otherwise the parts, which rebuild `s`. */
  function VersionMatch(s: string): (m: Option<Parts>)
    ensures m.Some? ==> VersionShape(s, m.value.v, m.value.major, m.value.minor, m.value.patch, m.value.rest)
  {
    var v := s != [] && s[0] == 'v';
    var t := AfterV(s);
    assert s == (if v then "v" else "") + t;
    match DottedGroup(t)
    case None => None
    case Some((a, t1)) =>
      match DottedGroup(t1)
      case None => None
      case Some((b, t2)) =>
        match Group(t2)
        case None => None
        case Some((c, rest)) =>
          ShapeOfParts(s, v, a, b, c, rest);
          Some(Parts(v, a, b, c, rest))
  }

  /** `parse_version_number(s)`: `int` of each group of the match; a
      `RuntimeError` when there is no match. */
  function ParseVersionNumber(s: string): (r: Result<Version>)
    ensures r.Err? ==> r.error == RuntimeError
  {
    match VersionMatch(s)
    case None => Err(RuntimeError)
    case Some(m) => Ok(Version(DigitsValue(m.major), DigitsValue(m.minor), DigitsValue(m.patch)))
  }

  /** The parts the parser takes apart, put back into the version shape. */
  lemma ShapeOfParts(s: string, v: bool, a: string, b: string, c: string, rest: string)
    requires s == (if v then "v" else "") + (a + "." + (b + "." + (c + rest)))
    requires a != [] && b != [] && c != []
    requires AllDigits(a) && AllDigits(b) && AllDigits(c)
    requires rest != [] ==> !IsDigit(rest[0])
    ensures VersionShape(s, v, a, b, c, rest)
  {
    Regroup(if v then "v" else "", a, b, c, rest);
  }

  /** A digit run followed by something else is taken whole. */
  lemma {:induction false} DigitRunOf(a: string, rest: string)
    requires AllDigits(a) && (rest != [] ==> !IsDigit(rest[0]))
    ensures DigitRun(a + rest) == |a|
    decreases |a|
  {
    if a != [] {
      assert (a + rest)[1..] == a[1..] + rest;
      DigitRunOf(a[1..], rest);
    }
  }

  lemma GroupOf(a: string, rest: string)
    requires a != [] && AllDigits(a) && (rest != [] ==> !IsDigit(rest[0]))
    ensures Group(a + rest) == Some((a, rest))
  {
    DigitRunOf(a, rest);
    assert (a + rest)[..|a|] == a && (a + rest)[|a|..] == rest;
  }

  lemma DottedGroupOf(a: string, rest: string)
    requires a != [] && AllDigits(a)
    ensures DottedGroup(a + "." + rest) == Some((a, rest))
  {
    assert a + "." + rest == a + ("." + rest);
    GroupOf(a, "." + rest);
    assert ("." + rest)[1..] == rest;
  }

  /** Removing the optional `v` from a text whose rest starts with a digit. */
  lemma AfterVOf(s: string, v: bool, t: string)
    requires s == (if v then "v" else "") + t
    requires t != [] && IsDigit(t[0])
    ensures AfterV(s) == t
  {
    if v {
      assert s[1..] == t;
    }
  }

  /** The groups the parser finds in a text of the version shape. */
  lemma GroupsOfShape(s: string, v: bool, a: string, b: string, c: string, rest: string)
    requires VersionShape(s, v, a, b, c, rest)
    ensures DottedGroup(AfterV(s)) == Some((a, b + "." + (c + rest)))
    ensures DottedGroup(b + "." + (c + rest)) == Some((b, c + rest))
    ensures Group(c + rest) == Some((c, rest))
  {
    var t2 := c + rest;
    var t1 := b + "." + t2;
    var t := a + "." + t1;
    Regroup(if v then "v" else "", a, b, c, rest);
    AfterVOf(s, v, t);
    DottedGroupOf(a, t1);
    DottedGroupOf(b, t2);
    GroupOf(c, rest);
  }

  /** Every text of the version shape is matched, and cut into exactly
      those parts: the match is unique. */
  lemma MatchComplete(s: string, v: bool, a: string, b: string, c: string, rest: string)
    requires VersionShape(s, v, a, b, c, rest)
    ensures VersionMatch(s) == Some(Parts(v, a, b, c, rest))
  {
    GroupsOfShape(s, v, a, b, c, rest);
    assert v == (s != [] && s[0] == 'v');
  }

  /** Every text of the version shape parses, to the values of its digit
      runs. */
  lemma ParseComplete(s: string, v: bool, a: string, b: string, c: string, rest: string)
    requires VersionShape(s, v, a, b, c, rest)
    ensures ParseVersionNumber(s) == Ok(Version(DigitsValue(a), DigitsValue(b), DigitsValue(c)))
  {
    MatchComplete(s, v, a, b, c, rest);
  }

  /** Every text that parses has the version shape, and the result is the
      values of its digit runs. */
  lemma ParseSound(s: string)
    requires ParseVersionNumber(s).Ok?
    ensures exists v, a, b, c, rest ::
      && VersionShape(s, v, a, b, c, rest)
      && ParseVersionNumber(s).value == Version(DigitsValue(a), DigitsValue(b), DigitsValue(c))
  {
    var m := VersionMatch(s).value;
    assert VersionShape(s, m.v, m.major, m.minor, m.patch, m.rest);
  }

  /** The parts of a version text, grouped from the right as the parser
      takes them apart. */
  lemma Regroup(p: string, a: string, b: string, c: string, rest: string)
    ensures p + a + "." + b + "." + c + rest == p + (a + "." + (b + "." + (c + rest)))
  {
    var x := b + "." + (c + rest);
    assert b + "." + c + rest == x;
    assert a + "." + x == a + "." + b + "." + c + rest;
  }

  /** `parse_version_number` raises exactly for the texts that do not
      start with a version. */
  lemma ParseFailsIffNoVersion(s: string)
    ensures ParseVersionNumber(s).Err? <==>
      forall v, a, b, c, rest :: !VersionShape(s, v, a, b, c, rest)
  {
    if ParseVersionNumber(s).Ok? {
      ParseSound(s);
    } else {
      forall v, a, b, c, rest | VersionShape(s, v, a, b, c, rest) ensures false {
        ParseComplete(s, v, a, b, c, rest);
      }
    }
  }

  /** The canonical `X.Y.Z` text of a version. */
  function Render(x: Version): string {
    NatToString(x.major) + "." + NatToString(x.minor) + "." + NatToString(x.patch)
  }

  /** A rendered version parses back to itself, with or without a leading
      `v` and whatever follows it, short of another digit. */
  lemma ParseRender(x: Version, v: bool, rest: string)
    requires rest != [] ==> !IsDigit(rest[0])
    ensures ParseVersionNumber((if v then "v" else "") + Render(x) + rest) == Ok(x)
  {
    var a, b, c := NatToString(x.major), NatToString(x.minor), NatToString(x.patch);
    assert (if v then "v" else "") + Render(x) + rest == (if v then "v" else "") + a + "." + b + "." + c + rest;
    ParseComplete((if v then "v" else "") + Render(x) + rest, v, a, b, c, rest);
    NatToStringValue(x.major);
    NatToStringValue(x.minor);
    NatToStringValue(x.patch);
  }

  /** A leading `v` changes nothing, unless the text already starts with
      one. */
  lemma LeadingVIgnored(s: string)
    requires s == [] || s[0] != 'v'
    ensures ParseVersionNumber("v" + s) == ParseVersionNumber(s)
  {
    assert ("v" + s)[1..] == s;
  }

  /** Leading zeros in a component collapse through `int`. */
  lemma LeadingZerosCollapse(s: string, v: bool, a: string, b: string, c: string, rest: string)
    requires VersionShape(s, v, a, b, c, rest)
    ensures ParseVersionNumber((if v then "v" else "") + a + "." + ("0" + b) + "." + c + rest) == ParseVersionNumber(s)
  {
    LeadingZero(b);
    ParseComplete(s, v, a, b, c, rest);
    ParseComplete((if v then "v" else "") + a + "." + ("0" + b) + "." + c + rest, v, a, "0" + b, c, rest);
  }

  /** A one-digit group is worth its digit. */
  lemma OneDigit(c: char)
    requires IsDigit(c)
    ensures DigitsValue([c]) == DigitValue(c)
  {
    assert [c][..0] == [];
  }

  /** A version of three one-digit components. */
  lemma OneDigitVersion(v: bool, x: char, y: char, z: char, rest: string)
    requires IsDigit(x) && IsDigit(y) && IsDigit(z) && (rest != [] ==> !IsDigit(rest[0]))
    ensures ParseVersionNumber((if v then "v" else "") + [x, '.', y, '.', z] + rest)
      == Ok(Version(DigitValue(x), DigitValue(y), DigitValue(z)))
  {
    var p := if v then "v" else "";
    assert p + [x, '.', y, '.', z] + rest == p + [x] + "." + [y] + "." + [z] + rest;
    OneDigit(x);
    OneDigit(y);
    OneDigit(z);
    ParseComplete(p + [x, '.', y, '.', z] + rest, v, [x], [y], [z], rest);
  }

  /** `__version__` parses to `(0, 2, 0)`. */
  lemma CurrentVersionParses()
    ensures ParseVersionNumber(CurrentVersion) == Ok(Current)
  {
    OneDigit('0');
    OneDigit('2');
    ParseComplete(CurrentVersion, false, "0", "2", "0", "");
  }

  // ---------------------------------------------------------------------
  // The update test

  /** Python's `>` on `(major, minor, patch)` tuples: the first component
      that differs decides. */
  predicate Newer(x: Version, y: Version) {
    if x.major != y.major then x.major > y.major
    else if x.minor != y.minor then x.minor > y.minor
    else x.patch > y.patch
  }

  /** The tuple order is a strict total order. */
  lemma NewerIsStrictTotalOrder(x: Version, y: Version, z: Version)
    ensures !Newer(x, x)
    ensures Newer(x, y) ==> !Newer(y, x)
    ensures Newer(x, y) && Newer(y, z) ==> Newer(x, z)
    ensures x != y ==> Newer(x, y) || Newer(y, x)
  {
  }

  /** `parse_version_number(latest) > parse_version_number(__version__)`:
      whether `check_update` offers the update. A latest version that does
      not parse raises. */
  function UpdateAvailable(latest: string): (r: Result<bool>)
    ensures r.Err? <==> ParseVersionNumber(latest).Err?
    ensures r.Err? ==> r.error == RuntimeError
  {
    CurrentVersionParses();
    var l :- ParseVersionNumber(latest);
    Ok(Newer(l, Current))
  }

  /** A well-formed latest version is offered exactly when it is newer than
      `(0, 2, 0)`. */
  lemma UpdateOffered(x: Version, v: bool, rest: string)
    requires rest != [] ==> !IsDigit(rest[0])
    ensures UpdateAvailable((if v then "v" else "") + Render(x) + rest) == Ok(Newer(x, Version(0, 2, 0)))
  {
    ParseRender(x, v, rest);
  }
}
