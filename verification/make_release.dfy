/**
 * The version bookkeeping of the ACE/TAO packaging script
 * (ACE/bin/make_release.py): reading the current version from a
 * component's VERSION.txt, bumping it for a major, minor or micro release,
 * the dotted and underscored version strings and the numeric version code,
 * the release tag, repository paths, the rewrite of the RPM spec file and
 * the root-prefix strip done before committing.
 *
 * Python `str` values are `string`s and Python `int`s are `nat`s (every
 * number here comes from a run of decimal digits or from adding to one).
 */
module MakeRelease {
  import opened Optional

  // ---------------------------------------------------------------------
  // Decimal digits: Python's str() and int() on non-negative integers
  // ---------------------------------------------------------------------

  predicate IsDigit(c: char)
  {
    '0' <= c <= '9'
  }

  predicate AllDigits(s: string)
  {
    forall i :: 0 <= i < |s| ==> IsDigit(s[i])
  }

  function DigitChar(d: nat): (c: char)
    requires d < 10
    ensures IsDigit(c)
  {
    ('0' as int + d) as char
  }

  /** The value of a decimal digit (0 for any other character, which is never asked for). */
  function DigitValue(c: char): (d: nat)
    ensures IsDigit(c) ==> d < 10 && DigitChar(d) == c
  {
    if IsDigit(c) then c as int - '0' as int else 0
  }

  /** `str(n)`: the decimal digits of n, most significant first. */
  function NatToString(n: nat): (s: string)
    ensures |s| > 0 && AllDigits(s)
    ensures |s| > 1 ==> s[0] != '0'
  {
    if n < 10 then [DigitChar(n)] else NatToString(n / 10) + [DigitChar(n % 10)]
  }

  /** `int(s)` for a string of decimal digits: a leading zero adds nothing. */
  function DigitsValue(s: string): (r: nat)
    ensures s != [] && s[0] == '0' ==> r == DigitsValue(s[1..])
    decreases |s|
  {
    if s == [] then 0
    else
      assert |s| > 1 ==> s[1..][..|s| - 2] == s[..|s| - 1][1..];
      DigitsValue(s[..|s| - 1]) * 10 + DigitValue(s[|s| - 1])
  }

  /** `int(str(n)) == n`. */
  lemma {:induction false} NatToStringRoundTrip(n: nat)
    ensures DigitsValue(NatToString(n)) == n
  {
    var s := NatToString(n);
    if n < 10 {
      assert s[..|s| - 1] == [];
    } else {
      assert s[..|s| - 1] == NatToString(n / 10);
      NatToStringRoundTrip(n / 10);
    }
  }

  lemma NatToStringInjective(a: nat, b: nat)
    requires NatToString(a) == NatToString(b)
    ensures a == b
  {
    NatToStringRoundTrip(a);
    NatToStringRoundTrip(b);
  }

  // ---------------------------------------------------------------------
  // Versions, release types, bumping and the version code
  // ---------------------------------------------------------------------

  datatype Version = Version(major: nat, minor: nat, micro: nat)

  /** The `--major`, `--minor` and `--micro` options; `None` when none was given. */
  datatype ReleaseType = MajorRelease | MinorRelease | MicroRelease

  /** Lexicographic order on (major, minor, micro). */
  predicate Less(v: Version, w: Version)
  {
    || v.major < w.major
    || (v.major == w.major && v.minor < w.minor)
    || (v.major == w.major && v.minor == w.minor && v.micro < w.micro)
  }

  /**
   * The increment applied by get_comp_versions: only with `--update`, and
   * then a major release resets minor and micro, a minor release resets
   * micro, and a micro release only increments micro.
   */
  function Bump(v: Version, update: bool, releaseType: Option<ReleaseType>): (w: Version)
    ensures !update || releaseType.None? ==> w == v
    ensures update && releaseType == Some(MajorRelease) ==> w == Version(v.major + 1, 0, 0)
    ensures update && releaseType == Some(MinorRelease) ==> w == Version(v.major, v.minor + 1, 0)
    ensures update && releaseType == Some(MicroRelease) ==> w == Version(v.major, v.minor, v.micro + 1)
  {
    if !update then v
    else match releaseType
      case None => v
      case Some(MajorRelease) => v.(major := v.major + 1, minor := 0, micro := 0)
      case Some(MinorRelease) => v.(minor := v.minor + 1, micro := 0)
      case Some(MicroRelease) => v.(micro := v.micro + 1)
  }

  /** Every requested bump yields a strictly later version. */
  lemma BumpIncreases(v: Version, releaseType: ReleaseType)
    ensures Less(v, Bump(v, true, Some(releaseType)))
    ensures !Less(Bump(v, true, Some(releaseType)), v)
  {
  }

  /** `COMPONENT_version`: "major.minor.micro", digits and dots only, a digit at each end. */
  function Dotted(v: Version): (r: string)
    ensures |r| > 0 && IsDigit(r[0]) && IsDigit(r[|r| - 1])
    ensures forall i :: 0 <= i < |r| ==> IsDigit(r[i]) || r[i] == '.'
  {
    NatToString(v.major) + "." + NatToString(v.minor) + "." + NatToString(v.micro)
  }

  /** `COMPONENT_version_`: "major_minor_micro", digits and underscores only, a digit at each end. */
  function Underscored(v: Version): (r: string)
    ensures |r| > 0 && IsDigit(r[0]) && IsDigit(r[|r| - 1])
    ensures forall i :: 0 <= i < |r| ==> IsDigit(r[i]) || r[i] == '_'
  {
    NatToString(v.major) + "_" + NatToString(v.minor) + "_" + NatToString(v.micro)
  }

  /**
   * `COMPONENT_code`: (major << 16) + (minor << 8) + micro, the formula of
   * the `COMPONENT_MAKE_VERSION_CODE(a,b,c)` macro written into Version.h.
   */
  function Code(v: Version): (r: nat)
    ensures v.major * 65536 <= r
    ensures CodeFits(v) ==> r < (v.major + 1) * 65536
  {
    v.major * 65536 + v.minor * 256 + v.micro
  }

  /** The code packs minor and micro into one byte each. */
  predicate CodeFits(v: Version)
  {
    v.minor < 256 && v.micro < 256
  }

  /** While minor and micro fit a byte, the code gives back all three numbers. */
  lemma CodeDecodes(v: Version)
    requires CodeFits(v)
    ensures Code(v) / 65536 == v.major
    ensures Code(v) / 256 % 256 == v.minor
    ensures Code(v) % 256 == v.micro
  {
    var low := v.minor * 256 + v.micro;
    assert 0 <= low < 65536;
    assert Code(v) == v.major * 65536 + low;
    assert Code(v) / 256 == v.major * 256 + v.minor;
  }

  /** While minor and micro fit a byte, comparing codes compares versions. */
  lemma {:induction false} CodeOrder(v: Version, w: Version)
    requires CodeFits(v) && CodeFits(w)
    ensures Code(v) < Code(w) <==> Less(v, w)
    ensures Code(v) == Code(w) <==> v == w
  {
    if v.major < w.major {
      assert Code(v) < (v.major + 1) * 65536 <= Code(w);
    } else if w.major < v.major {
      assert Code(w) < (w.major + 1) * 65536 <= Code(v);
    } else if v.minor < w.minor {
      assert Code(v) < v.major * 65536 + (v.minor + 1) * 256 <= Code(w);
    } else if w.minor < v.minor {
      assert Code(w) < w.major * 65536 + (w.minor + 1) * 256 <= Code(v);
    }
  }

  /** Past 255 the fields overlap: 0.1.0 and 0.0.256 share a code. */
  lemma CodeCollides()
    ensures Version(0, 1, 0) != Version(0, 0, 256)
    ensures Code(Version(0, 1, 0)) == Code(Version(0, 0, 256))
  {
  }

  /** Replaces every `from` in s by `to`. */
  function ReplaceChar(s: string, from: char, to: char): (r: string)
    ensures |r| == |s|
    ensures forall i :: 0 <= i < |s| ==> r[i] == (if s[i] == from then to else s[i])
  {
    seq(|s|, i requires 0 <= i < |s| => if s[i] == from then to else s[i])
  }

  /** Swapping the separator of "a.b.c" for another one that occurs in no part. */
  lemma ReplaceSeparators(a: string, b: string, c: string, x: char, y: char)
    requires x !in a && x !in b && x !in c
    ensures ReplaceChar(a + [x] + b + [x] + c, x, y) == a + [y] + b + [y] + c
  {
    var s := a + [x] + b + [x] + c;
    var t := a + [y] + b + [y] + c;
    forall i | 0 <= i < |s|
      ensures ReplaceChar(s, x, y)[i] == t[i]
    {
      if i < |a| {
        assert s[i] == a[i] == t[i];
      } else if |a| < i < |a| + 1 + |b| {
        assert s[i] == b[i - |a| - 1] == t[i];
      } else if |a| + 1 + |b| < i {
        assert s[i] == c[i - |a| - |b| - 2] == t[i];
      }
    }
  }

  /** `_version_` is `_version` with its dots turned into underscores, and back. */
  lemma UnderscoredIsDotted(v: Version)
    ensures Underscored(v) == ReplaceChar(Dotted(v), '.', '_')
    ensures Dotted(v) == ReplaceChar(Underscored(v), '_', '.')
  {
    var a, b, c := NatToString(v.major), NatToString(v.minor), NatToString(v.micro);
    assert '.' !in a && '.' !in b && '.' !in c && '_' !in a && '_' !in b && '_' !in c;
    ReplaceSeparators(a, b, c, '.', '_');
    ReplaceSeparators(a, b, c, '_', '.');
  }

  // ---------------------------------------------------------------------
  // Reading the version: re.search("version (\d+)(?:\.(\d+)(?:\.(\d+))?)?")
  // ---------------------------------------------------------------------

  /** The pattern can start at i: "version " and at least one digit. */
  predicate MatchesAt(line: string, i: nat)
  {
    i + 8 < |line| && line[i..i + 8] == "version " && IsDigit(line[i + 8])
  }

  /** The leftmost position at or after `from` where the pattern starts. */
  function FindMatch(line: string, from: nat): (r: Option<nat>)
    requires from <= |line|
    ensures r.Some? ==> from <= r.value && MatchesAt(line, r.value)
    ensures r.Some? ==> forall i :: from <= i < r.value ==> !MatchesAt(line, i)
    ensures r.None? ==> forall i :: from <= i <= |line| ==> !MatchesAt(line, i)
    decreases |line| - from
  {
    if MatchesAt(line, from) then Some(from)
    else if from == |line| then None
    else FindMatch(line, from + 1)
  }

  /** Length of the greedy `\d+` run starting at j. */
  function DigitRun(line: string, j: nat): (n: nat)
    requires j <= |line|
    ensures j + n <= |line|
    ensures forall k :: j <= k < j + n ==> IsDigit(line[k])
    ensures j + n == |line| || !IsDigit(line[j + n])
    decreases |line| - j
  {
    if j < |line| && IsDigit(line[j]) then 1 + DigitRun(line, j + 1) else 0
  }

  /** The value of the digit run at j, as `int()` of the captured group. */
  function DigitsAt(line: string, j: nat): nat
    requires j <= |line|
  {
    DigitsValue(line[j..j + DigitRun(line, j)])
  }

  /** An optional `\.(\d+)` group whose digits would start at j can be taken: a dot, then a digit. */
  predicate DotDigitBefore(line: string, j: nat)
  {
    0 < j < |line| && line[j - 1] == '.' && IsDigit(line[j])
  }

  /**
   * The three groups of a match whose digits start at j, with
   * `groups(default=0)`: a group that did not take part reads as 0.
   */
  function GroupsAt(line: string, j: nat): (v: Version)
    requires j <= |line|
    ensures v.major == DigitsAt(line, j)
    ensures !DotDigitBefore(line, j + DigitRun(line, j) + 1) ==> v.minor == 0 && v.micro == 0
  {
    var j2 := j + DigitRun(line, j) + 1;
    if !DotDigitBefore(line, j2) then Version(DigitsAt(line, j), 0, 0)
    else
      var j3 := j2 + DigitRun(line, j2) + 1;
      if !DotDigitBefore(line, j3) then Version(DigitsAt(line, j), DigitsAt(line, j2), 0)
      else Version(DigitsAt(line, j), DigitsAt(line, j2), DigitsAt(line, j3))
  }

  /** The version one line of VERSION.txt gives, or `None` when the pattern does not occur. */
  function ParseVersionLine(line: string): (r: Option<Version>)
    ensures r.None? <==> forall i :: 0 <= i <= |line| ==> !MatchesAt(line, i)
  {
    match FindMatch(line, 0)
    case None => None
    case Some(i) => Some(GroupsAt(line, i + 8))
  }

  /** The digit run at j is exactly s when s is all digits and no digit follows it. */
  lemma {:induction false} DigitRunOf(line: string, j: nat, s: string)
    requires j + |s| <= |line| && line[j..j + |s|] == s && AllDigits(s)
    requires j + |s| == |line| || !IsDigit(line[j + |s|])
    ensures DigitRun(line, j) == |s|
    decreases |s|
  {
    if s != [] {
      assert line[j] == s[0];
      assert line[j + 1..j + 1 + |s[1..]|] == s[1..];
      DigitRunOf(line, j + 1, s[1..]);
    }
  }

  /** A run of digits between two non-digits is exactly what the group captures. */
  lemma DigitsIn(pre: string, a: string, post: string)
    requires AllDigits(a)
    requires post == [] || !IsDigit(post[0])
    ensures DigitRun(pre + a + post, |pre|) == |a|
    ensures DigitsAt(pre + a + post, |pre|) == DigitsValue(a)
  {
    var line := pre + a + post;
    assert line[|pre|..|pre| + |a|] == a;
    assert |pre| + |a| == |line| || line[|pre| + |a|] == post[0];
    DigitRunOf(line, |pre|, a);
  }

  /** The match is the first "version " followed by a digit, wherever it is. */
  lemma MatchAfterPrefix(prefix: string, tail: string)
    requires 'v' !in prefix
    requires |tail| > 8 && tail[..8] == "version " && IsDigit(tail[8])
    ensures ParseVersionLine(prefix + tail) == Some(GroupsAt(prefix + tail, |prefix| + 8))
  {
    var line := prefix + tail;
    assert line[|prefix|..|prefix| + 8] == tail[..8];
    assert MatchesAt(line, |prefix|);
    forall i | 0 <= i < |prefix|
      ensures !MatchesAt(line, i)
    {
      assert line[i] == prefix[i];
    }
  }

  /** The groups, given where each digit run starts. */
  lemma GroupsAtThree(line: string, j1: nat, j2: nat, j3: nat)
    requires j1 <= |line|
    requires j2 == j1 + DigitRun(line, j1) + 1 && DotDigitBefore(line, j2)
    requires j3 == j2 + DigitRun(line, j2) + 1 && DotDigitBefore(line, j3)
    ensures GroupsAt(line, j1) == Version(DigitsAt(line, j1), DigitsAt(line, j2), DigitsAt(line, j3))
  {
  }

  lemma GroupsAtTwo(line: string, j1: nat, j2: nat, j3: nat)
    requires j1 <= |line|
    requires j2 == j1 + DigitRun(line, j1) + 1 && DotDigitBefore(line, j2)
    requires j3 == j2 + DigitRun(line, j2) + 1 && !DotDigitBefore(line, j3)
    ensures GroupsAt(line, j1) == Version(DigitsAt(line, j1), DigitsAt(line, j2), 0)
  {
  }

  lemma GroupsAtOne(line: string, j1: nat, j2: nat)
    requires j1 <= |line|
    requires j2 == j1 + DigitRun(line, j1) + 1 && !DotDigitBefore(line, j2)
    ensures GroupsAt(line, j1) == Version(DigitsAt(line, j1), 0, 0)
  {
  }

  /** A digit run followed by a dot and another digit: the optional group continues. */
  lemma NumberThenDot(pre: string, a: string, b: string, post: string)
    requires AllDigits(a) && AllDigits(b) && |b| > 0
    ensures DigitRun(pre + a + "." + b + post, |pre|) == |a|
    ensures DigitsAt(pre + a + "." + b + post, |pre|) == DigitsValue(a)
    ensures DotDigitBefore(pre + a + "." + b + post, |pre + a + "."|)
  {
    var line := pre + a + "." + b + post;
    assert line == pre + a + ("." + b + post);
    DigitsIn(pre, a, "." + b + post);
    assert line[|pre| + |a| + 1] == b[0];
  }

  /** A digit run followed by neither a dot-and-digit nor a digit: no further group. */
  lemma NumberThenEnd(pre: string, a: string, rest: string)
    requires AllDigits(a)
    requires rest == [] || (!IsDigit(rest[0]) && rest[0] != '.')
    ensures DigitRun(pre + a + rest, |pre|) == |a|
    ensures DigitsAt(pre + a + rest, |pre|) == DigitsValue(a)
    ensures !DotDigitBefore(pre + a + rest, |pre| + |a| + 1)
  {
    var line := pre + a + rest;
    DigitsIn(pre, a, rest);
    assert |pre| + |a| == |line| || line[|pre| + |a|] == rest[0];
  }

  lemma Assoc(x: string, y: string, z: string)
    ensures x + (y + z) == x + y + z
  {
  }

  lemma RegroupTail(x: string, b: string, y: string, c: string, r: string)
    ensures x + b + (y + c + r) == x + b + y + c + r
  {
  }

  lemma RegroupDot(x: string, b: string, r: string)
    ensures x + b + "." + r == x + (b + "." + r)
  {
  }

  /** Three digit runs separated by dots, then a non-digit: all three groups are taken. */
  lemma ThreeGroups(pre: string, a: string, b: string, c: string, rest: string)
    requires AllDigits(a) && AllDigits(b) && AllDigits(c) && |b| > 0 && |c| > 0
    requires rest == [] || !IsDigit(rest[0])
    ensures GroupsAt(pre + a + "." + b + "." + c + rest, |pre|)
         == Version(DigitsValue(a), DigitsValue(b), DigitsValue(c))
  {
    var pre2 := pre + a + ".";
    var pre3 := pre2 + b + ".";
    var line := pre3 + c + rest;
    NumberThenDot(pre, a, b, "." + c + rest);
    RegroupTail(pre + a + ".", b, ".", c, rest);
    NumberThenDot(pre2, b, c, rest);
    DigitsIn(pre3, c, rest);
    GroupsAtThree(line, |pre|, |pre2|, |pre3|);
  }

  /** Two digit runs separated by a dot, then neither a digit nor a dot: the third group is absent. */
  lemma TwoGroups(pre: string, a: string, b: string, rest: string)
    requires AllDigits(a) && AllDigits(b) && |b| > 0
    requires rest == [] || (!IsDigit(rest[0]) && rest[0] != '.')
    ensures GroupsAt(pre + a + "." + b + rest, |pre|) == Version(DigitsValue(a), DigitsValue(b), 0)
  {
    var pre2 := pre + a + ".";
    var line := pre2 + b + rest;
    NumberThenDot(pre, a, b, rest);
    NumberThenEnd(pre2, b, rest);
    GroupsAtTwo(line, |pre|, |pre2|, |pre2| + |b| + 1);
  }

  /** One digit run, then neither a digit nor a dot: the second and third groups are absent. */
  lemma OneGroup(pre: string, a: string, rest: string)
    requires AllDigits(a)
    requires rest == [] || (!IsDigit(rest[0]) && rest[0] != '.')
    ensures GroupsAt(pre + a + rest, |pre|) == Version(DigitsValue(a), 0, 0)
  {
    NumberThenEnd(pre, a, rest);
    GroupsAtOne(pre + a + rest, |pre|, |pre| + |a| + 1);
  }

  /**
   * Reading back a line that carries "version M.m.u" (as the VERSION.txt
   * line "ACE version M.m.u, released ..." does) yields exactly (M, m, u).
   */
  lemma ParseDottedRoundTrip(prefix: string, v: Version, rest: string)
    requires 'v' !in prefix
    requires rest == [] || !IsDigit(rest[0])
    ensures ParseVersionLine(prefix + "version " + Dotted(v) + rest) == Some(v)
  {
    var a, b, c := NatToString(v.major), NatToString(v.minor), NatToString(v.micro);
    var p := prefix + "version ";
    var tail := "version " + Dotted(v) + rest;
    Assoc(prefix, "version " + Dotted(v), rest);
    Assoc(prefix, "version ", Dotted(v));
    assert tail[8] == a[0];
    MatchAfterPrefix(prefix, tail);
    Assoc(p, a + "." + b + ".", c);
    Assoc(p, a + "." + b, ".");
    Assoc(p, a + ".", b);
    Assoc(p, a, ".");
    ThreeGroups(p, a, b, c, rest);
    NatToStringRoundTrip(v.major);
    NatToStringRoundTrip(v.minor);
    NatToStringRoundTrip(v.micro);
  }

  /** Missing minor and micro read as 0: "version 6" gives (6, 0, 0). */
  lemma ParseMajorOnly(prefix: string, major: nat, rest: string)
    requires 'v' !in prefix
    requires rest == [] || (!IsDigit(rest[0]) && rest[0] != '.')
    ensures ParseVersionLine(prefix + "version " + NatToString(major) + rest) == Some(Version(major, 0, 0))
  {
    var a := NatToString(major);
    var tail := "version " + a + rest;
    Assoc(prefix, "version " + a, rest);
    Assoc(prefix, "version ", a);
    assert tail[8] == a[0];
    MatchAfterPrefix(prefix, tail);
    OneGroup(prefix + "version ", a, rest);
    NatToStringRoundTrip(major);
  }

  /** A missing micro reads as 0: "version 6.2" gives (6, 2, 0). */
  lemma ParseMajorMinor(prefix: string, major: nat, minor: nat, rest: string)
    requires 'v' !in prefix
    requires rest == [] || (!IsDigit(rest[0]) && rest[0] != '.')
    ensures ParseVersionLine(prefix + "version " + NatToString(major) + "." + NatToString(minor) + rest)
         == Some(Version(major, minor, 0))
  {
    var a, b := NatToString(major), NatToString(minor);
    var tail := "version " + a + "." + b + rest;
    Assoc(prefix, "version " + a + "." + b, rest);
    Assoc(prefix, "version " + a + ".", b);
    Assoc(prefix, "version " + a, ".");
    Assoc(prefix, "version ", a);
    assert tail[8] == a[0];
    MatchAfterPrefix(prefix, tail);
    TwoGroups(prefix + "version ", a, b, rest);
    NatToStringRoundTrip(major);
    NatToStringRoundTrip(minor);
  }

  // ---------------------------------------------------------------------
  // The version dictionaries and get_comp_versions
  // ---------------------------------------------------------------------

  /**
   * The keys one component owns in `comp_versions` / `old_comp_versions`:
   * `_major`, `_minor`, `_micro` (ints), `_version`, `_version_` and, in
   * `comp_versions` only, `_code` (strings).
   */
  datatype VersionEntry = VersionEntry(numbers: Version, version: string, versionUnderscore: string, code: Option<string>)

  /** The strings derived from a version, as get_comp_versions stores them. */
  predicate Derived(e: VersionEntry, withCode: bool)
  {
    && e.version == Dotted(e.numbers)
    && e.versionUnderscore == Underscored(e.numbers)
    && e.code == (if withCode then Some(NatToString(Code(e.numbers))) else None)
  }

  function NewEntry(v: Version): (e: VersionEntry)
    ensures Derived(e, true) && e.numbers == v
  {
    VersionEntry(v, Dotted(v), Underscored(v), Some(NatToString(Code(v))))
  }

  function OldEntry(v: Version): (e: VersionEntry)
    ensures Derived(e, false) && e.numbers == v
  {
    VersionEntry(v, Dotted(v), Underscored(v), None)
  }

  /** Why get_comp_versions raises. */
  datatype VersionError =
    | VersionNotFound   // the first line of VERSION.txt does not match
    | MissingKey        // VERSION.txt is empty and the component has no numbers yet

  datatype Outcome = Done | Raised(error: VersionError)

  /**
   * The version get_comp_versions starts from: the first line of
   * VERSION.txt decides (a first line without the pattern is fatal); an
   * empty file falls back to the numbers already held for the component.
   */
  function CurrentVersion(versionFile: seq<string>, held: Option<Version>): (r: Option<Version>)
    ensures versionFile != [] ==> r == ParseVersionLine(versionFile[0])
    ensures versionFile == [] ==> r == held
  {
    if versionFile == [] then held else ParseVersionLine(versionFile[0])
  }

  /** The two dictionaries the script keeps at module level. */
  class ReleaseVersions {
    var compVersions: map<string, VersionEntry>
    var oldCompVersions: map<string, VersionEntry>

    ghost predicate Valid()
      reads this
    {
      && (forall c :: c in compVersions ==> Derived(compVersions[c], true))
      && (forall c :: c in oldCompVersions ==> Derived(oldCompVersions[c], false))
    }

    constructor ()
      ensures Valid() && compVersions == map[] && oldCompVersions == map[]
    {
      compVersions := map[];
      oldCompVersions := map[];
    }

    /**
     * `get_comp_versions(component)`, with the lines of the component's
     * VERSION.txt and the `--update` / release-type options as inputs.
     * On success the old dictionary holds the version read and the current
     * one the bumped version; on failure neither changes.
     */
    method GetCompVersions(component: string, versionFile: seq<string>, update: bool, releaseType: Option<ReleaseType>)
      returns (r: Outcome)
      requires Valid()
      modifies this
      ensures Valid()
      ensures
        var held := if component in old(compVersions) then Some(old(compVersions)[component].numbers) else None;
        match CurrentVersion(versionFile, held)
        case None =>
          && r == Raised(if versionFile == [] then MissingKey else VersionNotFound)
          && compVersions == old(compVersions) && oldCompVersions == old(oldCompVersions)
        case Some(v) =>
          && r == Done
          && compVersions == old(compVersions)[component := NewEntry(Bump(v, update, releaseType))]
          && oldCompVersions == old(oldCompVersions)[component := OldEntry(v)]
    {
      var version: Option<Version> := None;
      var i := 0;
      // the loop stops at the first line: it either matches or is fatal
      while i < |versionFile| && version.None?
        invariant i <= 1 && i <= |versionFile|
        invariant i == 0 <==> version.None?
        invariant i == 1 ==> version == ParseVersionLine(versionFile[0])
      {
        var m := ParseVersionLine(versionFile[i]);
        if m.None? {
          return Raised(VersionNotFound);
        }
        version := m;
        i := i + 1;
      }
      if version.None? {
        if component !in compVersions {
          return Raised(MissingKey);
        }
        version := Some(compVersions[component].numbers);
      }
      Record(component, version.value, update, releaseType);
      r := Done;
    }

    /** Stores the version read in the old dictionary and its bump in the current one. */
    method Record(component: string, v: Version, update: bool, releaseType: Option<ReleaseType>)
      requires Valid()
      modifies this
      ensures Valid()
      ensures compVersions == old(compVersions)[component := NewEntry(Bump(v, update, releaseType))]
      ensures oldCompVersions == old(oldCompVersions)[component := OldEntry(v)]
    {
      oldCompVersions := oldCompVersions[component := OldEntry(v)];
      compVersions := compVersions[component := NewEntry(Bump(v, update, releaseType))];
    }
  }

  // ---------------------------------------------------------------------
  // Tags and paths
  // ---------------------------------------------------------------------

  /** "ACE+TAO-M_m_u": the "%d_%d_%d" of the three numbers is the `_version_` form. */
  function Tag(v: Version): (r: string)
    ensures |r| > 8 && r[..8] == "ACE+TAO-"
    ensures forall i :: 8 <= i < |r| ==> IsDigit(r[i]) || r[i] == '_'
  {
    "ACE+TAO-" + Underscored(v)
  }

  /** `get_tag(verdict, component)`; a missing component is the KeyError. */
  function GetTag(verdict: map<string, VersionEntry>, component: string): (r: Option<string>)
    ensures r.Some? <==> component in verdict
    ensures r.Some? ==> r.value == Tag(verdict[component].numbers)
  {
    if component in verdict then Some(Tag(verdict[component].numbers)) else None
  }

  /** The tag is "ACE+TAO-" followed by the stored `_version_` string. */
  lemma TagIsVersionUnderscore(verdict: map<string, VersionEntry>, component: string, withCode: bool)
    requires component in verdict && Derived(verdict[component], withCode)
    ensures GetTag(verdict, component) == Some("ACE+TAO-" + verdict[component].versionUnderscore)
  {
  }

  /** Different versions get different tags, so every bump yields a new tag. */
  lemma {:induction false} TagInjective(v: Version, w: Version)
    requires Tag(v) == Tag(w)
    ensures v == w
  {
    assert Underscored(v) == Tag(v)[8..] && Underscored(w) == Tag(w)[8..];
    UnderscoredIsDotted(v);
    UnderscoredIsDotted(w);
    assert Dotted(v) == Dotted(w);
    ParseDottedRoundTrip([], v, []);
    ParseDottedRoundTrip([], w, []);
  }

  lemma BumpChangesTag(v: Version, releaseType: ReleaseType)
    ensures Tag(Bump(v, true, Some(releaseType))) != Tag(v)
  {
    if Tag(Bump(v, true, Some(releaseType))) == Tag(v) {
      TagInjective(Bump(v, true, Some(releaseType)), v);
      BumpIncreases(v, releaseType);
    }
  }

  /**
   * `get_path(component, subpath)`: "<doc_root>/ACE_TAO/", then
   * "<component>/<subpath>" when a component is given.
   */
  function GetPath(docRoot: string, component: Option<string>, subpath: string): (r: string)
    ensures docRoot + "/ACE_TAO/" <= r
    ensures component.Some? ==> |r| == |docRoot| + 9 + |component.value| + 1 + |subpath|
  {
    var rv := docRoot + "/ACE_TAO/";
    if component.Some? then rv + component.value + "/" + subpath else rv
  }

  /** Every path get_path builds lies under the root path `get_path()`, one component deep. */
  lemma GetPathUnderRoot(docRoot: string, component: Option<string>, subpath: string)
    ensures GetPath(docRoot, None, "") <= GetPath(docRoot, component, subpath)
    ensures component.Some? ==>
      GetPath(docRoot, component, subpath) == GetPath(docRoot, None, "") + (component.value + "/" + subpath)
  {
  }

  // ---------------------------------------------------------------------
  // commit: stripping the root path from the file names
  // ---------------------------------------------------------------------

  /** One element of the comprehension: drop `root` when the name starts with it. */
  function StripPrefix(name: string, root: string): (r: string)
    ensures root <= name ==> root + r == name
    ensures !(root <= name) ==> r == name
  {
    if root <= name then name[|root|..] else name
  }

  function StripRoot(files: seq<string>, root: string): (r: seq<string>)
    ensures |r| == |files|
    ensures forall i :: 0 <= i < |files| ==> r[i] == StripPrefix(files[i], root)
  {
    seq(|files|, i requires 0 <= i < |files| => StripPrefix(files[i], root))
  }

  /** What `commit(files)` adds and the message it commits with. */
  datatype CommitPlan = CommitPlan(message: string, added: seq<string>)

  function Commit(compVersions: map<string, VersionEntry>, docRoot: string, files: seq<string>): (r: Option<CommitPlan>)
    ensures r.Some? <==> "ACE" in compVersions
    ensures r.Some? ==> r.value.message == Tag(compVersions["ACE"].numbers)
    ensures r.Some? ==> |r.value.added| == |files|
    ensures r.Some? ==> r.value.added == StripRoot(files, GetPath(docRoot, None, ""))
  {
    match GetTag(compVersions, "ACE")
    case None => None
    case Some(version) => Some(CommitPlan(version, StripRoot(files, GetPath(docRoot, None, ""))))
  }

  /**
   * A path built by get_path is committed relative to the repository root,
   * as "<component>/<subpath>"; a name outside the root is left as given.
   */
  lemma CommitRelativizes(compVersions: map<string, VersionEntry>, docRoot: string, component: string, subpath: string, other: string)
    requires "ACE" in compVersions
    requires !(GetPath(docRoot, None, "") <= other)
    ensures Commit(compVersions, docRoot, [GetPath(docRoot, Some(component), subpath), other]).value.added
         == [component + "/" + subpath, other]
  {
    var root := GetPath(docRoot, None, "");
    var p := GetPath(docRoot, Some(component), subpath);
    assert root + (component + "/" + subpath) == p;
    assert StripPrefix(p, root) == component + "/" + subpath;
  }

  // ---------------------------------------------------------------------
  // update_spec_file: the line rewrite of rpmbuild/ace-tao.spec
  // ---------------------------------------------------------------------

  predicate OccursAt(s: string, p: string, k: nat)
  {
    k + |p| <= |s| && s[k..k + |p|] == p
  }

  /** Python's `s.find(p, from)`: the first occurrence at or after `from`, or -1. */
  function FindFrom(s: string, p: string, from: nat): (r: int)
    ensures r == -1 || (from <= r && OccursAt(s, p, r))
    ensures r == -1 ==> forall k :: from <= k ==> !OccursAt(s, p, k)
    ensures r != -1 ==> forall k :: from <= k < r ==> !OccursAt(s, p, k)
    decreases |s| + 1 - from
  {
    if from + |p| > |s| then -1
    else if s[from..from + |p|] == p then from
    else FindFrom(s, p, from + 1)
  }

  function Find(s: string, p: string): int
  {
    FindFrom(s, p, 0)
  }

  /** A pattern holding a character the string lacks is not found. */
  lemma NotFoundWithout(s: string, p: string, c: char)
    requires c in p && c !in s
    ensures Find(s, p) == -1
  {
  }

  /** A pattern that occurs is found. */
  lemma FoundAt(s: string, p: string, k: nat)
    requires OccursAt(s, p, k)
    ensures Find(s, p) != -1
  {
  }

  const AceVerKey := "define ACEVER "
  const TaoVerKey := "define TAOVER "
  const MajorVerKey := "define is_major_ver"

  const AceHead := "%define ACEVER  "
  const TaoHead := "%define TAOVER  "
  const MajorHead := "%define is_major_ver "

  /** The ACEVER check; `None` is the KeyError of a missing `ACE_version`. */
  function AceStep(line: string, aceVersion: Option<string>): Option<string>
  {
    if Find(line, AceVerKey) == -1 then Some(line)
    else if aceVersion.None? then None
    else Some(AceHead + aceVersion.value + "\n")
  }

  /** The TAOVER check; `None` is the KeyError of a missing `TAO_version`. */
  function TaoStep(line: string, taoVersion: Option<string>): Option<string>
  {
    if Find(line, TaoVerKey) == -1 then Some(line)
    else if taoVersion.None? then None
    else Some(TaoHead + taoVersion.value + "\n")
  }

  /** The is_major_ver flag: 0 for a micro release, 1 otherwise (also with no release type). */
  function MajorFlag(releaseType: Option<ReleaseType>): string
  {
    if releaseType == Some(MicroRelease) then "0" else "1"
  }

  /** The is_major_ver check. */
  function MajorStep(line: string, releaseType: Option<ReleaseType>): string
  {
    if Find(line, MajorVerKey) == -1 then line else MajorHead + MajorFlag(releaseType) + "\n"
  }

  /** The three checks of one line, each on the line the previous check left. */
  function RewriteSpecLine(line: string, aceVersion: Option<string>, taoVersion: Option<string>,
                           releaseType: Option<ReleaseType>): Option<string>
  {
    match AceStep(line, aceVersion)
    case None => None
    case Some(afterAce) =>
      match TaoStep(afterAce, taoVersion)
      case None => None
      case Some(afterTao) => Some(MajorStep(afterTao, releaseType))
  }

  /**
   * Each of the three checks raises only for a line holding its key when
   * the version it needs is missing, changes only a line holding its key,
   * and writes a whole newline-terminated line; with both versions known
   * the line rewrite never raises.
   */
  lemma SpecStepsTouchOnlyKeyLines(line: string, aceVersion: Option<string>, taoVersion: Option<string>,
                                   releaseType: Option<ReleaseType>)
    ensures var r := AceStep(line, aceVersion);
      && (r.None? <==> Find(line, AceVerKey) != -1 && aceVersion.None?)
      && (r.Some? && r.value != line ==> Find(line, AceVerKey) != -1 && r.value[|r.value| - 1] == '\n')
    ensures var r := TaoStep(line, taoVersion);
      && (r.None? <==> Find(line, TaoVerKey) != -1 && taoVersion.None?)
      && (r.Some? && r.value != line ==> Find(line, TaoVerKey) != -1 && r.value[|r.value| - 1] == '\n')
    ensures var r := MajorStep(line, releaseType);
      r != line ==> Find(line, MajorVerKey) != -1 && r[|r| - 1] == '\n' && r[|r| - 2] == (if releaseType == Some(MicroRelease) then '0' else '1')
    ensures aceVersion.Some? && taoVersion.Some? ==> RewriteSpecLine(line, aceVersion, taoVersion, releaseType).Some?
  {
  }

  lemma NoCharInConcat(a: string, b: string, c: string, ch: char)
    requires ch !in a && ch !in b && ch !in c
    ensures ch !in a + b + c
  {
  }

  lemma DigitsLackLetters(s: string, ch: char)
    requires AllDigits(s) && !IsDigit(ch) && ch != '.'
    ensures ch !in s
  {
  }

  lemma DottedLacks(v: Version, ch: char)
    requires !IsDigit(ch) && ch != '.'
    ensures ch !in Dotted(v)
  {
    DigitsLackLetters(NatToString(v.major), ch);
    DigitsLackLetters(NatToString(v.minor), ch);
    DigitsLackLetters(NatToString(v.micro), ch);
  }

  /** The line the ACEVER rewrite leaves holds neither of the later keys. */
  lemma AceLineLacksLaterKeys(ace: Version)
    ensures Find(AceHead + Dotted(ace) + "\n", TaoVerKey) == -1
    ensures Find(AceHead + Dotted(ace) + "\n", MajorVerKey) == -1
  {
    assert TaoVerKey[7] == 'T' && MajorVerKey[9] == '_';
    assert 'T' !in AceHead && '_' !in AceHead;
    DottedLacks(ace, 'T');
    DottedLacks(ace, '_');
    NoCharInConcat(AceHead, Dotted(ace), "\n", 'T');
    NoCharInConcat(AceHead, Dotted(ace), "\n", '_');
    NotFoundWithout(AceHead + Dotted(ace) + "\n", TaoVerKey, 'T');
    NotFoundWithout(AceHead + Dotted(ace) + "\n", MajorVerKey, '_');
  }

  /** The line the TAOVER rewrite leaves does not hold the is_major_ver key. */
  lemma TaoLineLacksMajorKey(tao: Version)
    ensures Find(TaoHead + Dotted(tao) + "\n", MajorVerKey) == -1
  {
    assert MajorVerKey[9] == '_' && '_' !in TaoHead;
    DottedLacks(tao, '_');
    NoCharInConcat(TaoHead, Dotted(tao), "\n", '_');
    NotFoundWithout(TaoHead + Dotted(tao) + "\n", MajorVerKey, '_');
  }

  /**
   * With the versions get_comp_versions stores, a spec line is rewritten by
   * the first key it holds (ACEVER, then TAOVER, then is_major_ver, which is
   * 0 only for a micro release), and a line with none of them is unchanged.
   */
  lemma SpecLineRewrite(line: string, ace: Version, tao: Version, releaseType: Option<ReleaseType>)
    ensures var r := RewriteSpecLine(line, Some(Dotted(ace)), Some(Dotted(tao)), releaseType);
      && r.Some?
      && (Find(line, AceVerKey) != -1 ==> r.value == AceHead + Dotted(ace) + "\n")
      && (Find(line, AceVerKey) == -1 && Find(line, TaoVerKey) != -1 ==>
            r.value == TaoHead + Dotted(tao) + "\n")
      && (Find(line, AceVerKey) == -1 && Find(line, TaoVerKey) == -1 && Find(line, MajorVerKey) != -1 ==>
            r.value == MajorHead + MajorFlag(releaseType) + "\n")
      && (Find(line, AceVerKey) == -1 && Find(line, TaoVerKey) == -1 && Find(line, MajorVerKey) == -1 ==>
            r.value == line)
  {
    if Find(line, AceVerKey) != -1 {
      AceLineLacksLaterKeys(ace);
    } else if Find(line, TaoVerKey) != -1 {
      TaoLineLacksMajorKey(tao);
    }
  }

  /** A key right after the leading '%' of a rewritten line is still found, whatever follows. */
  lemma KeyAfterPercent(head: string, key: string, x: string, y: string)
    requires OccursAt(head, key, 1)
    ensures Find(head + x + y, key) != -1
  {
    var line := head + x + y;
    assert line[1..1 + |key|] == head[1..1 + |key|];
    FoundAt(line, key, 1);
  }

  lemma AceLineStable(ace: Version, tao: Version, releaseType: Option<ReleaseType>)
    ensures var l := AceHead + Dotted(ace) + "\n";
      RewriteSpecLine(l, Some(Dotted(ace)), Some(Dotted(tao)), releaseType) == Some(l)
  {
    assert OccursAt(AceHead, AceVerKey, 1);
    KeyAfterPercent(AceHead, AceVerKey, Dotted(ace), "\n");
    SpecLineRewrite(AceHead + Dotted(ace) + "\n", ace, tao, releaseType);
  }

  lemma TaoLineStable(ace: Version, tao: Version, releaseType: Option<ReleaseType>)
    ensures var l := TaoHead + Dotted(tao) + "\n";
      RewriteSpecLine(l, Some(Dotted(ace)), Some(Dotted(tao)), releaseType) == Some(l)
  {
    var l := TaoHead + Dotted(tao) + "\n";
    assert OccursAt(TaoHead, TaoVerKey, 1);
    KeyAfterPercent(TaoHead, TaoVerKey, Dotted(tao), "\n");
    assert AceVerKey[8] == 'C' && 'C' !in TaoHead;
    DottedLacks(tao, 'C');
    NoCharInConcat(TaoHead, Dotted(tao), "\n", 'C');
    NotFoundWithout(l, AceVerKey, 'C');
    SpecLineRewrite(l, ace, tao, releaseType);
  }

  lemma MajorHeadKeys()
    ensures OccursAt(MajorHead, MajorVerKey, 1)
    ensures 'C' !in MajorHead && 'T' !in MajorHead
  {
  }

  /** An is_major_ver line holds its own key and neither of the earlier ones. */
  lemma MajorLineKeys(flag: string)
    requires 'C' !in flag && 'T' !in flag
    ensures Find(MajorHead + flag + "\n", MajorVerKey) != -1
    ensures Find(MajorHead + flag + "\n", AceVerKey) == -1
    ensures Find(MajorHead + flag + "\n", TaoVerKey) == -1
  {
    var l := MajorHead + flag + "\n";
    MajorHeadKeys();
    KeyAfterPercent(MajorHead, MajorVerKey, flag, "\n");
    assert AceVerKey[8] == 'C' && TaoVerKey[7] == 'T';
    NoCharInConcat(MajorHead, flag, "\n", 'C');
    NoCharInConcat(MajorHead, flag, "\n", 'T');
    NotFoundWithout(l, AceVerKey, 'C');
    NotFoundWithout(l, TaoVerKey, 'T');
  }

  lemma MajorLineStable(ace: Version, tao: Version, releaseType: Option<ReleaseType>)
    ensures var l := MajorHead + MajorFlag(releaseType) + "\n";
      RewriteSpecLine(l, Some(Dotted(ace)), Some(Dotted(tao)), releaseType) == Some(l)
  {
    var flag := MajorFlag(releaseType);
    assert 'C' !in flag && 'T' !in flag;
    MajorLineKeys(flag);
  }

  /** Rewriting the spec file a second time changes nothing. */
  lemma SpecLineIdempotent(line: string, ace: Version, tao: Version, releaseType: Option<ReleaseType>)
    ensures var r := RewriteSpecLine(line, Some(Dotted(ace)), Some(Dotted(tao)), releaseType);
      r.Some? && RewriteSpecLine(r.value, Some(Dotted(ace)), Some(Dotted(tao)), releaseType) == r
  {
    SpecLineRewrite(line, ace, tao, releaseType);
    if Find(line, AceVerKey) != -1 {
      AceLineStable(ace, tao, releaseType);
    } else if Find(line, TaoVerKey) != -1 {
      TaoLineStable(ace, tao, releaseType);
    } else if Find(line, MajorVerKey) != -1 {
      MajorLineStable(ace, tao, releaseType);
    }
  }

  /**
   * A file rewritten line by line with `rewrite`, which may fail (`None`);
   * the first failure fails the whole file.
   */
  function RewriteLines(lines: seq<string>, rewrite: string -> Option<string>): (r: Option<seq<string>>)
    ensures r.Some? ==> |r.value| == |lines|
  {
    if lines == [] then Some([])
    else
      match RewriteLines(lines[..|lines| - 1], rewrite)
      case None => None
      case Some(init) =>
        match rewrite(lines[|lines| - 1])
        case None => None
        case Some(last) => Some(init + [last])
  }

  /** It fails exactly when some line does; otherwise line i of the result is line i rewritten. */
  lemma {:induction false} RewriteLinesEach(lines: seq<string>, rewrite: string -> Option<string>)
    ensures var r := RewriteLines(lines, rewrite);
      && (r.Some? <==> forall i :: 0 <= i < |lines| ==> rewrite(lines[i]).Some?)
      && (r.Some? ==> forall i :: 0 <= i < |lines| ==> Some(r.value[i]) == rewrite(lines[i]))
  {
    if lines != [] {
      var init := lines[..|lines| - 1];
      RewriteLinesEach(init, rewrite);
      assert forall i :: 0 <= i < |init| ==> init[i] == lines[i];
    }
  }

  /** A failure on the first k lines is a failure of the whole file. */
  lemma {:induction false} RewriteLinesFailsEarly(lines: seq<string>, k: nat, rewrite: string -> Option<string>)
    requires k <= |lines| && RewriteLines(lines[..k], rewrite).None?
    ensures RewriteLines(lines, rewrite).None?
    decreases |lines|
  {
    if k == |lines| {
      assert lines[..k] == lines;
    } else {
      var init := lines[..|lines| - 1];
      assert init[..k] == lines[..k];
      RewriteLinesFailsEarly(init, k, rewrite);
    }
  }

  /** The file text: the lines one after the other (each keeps its newline). */
  function Concat(lines: seq<string>): string
  {
    if lines == [] then [] else Concat(lines[..|lines| - 1]) + lines[|lines| - 1]
  }

  /** One more line rewritten: the rewrite of the longer prefix, and the text it adds. */
  lemma RewriteLinesStep(lines: seq<string>, i: nat, done: seq<string>, rewrite: string -> Option<string>)
    requires i < |lines| && RewriteLines(lines[..i], rewrite) == Some(done)
    ensures rewrite(lines[i]).None? ==> RewriteLines(lines[..i + 1], rewrite).None?
    ensures rewrite(lines[i]).Some? ==>
      && RewriteLines(lines[..i + 1], rewrite) == Some(done + [rewrite(lines[i]).value])
      && Concat(done + [rewrite(lines[i]).value]) == Concat(done) + rewrite(lines[i]).value
  {
    assert lines[..i + 1][..i] == lines[..i];
    if rewrite(lines[i]).Some? {
      assert (done + [rewrite(lines[i]).value])[..|done|] == done;
    }
  }

  /** The line rewrite of update_spec_file, for fixed versions and release type. */
  function SpecRewriter(aceVersion: Option<string>, taoVersion: Option<string>,
                        releaseType: Option<ReleaseType>): string -> Option<string>
  {
    line => RewriteSpecLine(line, aceVersion, taoVersion, releaseType)
  }

  /** The rewritten lines of the whole spec file; `None` once a line hits a missing version. */
  function RewriteSpec(lines: seq<string>, aceVersion: Option<string>, taoVersion: Option<string>,
                       releaseType: Option<ReleaseType>): (r: Option<seq<string>>)
    ensures r.Some? ==> |r.value| == |lines|
  {
    RewriteLines(lines, SpecRewriter(aceVersion, taoVersion, releaseType))
  }

  /**
   * The spec file is rewritten line by line: it fails exactly when some
   * line needs a missing version, and otherwise line i of the result is
   * line i rewritten.
   */
  lemma RewriteSpecLines(lines: seq<string>, aceVersion: Option<string>, taoVersion: Option<string>,
                         releaseType: Option<ReleaseType>)
    ensures var r := RewriteSpec(lines, aceVersion, taoVersion, releaseType);
      && (r.Some? <==> forall i :: 0 <= i < |lines| ==> RewriteSpecLine(lines[i], aceVersion, taoVersion, releaseType).Some?)
      && (r.Some? ==> forall i :: 0 <= i < |lines| ==>
            Some(r.value[i]) == RewriteSpecLine(lines[i], aceVersion, taoVersion, releaseType))
  {
    RewriteLinesEach(lines, SpecRewriter(aceVersion, taoVersion, releaseType));
  }

  /**
   * The loop of update_spec_file: each line read is put through `rewrite`
   * and appended to `new_spec`; a failing line stops the loop.
   */
  method RewriteFile(lines: seq<string>, rewrite: string -> Option<string>) returns (newText: Option<string>)
    ensures var r := RewriteLines(lines, rewrite);
      && (newText.Some? <==> r.Some?)
      && (newText.Some? ==> newText.value == Concat(r.value))
  {
    var text := "";
    ghost var done: seq<string> := [];
    var i := 0;
    while i < |lines|
      invariant 0 <= i <= |lines|
      invariant RewriteLines(lines[..i], rewrite) == Some(done)
      invariant text == Concat(done)
    {
      var line := rewrite(lines[i]);
      RewriteLinesStep(lines, i, done, rewrite);
      if line.None? {
        RewriteLinesFailsEarly(lines, i + 1, rewrite);
        return None;
      }
      done := done + [line.value];
      text := text + line.value;
      i := i + 1;
    }
    assert lines[..i] == lines;
    newText := Some(text);
  }

  /**
   * `update_spec_file`: the spec file's lines rewritten by the three checks
   * and joined into `new_spec`; `None` when a needed version is missing.
   */
  method UpdateSpecFile(lines: seq<string>, aceVersion: Option<string>, taoVersion: Option<string>,
                        releaseType: Option<ReleaseType>) returns (newSpec: Option<string>)
    ensures var r := RewriteSpec(lines, aceVersion, taoVersion, releaseType);
      && (newSpec.Some? <==> r.Some?)
      && (newSpec.Some? ==> newSpec.value == Concat(r.value))
  {
    newSpec := RewriteFile(lines, SpecRewriter(aceVersion, taoVersion, releaseType));
  }
}
