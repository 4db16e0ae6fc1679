/**
 * Release notes for the updater: version strings become comparable numbers,
 * placeholder notes are recognised, and the sections of a changelog between
 * two versions are picked out of its text.
 */
module ReleaseNotes {
  import opened Wrappers
  import opened Text

  // ---- version numbers ----

  const Modulus: nat := U32Max + 1

  /** `saturating_mul` on `u32`: the product, capped at the largest `u32`. */
  function SatMul(a: nat, k: nat): (r: nat)
    ensures r <= U32Max
    ensures a * k <= U32Max ==> r == a * k
  {
    if a * k <= U32Max then a * k else U32Max
  }

  /** `saturating_add` on `u32`. */
  function SatAdd(a: nat, b: nat): (r: nat)
    ensures r <= U32Max
    ensures a + b <= U32Max ==> r == a + b
  {
    if a + b <= U32Max then a + b else U32Max
  }

  /** `u32 + u32` in a release build, where overflow wraps around. */
  function WrapAdd(a: nat, b: nat): (r: nat)
    ensures r < Modulus
  {
    (a + b) % Modulus
  }

  /** The number a version's three components map to, as written: products saturate, sums wrap. */
  function SemverValueAsWritten(major: nat, minor: nat, patch: nat): nat {
    WrapAdd(WrapAdd(SatMul(major, 10_000), SatMul(minor, 100)), patch)
  }

  /** The number a version's three components map to, with every step saturating. */
  function SemverValue(major: nat, minor: nat, patch: nat): (r: nat)
    ensures r <= U32Max
  {
    SatAdd(SatAdd(SatMul(major, 10_000), SatMul(minor, 100)), patch)
  }

  /**
   * The sums overflow for a huge major version: `429497.0.1` maps to 0 as
   * written, below `0.0.1`, which maps to 1.
   */
  lemma AsWrittenWrapsAround()
    ensures SemverValueAsWritten(429_497, 0, 1) == 0
    ensures SemverValueAsWritten(0, 0, 1) == 1
    ensures SemverValueAsWritten(429_497, 0, 1) < SemverValueAsWritten(0, 0, 1)
  {
  }

  /** Saturating throughout, a larger component never gives a smaller number. */
  lemma SemverValueMonotone(a: nat, b: nat, c: nat, a2: nat, b2: nat, c2: nat)
    requires a <= a2 && b <= b2 && c <= c2
    ensures SemverValue(a, b, c) <= SemverValue(a2, b2, c2)
  {
    SatMulMonotone(a, a2, 10_000);
    SatMulMonotone(b, b2, 100);
  }

  lemma SatMulMonotone(a: nat, a2: nat, k: nat)
    requires a <= a2
    ensures SatMul(a, k) <= SatMul(a2, k)
  {
    assert a * k <= a2 * k by {
      MulMonotone(a, a2, k);
    }
  }

  lemma MulMonotone(a: nat, a2: nat, k: nat)
    requires a <= a2
    ensures a * k <= a2 * k
  {
  }

  /** Components that fit: the number is `major * 10000 + minor * 100 + patch`, the same either way. */
  lemma SemverValueExact(major: nat, minor: nat, patch: nat)
    requires minor < 100 && patch < 100 && major * 10_000 + 9_999 <= U32Max
    ensures SemverValue(major, minor, patch) == major * 10_000 + minor * 100 + patch
    ensures SemverValueAsWritten(major, minor, patch) == SemverValue(major, minor, patch)
  {
  }

  /**
   * For components that fit, comparing numbers compares versions: the first
   * differing component decides.
   */
  lemma SemverOrder(a: nat, b: nat, c: nat, a2: nat, b2: nat, c2: nat)
    requires b < 100 && c < 100 && a * 10_000 + 9_999 <= U32Max
    requires b2 < 100 && c2 < 100 && a2 * 10_000 + 9_999 <= U32Max
    ensures SemverValue(a, b, c) < SemverValue(a2, b2, c2) <==> (a < a2 || (a == a2 && (b < b2 || (b == b2 && c < c2))))
  {
    SemverValueExact(a, b, c);
    SemverValueExact(a2, b2, c2);
    if a < a2 {
      MulMonotone(a + 1, a2, 10_000);
    } else if a2 < a {
      MulMonotone(a2 + 1, a, 10_000);
    }
  }

  /** The three dot-separated numbers of a version (`v` prefixes and surrounding whitespace dropped); extra parts are ignored. */
  function SemverParts(value: string): (r: Option<(nat, nat, nat)>)
    ensures r.Some? ==> r.value.0 <= U32Max && r.value.1 <= U32Max && r.value.2 <= U32Max
  {
    var parts := Split(TrimStartMatches(Trim(value), 'v'), '.');
    if |parts| < 3 then None
    else
      match (ParseU32(parts[0]), ParseU32(parts[1]), ParseU32(parts[2]))
      case (Some(major), Some(minor), Some(patch)) => Some((major, minor, patch))
      case _ => None
  }

  /** `parse_semver_num` as written (release build). */
  function ParseSemverNumAsWritten(value: string): Option<nat> {
    var parts :- SemverParts(value);
    Some(SemverValueAsWritten(parts.0, parts.1, parts.2))
  }

  /** `parse_semver_num`, with the sums saturating like the products. */
  function ParseSemverNum(value: string): (r: Option<nat>)
    ensures r.Some? <==> SemverParts(value).Some?
    ensures r.Some? ==> r.value <= U32Max
  {
    var parts :- SemverParts(value);
    Some(SemverValue(parts.0, parts.1, parts.2))
  }

  /** Splitting `x.y.z` on dots, when none of the three holds a dot, gives the three back. */
  lemma SplitThree(x: string, y: string, z: string)
    requires '.' !in x && '.' !in y && '.' !in z
    ensures Split(x + "." + y + "." + z, '.') == [x, y, z]
  {
    var r := y + "." + z;
    assert Split(z, '.') == [z];
    SplitAt(y, z);
    SplitAt(x, r);
    DotsAssociate(x, y, z);
  }

  /** Regrouping `x.y.z` as `x.(y.z)`. */
  lemma DotsAssociate(x: string, y: string, z: string)
    ensures x + "." + y + "." + z == x + "." + (y + "." + z)
  {
  }

  /** Splitting `x.rest` on dots, when `x` holds no dot, gives `x` and then the pieces of `rest`. */
  lemma SplitAt(x: string, rest: string)
    requires '.' !in x
    ensures Split(x + "." + rest, '.') == [x] + Split(rest, '.')
  {
    var s := x + "." + rest;
    assert s[|x|] == '.';
    assert s[..|x|] == x;
    assert s[|x| + 1..] == rest;
  }

  /** Digits are never a dot. */
  lemma DigitsHaveNoDot(x: string)
    requires AllDigits(x)
    ensures '.' !in x
  {
  }

  /** `vX.Y.Z` with digit strings `X`, `Y`, `Z` is unchanged by trimming and loses exactly its `v`. */
  lemma VersionTextTrims(x: string, y: string, z: string)
    requires x != [] && z != [] && AllDigits(x) && AllDigits(z)
    ensures Trim("v" + x + "." + y + "." + z) == "v" + x + "." + y + "." + z
    ensures TrimStartMatches(Trim("v" + x + "." + y + "." + z), 'v') == x + "." + y + "." + z
  {
    var core := x + "." + y + "." + z;
    var s := "v" + core;
    assert s == "v" + x + "." + y + "." + z;
    assert s[0] == 'v';
    assert s[|s| - 1] == z[|z| - 1] && IsDigit(z[|z| - 1]);
    TrimUnchanged(s);
    assert s[1..] == core;
    assert core[0] == x[0] && IsDigit(x[0]);
  }

  /** A version written `vX.Y.Z` with three 32-bit decimal numbers parses to their number. */
  lemma SemverTextParses(x: string, y: string, z: string)
    requires AllDigits(x) && AllDigits(y) && AllDigits(z)
    requires ParseU32(x).Some? && ParseU32(y).Some? && ParseU32(z).Some?
    ensures ParseSemverNum("v" + x + "." + y + "." + z) == Some(SemverValue(ParseU32(x).value, ParseU32(y).value, ParseU32(z).value))
  {
    DigitsHaveNoDot(x);
    DigitsHaveNoDot(y);
    DigitsHaveNoDot(z);
    SplitThree(x, y, z);
    VersionTextTrims(x, y, z);
    SemverPartsOfText("v" + x + "." + y + "." + z, x, y, z);
  }

  /** A version printed as `vMAJOR.MINOR.PATCH` parses back to its number. */
  lemma SemverRoundTrip(major: nat, minor: nat, patch: nat)
    requires major <= U32Max && minor <= U32Max && patch <= U32Max
    ensures ParseSemverNum("v" + NatToString(major) + "." + NatToString(minor) + "." + NatToString(patch)) == Some(SemverValue(major, minor, patch))
  {
    ParseU32RoundTrip(major);
    ParseU32RoundTrip(minor);
    ParseU32RoundTrip(patch);
    SemverTextParses(NatToString(major), NatToString(minor), NatToString(patch));
  }

  /** The parts of a version whose trimmed text is `x.y.z` with three numbers. */
  lemma SemverPartsOfText(s: string, x: string, y: string, z: string)
    requires TrimStartMatches(Trim(s), 'v') == x + "." + y + "." + z
    requires Split(x + "." + y + "." + z, '.') == [x, y, z]
    requires ParseU32(x).Some? && ParseU32(y).Some? && ParseU32(z).Some?
    ensures SemverParts(s) == Some((ParseU32(x).value, ParseU32(y).value, ParseU32(z).value))
  {
  }

  // ---- placeholder notes ----

  /** Release notes that say nothing: absent, blank, or a link to the release page. */
  function IsPlaceholderReleaseNotes(body: Option<string>): (r: bool)
    ensures body.None? || IsBlank(body.value) ==> r
    ensures body.Some? && !IsBlank(body.value) && Trim(body.value)[0] != 's' && Trim(body.value)[0] != 'S' ==> !r
  {
    if body.None? then true
    else
      var trimmed := Trim(body.value);
      TrimEmptyIffBlank(body.value);
      if trimmed == [] then true
      else StartsWith(LowerAscii(trimmed), "see release notes at")
  }

  /** The link text is recognised in any letter case, whatever follows it. */
  lemma PlaceholderIgnoresCase(lead: string, rest: string)
    requires |lead| == 20 && LowerAscii(lead) == "see release notes at"
    ensures IsPlaceholderReleaseNotes(Some(lead + rest))
  {
    var s := lead + rest;
    assert ToLowerAscii(lead[0]) == 's' && ToLowerAscii(lead[19]) == 't';
    assert !IsWhitespace(s[0]) && !IsWhitespace(s[19]);
    TrimKeepsPrefix(s, 20);
    var t := Trim(s);
    assert t[..20] == lead;
    LowerAsciiPrefix(t, 20);
    assert StartsWith(LowerAscii(t), "see release notes at");
  }

  /** Whitespace before the notes does not change whether they are a placeholder. */
  lemma PlaceholderSkipsLeadingBlank(ws: string, body: string)
    requires IsBlank(ws)
    ensures IsPlaceholderReleaseNotes(Some(ws + body)) == IsPlaceholderReleaseNotes(Some(body))
  {
    TrimSkipsBlankPrefix(ws, body);
  }

  /**
   * Conversely, a body that is not blank counts as a placeholder only when,
   * once trimmed, it opens with the link text in some letter case.
   */
  lemma PlaceholderOnlyForLinkText(body: string)
    requires !IsBlank(body) && IsPlaceholderReleaseNotes(Some(body))
    ensures |Trim(body)| >= 20 && LowerAscii(Trim(body)[..20]) == "see release notes at"
  {
    TrimEmptyIffBlank(body);
    var t := Trim(body);
    LowerAsciiPrefix(t, 20);
  }

  // ---- changelog sections ----

  const Heading: string := "## ["

  /** A `## [` heading in the changelog: where its line starts and the version it names, if that parses. */
  datatype Marker = Marker(start: nat, version: Option<nat>)

  /** The text between `## [` and the first `]` (or the end of the line). */
  function HeadingVersion(line: string): string
    requires StartsWith(line, Heading)
  {
    Split(line[|Heading|..], ']')[0]
  }

  /** The version a heading line names, if it parses. */
  function LineVersion(line: string): Option<nat> {
    if StartsWith(line, Heading) then ParseSemverNum(HeadingVersion(line)) else None
  }

  /** A line that, without a trailing carriage return, starts with `## [`. */
  predicate IsHeadingLine(line: string)
    ensures IsHeadingLine(line) ==> StartsWith(line, Heading)
  {
    var trimmed := TrimEndMatches(line, '\r');
    assert StartsWith(trimmed, Heading) ==> trimmed[..|Heading|] == line[..|Heading|];
    StartsWith(trimmed, Heading)
  }

  /** The marker of a heading line starting at `offset`. */
  function MarkerOf(line: string, offset: nat): (m: Marker)
    ensures m.start == offset
  {
    Marker(offset, LineVersion(TrimEndMatches(line, '\r')))
  }

  /**
   * The headings among `lines`, the first of which starts at `offset`; each
   * line is followed by one newline.
   */
  function MarkersFrom(lines: seq<string>, offset: nat): seq<Marker>
    decreases |lines|
  {
    if lines == [] then []
    else
      var here := if IsHeadingLine(lines[0]) then [MarkerOf(lines[0], offset)] else [];
      here + MarkersFrom(lines[1..], offset + |lines[0]| + 1)
  }

  /** The headings of a changelog. */
  function Markers(changelog: string): seq<Marker> {
    MarkersFrom(Split(changelog, '\n'), 0)
  }

  /** `s` has a heading line starting at `k`. */
  predicate HeadingAt(s: string, k: nat) {
    k + |Heading| <= |s| && s[k..k + |Heading|] == Heading && (k == 0 || s[k - 1] == '\n')
  }

  /**
   * The headings found are heading lines of the text, in increasing order,
   * each line at least a heading long.
   */
  predicate WellPlaced(s: string, ms: seq<Marker>, offset: nat) {
    AtHeadings(s, ms, offset) && Increasing(ms)
  }

  /** Every heading found, shifted back by `offset`, is a heading line of `s`. */
  predicate AtHeadings(s: string, ms: seq<Marker>, offset: nat) {
    forall k :: 0 <= k < |ms| ==> offset <= ms[k].start && HeadingAt(s, ms[k].start - offset)
  }

  /** The headings are in increasing order, each at least a heading long. */
  predicate Increasing(ms: seq<Marker>) {
    forall k :: 0 <= k < |ms| - 1 ==> ms[k].start + |Heading| < ms[k + 1].start
  }

  /** The first of the joined lines, and after its newline the rest. */
  lemma JoinHead(lines: seq<string>, s: string)
    requires Join(lines, "\n") == s && |lines| >= 1
    ensures |lines[0]| <= |s| && s[..|lines[0]|] == lines[0]
    ensures |lines| > 1 ==> |lines[0]| < |s| && s[|lines[0]|] == '\n' && s[|lines[0]| + 1..] == Join(lines[1..], "\n")
  {
    if |lines| > 1 {
      assert s == lines[0] + "\n" + Join(lines[1..], "\n");
    }
  }

  /** Every heading starts at `lo` or later. */
  predicate StartFrom(ms: seq<Marker>, lo: nat) {
    forall k :: 0 <= k < |ms| ==> lo <= ms[k].start
  }

  /** The headings found in the lines of a text are well placed in that text. */
  lemma {:induction false} MarkersWellPlaced(lines: seq<string>, offset: nat, s: string)
    requires Join(lines, "\n") == s
    ensures WellPlaced(s, MarkersFrom(lines, offset), offset)
    decreases |lines|
  {
    if lines != [] {
      if |lines| > 1 {
        MarkersWellPlaced(lines[1..], offset + |lines[0]| + 1, Join(lines[1..], "\n"));
      }
      LinesWellPlaced(lines, offset, s);
    }
  }

  /** The step of `MarkersWellPlaced`: from the rest's headings, well placed in the rest's text, to all of them. */
  lemma LinesWellPlaced(lines: seq<string>, offset: nat, s: string)
    requires Join(lines, "\n") == s && lines != []
    requires |lines| > 1 ==> WellPlaced(Join(lines[1..], "\n"), MarkersFrom(lines[1..], offset + |lines[0]| + 1), offset + |lines[0]| + 1)
    ensures WellPlaced(s, MarkersFrom(lines, offset), offset)
  {
    JoinHead(lines, s);
    var next := offset + |lines[0]| + 1;
    var rest := MarkersFrom(lines[1..], next);
    if |lines| > 1 {
      RestWellPlaced(s, |lines[0]|, Join(lines[1..], "\n"), rest, offset);
    } else {
      assert rest == [];
    }
    assert WellPlaced(s, rest, offset) && StartFrom(rest, next);
    HeadWellPlaced(lines, offset, s);
  }

  /** The step of `MarkersWellPlaced`: the first line's heading, if any, goes before the rest's. */
  lemma HeadWellPlaced(lines: seq<string>, offset: nat, s: string)
    requires lines != [] && |lines[0]| <= |s| && s[..|lines[0]|] == lines[0]
    requires var rest := MarkersFrom(lines[1..], offset + |lines[0]| + 1);
      && WellPlaced(s, rest, offset) && StartFrom(rest, offset + |lines[0]| + 1)
    ensures WellPlaced(s, MarkersFrom(lines, offset), offset)
  {
    var rest := MarkersFrom(lines[1..], offset + |lines[0]| + 1);
    if IsHeadingLine(lines[0]) {
      assert MarkersFrom(lines, offset) == [MarkerOf(lines[0], offset)] + rest;
      HeadingLineAtStart(lines[0], s);
      ConsWellPlaced(s, MarkerOf(lines[0], offset), rest, offset, |lines[0]|);
    } else {
      assert MarkersFrom(lines, offset) == rest;
    }
  }

  /** A text that begins with a heading line has a heading at 0. */
  lemma HeadingLineAtStart(line: string, s: string)
    requires |line| <= |s| && s[..|line|] == line && StartsWith(line, Heading)
    ensures HeadingAt(s, 0) && |line| >= |Heading|
  {
    assert s[..|Heading|] == line[..|Heading|];
  }

  /** A heading line at the start, followed by headings past its end, keeps the order. */
  lemma ConsWellPlaced(s: string, m: Marker, rest: seq<Marker>, offset: nat, headLen: nat)
    requires m.start == offset && headLen >= |Heading| && HeadingAt(s, 0)
    requires WellPlaced(s, rest, offset) && StartFrom(rest, offset + headLen + 1)
    ensures WellPlaced(s, [m] + rest, offset)
  {
    ConsAtHeadings(s, m, rest, offset);
    ConsIncreasing(m, rest, offset + headLen + 1);
  }

  /** The first half of `ConsWellPlaced`: every heading is at a heading line. */
  lemma ConsAtHeadings(s: string, m: Marker, rest: seq<Marker>, offset: nat)
    requires m.start == offset && HeadingAt(s, 0) && AtHeadings(s, rest, offset)
    ensures AtHeadings(s, [m] + rest, offset)
  {
    var ms := [m] + rest;
    forall k | 0 <= k < |ms|
      ensures offset <= ms[k].start && HeadingAt(s, ms[k].start - offset)
    {
      if k > 0 {
        assert ms[k] == rest[k - 1];
      }
    }
  }

  /** The second half of `ConsWellPlaced`: the order is kept. */
  lemma ConsIncreasing(m: Marker, rest: seq<Marker>, lo: nat)
    requires m.start + |Heading| < lo && Increasing(rest) && StartFrom(rest, lo)
    ensures Increasing([m] + rest)
  {
    var ms := [m] + rest;
    forall k | 0 <= k < |ms| - 1
      ensures ms[k].start + |Heading| < ms[k + 1].start
    {
      assert ms[k + 1] == rest[k];
      if k > 0 {
        assert ms[k] == rest[k - 1];
      }
    }
  }

  /** Headings well placed in `tail` are well placed in `head + "\n" + tail`, shifted past the head. */
  lemma RestWellPlaced(s: string, headLen: nat, tail: string, rest: seq<Marker>, offset: nat)
    requires headLen < |s| && s[headLen] == '\n' && s[headLen + 1..] == tail
    requires WellPlaced(tail, rest, offset + headLen + 1)
    ensures WellPlaced(s, rest, offset) && StartFrom(rest, offset + headLen + 1)
  {
    var next := offset + headLen + 1;
    forall k | 0 <= k < |rest| ensures HeadingAt(s, rest[k].start - offset) {
      var p := rest[k].start - next;
      var q := rest[k].start - offset;
      assert q == headLen + 1 + p;
      assert s[q..q + |Heading|] == tail[p..p + |Heading|];
      assert s[q - 1] == if p == 0 then '\n' else tail[p - 1];
    }
  }

  /** Where the section of heading `idx` ends: at the next heading, or at the end of the text. */
  function SectionEnd(s: string, ms: seq<Marker>, idx: nat): nat
    requires idx < |ms|
  {
    if idx + 1 < |ms| then ms[idx + 1].start else |s|
  }

  /** The heading names a version after `fromNum` and up to `toNum`. */
  predicate InRange(m: Marker, fromNum: nat, toNum: nat) {
    m.version.Some? && fromNum < m.version.value <= toNum
  }

  /** Whether the section of heading `idx` is kept, and its trimmed text. */
  function Section(s: string, ms: seq<Marker>, idx: nat, fromNum: nat, toNum: nat): Option<string>
    requires idx < |ms|
  {
    var start := ms[idx].start;
    var end := SectionEnd(s, ms, idx);
    if !InRange(ms[idx], fromNum, toNum) then None
    else if start >= |s| || end <= start then None
    else
      var section := Trim(s[start..if end < |s| then end else |s|]);
      if section == [] then None else Some(section)
  }

  /** The kept sections of the headings from `idx` on, in changelog order. */
  function SectionsFrom(s: string, ms: seq<Marker>, idx: nat, fromNum: nat, toNum: nat): seq<string>
    requires idx <= |ms|
    decreases |ms| - idx
  {
    if idx == |ms| then []
    else
      var here := Section(s, ms, idx, fromNum, toNum);
      (if here.Some? then [here.value] else []) + SectionsFrom(s, ms, idx + 1, fromNum, toNum)
  }

  /** The number of headings from `idx` on that name a version in range. */
  function CountInRange(ms: seq<Marker>, idx: nat, fromNum: nat, toNum: nat): nat
    requires idx <= |ms|
    decreases |ms| - idx
  {
    if idx == |ms| then 0
    else (if InRange(ms[idx], fromNum, toNum) then 1 else 0) + CountInRange(ms, idx + 1, fromNum, toNum)
  }

  /**
   * The sections of a fetched changelog for the versions after `fromNum` up to
   * `toNum`, joined by blank lines; nothing for a blank changelog, one without
   * headings, or one without a section in range.
   */
  function NotesBetween(fromNum: nat, toNum: nat, text: string): (r: Option<string>)
    ensures r.Some? ==> !IsBlank(text) && Markers(text) != []
  {
    TrimEmptyIffBlank(text);
    if Trim(text) == [] then None
    else
      var ms := Markers(text);
      if ms == [] then None
      else
        var relevant := SectionsFrom(text, ms, 0, fromNum, toNum);
        if relevant == [] then None else Some(Join(relevant, "\n\n"))
  }

  /**
   * The part of `fetch_changelog_notes` after the download: both versions must
   * parse and the target must be newer. `changelog` is the downloaded text, or
   * nothing when the download failed.
   */
  function ChangelogNotes(fromVersion: string, toVersion: string, changelog: Option<string>): (r: Option<string>)
    ensures r.Some? ==> ParseSemverNum(fromVersion).Some? && ParseSemverNum(toVersion).Some?
    ensures r.Some? ==> ParseSemverNum(fromVersion).value < ParseSemverNum(toVersion).value
    ensures r.Some? ==> changelog.Some? && !IsBlank(changelog.value) && Markers(changelog.value) != []
  {
    var fromNum, toNum := ParseSemverNum(fromVersion), ParseSemverNum(toVersion);
    if fromNum.None? || toNum.None? || toNum.value <= fromNum.value || changelog.None? then None
    else NotesBetween(fromNum.value, toNum.value, changelog.value)
  }

  /** A heading line survives trimming: its section starts with the heading. */
  lemma SectionStartsWithHeading(s: string, ms: seq<Marker>, idx: nat)
    requires WellPlaced(s, ms, 0) && idx < |ms|
    ensures ms[idx].start + |Heading| <= SectionEnd(s, ms, idx) <= |s|
    ensures var section := Trim(s[ms[idx].start..SectionEnd(s, ms, idx)]);
      |section| >= |Heading| && section[..|Heading|] == Heading
  {
    var start := ms[idx].start;
    var end := SectionEnd(s, ms, idx);
    if idx + 1 < |ms| {
      assert HeadingAt(s, ms[idx + 1].start - 0);
    }
    var raw := s[start..end];
    assert raw[..|Heading|] == Heading;
    assert raw[0] == '#' && raw[|Heading| - 1] == '[';
    TrimKeepsPrefix(raw, |Heading|);
  }

  /** Every heading in range gives a section, and no other heading does. */
  lemma {:induction false} SectionsCounted(s: string, ms: seq<Marker>, idx: nat, fromNum: nat, toNum: nat)
    requires WellPlaced(s, ms, 0) && idx <= |ms|
    ensures |SectionsFrom(s, ms, idx, fromNum, toNum)| == CountInRange(ms, idx, fromNum, toNum)
    decreases |ms| - idx
  {
    if idx < |ms| {
      SectionsCounted(s, ms, idx + 1, fromNum, toNum);
      if InRange(ms[idx], fromNum, toNum) {
        SectionStartsWithHeading(s, ms, idx);
      }
    }
  }

  /** A kept section is the trimmed text of a heading in range, and starts with that heading. */
  lemma KeptSectionIsHeading(s: string, ms: seq<Marker>, idx: nat, fromNum: nat, toNum: nat)
    requires WellPlaced(s, ms, 0) && idx < |ms|
    requires Section(s, ms, idx, fromNum, toNum).Some?
    ensures var section := Section(s, ms, idx, fromNum, toNum).value;
      InRange(ms[idx], fromNum, toNum) && section == Trim(s[ms[idx].start..SectionEnd(s, ms, idx)]) && StartsWith(section, Heading)
  {
    SectionStartsWithHeading(s, ms, idx);
  }

  /** `section` is the section of some heading in range at or after `lo`, and starts with the heading. */
  ghost predicate FromHeadingInRange(s: string, ms: seq<Marker>, lo: nat, fromNum: nat, toNum: nat, section: string) {
    && StartsWith(section, Heading)
    && exists k :: lo <= k < |ms| && InRange(ms[k], fromNum, toNum) && Section(s, ms, k, fromNum, toNum) == Some(section)
  }

  /** Every section kept from heading `lo` on comes from a heading in range at or after `lo`. */
  ghost predicate AllFromHeadingsInRange(s: string, ms: seq<Marker>, lo: nat, fromNum: nat, toNum: nat)
    requires lo <= |ms|
  {
    forall section :: section in SectionsFrom(s, ms, lo, fromNum, toNum) ==> FromHeadingInRange(s, ms, lo, fromNum, toNum, section)
  }

  /** Every kept section is the section of a heading in range, and starts with that heading. */
  lemma {:induction false} SectionsAreHeadingsInRange(s: string, ms: seq<Marker>, idx: nat, fromNum: nat, toNum: nat)
    requires WellPlaced(s, ms, 0) && idx <= |ms|
    ensures forall section :: section in SectionsFrom(s, ms, idx, fromNum, toNum) ==> FromHeadingInRange(s, ms, idx, fromNum, toNum, section)
    decreases |ms| - idx
  {
    if idx < |ms| {
      SectionsAreHeadingsInRange(s, ms, idx + 1, fromNum, toNum);
      SectionsHeadingsStep(s, ms, idx, fromNum, toNum);
    }
  }

  /** The step of `SectionsAreHeadingsInRange`: the section of heading `idx`, if kept, goes before the later ones. */
  lemma SectionsHeadingsStep(s: string, ms: seq<Marker>, idx: nat, fromNum: nat, toNum: nat)
    requires WellPlaced(s, ms, 0) && idx < |ms|
    requires AllFromHeadingsInRange(s, ms, idx + 1, fromNum, toNum)
    ensures AllFromHeadingsInRange(s, ms, idx, fromNum, toNum)
  {
    LaterSectionsFromHeadings(s, ms, idx, fromNum, toNum);
    if Section(s, ms, idx, fromNum, toNum).Some? {
      FromThisHeading(s, ms, idx, fromNum, toNum);
      KeptSectionGoesFirst(s, ms, idx, fromNum, toNum);
    } else {
      assert SectionsFrom(s, ms, idx, fromNum, toNum) == SectionsFrom(s, ms, idx + 1, fromNum, toNum);
    }
  }

  /** Each later section comes from a heading at or after `idx`. */
  lemma LaterSectionsFromHeadings(s: string, ms: seq<Marker>, idx: nat, fromNum: nat, toNum: nat)
    requires idx < |ms| && AllFromHeadingsInRange(s, ms, idx + 1, fromNum, toNum)
    ensures forall section :: section in SectionsFrom(s, ms, idx + 1, fromNum, toNum) ==> FromHeadingInRange(s, ms, idx, fromNum, toNum, section)
  {
    forall section | section in SectionsFrom(s, ms, idx + 1, fromNum, toNum)
      ensures FromHeadingInRange(s, ms, idx, fromNum, toNum, section)
    {
      FromLaterHeading(s, ms, idx, fromNum, toNum, section);
    }
  }

  /** A kept section of heading `idx` goes before the later ones. */
  lemma KeptSectionGoesFirst(s: string, ms: seq<Marker>, idx: nat, fromNum: nat, toNum: nat)
    requires idx < |ms| && Section(s, ms, idx, fromNum, toNum).Some?
    ensures SectionsFrom(s, ms, idx, fromNum, toNum) == [Section(s, ms, idx, fromNum, toNum).value] + SectionsFrom(s, ms, idx + 1, fromNum, toNum)
  {
  }

  /** A section of a later heading is a section of a heading at or after `idx`. */
  lemma FromLaterHeading(s: string, ms: seq<Marker>, idx: nat, fromNum: nat, toNum: nat, section: string)
    requires FromHeadingInRange(s, ms, idx + 1, fromNum, toNum, section)
    ensures FromHeadingInRange(s, ms, idx, fromNum, toNum, section)
  {
    var k :| idx + 1 <= k < |ms| && InRange(ms[k], fromNum, toNum) && Section(s, ms, k, fromNum, toNum) == Some(section);
    assert idx <= k;
  }

  /** The section kept for heading `idx` is a section of a heading in range at or after `idx`. */
  lemma FromThisHeading(s: string, ms: seq<Marker>, idx: nat, fromNum: nat, toNum: nat)
    requires WellPlaced(s, ms, 0) && idx < |ms|
    requires Section(s, ms, idx, fromNum, toNum).Some?
    ensures FromHeadingInRange(s, ms, idx, fromNum, toNum, Section(s, ms, idx, fromNum, toNum).value)
  {
    KeptSectionIsHeading(s, ms, idx, fromNum, toNum);
  }

  /**
   * For a changelog that is not blank, there are notes exactly when some
   * heading names a version in range.
   */
  lemma NotesIffVersionInRange(fromNum: nat, toNum: nat, changelog: string)
    requires !IsBlank(changelog)
    ensures NotesBetween(fromNum, toNum, changelog).Some? <==> CountInRange(Markers(changelog), 0, fromNum, toNum) > 0
  {
    MarkersWellPlaced(Split(changelog, '\n'), 0, changelog);
    TrimEmptyIffBlank(changelog);
    SectionsCounted(changelog, Markers(changelog), 0, fromNum, toNum);
  }

  /** The notes are the kept sections, each starting with the heading of a version in range. */
  lemma NotesAreSectionsInRange(fromNum: nat, toNum: nat, changelog: string)
    requires NotesBetween(fromNum, toNum, changelog).Some?
    ensures var ms := Markers(changelog);
      var sections := SectionsFrom(changelog, ms, 0, fromNum, toNum);
      && NotesBetween(fromNum, toNum, changelog) == Some(Join(sections, "\n\n"))
      && sections != []
      && WellPlaced(changelog, ms, 0)
      && forall section :: section in sections ==> FromHeadingInRange(changelog, ms, 0, fromNum, toNum, section)
  {
    MarkersWellPlaced(Split(changelog, '\n'), 0, changelog);
    SectionsAreHeadingsInRange(changelog, Markers(changelog), 0, fromNum, toNum);
  }

  // ---- the scans, step by step ----

  /** The headings from line `i` on: those of line `i`, then those after it. */
  lemma MarkersFromStep(lines: seq<string>, i: nat, offset: nat, found: seq<Marker>)
    requires i < |lines|
    ensures found + MarkersFrom(lines[i..], offset)
      == (found + (if IsHeadingLine(lines[i]) then [MarkerOf(lines[i], offset)] else [])) + MarkersFrom(lines[i + 1..], offset + |lines[i]| + 1)
  {
    assert lines[i..][1..] == lines[i + 1..];
  }

  /** The heading scan over the changelog's lines. */
  method ScanMarkers(changelog: string) returns (markers: seq<Marker>)
    ensures markers == Markers(changelog)
  {
    markers := ScanLines(Split(changelog, '\n'));
  }

  /** The heading scan over a sequence of lines, keeping a running offset. */
  method ScanLines(lines: seq<string>) returns (markers: seq<Marker>)
    ensures markers == MarkersFrom(lines, 0)
  {
    markers := [];
    var offset: nat := 0;
    var i := 0;
    assert lines[0..] == lines;
    while i < |lines|
      invariant 0 <= i <= |lines|
      invariant markers + MarkersFrom(lines[i..], offset) == MarkersFrom(lines, 0)
    {
      MarkersFromStep(lines, i, offset, markers);
      if IsHeadingLine(lines[i]) {
        markers := markers + [MarkerOf(lines[i], offset)];
      } else {
        assert markers + [] == markers;
      }
      offset := offset + |lines[i]| + 1;
      i := i + 1;
    }
    assert lines[i..] == [];
  }

  /** One heading of the selection loop: its section, if kept. */
  method KeepSection(changelog: string, markers: seq<Marker>, idx: nat, fromNum: nat, toNum: nat) returns (kept: Option<string>)
    requires idx < |markers|
    ensures kept == Section(changelog, markers, idx, fromNum, toNum)
  {
    kept := None;
    var start, version := markers[idx].start, markers[idx].version;
    var end := if idx + 1 < |markers| then markers[idx + 1].start else |changelog|;
    if version.Some? && fromNum < version.value <= toNum && start < |changelog| && start < end {
      var endClamped := if end < |changelog| then end else |changelog|;
      var section := Trim(changelog[start..endClamped]);
      if section != [] {
        kept := Some(section);
      }
    }
  }

  /** The selection loop over the headings. */
  method SelectSections(changelog: string, markers: seq<Marker>, fromNum: nat, toNum: nat) returns (relevant: seq<string>)
    ensures relevant == SectionsFrom(changelog, markers, 0, fromNum, toNum)
  {
    relevant := [];
    var idx := 0;
    while idx < |markers|
      invariant 0 <= idx <= |markers|
      invariant relevant + SectionsFrom(changelog, markers, idx, fromNum, toNum) == SectionsFrom(changelog, markers, 0, fromNum, toNum)
    {
      var kept := KeepSection(changelog, markers, idx, fromNum, toNum);
      if kept.Some? {
        relevant := relevant + [kept.value];
      }
      idx := idx + 1;
    }
  }

  /** The changelog processing of `fetch_changelog_notes`, once the versions are known to be in order. */
  method NotesFromChangelog(fromNum: nat, toNum: nat, text: string) returns (notes: Option<string>)
    ensures notes == NotesBetween(fromNum, toNum, text)
  {
    TrimEmptyIffBlank(text);
    if Trim(text) == [] {
      return None;
    }
    var markers := ScanMarkers(text);
    if markers == [] {
      return None;
    }
    var relevant := SelectSections(text, markers, fromNum, toNum);
    if relevant == [] {
      return None;
    }
    notes := Some(Join(relevant, "\n\n"));
  }

  /** `fetch_changelog_notes` after the download, with `changelog` the fetched text if any. */
  method FetchChangelogNotes(fromVersion: string, toVersion: string, changelog: Option<string>) returns (notes: Option<string>)
    ensures notes == ChangelogNotes(fromVersion, toVersion, changelog)
  {
    var fromNum := ParseSemverNum(fromVersion);
    if fromNum.None? {
      return None;
    }
    var toNum := ParseSemverNum(toVersion);
    if toNum.None? || toNum.value <= fromNum.value || changelog.None? {
      return None;
    }
    notes := NotesFromChangelog(fromNum.value, toNum.value, changelog.value);
  }
}
