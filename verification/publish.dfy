/** The text processing of the release script `scripts/publish.py`: the
    latest section of a Keep a Changelog file, and the version line of
    `pyproject.toml`. Reading the files, git, the GitHub CLI and the release
    steps themselves are outside the model: the file contents are given
    strings. */
module Publish {
  import opened Wrappers
  import Text
  import Seqs

  // ---------------------------------------------------------------------------
  // \d+\.\d+\.\d+ and \d{4}-\d{2}-\d{2}
  // ---------------------------------------------------------------------------

  /** A non-empty run of digits (`\d+`). */
  predicate Group(s: string) {
    |s| > 0 && Text.AllDigits(s)
  }

  /** `\d+\.\d+\.\d+` matching the whole of `v`, found by locating its two dots. */
  predicate IsVersion(v: string) {
    var i := Text.FieldEnd(v, '.', 0);
    && i < |v|
    && var j := Text.FieldEnd(v, '.', i + 1);
    && j < |v|
    && Group(v[..i]) && Group(v[i + 1..j]) && Group(v[j + 1..])
  }

  /** A version is three digit groups joined by dots, and nothing else. */
  lemma VersionGroups(v: string)
    ensures IsVersion(v) <==> exists a, b, c :: Group(a) && Group(b) && Group(c) && v == a + "." + b + "." + c
  {
    if IsVersion(v) {
      var i := Text.FieldEnd(v, '.', 0);
      var j := Text.FieldEnd(v, '.', i + 1);
      DotsGlue(v, i, j);
      GroupsWitness(v, v[..i], v[i + 1..j], v[j + 1..]);
    }
    if exists a, b, c :: Group(a) && Group(b) && Group(c) && v == a + "." + b + "." + c {
      var a, b, c :| Group(a) && Group(b) && Group(c) && v == a + "." + b + "." + c;
      VersionOfGroups(a, b, c);
    }
  }

  lemma GroupsWitness(v: string, a: string, b: string, c: string)
    requires Group(a) && Group(b) && Group(c) && v == a + "." + b + "." + c
    ensures exists a, b, c :: Group(a) && Group(b) && Group(c) && v == a + "." + b + "." + c
  {
  }

  /** Cutting `v` at two dots and gluing the pieces back with dots gives `v`. */
  lemma DotsGlue(v: string, i: nat, j: nat)
    requires i < j < |v| && v[i] == '.' && v[j] == '.'
    ensures v == v[..i] + "." + v[i + 1..j] + "." + v[j + 1..]
  {
    assert v[..i] + "." == v[..i + 1];
    assert v[..i + 1] + v[i + 1..j] == v[..j];
    assert v[..j] + "." == v[..j + 1];
    assert v[..j + 1] + v[j + 1..] == v;
  }

  lemma VersionOfGroups(a: string, b: string, c: string)
    requires Group(a) && Group(b) && Group(c)
    ensures IsVersion(a + "." + b + "." + c)
  {
    var v := a + "." + b + "." + c;
    var i := |a|;
    var j := |a| + 1 + |b|;
    assert forall k :: 0 <= k < i ==> v[k] == a[k];
    Text.FieldEndAt(v, '.', 0, i);
    assert forall k :: i + 1 <= k < j ==> v[k] == b[k - i - 1];
    Text.FieldEndAt(v, '.', i + 1, j);
    assert v[..i] == a && v[i + 1..j] == b && v[j + 1..] == c;
  }

  /** A version holds only digits and dots. */
  lemma VersionChars(v: string)
    requires IsVersion(v)
    ensures forall k :: 0 <= k < |v| ==> Text.IsDigit(v[k]) || v[k] == '.'
  {
    var i := Text.FieldEnd(v, '.', 0);
    var j := Text.FieldEnd(v, '.', i + 1);
    forall k | 0 <= k < |v| ensures Text.IsDigit(v[k]) || v[k] == '.' {
      if k < i {
        assert v[..i][k] == v[k];
      } else if i < k < j {
        assert v[i + 1..j][k - i - 1] == v[k];
      } else if j < k {
        assert v[j + 1..][k - j - 1] == v[k];
      }
    }
  }

  /** `\d{4}-\d{2}-\d{2}`. */
  predicate IsDate(d: string) {
    && |d| == 10 && d[4] == '-' && d[7] == '-'
    && Text.AllDigits(d[..4]) && Text.AllDigits(d[5..7]) && Text.AllDigits(d[8..])
  }

  // ---------------------------------------------------------------------------
  // SECTION_HEADER_RE
  // ---------------------------------------------------------------------------

  /** `SECTION_HEADER_RE.match(line)`: "## [X.Y.Z] - YYYY-MM-DD" followed by
      whitespace only; the version group when it matches. The version cannot
      hold ']', so it ends at the first ']' after "## [". */
  function ParseHeader(line: string): Option<string> {
    if |line| < 4 || line[..4] != "## [" then None
    else
      var k := Text.FieldEnd(line, ']', 4);
      if k + 14 > |line| then None
      else if IsVersion(line[4..k]) && line[k..k + 4] == "] - " && IsDate(line[k + 4..k + 14])
              && Text.AllSpace(line[k + 14..])
      then Some(line[4..k])
      else None
  }

  /** The shape of a section header, independent of how it is scanned. */
  ghost predicate HeaderOf(line: string, version: string, date: string) {
    exists trail :: IsVersion(version) && IsDate(date) && Text.AllSpace(trail)
                    && line == "## [" + version + "] - " + date + trail
  }

  /** The scanner accepts exactly the header lines and returns their version. */
  lemma HeaderIff(line: string, version: string)
    ensures ParseHeader(line) == Some(version) <==> exists date :: HeaderOf(line, version, date)
  {
    if ParseHeader(line) == Some(version) {
      HeaderParsed(line, version);
    }
    if exists date :: HeaderOf(line, version, date) {
      var date :| HeaderOf(line, version, date);
      HeaderScanned(line, version, date);
    }
  }

  lemma HeaderParsed(line: string, version: string)
    requires ParseHeader(line) == Some(version)
    ensures HeaderOf(line, version, line[4 + |version| + 4..4 + |version| + 14])
  {
    var k := Text.FieldEnd(line, ']', 4);
    var date := line[k + 4..k + 14];
    var trail := line[k + 14..];
    HeaderGlue(line, k);
    HeaderWitness(line, version, date, trail);
  }

  /** A line cut after "## [", at `k` and four and fourteen places later. */
  lemma HeaderGlue(line: string, k: nat)
    requires 4 <= k && k + 14 <= |line|
    ensures line == line[..4] + line[4..k] + line[k..k + 4] + line[k + 4..k + 14] + line[k + 14..]
  {
  }

  lemma HeaderWitness(line: string, version: string, date: string, trail: string)
    requires IsVersion(version) && IsDate(date) && Text.AllSpace(trail)
    requires line == "## [" + version + "] - " + date + trail
    ensures HeaderOf(line, version, date)
  {
  }

  lemma HeaderScanned(line: string, version: string, date: string)
    requires HeaderOf(line, version, date)
    ensures ParseHeader(line) == Some(version)
  {
    var trail :| IsVersion(version) && IsDate(date) && Text.AllSpace(trail)
                 && line == "## [" + version + "] - " + date + trail;
    var k := 4 + |version|;
    VersionChars(version);
    assert line[..4] == "## [";
    assert forall j :: 4 <= j < k ==> line[j] == version[j - 4];
    assert line[k] == ']';
    Text.FieldEndAt(line, ']', 4, k);
    assert line[4..k] == version;
    assert line[k..k + 4] == "] - ";
    assert line[k + 4..k + 14] == date;
    assert line[k + 14..] == trail;
  }

  /** A header line begins with its non-blank part "## [X.Y.Z] - YYYY-MM-DD". */
  lemma HeaderHead(line: string, version: string)
    requires ParseHeader(line) == Some(version)
    ensures exists date :: IsDate(date) && "## [" + version + "] - " + date <= line
  {
    var k := Text.FieldEnd(line, ']', 4);
    var date := line[k + 4..k + 14];
    assert ("## [" + version + "] - " + date) == line[..k + 14];
  }

  // ---------------------------------------------------------------------------
  // extract_latest_changelog
  // ---------------------------------------------------------------------------

  predicate IsHeader(line: string) {
    ParseHeader(line).Some?
  }

  /** The loop that finds where the latest section ends: the first later
      header after `start`, or the end of the file. */
  function SectionEnd(lines: seq<string>, later: seq<nat>, start: nat): (r: nat)
    requires start < |lines|
    requires forall k :: 0 <= k < |later| ==> later[k] < |lines|
    ensures start < r <= |lines|
    decreases |later|
  {
    if |later| == 0 then |lines|
    else if later[0] > start then later[0]
    else SectionEnd(lines, later[1..], start)
  }

  /** The first header of the file. */
  predicate IsFirstHeader(lines: seq<string>, start: nat) {
    start < |lines| && IsHeader(lines[start]) && forall j :: 0 <= j < start ==> !IsHeader(lines[j])
  }

  /** The section starting at `start` ends at `end`: the next header line, or
      the end of the file when no header follows. */
  predicate IsSectionEnd(lines: seq<string>, start: nat, end: nat) {
    && start < end <= |lines|
    && (end == |lines| || IsHeader(lines[end]))
    && forall j :: start < j < end ==> !IsHeader(lines[j])
  }

  /** `version` and `section` are read off the first header of `lines`: its
      version, and the text from it up to the next header, stripped. */
  ghost predicate LatestSectionOf(lines: seq<string>, version: string, section: string) {
    exists start: nat, end: nat ::
      && IsFirstHeader(lines, start) && IsSectionEnd(lines, start, end)
      && version == ParseHeader(lines[start]).value
      && section == Text.Strip(Text.Join(lines[start..end], "\n"))
  }

  datatype Error = NoVersionedSections

  /** `extract_latest_changelog`: the version of the first header and the
      text from that header up to the next one, stripped. */
  function ExtractLatestChangelog(text: string): (r: Result<(string, string), Error>)
    ensures var lines := Text.SplitLines(text);
            r.Failure? <==> forall i :: 0 <= i < |lines| ==> !IsHeader(lines[i])
    ensures r.Success? ==> LatestSectionOf(Text.SplitLines(text), r.value.0, r.value.1)
  {
    var lines := Text.SplitLines(text);
    var sections := Seqs.Indices(lines, IsHeader, 0);
    if |sections| == 0 then Failure(NoVersionedSections)
    else
      var start := sections[0];
      var end := SectionEnd(lines, sections[1..], start);
      LatestSection(lines, sections);
      Success((ParseHeader(lines[start]).value, Text.Strip(Text.Join(lines[start..end], "\n"))))
  }

  /** The first header index starts the latest section, and the loop over the
      later ones ends it at the next header. */
  lemma LatestSection(lines: seq<string>, sections: seq<nat>)
    requires sections == Seqs.Indices(lines, IsHeader, 0) && |sections| > 0
    ensures IsFirstHeader(lines, sections[0])
    ensures IsSectionEnd(lines, sections[0], SectionEnd(lines, sections[1..], sections[0]))
  {
    Seqs.IndicesGaps(lines, IsHeader, sections);
    SectionEndNext(lines, sections);
  }

  /** Over increasing indices, the loop stops at the one after the first. */
  lemma SectionEndNext(lines: seq<string>, sections: seq<nat>)
    requires |sections| > 0
    requires forall k :: 0 <= k < |sections| ==> sections[k] < |lines|
    requires forall k, l :: 0 <= k < l < |sections| ==> sections[k] < sections[l]
    ensures SectionEnd(lines, sections[1..], sections[0]) == if |sections| > 1 then sections[1] else |lines|
  {
  }

  /** The returned section starts with the header up to its date and has no
      surrounding whitespace. */
  lemma SectionStartsWithHeader(text: string, version: string, section: string)
    requires ExtractLatestChangelog(text) == Success((version, section))
    ensures exists date :: IsDate(date) && "## [" + version + "] - " + date <= section
    ensures section == [] || (!Text.IsSpace(section[0]) && !Text.IsSpace(section[|section| - 1]))
  {
    LatestSectionHead(Text.SplitLines(text), version, section);
  }

  lemma LatestSectionHead(lines: seq<string>, version: string, section: string)
    requires LatestSectionOf(lines, version, section)
    ensures exists date :: IsDate(date) && "## [" + version + "] - " + date <= section
    ensures section == [] || (!Text.IsSpace(section[0]) && !Text.IsSpace(section[|section| - 1]))
  {
    var start: nat, end: nat :|
      && IsFirstHeader(lines, start) && IsSectionEnd(lines, start, end)
      && version == ParseHeader(lines[start]).value
      && section == Text.Strip(Text.Join(lines[start..end], "\n"));
    SectionHead(lines[start..end], version);
  }

  /** A block of lines opening with a header keeps the header, up to its
      date, at its start once joined and stripped. */
  lemma SectionHead(block: seq<string>, version: string)
    requires |block| > 0 && ParseHeader(block[0]) == Some(version)
    ensures var section := Text.Strip(Text.Join(block, "\n"));
            section == [] || (!Text.IsSpace(section[0]) && !Text.IsSpace(section[|section| - 1]))
    ensures exists date :: IsDate(date) && "## [" + version + "] - " + date <= Text.Strip(Text.Join(block, "\n"))
  {
    HeaderHead(block[0], version);
    var date :| IsDate(date) && "## [" + version + "] - " + date <= block[0];
    var head := "## [" + version + "] - " + date;
    HeadNotBlank(version, date);
    Text.StripKeepsPrefix(Text.Join(block, "\n"), head);
  }

  lemma HeadNotBlank(version: string, date: string)
    requires IsDate(date)
    ensures var head := "## [" + version + "] - " + date;
            !Text.IsSpace(head[0]) && !Text.IsSpace(head[|head| - 1])
  {
    assert date[8..][1] == date[9];
  }

  // ---------------------------------------------------------------------------
  // get_version_from_pyproject
  // ---------------------------------------------------------------------------

  /** `re.search(r'^version\s*=\s*"(\d+\.\d+\.\d+)"', line)`: the quoted
      version of a line starting with `version = "X.Y.Z"`, anything after the
      closing quote allowed. Each `\s*` is followed by a non-space character,
      so it takes the whole run of whitespace. */
  function ParseVersionLine(line: string): Option<string> {
    if |line| < 7 || line[..7] != "version" then None
    else ParseEquals(line, Text.SkipSpace(line, 7))
  }

  /** From the '=' on. */
  function ParseEquals(line: string, a: nat): Option<string>
    requires a <= |line|
  {
    if a == |line| || line[a] != '=' then None
    else ParseQuoted(line, Text.SkipSpace(line, a + 1))
  }

  /** From the opening quote on. A version cannot hold '"', so it ends at the
      first quote after the opening one. */
  function ParseQuoted(line: string, b: nat): Option<string>
    requires b <= |line|
  {
    if b == |line| || line[b] != '"' then None
    else
      var e := Text.FieldEnd(line, '"', b + 1);
      if e < |line| && IsVersion(line[b + 1..e]) then Some(line[b + 1..e]) else None
  }

  /** `"version"`, whitespace, `=`, whitespace, then the quoted version and
      anything at all. */
  function VersionLine(s1: string, s2: string, version: string, tail: string): string {
    "version" + (s1 + ("=" + (s2 + Quoted(version, tail))))
  }

  function Quoted(version: string, tail: string): string {
    "\"" + (version + ("\"" + tail))
  }

  /** The shape of a version line, independent of how it is scanned. */
  ghost predicate VersionLineOf(line: string, version: string) {
    exists s1, s2, tail :: Text.AllSpace(s1) && Text.AllSpace(s2) && IsVersion(version)
                           && line == VersionLine(s1, s2, version, tail)
  }

  /** The scanner accepts exactly the version lines and returns their version. */
  lemma VersionLineIff(line: string, version: string)
    ensures ParseVersionLine(line) == Some(version) <==> VersionLineOf(line, version)
  {
    if ParseVersionLine(line) == Some(version) {
      VersionLineParsed(line, version);
    }
    if VersionLineOf(line, version) {
      var s1, s2, tail :| Text.AllSpace(s1) && Text.AllSpace(s2) && IsVersion(version)
                          && line == VersionLine(s1, s2, version, tail);
      VersionLineScanned(line, version, s1, s2, tail);
    }
  }

  lemma VersionLineParsed(line: string, version: string)
    requires ParseVersionLine(line) == Some(version)
    ensures VersionLineOf(line, version)
  {
    var a := Text.SkipSpace(line, 7);
    var s1 := line[7..a];
    assert Text.AllSpace(s1);
    var s2, tail := EqualsParsed(line, a, version);
    SliceSplit(line, 0, 7);
    SliceSplit(line, 7, a);
    VersionLineWitness(line, version, s1, s2, tail);
  }

  /** A suffix of `s` is its next slice followed by the rest. */
  lemma SliceSplit(s: string, i: nat, j: nat)
    requires i <= j <= |s|
    ensures s[i..] == s[i..j] + s[j..]
  {
  }

  lemma VersionLineWitness(line: string, version: string, s1: string, s2: string, tail: string)
    requires Text.AllSpace(s1) && Text.AllSpace(s2) && IsVersion(version)
    requires line == "version" + (s1 + ("=" + (s2 + Quoted(version, tail))))
    ensures VersionLineOf(line, version)
  {
    assert line == VersionLine(s1, s2, version, tail);
  }

  lemma EqualsParsed(line: string, a: nat, version: string) returns (s2: string, tail: string)
    requires a <= |line| && ParseEquals(line, a) == Some(version)
    ensures Text.AllSpace(s2) && IsVersion(version)
    ensures line[a..] == "=" + (s2 + Quoted(version, tail))
  {
    var b := Text.SkipSpace(line, a + 1);
    s2 := line[a + 1..b];
    tail := QuotedParsed(line, b, version);
    EqualsGlue(line, a, b, Quoted(version, tail));
  }

  /** An '=' at `a` and `rest` from `b` on, with whitespace in between. */
  lemma EqualsGlue(line: string, a: nat, b: nat, rest: string)
    requires a < b <= |line| && line[a] == '=' && line[b..] == rest
    ensures line[a..] == "=" + (line[a + 1..b] + rest)
  {
    SliceSplit(line, a + 1, b);
    SliceSplit(line, a, a + 1);
    assert line[a..a + 1] == "=";
  }

  lemma QuotedParsed(line: string, b: nat, version: string) returns (tail: string)
    requires b <= |line| && ParseQuoted(line, b) == Some(version)
    ensures IsVersion(version)
    ensures line[b..] == Quoted(version, tail)
  {
    var e := Text.FieldEnd(line, '"', b + 1);
    tail := line[e + 1..];
    SliceSplit(line, e, e + 1);
    SliceSplit(line, b + 1, e);
    SliceSplit(line, b, b + 1);
  }

  lemma VersionLineScanned(line: string, version: string, s1: string, s2: string, tail: string)
    requires Text.AllSpace(s1) && Text.AllSpace(s2) && IsVersion(version)
    requires line == VersionLine(s1, s2, version, tail)
    ensures ParseVersionLine(line) == Some(version)
  {
    var a := 7 + |s1|;
    var rest := "=" + (s2 + Quoted(version, tail));
    assert line[..7] == "version";
    assert line[7..] == s1 + rest;
    SkipOver(line, 7, s1, rest);
    assert line[a..] == rest;
    EqualsScanned(line, a, version, s2, tail);
  }

  lemma EqualsScanned(line: string, a: nat, version: string, s2: string, tail: string)
    requires Text.AllSpace(s2) && IsVersion(version)
    requires a <= |line| && line[a..] == "=" + (s2 + Quoted(version, tail))
    ensures ParseEquals(line, a) == Some(version)
  {
    var rest := Quoted(version, tail);
    var b := a + 1 + |s2|;
    assert line[a] == '=' && line[a + 1..] == s2 + rest by {
      assert line[a] == line[a..][0];
      assert line[a + 1..] == line[a..][1..];
    }
    assert Text.SkipSpace(line, a + 1) == b && line[b..] == rest by {
      SkipOver(line, a + 1, s2, rest);
      assert line[b..] == line[a + 1..][|s2|..];
    }
    QuotedScanned(line, b, version, tail);
  }

  lemma QuotedScanned(line: string, b: nat, version: string, tail: string)
    requires IsVersion(version)
    requires b <= |line| && line[b..] == Quoted(version, tail)
    ensures ParseQuoted(line, b) == Some(version)
  {
    var e := b + 1 + |version|;
    assert line[b] == '"';
    VersionChars(version);
    assert forall j :: b + 1 <= j < e ==> line[j] == line[b..][j - b] == version[j - b - 1];
    assert line[e] == line[b..][e - b] == '"';
    Text.FieldEndAt(line, '"', b + 1, e);
    assert line[b + 1..e] == version;
  }

  /** Whitespace `sp` at `i` followed by `rest`, which starts with
      non-whitespace: skipping whitespace from `i` lands on `rest`. */
  lemma SkipOver(line: string, i: nat, sp: string, rest: string)
    requires Text.AllSpace(sp) && |rest| > 0 && !Text.IsSpace(rest[0])
    requires i <= |line| && line[i..] == sp + rest
    ensures Text.SkipSpace(line, i) == i + |sp|
  {
    assert forall j :: i <= j < i + |sp| ==> line[j] == line[i..][j - i] == sp[j - i];
    assert line[i + |sp|] == line[i..][|sp|] == rest[0];
    Text.SkipSpaceAt(line, i, i + |sp|);
  }

  function HasVersion(line: string): bool {
    ParseVersionLine(line).Some?
  }

  /** The loop of `get_version_from_pyproject`: the version of the first
      line the scanner accepts, or `None`. */
  function FirstVersion(lines: seq<string>): (r: Option<string>)
    ensures r.None? ==> forall i :: 0 <= i < |lines| ==> !HasVersion(lines[i])
    ensures r.Some? ==> exists i :: Seqs.IsFirst(lines, HasVersion, i) && ParseVersionLine(lines[i]) == r
  {
    match Seqs.First(lines, HasVersion)
    case Some(i) => ParseVersionLine(lines[i])
    case None => None
  }

  /** `get_version_from_pyproject` on the file's text, `None` when the file
      is missing. */
  function VersionFromPyproject(text: Option<string>): (r: Option<string>)
    ensures text.None? ==> r.None?
    ensures text.Some? ==> r == FirstVersion(Text.SplitLines(text.value))
    ensures text.Some? && r.None? ==>
              NoVersionLine(Text.SplitLines(text.value), |Text.SplitLines(text.value)|)
    ensures text.Some? && r.Some? ==>
              exists i :: 0 <= i < |Text.SplitLines(text.value)|
                          && VersionLineOf(Text.SplitLines(text.value)[i], r.value)
                          && NoVersionLine(Text.SplitLines(text.value), i)
  {
    match text
    case None => None
    case Some(t) =>
      var lines := Text.SplitLines(t);
      FirstVersionShape(lines);
      FirstVersion(lines)
  }

  /** None of the first `n` lines has the shape of a version line. */
  ghost predicate NoVersionLine(lines: seq<string>, n: nat) {
    forall j, v :: 0 <= j < n && j < |lines| ==> !VersionLineOf(lines[j], v)
  }

  /** Lines the scanner rejects have no version-line shape. */
  lemma NoVersionLineBefore(lines: seq<string>, n: nat)
    requires forall j :: 0 <= j < n && j < |lines| ==> !HasVersion(lines[j])
    ensures NoVersionLine(lines, n)
  {
    forall j, v | 0 <= j < n && j < |lines| ensures !VersionLineOf(lines[j], v) {
      VersionLineIff(lines[j], v);
    }
  }

  /** In terms of the line shape: the version of the first version line, or
      `None` when no line has that shape. */
  lemma FirstVersionShape(lines: seq<string>)
    ensures FirstVersion(lines).None? ==> NoVersionLine(lines, |lines|)
    ensures FirstVersion(lines).Some? ==>
              exists i :: 0 <= i < |lines| && VersionLineOf(lines[i], FirstVersion(lines).value)
                          && NoVersionLine(lines, i)
  {
    match Seqs.First(lines, HasVersion)
    case Some(i) =>
      VersionLineIff(lines[i], ParseVersionLine(lines[i]).value);
      NoVersionLineBefore(lines, i);
    case None =>
      NoVersionLineBefore(lines, |lines|);
  }

  /** A trailing comment after the closing quote is allowed. */
  lemma ParseVersionLineExample()
    ensures ParseVersionLine("version = \"0.1.2\"  # release") == Some("0.1.2")
  {
    ExampleLineShape();
    ExampleVersion();
    VersionLineScanned("version = \"0.1.2\"  # release", "0.1.2", " ", " ", "  # release");
  }

  lemma ExampleLineShape()
    ensures "version = \"0.1.2\"  # release" == VersionLine(" ", " ", "0.1.2", "  # release")
  {
    var quoted := Quoted("0.1.2", "  # release");
    assert quoted == "\"0.1.2\"  # release";
  }

  lemma ExampleVersion()
    ensures IsVersion("0.1.2")
  {
    VersionOfGroups("0", "1", "2");
    assert "0" + "." + "1" + "." + "2" == "0.1.2";
  }

  /** The key must start the line. */
  lemma ParseVersionLineIndented()
    ensures ParseVersionLine(" version = \"0.1.2\"") == None
  {
    assert " version = \"0.1.2\""[..7][0] != "version"[0];
  }
}
