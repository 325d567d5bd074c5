/** The text handling of `website/scripts/fetch_languages.py`: cleaning a
    language's display name, reading the front matter and metrics of a model
    card, and cutting an excerpt from the card's text. Fetching the cards,
    the annotation-removing regular expressions and the YAML parser are
    outside the model: the last two are parameters. */
module FetchLanguages {
  import opened Wrappers
  import Text
  import Seqs
  import Dicts

  // ---------------------------------------------------------------------------
  // clean_language_name
  // ---------------------------------------------------------------------------

  /** `LANGUAGE_NAME_OVERRIDES` (its repeated "en" entry has the same value). */
  const NameOverrides: map<string, string> := map[
    "en" := "English", "simple" := "Simple English", "cbk-zam" := "Chavacano",
    "map-bms" := "Banyumasan", "nds-nl" := "Low Saxon", "be-tarask" := "Belarusian (Taraškievica)",
    "roa-tara" := "Tarantino", "zh-yue" := "Cantonese", "zh-classical" := "Classical Chinese",
    "zh-min-nan" := "Min Nan", "ak" := "Akan", "as" := "Assamese",
    "bh" := "Bihari", "ho" := "Hiri Motu", "ii" := "Sichuan Yi",
    "na" := "Nauruan", "ng" := "Ndonga", "nr" := "Southern Ndebele",
    "nah" := "Nahuatl", "pi" := "Pali", "za" := "Zhuang",
    "ang" := "Old English", "arc" := "Aramaic", "diq" := "Zazaki",
    "got" := "Gothic", "rup" := "Aromanian", "cu" := "Church Slavonic",
    "grc" := "Ancient Greek", "el" := "Greek", "hy" := "Armenian",
    "ka" := "Georgian", "ko" := "Korean", "ja" := "Japanese",
    "zh" := "Chinese", "fa" := "Persian", "he" := "Hebrew",
    "yi" := "Yiddish", "sq" := "Albanian", "eu" := "Basque",
    "cy" := "Welsh", "ga" := "Irish", "gd" := "Scottish Gaelic",
    "br" := "Breton", "kw" := "Cornish", "gv" := "Manx",
    "lb" := "Luxembourgish", "ia" := "Interlingua", "oc" := "Occitan",
    "war" := "Waray", "eml" := "Emilian-Romagnol", "fon" := "Fon",
    "ha" := "Hausa", "hu" := "Hungarian", "ik" := "Inupiaq",
    "sa" := "Sanskrit", "to" := "Tongan", "wa" := "Walloon"
  ]

  /** `re.sub(r'\s+', ' ', s).strip()`: every run of white space becomes one
      space and none is left at either end. */
  function Collapse(s: string): string {
    Text.Join(Text.Words(s), " ")
  }

  /** Collapsing keeps the words of the name. */
  lemma CollapseKeepsWords(s: string)
    ensures Text.Words(Collapse(s)) == Text.Words(s)
  {
    Text.WordsOfJoin(Text.Words(s));
  }

  /** The name after annotation removal, space collapsing and title-casing of
      an all-capitals name longer than two characters. */
  function Cleaned(name: string, removeAnnotations: string -> string): string {
    var collapsed := Collapse(removeAnnotations(name));
    if Text.IsUpper(collapsed) && |collapsed| > 2 then Text.Title(collapsed) else collapsed
  }

  /** `clean_language_name`; `removeAnnotations` stands for the ten
      `re.sub(pattern, '', ..., flags=re.IGNORECASE)` passes. */
  function CleanLanguageName(name: string, code: string, removeAnnotations: string -> string): (r: string)
    ensures code in NameOverrides ==> r == NameOverrides[code]
    ensures code !in NameOverrides ==>
              r == Text.Upper(code) || (|r| > 2 && Text.Upper(r) != Text.Upper(code))
  {
    if code in NameOverrides then NameOverrides[code]
    else
      var cleaned := Cleaned(name, removeAnnotations);
      if Text.Upper(cleaned) == Text.Upper(code) || |cleaned| <= 2 then Text.Upper(code) else cleaned
  }

  lemma UpperOfTitle(s: string)
    ensures Text.Upper(Text.Title(s)) == Text.Upper(s)
  {
    var t := Text.Title(s);
    forall i | 0 <= i < |s| ensures Text.UpperChar(t[i]) == Text.UpperChar(s[i]) {
      UpperOfCase(s[i]);
    }
  }

  /** Upper-casing forgets any earlier change of letter case. */
  lemma UpperOfCase(c: char)
    ensures Text.UpperChar(Text.LowerChar(c)) == Text.UpperChar(c)
    ensures Text.UpperChar(Text.UpperChar(c)) == Text.UpperChar(c)
  {
  }

  /** Without an override, the result is either the upper-cased code, exactly
      when the collapsed name is that code in some letter case or at most two
      characters long, or the collapsed name itself up to letter case. */
  lemma CleanLanguageNameCases(name: string, code: string, removeAnnotations: string -> string)
    requires code !in NameOverrides
    ensures var collapsed := Collapse(removeAnnotations(name));
            var r := CleanLanguageName(name, code, removeAnnotations);
            if Text.Upper(collapsed) == Text.Upper(code) || |collapsed| <= 2 then r == Text.Upper(code)
            else |r| == |collapsed| && Text.Upper(r) == Text.Upper(collapsed)
  {
    var collapsed := Collapse(removeAnnotations(name));
    if Text.IsUpper(collapsed) && |collapsed| > 2 {
      UpperOfTitle(collapsed);
    }
  }

  /** An override wins whatever the name. */
  lemma CleanLanguageNameOverride(removeAnnotations: string -> string)
    ensures CleanLanguageName("", "hu", removeAnnotations) == "Hungarian"
  {
  }

  // ---------------------------------------------------------------------------
  // parse_yaml_frontmatter and extract_metrics
  // ---------------------------------------------------------------------------

  datatype Value = Int(i: int) | Real(x: real) | Str(s: string) | Bool(b: bool)

  /** One item of the `metrics` list: its `name` and `value` keys, each
      possibly absent or null. */
  datatype Metric = Metric(name: Option<string>, value: Option<Value>)

  /** What the site reads from a front matter: its `metrics` list, when the
      key is present. */
  datatype Frontmatter = Frontmatter(metrics: Option<seq<Metric>>)

  /** `{}`. */
  const NoFrontmatter := Frontmatter(None)

  /** What `yaml.safe_load` does with a text: raises, yields null, or yields
      a mapping. */
  datatype Loaded = Raised | Null | Mapping(frontmatter: Frontmatter)

  const Fence := "---"

  /** The front matter is the text between a leading `---` and the next
      `---` found from index 3, which starts at `end`. */
  predicate IsFrontmatterEnd(content: string, end: nat) {
    Fence <= content && 3 <= end && Text.OccursAt(content, Fence, end)
    && forall i: nat :: 3 <= i < end ==> !Text.OccursAt(content, Fence, i)
  }

  /** `parse_yaml_frontmatter`, with `load` standing for `yaml.safe_load`. */
  function ParseFrontmatter(content: string, load: string -> Loaded): (r: Frontmatter)
    ensures (!(Fence <= content) || forall i: nat :: 3 <= i ==> !Text.OccursAt(content, Fence, i))
            ==> r == NoFrontmatter
    ensures r != NoFrontmatter ==>
              exists end: nat :: IsFrontmatterEnd(content, end) && load(Text.Strip(content[3..end])) == Mapping(r)
  {
    if !(Fence <= content) then NoFrontmatter
    else
      var end := Text.Find(content, Fence, 3);
      if end == -1 then NoFrontmatter
      else
        match load(Text.Strip(content[3..end]))
        case Mapping(fm) => assert IsFrontmatterEnd(content, end); fm
        case _ => NoFrontmatter
  }

  /** The leading `---` and the next one from index 3 are all that is
      looked for: the loaded text lies between them. */
  lemma ParseFrontmatterLoads(content: string, load: string -> Loaded, end: nat)
    requires IsFrontmatterEnd(content, end)
    ensures ParseFrontmatter(content, load) ==
              match load(Text.Strip(content[3..end]))
              case Mapping(fm) => fm
              case _ => NoFrontmatter
  {
    var found := Text.Find(content, Fence, 3);
    assert found == end by {
      if found == -1 || found > end {
      } else if found < end {
      }
    }
  }

  function IsKept(m: Metric): bool {
    m.name.Some? && |m.name.value| > 0 && m.value.Some?
  }

  function NameOf(m: Metric): string {
    m.name.GetOr("")
  }

  function ValueOf(m: Metric): Value {
    m.value.GetOr(Int(0))
  }

  /** `extract_metrics`. */
  function ExtractMetrics(fm: Frontmatter): Dicts.Dict<string, Value> {
    match fm.metrics
    case None => []
    case Some(ms) => Dicts.Collect(ms, IsKept, NameOf, ValueOf)
  }

  /** Without a `metrics` key there are no metrics; otherwise a name is a key
      exactly when some item has that non-empty name and a non-null value. */
  lemma ExtractMetricsKeys(fm: Frontmatter, name: string)
    ensures Dicts.DistinctKeys(ExtractMetrics(fm))
    ensures fm.metrics.None? ==> ExtractMetrics(fm) == []
    ensures fm.metrics.Some? ==>
              (name in Dicts.Keys(ExtractMetrics(fm)) <==>
               exists j :: 0 <= j < |fm.metrics.value| && IsKept(fm.metrics.value[j])
                          && fm.metrics.value[j].name == Some(name))
  {
    if fm.metrics.Some? {
      Dicts.CollectDistinct(fm.metrics.value, IsKept, NameOf, ValueOf);
      Dicts.CollectKeys(fm.metrics.value, IsKept, NameOf, ValueOf, name);
    }
  }

  /** A later item with the same name overwrites an earlier one. */
  lemma ExtractMetricsLastWins(ms: seq<Metric>, j: nat)
    requires j < |ms| && IsKept(ms[j])
    requires forall k :: j < k < |ms| && IsKept(ms[k]) ==> ms[k].name != ms[j].name
    ensures Dicts.Get(ExtractMetrics(Frontmatter(Some(ms))), ms[j].name.value) == ms[j].value
  {
    assert Dicts.IsLastWith(ms, IsKept, NameOf, j);
    Dicts.CollectLast(ms, IsKept, NameOf, ValueOf, j);
  }

  // ---------------------------------------------------------------------------
  // extract_excerpt
  // ---------------------------------------------------------------------------

  /** The card's text without its front matter, stripped. */
  function Body(content: string): string {
    if Fence <= content then
      var end := Text.Find(content, Fence, 3);
      if end == -1 then content else Text.Strip(content[end + 3..])
    else content
  }

  /** A stripped line that can be part of an excerpt: not empty, and not a
      header, image, link, table row or separator. */
  function IsProse(line: string): bool {
    |line| > 0 && line[0] != '#' && line[0] != '!' && line[0] != '[' && line[0] != '|' && line[0] != '-'
  }

  function Stripped(lines: seq<string>): (r: seq<string>)
    ensures |r| == |lines|
    ensures forall i :: 0 <= i < |lines| ==> r[i] == Text.Strip(lines[i])
  {
    seq(|lines|, i requires 0 <= i < |lines| => Text.Strip(lines[i]))
  }

  /** The prose lines of the card's body, in order. */
  function ProseLines(content: string): seq<string> {
    Seqs.Filter(Stripped(Text.SplitOn(Body(content), '\n')), IsProse)
  }

  lemma TakeOneMore<T>(xs: seq<T>, i: nat)
    requires i < |xs|
    ensures xs[..i + 1] == xs[..i] + [xs[i]]
  {
  }

  /** Selecting from a prefix gives a prefix of the selection. */
  lemma {:induction false} FilterOfPrefix<T>(xs: seq<T>, p: T -> bool, i: nat)
    requires i <= |xs|
    ensures Seqs.Filter(xs[..i], p) <= Seqs.Filter(xs, p)
    decreases |xs| - i
  {
    if i < |xs| {
      FilterOfPrefix(xs, p, i + 1);
      TakeOneMore(xs, i);
      Seqs.FilterSnoc(xs[..i], xs[i], p);
    } else {
      assert xs[..i] == xs;
    }
  }

  /** Appending a line to a list whose joins all fit keeps every proper
      prefix's join within the limit. */
  lemma JoinPrefixesSnoc(before: seq<string>, line: string, maxLength: int)
    requires |before| > 0 ==> |Text.Join(before, " ")| <= maxLength
    requires forall k :: 0 < k < |before| ==> |Text.Join(before[..k], " ")| <= maxLength
    ensures forall k :: 0 < k < |before + [line]| ==> |Text.Join((before + [line])[..k], " ")| <= maxLength
  {
    var taken := before + [line];
    forall k | 0 < k < |taken| ensures |Text.Join(taken[..k], " ")| <= maxLength {
      if k < |before| {
        assert taken[..k] == before[..k];
      } else {
        assert taken[..k] == before;
      }
    }
  }

  /** The loop collecting `excerpt_lines`, over the lines already stripped:
      prose lines in order until their joined length first exceeds
      `maxLength`. */
  method ExcerptLines(stripped: seq<string>, maxLength: int) returns (taken: seq<string>)
    ensures taken <= Seqs.Filter(stripped, IsProse)
    ensures taken == Seqs.Filter(stripped, IsProse) || |Text.Join(taken, " ")| > maxLength
    ensures forall k :: 0 < k < |taken| ==> |Text.Join(taken[..k], " ")| <= maxLength
  {
    taken := [];
    var i := 0;
    while i < |stripped|
      invariant 0 <= i <= |stripped|
      invariant ExcerptInvariant(stripped, i, taken, maxLength)
    {
      var line := stripped[i];
      if IsProse(line) && |Text.Join(taken + [line], " ")| > maxLength {
        ExcerptStop(stripped, i, taken, maxLength);
        return taken + [line];
      }
      ExcerptStep(stripped, i, taken, maxLength);
      if IsProse(line) {
        taken := taken + [line];
      }
      i := i + 1;
    }
    assert stripped[..i] == stripped;
  }

  /** After `i` lines: the prose lines among them were all taken, and every
      non-empty prefix of what was taken joins within the limit. */
  predicate ExcerptInvariant(stripped: seq<string>, i: nat, taken: seq<string>, maxLength: int)
    requires i <= |stripped|
  {
    && taken == Seqs.Filter(stripped[..i], IsProse)
    && (|taken| > 0 ==> |Text.Join(taken, " ")| <= maxLength)
    && forall k :: 0 < k < |taken| ==> |Text.Join(taken[..k], " ")| <= maxLength
  }

  /** A line that fits (or is not prose) extends the invariant by one line. */
  lemma ExcerptStep(stripped: seq<string>, i: nat, taken: seq<string>, maxLength: int)
    requires i < |stripped| && ExcerptInvariant(stripped, i, taken, maxLength)
    requires IsProse(stripped[i]) ==> |Text.Join(taken + [stripped[i]], " ")| <= maxLength
    ensures ExcerptInvariant(stripped, i + 1,
                             if IsProse(stripped[i]) then taken + [stripped[i]] else taken, maxLength)
  {
    TakeOneMore(stripped, i);
    Seqs.FilterSnoc(stripped[..i], stripped[i], IsProse);
    JoinPrefixesSnoc(taken, stripped[i], maxLength);
  }

  /** The first prose line that does not fit ends the loop, taken. */
  lemma ExcerptStop(stripped: seq<string>, i: nat, taken: seq<string>, maxLength: int)
    requires i < |stripped| && ExcerptInvariant(stripped, i, taken, maxLength)
    requires IsProse(stripped[i])
    ensures taken + [stripped[i]] <= Seqs.Filter(stripped, IsProse)
    ensures forall k :: 0 < k < |taken + [stripped[i]]| ==>
              |Text.Join((taken + [stripped[i]])[..k], " ")| <= maxLength
  {
    TakeOneMore(stripped, i);
    Seqs.FilterSnoc(stripped[..i], stripped[i], IsProse);
    JoinPrefixesSnoc(taken, stripped[i], maxLength);
    FilterOfPrefix(stripped, IsProse, i + 1);
  }

  /** The index of the last `c` in `s`, or -1. */
  function LastIndexOf(s: string, c: char): (r: int)
    ensures -1 <= r < |s|
    ensures r >= 0 ==> s[r] == c
    ensures forall j :: r < j < |s| ==> s[j] != c
    decreases |s|
  {
    if |s| == 0 then -1
    else if s[|s| - 1] == c then |s| - 1
    else LastIndexOf(s[..|s| - 1], c)
  }

  /** `s.rsplit(' ', 1)[0]`: the text before the last space, or all of it. */
  function BeforeLastSpace(s: string): string {
    var k := LastIndexOf(s, ' ');
    if k < 0 then s else s[..k]
  }

  /** What `rsplit` keeps: a prefix of the text, ending just before a space
      with none after it, or the whole text when it has no space. */
  lemma BeforeLastSpaceShape(s: string)
    ensures BeforeLastSpace(s) <= s
    ensures ' ' in s ==> |BeforeLastSpace(s)| < |s| && s[|BeforeLastSpace(s)|] == ' '
                         && forall j :: |BeforeLastSpace(s)| < j < |s| ==> s[j] != ' '
    ensures ' ' !in s ==> BeforeLastSpace(s) == s
  {
  }

  const Ellipsis := "..."

  /** `' '.join(excerpt_lines)[:max_length]`, cut back to the last space with
      `...` appended when the slice is exactly `max_length` long. */
  function Truncate(joined: string, maxLength: int): string {
    var excerpt := Seqs.PyPrefix(joined, maxLength);
    if |excerpt| == maxLength then BeforeLastSpace(excerpt) + Ellipsis else excerpt
  }

  /** `r` is `cut` shortened to before its last space, or kept whole when
      it has no space, and followed by `...`. */
  predicate CutAtLastSpace(r: string, cut: string) {
    && |r| >= 3 && r[|r| - 3..] == Ellipsis
    && (' ' !in cut ==> r == cut + Ellipsis)
    && (' ' in cut ==> |r| - 3 < |cut| && r[..|r| - 3] == cut[..|r| - 3] && cut[|r| - 3] == ' '
                       && forall j :: |r| - 3 < j < |cut| ==> cut[j] != ' ')
  }

  /** The shape fixes the excerpt: a long card has exactly one. */
  lemma CutAtLastSpaceUnique(r1: string, r2: string, cut: string)
    requires CutAtLastSpace(r1, cut) && CutAtLastSpace(r2, cut)
    ensures r1 == r2
  {
    if ' ' in cut {
      var k1, k2 := |r1| - 3, |r2| - 3;
      LastSpaceAt(cut, k1);
      LastSpaceAt(cut, k2);
      assert r1 == r1[..k1] + r1[k1..];
      assert r2 == r2[..k2] + r2[k2..];
    }
  }

  /** A space with no space after it is the last one. */
  lemma LastSpaceAt(s: string, k: nat)
    requires k < |s| && s[k] == ' ' && forall j :: k < j < |s| ==> s[j] != ' '
    ensures k == LastIndexOf(s, ' ')
  {
  }

  /** A text shorter than the limit is kept whole; a longer one is cut at or
      before the limit and marked with `...`, so that the excerpt is never
      more than three characters over the limit. A negative limit drops that
      many characters from the end, as a Python slice does. */
  lemma TruncateBounds(joined: string, maxLength: int)
    ensures 0 <= maxLength ==> |Truncate(joined, maxLength)| <= maxLength + 3
    ensures |joined| < maxLength ==> Truncate(joined, maxLength) == joined
    ensures 0 <= maxLength <= |joined| ==>
              var r := Truncate(joined, maxLength);
              |r| >= 3 && r[|r| - 3..] == Ellipsis && r[..|r| - 3] <= joined[..maxLength]
    ensures 0 <= maxLength <= |joined| ==> CutAtLastSpace(Truncate(joined, maxLength), joined[..maxLength])
    ensures maxLength < 0 ==> Truncate(joined, maxLength) == joined[..Seqs.Max(0, |joined| + maxLength)]
  {
    var excerpt := Seqs.PyPrefix(joined, maxLength);
    BeforeLastSpaceShape(excerpt);
    if 0 <= maxLength <= |joined| {
      var r := Truncate(joined, maxLength);
      assert r[..|r| - 3] == BeforeLastSpace(excerpt);
    }
  }

  /** `extract_excerpt`; `taken` is the `excerpt_lines` the loop collected. */
  method ExtractExcerpt(content: string, maxLength: int) returns (r: string, ghost taken: seq<string>)
    ensures taken <= ProseLines(content)
    ensures forall i :: 0 <= i < |taken| ==> IsProse(taken[i])
    ensures 0 <= maxLength ==> |r| <= maxLength + 3
    ensures |Text.Join(taken, " ")| < maxLength ==> r == Text.Join(taken, " ")
    ensures |Text.Join(ProseLines(content), " ")| < maxLength ==> r == Text.Join(ProseLines(content), " ")
    ensures taken == ProseLines(content) || |Text.Join(taken, " ")| > maxLength
    ensures forall k :: 0 < k < |taken| ==> |Text.Join(taken[..k], " ")| <= maxLength
    ensures 0 <= maxLength <= |Text.Join(taken, " ")| ==> |r| >= 3 && r[|r| - 3..] == Ellipsis
    ensures 0 <= maxLength <= |Text.Join(taken, " ")| ==>
              r[..|r| - 3] <= Text.Join(taken, " ")[..maxLength]
              && r[..|r| - 3] <= Text.Join(ProseLines(content), " ")
    ensures 0 <= maxLength <= |Text.Join(taken, " ")| ==>
              CutAtLastSpace(r, Text.Join(taken, " ")[..maxLength])
  {
    var lines := ExcerptLines(Stripped(Text.SplitOn(Body(content), '\n')), maxLength);
    taken := lines;
    var joined := Text.Join(lines, " ");
    r := Truncate(joined, maxLength);
    TruncateBounds(joined, maxLength);
    ProsePrefix(taken, ProseLines(content));
  }

  /** A prefix of prose lines is prose, and its join starts the join of all. */
  lemma ProsePrefix(taken: seq<string>, prose: seq<string>)
    requires taken <= prose && forall i :: 0 <= i < |prose| ==> IsProse(prose[i])
    ensures forall i :: 0 <= i < |taken| ==> IsProse(taken[i])
    ensures Text.Join(taken, " ") <= Text.Join(prose, " ")
  {
    Text.JoinOfPrefix(taken, prose, " ");
    forall i | 0 <= i < |taken| ensures IsProse(taken[i]) {
      assert taken[i] == prose[i];
    }
  }
}
