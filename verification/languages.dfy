/** Language-code discovery and display of `src/wikilangs/languages.py`.

    The dataset's config names (`get_dataset_config_names`) and the ISO 639
    database (`pycountry.languages.lookup`) are outside the model: the config
    list is a parameter, `None` when it could not be retrieved, and the ISO
    lookup is a function from code to outcome, together with a flag saying
    whether pycountry is installed at all. */
module Languages {
  import opened Wrappers
  import Text
  import Sorting

  /** `LanguageInfo`; `languageType` is the field `languages.py` calls `type`. */
  datatype LanguageInfo = LanguageInfo(
    code: string,
    name: string,
    commonName: Option<string>,
    alpha2: Option<string>,
    alpha3: Option<string>,
    scope: Option<string>,
    languageType: Option<string>,
    bibliographic: Option<string>,
    terminological: Option<string>)

  /** What the ISO 639 database knows about a language. */
  datatype IsoRecord = IsoRecord(
    name: string,
    commonName: Option<string>,
    alpha2: Option<string>,
    alpha3: Option<string>,
    scope: Option<string>,
    languageType: Option<string>,
    bibliographic: Option<string>,
    terminological: Option<string>)

  /** The outcome of `pycountry.languages.lookup(code)`: a record, a
      `LookupError`, or any other exception. */
  datatype IsoLookup = Found(record: IsoRecord) | NotFound | LookupFailed

  datatype Error = ConfigsUnavailable(date: string)

  /** A `LanguageInfo` with only code and name set. */
  function Basic(code: string, name: string): LanguageInfo {
    LanguageInfo(code, name, None, None, None, None, None, None, None)
  }

  function FromRecord(code: string, rec: IsoRecord): LanguageInfo {
    LanguageInfo(code, rec.name, rec.commonName, rec.alpha2, rec.alpha3,
                 rec.scope, rec.languageType, rec.bibliographic, rec.terminological)
  }

  // ---------------------------------------------------------------------------
  // LanguageInfo.__str__
  // ---------------------------------------------------------------------------

  /** The common name is shown when it is non-empty and differs from the name. */
  predicate ShowsCommonName(info: LanguageInfo) {
    info.commonName.Some? && info.commonName.value != "" && info.commonName.value != info.name
  }

  /** `str(info)`: "code: name", followed by " (common)" when the common name
      is shown. */
  function ToString(info: LanguageInfo): (r: string)
    ensures info.code + ": " + info.name <= r
    ensures |r| > |info.code| + 2 + |info.name| <==> ShowsCommonName(info)
    ensures ShowsCommonName(info) ==>
              r[|info.code| + 2 + |info.name|..] == " (" + info.commonName.value + ")"
  {
    var head := info.code + ": " + info.name;
    if ShowsCommonName(info) then head + " (" + info.commonName.value + ")" else head
  }

  /** The three renderings `languages.py` promises for "en"/"English" and
      "bn"/"Bengali"/"Bangla". */
  lemma ToStringExamples()
    ensures ToString(Basic("en", "English")) == "en: English"
    ensures ToString(Basic("en", "English").(commonName := Some("English"))) == "en: English"
    ensures ToString(Basic("bn", "Bengali").(commonName := Some("Bangla"))) == "bn: Bengali (Bangla)"
  {
    ToStringPlain();
    ToStringSameCommon();
    ToStringCommon();
  }

  lemma ToStringPlain()
    ensures ToString(Basic("en", "English")) == "en: English"
  {
    assert !ShowsCommonName(Basic("en", "English"));
  }

  lemma ToStringSameCommon()
    ensures ToString(Basic("en", "English").(commonName := Some("English"))) == "en: English"
  {
    assert !ShowsCommonName(Basic("en", "English").(commonName := Some("English")));
  }

  lemma ToStringCommon()
    ensures ToString(Basic("bn", "Bengali").(commonName := Some("Bangla"))) == "bn: Bengali (Bangla)"
  {
    var info := Basic("bn", "Bengali").(commonName := Some("Bangla"));
    assert "Bangla" != "Bengali" by {
      assert "Bangla"[1] != "Bengali"[1];
    }
    assert ShowsCommonName(info);
  }

  // ---------------------------------------------------------------------------
  // _format_unknown_language_name
  // ---------------------------------------------------------------------------

  /** The label naming the code family, chosen by length alone. */
  function UnknownLabel(length: nat): string {
    if length == 2 then " (ISO 639-1)"
    else if length == 3 then " (ISO 639-3)"
    else " (Unknown)"
  }

  /** The upper-cased code followed by the label for its length. */
  function FormatUnknownName(code: string): (r: string)
    ensures |r| > |code| && r[..|code|] == Text.Upper(code)
    ensures r[|code|..] == UnknownLabel(|code|)
  {
    var r := Text.Upper(code) + UnknownLabel(|code|);
    assert r[..|code|] == Text.Upper(code);
    r
  }

  /** The name does not depend on the letter case of the code. */
  lemma FormatUnknownNameCase(code: string)
    ensures FormatUnknownName(Text.Upper(code)) == FormatUnknownName(code)
  {
    assert Text.Upper(Text.Upper(code)) == Text.Upper(code);
  }

  lemma FormatUnknownNameExamples()
    ensures FormatUnknownName("xy") == "XY (ISO 639-1)"
    ensures FormatUnknownName("xyz") == "XYZ (ISO 639-3)"
    ensures FormatUnknownName("abcd") == "ABCD (Unknown)"
  {
    FormatTwoLetters();
    FormatThreeLetters();
    FormatFourLetters();
  }

  lemma FormatTwoLetters()
    ensures FormatUnknownName("xy") == "XY (ISO 639-1)"
  {
    assert Text.Upper("xy") == "XY";
  }

  lemma FormatThreeLetters()
    ensures FormatUnknownName("xyz") == "XYZ (ISO 639-3)"
  {
    assert Text.Upper("xyz") == "XYZ";
  }

  lemma FormatFourLetters()
    ensures FormatUnknownName("abcd") == "ABCD (Unknown)"
  {
    assert Text.Upper("abcd") == "ABCD";
  }

  // ---------------------------------------------------------------------------
  // languages
  // ---------------------------------------------------------------------------

  /** The position of the first dot in `c`. */
  function FirstDot(c: string): (k: nat)
    requires '.' in c
    ensures k < |c| && c[k] == '.'
    ensures forall j :: 0 <= j < k ==> c[j] != '.'
  {
    var i :| 0 <= i < |c| && c[i] == '.';
    Text.FieldEnd(c, '.', 0)
  }

  /** `c.split(".", 1)[1]`: the text after the first dot. */
  function AfterFirstDot(c: string): (r: string)
    requires '.' in c
    ensures |r| < |c| && c[|c| - |r| - 1] == '.' && '.' !in c[..|c| - |r| - 1]
    ensures r == c[|c| - |r|..]
  {
    var k := FirstDot(c);
    assert forall j :: 0 <= j < k ==> c[..k][j] == c[j];
    c[k + 1..]
  }

  /** When the date has no dot, the code is what follows the prefix. */
  lemma AfterFirstDotOfPrefix(date: string, c: string)
    requires '.' !in date && date + "." <= c
    ensures '.' in c && AfterFirstDot(c) == c[|date| + 1..]
  {
    assert c[|date|] == '.';
    var k := FirstDot(c);
    assert forall j :: 0 <= j < |date| ==> c[j] == date[j];
    assert k == |date|;
  }

  /** `[c.split(".", 1)[1] for c in configs if c.startswith(prefix)]`. */
  function Select(configs: seq<string>, prefix: string): (r: seq<string>)
    requires '.' in prefix
    decreases |configs|
  {
    if |configs| == 0 then []
    else
      var rest := Select(configs[1..], prefix);
      if prefix <= configs[0] then
        assert '.' in configs[0] by {
          var d :| d in prefix && d == '.';
          var i :| 0 <= i < |prefix| && prefix[i] == '.';
          assert configs[0][i] == '.';
        }
        [AfterFirstDot(configs[0])] + rest
      else rest
  }

  /** Some config starting with `prefix` names `code`. */
  ghost predicate Offers(configs: seq<string>, prefix: string, code: string)
    requires '.' in prefix
  {
    exists i :: 0 <= i < |configs| && prefix <= configs[i] && '.' in configs[i] && AfterFirstDot(configs[i]) == code
  }

  lemma {:induction false} SelectOffers(configs: seq<string>, prefix: string, code: string)
    requires '.' in prefix
    ensures code in Select(configs, prefix) <==> Offers(configs, prefix, code)
    decreases |configs|
  {
    if |configs| > 0 {
      SelectOffers(configs[1..], prefix, code);
      if Offers(configs[1..], prefix, code) {
        var i :| 0 <= i < |configs[1..]| && prefix <= configs[1..][i] && '.' in configs[1..][i]
                 && AfterFirstDot(configs[1..][i]) == code;
        assert configs[i + 1] == configs[1..][i];
      }
      if Offers(configs, prefix, code) {
        var i :| 0 <= i < |configs| && prefix <= configs[i] && '.' in configs[i] && AfterFirstDot(configs[i]) == code;
        if i > 0 {
          assert configs[1..][i - 1] == configs[i];
        }
      }
    }
  }

  /** Select is empty exactly when no config starts with the prefix. */
  lemma {:induction false} SelectEmpty(configs: seq<string>, prefix: string)
    requires '.' in prefix
    ensures |Select(configs, prefix)| == 0 <==> forall i :: 0 <= i < |configs| ==> !(prefix <= configs[i])
    decreases |configs|
  {
    if |configs| > 0 {
      SelectEmpty(configs[1..], prefix);
      assert forall i :: 1 <= i < |configs| ==> configs[i] == configs[1..][i - 1];
    }
  }

  const Latest: string := "latest"

  /** `languages(date)`: the codes of the configs for `date`, or of the
      "latest." configs when `date` has none, sorted and without duplicates. */
  function Languages(configs: Option<seq<string>>, date: string): (r: Result<seq<string>, Error>)
    ensures r.Failure? <==> configs.None?
    ensures r.Failure? ==> r.error == ConfigsUnavailable(date)
    ensures r.Success? ==> Sorting.StrictlyAscending(r.value)
  {
    match configs
    case None => Failure(ConfigsUnavailable(date))
    case Some(cs) =>
      assert (date + ".")[|date|] == '.';
      var langs := Select(cs, date + ".");
      var langs := if |langs| == 0 && date != Latest then Select(cs, Latest + ".") else langs;
      if |langs| == 0 then Success([]) else Success(Sorting.SortedSet(langs))
  }

  /** The codes `languages` returns: those the date's configs offer; when the
      date has no config and is not "latest", those the "latest." configs
      offer; otherwise none. */
  lemma LanguagesContents(cs: seq<string>, date: string, code: string)
    ensures '.' in date + "." && '.' in Latest + "."
    ensures var r := Languages(Some(cs), date).value;
            && ((exists i :: 0 <= i < |cs| && date + "." <= cs[i]) ==>
                  (code in r <==> Offers(cs, date + ".", code)))
            && ((forall i :: 0 <= i < |cs| ==> !(date + "." <= cs[i])) && date != Latest ==>
                  (code in r <==> Offers(cs, Latest + ".", code)))
            && ((forall i :: 0 <= i < |cs| ==> !(date + "." <= cs[i])) && date == Latest ==>
                  r == [])
  {
    assert (date + ".")[|date|] == '.';
    assert (Latest + ".")[|Latest|] == '.';
    SelectEmpty(cs, date + ".");
    SelectOffers(cs, date + ".", code);
    SelectOffers(cs, Latest + ".", code);
  }

  // ---------------------------------------------------------------------------
  // languages_with_metadata and get_language_info
  // ---------------------------------------------------------------------------

  /** One code enriched as `languages_with_metadata` does it: any failure of
      the lookup gives the unknown-code name. */
  function Enrich(code: string, hasPycountry: bool, lookup: string -> IsoLookup): (r: LanguageInfo)
    ensures r.code == code
    ensures !hasPycountry ==> r == Basic(code, Text.Upper(code))
    ensures hasPycountry && lookup(code).Found? ==> r == FromRecord(code, lookup(code).record)
    ensures hasPycountry && !lookup(code).Found? ==> r == Basic(code, FormatUnknownName(code))
  {
    if !hasPycountry then Basic(code, Text.Upper(code))
    else match lookup(code)
      case Found(rec) => FromRecord(code, rec)
      case _ => Basic(code, FormatUnknownName(code))
  }

  /** `languages_with_metadata(date)`: one `LanguageInfo` per code of
      `languages(date)`, in the same order. */
  function LanguagesWithMetadata(configs: Option<seq<string>>, date: string,
                                 hasPycountry: bool, lookup: string -> IsoLookup): (r: Result<seq<LanguageInfo>, Error>)
    ensures r.Failure? <==> Languages(configs, date).Failure?
    ensures r.Success? ==> |r.value| == |Languages(configs, date).value|
    ensures r.Success? ==> forall i :: 0 <= i < |r.value| ==>
              r.value[i].code == Languages(configs, date).value[i]
    ensures r.Success? ==> forall i :: 0 <= i < |r.value| ==>
              !hasPycountry ==> r.value[i] == Basic(r.value[i].code, Text.Upper(r.value[i].code))
    ensures r.Success? ==> forall i :: 0 <= i < |r.value| ==>
              hasPycountry && lookup(r.value[i].code).Found? ==>
                r.value[i] == FromRecord(r.value[i].code, lookup(r.value[i].code).record)
    ensures r.Success? ==> forall i :: 0 <= i < |r.value| ==>
              hasPycountry && !lookup(r.value[i].code).Found? ==>
                r.value[i] == Basic(r.value[i].code, FormatUnknownName(r.value[i].code))
  {
    var codes :- Languages(configs, date);
    Success(seq(|codes|, i requires 0 <= i < |codes| => Enrich(codes[i], hasPycountry, lookup)))
  }

  /** The enriched list is sorted by code, strictly, as `languages` is. */
  lemma LanguagesWithMetadataSorted(configs: Option<seq<string>>, date: string,
                                    hasPycountry: bool, lookup: string -> IsoLookup)
    requires LanguagesWithMetadata(configs, date, hasPycountry, lookup).Success?
    ensures var infos := LanguagesWithMetadata(configs, date, hasPycountry, lookup).value;
            forall i, j :: 0 <= i < j < |infos| ==> Sorting.Less(infos[i].code, infos[j].code)
  {
  }

  /** `get_language_info(code)`: like the enrichment, except that an
      unexpected lookup error gives `None`. */
  function GetLanguageInfo(code: string, hasPycountry: bool, lookup: string -> IsoLookup): (r: Option<LanguageInfo>)
    ensures r.None? <==> hasPycountry && lookup(code).LookupFailed?
    ensures r.Some? ==> r.value.code == code
  {
    if !hasPycountry then Some(Basic(code, Text.Upper(code)))
    else match lookup(code)
      case Found(rec) => Some(FromRecord(code, rec))
      case NotFound => Some(Basic(code, FormatUnknownName(code)))
      case LookupFailed => None
  }

  /** The single-code query and the list enrichment agree whenever the
      query returns something. */
  lemma GetLanguageInfoAgrees(code: string, hasPycountry: bool, lookup: string -> IsoLookup)
    ensures GetLanguageInfo(code, hasPycountry, lookup).Some? ==>
            GetLanguageInfo(code, hasPycountry, lookup).value == Enrich(code, hasPycountry, lookup)
    ensures GetLanguageInfo(code, hasPycountry, lookup).None? ==>
            Enrich(code, hasPycountry, lookup) == Basic(code, FormatUnknownName(code))
  {
  }
}
