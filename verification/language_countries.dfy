/** The country aggregation of `scripts/generate_language_countries.py`:
    from the languages that have models and the language-to-countries table,
    the per-country lists of macrolanguages and endemic languages, the
    reverse language-to-countries map and per-country counts. Reading
    `languages.json` and writing the result are outside the model; the table
    is a parameter. */
module LanguageCountries {
  import opened Wrappers
  import Dicts

  /** `MACROLANGUAGES`. */
  const Macrolanguages: set<string> := {
    "en", "es", "fr", "pt", "ar", "zh", "ru", "de", "hi", "bn",
    "ja", "ko", "it", "nl", "pl", "tr", "vi", "th", "id", "ms",
    "sw", "fa", "ur", "ta", "te", "mr", "gu", "kn", "ml", "pa",
    "he", "el", "cs", "hu", "ro", "bg", "uk", "sr", "hr", "sk",
    "sl", "lt", "lv", "et", "fi", "sv", "no", "da", "is"
  }

  /** One record of `languages.json`; `hasModels` is the truthiness of its
      `has_models` field. */
  datatype Language = Language(code: string, hasModels: bool)

  /** `LANGUAGE_COUNTRIES` in its order: each language code with its list of
      (country code, is primary) pairs. */
  type Table = seq<(string, seq<(string, bool)>)>

  /** `{'code': ..., 'primary': ...}`. */
  datatype Entry = Entry(code: string, primary: bool)

  /** `{'endemic': [...], 'macro': [...]}`. */
  datatype Group = Group(endemic: seq<Entry>, macro: seq<Entry>)

  datatype LanguageInfo = LanguageInfo(countries: seq<string>, isMacro: bool)

  datatype Stats = Stats(total: int, endemic: int, macro: int, languages: Group)

  datatype Output = Output(
    countryLanguages: Dicts.Dict<string, Group>,
    languageCountries: Dicts.Dict<string, LanguageInfo>,
    countryStats: Dicts.Dict<string, Stats>,
    availableLanguageCount: nat)

  /** `available_codes`. */
  function Available(languages: seq<Language>): set<string> {
    set l | l in languages && l.hasModels :: l.code
  }

  /** A table is a dict: no language code twice. */
  predicate DistinctCodes(table: Table) {
    forall i, j :: 0 <= i < j < |table| ==> table[i].0 != table[j].0
  }

  // ---------------------------------------------------------------------------
  // country_languages
  // ---------------------------------------------------------------------------

  const Empty := Group([], [])

  /** What the defaultdict yields for `country`. */
  function GroupOf(d: Dicts.Dict<string, Group>, country: string): Group {
    Dicts.Get(d, country).GetOr(Empty)
  }

  function Size(g: Group): nat {
    |g.endemic| + |g.macro|
  }

  /** `country_languages[country]['macro' or 'endemic'].append(entry)`. */
  function Append(d: Dicts.Dict<string, Group>, country: string, e: Entry, isMacro: bool): Dicts.Dict<string, Group> {
    var g := GroupOf(d, country);
    Dicts.Put(d, country, if isMacro then g.(macro := g.macro + [e]) else g.(endemic := g.endemic + [e]))
  }

  /** The inner loop over one language's countries. */
  function AddLanguage(d: Dicts.Dict<string, Group>, lang: string, countries: seq<(string, bool)>, isMacro: bool)
    : Dicts.Dict<string, Group>
    decreases |countries|
  {
    if |countries| == 0 then d
    else
      var last := countries[|countries| - 1];
      Append(AddLanguage(d, lang, countries[..|countries| - 1], isMacro), last.0, Entry(lang, last.1), isMacro)
  }

  /** The outer loop: every available language in table order. */
  function CountryLanguages(table: Table, available: set<string>): Dicts.Dict<string, Group>
    decreases |table|
  {
    if |table| == 0 then []
    else
      var d := CountryLanguages(table[..|table| - 1], available);
      var lang := table[|table| - 1].0;
      if lang in available then AddLanguage(d, lang, table[|table| - 1].1, lang in Macrolanguages) else d
  }

  /** The entries one language gives one country: one per pair naming that
      country, carrying the pair's flag, in list order. */
  function EntriesIn(lang: string, countries: seq<(string, bool)>, country: string): seq<Entry>
    decreases |countries|
  {
    if |countries| == 0 then []
    else
      var last := countries[|countries| - 1];
      EntriesIn(lang, countries[..|countries| - 1], country)
        + (if last.0 == country then [Entry(lang, last.1)] else [])
  }

  /** The entries of `country` from the available languages that are
      macrolanguages (`macro`) or not (`!macro`), in table order. */
  function Expected(table: Table, available: set<string>, country: string, macro: bool): seq<Entry>
    decreases |table|
  {
    if |table| == 0 then []
    else
      var (lang, countries) := table[|table| - 1];
      Expected(table[..|table| - 1], available, country, macro)
        + (if lang in available && (lang in Macrolanguages) == macro then EntriesIn(lang, countries, country) else [])
  }

  /** What one append adds to the lists of `c`. */
  function Added(country: string, e: Entry, c: string): seq<Entry> {
    if c == country then [e] else []
  }

  lemma AppendGroup(d: Dicts.Dict<string, Group>, country: string, e: Entry, isMacro: bool, c: string)
    ensures GroupOf(Append(d, country, e, isMacro), c).macro
            == GroupOf(d, c).macro + (if isMacro then Added(country, e, c) else [])
    ensures GroupOf(Append(d, country, e, isMacro), c).endemic
            == GroupOf(d, c).endemic + (if !isMacro then Added(country, e, c) else [])
  {
  }

  /** One more step of a list that grows by `es` and then by `extra`. */
  lemma Grows(start: seq<Entry>, mid: seq<Entry>, end: seq<Entry>, es: seq<Entry>, extra: seq<Entry>, on: bool)
    requires mid == start + (if on then es else [])
    requires end == mid + (if on then extra else [])
    ensures end == start + (if on then es + extra else [])
  {
  }

  lemma AddLanguageStep(d: Dicts.Dict<string, Group>, lang: string, countries: seq<(string, bool)>, isMacro: bool, c: string)
    requires |countries| > 0
    ensures var n := |countries| - 1;
            GroupOf(AddLanguage(d, lang, countries, isMacro), c)
            == GroupOf(Append(AddLanguage(d, lang, countries[..n], isMacro), countries[n].0, Entry(lang, countries[n].1), isMacro), c)
    ensures var n := |countries| - 1;
            EntriesIn(lang, countries, c) == EntriesIn(lang, countries[..n], c) + Added(countries[n].0, Entry(lang, countries[n].1), c)
  {
  }

  lemma MacroStep(d: Dicts.Dict<string, Group>, lang: string, countries: seq<(string, bool)>, isMacro: bool, c: string)
    requires |countries| > 0
    requires GroupOf(AddLanguage(d, lang, countries[..|countries| - 1], isMacro), c).macro
             == GroupOf(d, c).macro + (if isMacro then EntriesIn(lang, countries[..|countries| - 1], c) else [])
    ensures GroupOf(AddLanguage(d, lang, countries, isMacro), c).macro
            == GroupOf(d, c).macro + (if isMacro then EntriesIn(lang, countries, c) else [])
  {
    var n := |countries| - 1;
    var e := Entry(lang, countries[n].1);
    var prev := AddLanguage(d, lang, countries[..n], isMacro);
    AddLanguageStep(d, lang, countries, isMacro, c);
    AppendGroup(prev, countries[n].0, e, isMacro, c);
    Grows(GroupOf(d, c).macro, GroupOf(prev, c).macro, GroupOf(Append(prev, countries[n].0, e, isMacro), c).macro,
          EntriesIn(lang, countries[..n], c), Added(countries[n].0, e, c), isMacro);
  }

  lemma {:induction false} AddLanguageMacro(d: Dicts.Dict<string, Group>, lang: string, countries: seq<(string, bool)>,
                                            isMacro: bool, c: string)
    ensures GroupOf(AddLanguage(d, lang, countries, isMacro), c).macro
            == GroupOf(d, c).macro + (if isMacro then EntriesIn(lang, countries, c) else [])
    decreases |countries|
  {
    if |countries| > 0 {
      AddLanguageMacro(d, lang, countries[..|countries| - 1], isMacro, c);
      MacroStep(d, lang, countries, isMacro, c);
    }
  }

  lemma EndemicStep(d: Dicts.Dict<string, Group>, lang: string, countries: seq<(string, bool)>, isMacro: bool, c: string)
    requires |countries| > 0
    requires GroupOf(AddLanguage(d, lang, countries[..|countries| - 1], isMacro), c).endemic
             == GroupOf(d, c).endemic + (if !isMacro then EntriesIn(lang, countries[..|countries| - 1], c) else [])
    ensures GroupOf(AddLanguage(d, lang, countries, isMacro), c).endemic
            == GroupOf(d, c).endemic + (if !isMacro then EntriesIn(lang, countries, c) else [])
  {
    var n := |countries| - 1;
    var e := Entry(lang, countries[n].1);
    var prev := AddLanguage(d, lang, countries[..n], isMacro);
    AddLanguageStep(d, lang, countries, isMacro, c);
    AppendGroup(prev, countries[n].0, e, isMacro, c);
    Grows(GroupOf(d, c).endemic, GroupOf(prev, c).endemic, GroupOf(Append(prev, countries[n].0, e, isMacro), c).endemic,
          EntriesIn(lang, countries[..n], c), Added(countries[n].0, e, c), !isMacro);
  }

  lemma {:induction false} AddLanguageEndemic(d: Dicts.Dict<string, Group>, lang: string, countries: seq<(string, bool)>,
                                            isMacro: bool, c: string)
    ensures GroupOf(AddLanguage(d, lang, countries, isMacro), c).endemic
            == GroupOf(d, c).endemic + (if !isMacro then EntriesIn(lang, countries, c) else [])
    decreases |countries|
  {
    if |countries| > 0 {
      AddLanguageEndemic(d, lang, countries[..|countries| - 1], isMacro, c);
      EndemicStep(d, lang, countries, isMacro, c);
    }
  }

  /** Each country's lists hold exactly the entries of its available
      languages, macrolanguages in `macro` and the others in `endemic`, in
      table order. */
  lemma {:induction false} CountryLanguagesGroups(table: Table, available: set<string>, c: string)
    ensures GroupOf(CountryLanguages(table, available), c)
            == Group(Expected(table, available, c, false), Expected(table, available, c, true))
    decreases |table|
  {
    if |table| > 0 {
      var n := |table| - 1;
      CountryLanguagesGroups(table[..n], available, c);
      var lang := table[n].0;
      if lang in available {
        AddLanguageMacro(CountryLanguages(table[..n], available), lang, table[n].1, lang in Macrolanguages, c);
        AddLanguageEndemic(CountryLanguages(table[..n], available), lang, table[n].1, lang in Macrolanguages, c);
      }
    }
  }

  /** Every key holds a non-empty group, and the keys are distinct. */
  ghost predicate WellFormed(d: Dicts.Dict<string, Group>) {
    Dicts.DistinctKeys(d) && forall c :: c in Dicts.Keys(d) <==> Size(GroupOf(d, c)) > 0
  }

  lemma AppendWellFormed(d: Dicts.Dict<string, Group>, country: string, e: Entry, isMacro: bool)
    requires WellFormed(d)
    ensures WellFormed(Append(d, country, e, isMacro))
  {
    var g := GroupOf(d, country);
    Dicts.PutDistinct(d, country, if isMacro then g.(macro := g.macro + [e]) else g.(endemic := g.endemic + [e]));
    var r := Append(d, country, e, isMacro);
    forall c ensures c in Dicts.Keys(r) <==> Size(GroupOf(r, c)) > 0 {
      AppendGroup(d, country, e, isMacro, c);
    }
  }

  lemma {:induction false} AddLanguageWellFormed(d: Dicts.Dict<string, Group>, lang: string,
                                                 countries: seq<(string, bool)>, isMacro: bool)
    requires WellFormed(d)
    ensures WellFormed(AddLanguage(d, lang, countries, isMacro))
    decreases |countries|
  {
    if |countries| > 0 {
      var n := |countries| - 1;
      AddLanguageWellFormed(d, lang, countries[..n], isMacro);
      AppendWellFormed(AddLanguage(d, lang, countries[..n], isMacro), countries[n].0, Entry(lang, countries[n].1), isMacro);
    }
  }

  lemma {:induction false} CountryLanguagesWellFormed(table: Table, available: set<string>)
    ensures WellFormed(CountryLanguages(table, available))
    decreases |table|
  {
    if |table| > 0 {
      var n := |table| - 1;
      CountryLanguagesWellFormed(table[..n], available);
      if table[n].0 in available {
        AddLanguageWellFormed(CountryLanguages(table[..n], available), table[n].0, table[n].1,
                              table[n].0 in Macrolanguages);
      }
    }
  }

  lemma {:induction false} EntriesInCodes(lang: string, countries: seq<(string, bool)>, country: string)
    ensures forall k :: 0 <= k < |EntriesIn(lang, countries, country)| ==> EntriesIn(lang, countries, country)[k].code == lang
    decreases |countries|
  {
    if |countries| > 0 {
      EntriesInCodes(lang, countries[..|countries| - 1], country);
    }
  }

  /** Only available languages are listed, and each in the list its
      macrolanguage status selects. */
  lemma {:induction false} ExpectedCodes(table: Table, available: set<string>, country: string, macro: bool)
    ensures forall k :: 0 <= k < |Expected(table, available, country, macro)| ==>
              var code := Expected(table, available, country, macro)[k].code;
              code in available && (code in Macrolanguages) == macro
    decreases |table|
  {
    if |table| > 0 {
      var n := |table| - 1;
      ExpectedCodes(table[..n], available, country, macro);
      EntriesInCodes(table[n].0, table[n].1, country);
    }
  }

  /** The listing in terms of the output: every entry of a country's lists
      is an available language, macrolanguages exactly in `macro`. */
  lemma CountryLanguagesCodes(table: Table, available: set<string>, c: string)
    ensures var g := GroupOf(CountryLanguages(table, available), c);
            && (forall k :: 0 <= k < |g.macro| ==> g.macro[k].code in available && g.macro[k].code in Macrolanguages)
            && (forall k :: 0 <= k < |g.endemic| ==> g.endemic[k].code in available && g.endemic[k].code !in Macrolanguages)
  {
    CountryLanguagesGroups(table, available, c);
    ExpectedCodes(table, available, c, true);
    ExpectedCodes(table, available, c, false);
  }

  // ---------------------------------------------------------------------------
  // language_countries
  // ---------------------------------------------------------------------------

  function IsAvailable(available: set<string>): ((string, seq<(string, bool)>)) -> bool {
    (row: (string, seq<(string, bool)>)) => row.0 in available
  }

  function Code(row: (string, seq<(string, bool)>)): string {
    row.0
  }

  /** `[c[0] for c in countries]`. */
  function CountryCodes(countries: seq<(string, bool)>): (r: seq<string>)
    ensures |r| == |countries|
    ensures forall i :: 0 <= i < |countries| ==> r[i] == countries[i].0
  {
    seq(|countries|, i requires 0 <= i < |countries| => countries[i].0)
  }

  function InfoOf(row: (string, seq<(string, bool)>)): LanguageInfo {
    LanguageInfo(CountryCodes(row.1), row.0 in Macrolanguages)
  }

  /** `language_countries`. */
  function LanguageCountries(table: Table, available: set<string>): Dicts.Dict<string, LanguageInfo> {
    Dicts.Collect(table, IsAvailable(available), Code, InfoOf)
  }

  /** Exactly the available languages of the table have an entry: their
      countries in table order and their macrolanguage status. */
  lemma LanguageCountriesEntries(table: Table, available: set<string>, i: nat, lang: string)
    requires DistinctCodes(table)
    ensures i < |table| && table[i].0 == lang && lang in available ==>
              Dicts.Get(LanguageCountries(table, available), lang)
                == Some(LanguageInfo(CountryCodes(table[i].1), lang in Macrolanguages))
    ensures lang in Dicts.Keys(LanguageCountries(table, available)) <==>
              lang in available && exists j :: 0 <= j < |table| && table[j].0 == lang
  {
    Dicts.CollectKeys(table, IsAvailable(available), Code, InfoOf, lang);
    if i < |table| && table[i].0 == lang && lang in available {
      assert Dicts.IsLastWith(table, IsAvailable(available), Code, i);
      Dicts.CollectLast(table, IsAvailable(available), Code, InfoOf, i);
    }
  }

  // ---------------------------------------------------------------------------
  // country_stats and the output
  // ---------------------------------------------------------------------------

  function StatsOf(g: Group): Stats {
    Stats(|g.endemic| + |g.macro|, |g.endemic|, |g.macro|, g)
  }

  /** `country_stats`: one record per country, in the same order. */
  function CountryStats(d: Dicts.Dict<string, Group>): (r: Dicts.Dict<string, Stats>)
    ensures |r| == |d| && Dicts.Keys(r) == Dicts.Keys(d)
    ensures forall i :: 0 <= i < |r| ==> r[i].1.languages == d[i].1
  {
    seq(|d|, i requires 0 <= i < |d| => (d[i].0, StatsOf(d[i].1)))
  }

  /** `generate_country_language_data`. */
  function Generate(languages: seq<Language>, table: Table): (r: Output)
    ensures r.availableLanguageCount == |Available(languages)|
  {
    var available := Available(languages);
    var countryLanguages := CountryLanguages(table, available);
    Output(countryLanguages, LanguageCountries(table, available), CountryStats(countryLanguages), |available|)
  }

  /** Every country's total is the size of its two lists, and at least 1. */
  lemma StatsTotals(languages: seq<Language>, table: Table)
    ensures var r := Generate(languages, table);
            forall i :: 0 <= i < |r.countryStats| ==>
              var s := r.countryStats[i].1;
              s.total == s.endemic + s.macro && s.endemic == |s.languages.endemic|
              && s.macro == |s.languages.macro| && s.total >= 1
  {
    var available := Available(languages);
    var d := CountryLanguages(table, available);
    CountryLanguagesWellFormed(table, available);
    forall i | 0 <= i < |d| ensures Size(d[i].1) >= 1 {
      Dicts.GetEntry(d, i);
      assert d[i].0 in Dicts.Keys(d);
    }
  }

  /** A country is listed exactly when some available language names it. */
  lemma CountryListed(languages: seq<Language>, table: Table, c: string)
    ensures var available := Available(languages);
            c in Dicts.Keys(Generate(languages, table).countryLanguages) <==>
              |Expected(table, available, c, false)| + |Expected(table, available, c, true)| > 0
  {
    var available := Available(languages);
    CountryLanguagesWellFormed(table, available);
    CountryLanguagesGroups(table, available, c);
  }
}
