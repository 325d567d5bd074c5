# wikilangs core, modelled in Dafny

wikilangs serves per-language models trained on monthly Wikipedia dumps:
- n-gram tables that score text and predict the next token;
- Markov chains that generate text;
- word vocabularies with frequencies;
- a list of the languages a dump offers, enriched with ISO 639 metadata.

Around the library sit maintenance scripts:
- a diagnostic that lists which model files a Hugging Face repository lacks;
- a release helper that reads the package version and the latest changelog section;
- a generator of the language/country data behind the website's world map;
- the website's fetcher that cleans language names and reads model cards.

This project models the logic of these parts as pure Dafny functions and
methods over immutable values, and proves the properties the code promises.

Files and modules:
- `ngram.dfy` (`NGram`): `NGramModel`, i.e. gram-size validation, `score`, `predict_next` and the size properties.
- `markov.dfy` (`Markov`): `MarkovChain`, i.e. depth validation, `get_transitions`, `generate` and the size properties.
- `vocabulary.dfy` (`Vocabulary`): `WikilangsVocabulary`, i.e. lookups, the prefix search, `words` and `vocab_dict`.
- `languages.dfy` (`Languages`): `LanguageInfo.__str__`, `languages`, `languages_with_metadata`, `_format_unknown_language_name` and `get_language_info`.
- `hf_diagnostic.dfy` (`HfDiagnostic`): the expected file paths per component, `partition_status` and `ensure_defaults`.
- `publish.dfy` (`Publish`): `get_version_from_pyproject`, `SECTION_HEADER_RE` and `extract_latest_changelog`.
- `language_countries.dfy` (`LanguageCountries`): `generate_country_language_data`.
- `fetch_languages.dfy` (`FetchLanguages`): `clean_language_name`, `parse_yaml_frontmatter`, `extract_metrics` and `extract_excerpt`.

Shared helpers model the Python built-ins the code relies on:
- `text.dfy`: `str.split()`, `strip`, `splitlines`, `split(sep)`, `join`, `find`, `upper`, `title` and `str(int)`.
- `seqs.dfy`: slicing with possibly negative bounds, boolean selection, first match and sums.
- `sorting.dfy`: stable sort by a key, descending; `sorted(set(...))`.
- `dicts.dfy`: insertion-ordered `dict` with overwriting assignment.
- `wrappers.dfy`: `Option` and `Result`.

The exceptions the code raises on purpose are `Result` failures. Two
incidental Python errors are not modelled; "## Left out" lists them. Calls
into code that is not part of this model are parameters of the functions
that make them:
- Hugging Face downloads and listings;
- `get_dataset_config_names`;
- `pycountry.languages.lookup`;
- `yaml.safe_load`;
- the annotation-removing regular expressions.

Tables read from parquet or JSON files are given sequences of rows.
Randomness is a nondeterministic choice constrained by what the sampler can
return.

## Model

| member | source | states |
|---|---|---|
| NGram.NewModel | src/wikilangs/ngram.py:45-49 | construction fails with the unsupported gram size exactly when it is not 2, 3, 4 or 5, before any table is read |
| NGram.Score | src/wikilangs/ngram.py:100-124 | minus infinity exactly when the stripped text has fewer tokens than the gram size; otherwise one term per window (tokens − n + 1 of them), each the first matching row's frequency over `total_ngrams` (default 1) or the 1e-10 smoothing term |
| NGram.Terms | src/wikilangs/ngram.py:109-122 | the i-th term is the term of the i-th window of the token list |
| NGram.TermForUnique | src/wikilangs/ngram.py:113-122 | a window's term is determined by the table: the first matching row, or smoothing when none matches |
| NGram.ScoreExample | src/wikilangs/ngram.py:100-124 | with total 100 and a row "a b c" of frequency 10, scoring "a b c" gives the single term 10/100 |
| NGram.FirstMatch | src/wikilangs/ngram.py:113-116 | the index of the first row equal to the n-gram, or none when no row equals it |
| NGram.Candidates | src/wikilangs/ngram.py:148-154 | each pair is the (last token, frequency) of a length-n row whose first n−1 tokens are the context; empty exactly when no row continues the context |
| NGram.CandidatesComplete | src/wikilangs/ngram.py:148-154 | every row that continues the context contributes its pair |
| NGram.CandidatesInOrder | src/wikilangs/ngram.py:148-154 | the candidates are exactly one pair per continuing row, in table order: the i-th is the pair of the i-th continuing row |
| NGram.Normalise | src/wikilangs/ngram.py:164-167 | each prediction keeps its token and has probability frequency/total, or 0 when the total is not positive |
| NGram.Predict | src/wikilangs/ngram.py:159-169 | at most top_k predictions, never more than the candidates, each the token of some candidate |
| NGram.PredictNext | src/wikilangs/ngram.py:136-169 | no prediction when the context has fewer than n−1 tokens; at most top_k predictions |
| NGram.PredictNextFromTable | src/wikilangs/ngram.py:144-157 | every predicted token ends a length-n table row whose first n−1 tokens are the last n−1 context tokens |
| NGram.PredictNextNoMatch | src/wikilangs/ngram.py:156-157 | when no row continues the context the result is empty |
| NGram.RankedTotal | src/wikilangs/ngram.py:160-161 | sorting the candidates does not change their total frequency |
| NGram.PredictDescending | src/wikilangs/ngram.py:160-167 | probabilities never increase along the prediction list |
| NGram.PredictNextDescending | src/wikilangs/ngram.py:160-167 | `predict_next` lists probabilities in non-increasing order |
| NGram.PredictNextStable | src/wikilangs/ngram.py:160 | among equal frequencies the ranking keeps table order, and it is a permutation of the candidates |
| NGram.NormaliseSum | src/wikilangs/ngram.py:161-167 | the normalised probabilities sum to the candidates' total over the divisor |
| NGram.NormaliseBounds | src/wikilangs/ngram.py:166 | frequencies within [0, total] give probabilities within [0, 1] |
| NGram.NormaliseSumBound | src/wikilangs/ngram.py:161-167 | any prefix of the probabilities sums to at most 1 when the divisor is the candidates' own total |
| NGram.PredictDistribution | src/wikilangs/ngram.py:159-169 | with non-negative frequencies every probability is in [0, 1]; they sum to at most 1, and to exactly 1 when nothing is cut off and the total is positive |
| NGram.PredictNextDistribution | src/wikilangs/ngram.py:136-169 | the same sub-distribution facts for `predict_next` on a table of non-negative frequencies |
| NGram.SizeFallbacks | src/wikilangs/ngram.py:171-188 | `vocab_size` and `total_ngrams` fall back to the table length when the metadata lacks them; `size` is the table length; `score` uses 1 for a missing total |
| Markov.NewChain | src/wikilangs/markov.py:45-49 | construction fails with the unsupported depth exactly when the depth is outside 1..5 |
| Markov.SizeFallbacks | src/wikilangs/markov.py:214-232 | `vocab_size` is the metadata value or 0; `size` and `total_transitions` are the number of rows |
| Markov.GetTransitionsKeys | src/wikilangs/markov.py:198-212 | `GetTransitions` (`get_transitions`): a token is a key exactly when some row with the given context has it as next token |
| Markov.GetTransitionsDistinct | src/wikilangs/markov.py:206-210 | `GetTransitions` (`get_transitions`): the transition dict has each next token once |
| Markov.GetTransitionsLast | src/wikilangs/markov.py:206-210 | `GetTransitions` (`get_transitions`): the last matching row with a given next token supplies its probability |
| Markov.GetTransitionsValue | src/wikilangs/markov.py:206-210 | `GetTransitions` (`get_transitions`): every entry comes from the last matching row with that token |
| Markov.GetTransitionsEmpty | src/wikilangs/markov.py:202-203 | `GetTransitions` (`get_transitions`): the dict is empty exactly when no row has the context |
| Markov.RowContextLive | src/wikilangs/markov.py:127-133 | a context taken from a table row always has at least that row's transition |
| Markov.Choose | src/wikilangs/markov.py:143-155 | the drawn token is a key of the dict and, when the weights are non-negative with a positive total, one of positive weight |
| Markov.InitialWindow | src/wikilangs/markov.py:109-114 | a short seed is padded on the right with `<pad>` to the depth; a long one keeps its last `depth` tokens |
| Markov.Slide | src/wikilangs/markov.py:163 | the window drops its first token and appends the new one, keeping its length |
| Markov.Clean | src/wikilangs/markov.py:167-171 | one leading SentencePiece marker is removed, other tokens are kept |
| Markov.CleanOnce | src/wikilangs/markov.py:168-169 | exactly one marker is removed, so a doubly marked token keeps its second |
| Markov.RenderWords | src/wikilangs/markov.py:165-173 | when the cleaned tokens are words, splitting the generated text gives them back |
| Markov.Recover | src/wikilangs/markov.py:121-140 | the dead-end loop retries at most once, only when the window has no transition and the table is not empty, and ends on a window with transitions unless the table is empty |
| Markov.Walker | src/wikilangs/markov.py:119-163 | the walk extends the initial window by at most `length` tokens, by exactly that many on a non-empty table; each is the next token of some row, drawn from the window of its step |
| Markov.Generate | src/wikilangs/markov.py:101-173 | an empty table without a seed fails; the start window is the padded or cut seed, or a row's context; then the walk's tokens are cleaned and joined |
| Markov.GenerateExample | src/wikilangs/markov.py:101-173 | from the seed "the dog" with two continuations and length 1 the text is "the dog barks" or "the dog runs" |
| Vocabulary.Lookup | src/wikilangs/vocabulary.py:66-85 | none exactly when no row has the word; otherwise the first such row |
| Vocabulary.GetFrequency | src/wikilangs/vocabulary.py:87-99 | 0 when no row has the word, otherwise the first such row's frequency |
| Vocabulary.FrequencyOfLookup | src/wikilangs/vocabulary.py:66-99 | `get_frequency` agrees with `lookup` |
| Vocabulary.GetSimilarWords | src/wikilangs/vocabulary.py:101-113 | always empty, since there is no similarity data |
| Vocabulary.RankingOfMatching | src/wikilangs/vocabulary.py:125-126 | a frequency ranking of the matches has one entry per matching row, each a table row that starts with the prefix |
| Vocabulary.GetWordsWithPrefix | src/wikilangs/vocabulary.py:115-127 | a prefix of `top_k` (Python slice semantics) of a frequency-descending permutation of the matching rows; every word starts with the prefix and is in the table; at most i matching rows are strictly more frequent than the i-th word's row |
| Vocabulary.RankingTop | src/wikilangs/vocabulary.py:126-127 | a frequency ranking lists the most frequent rows first: at most i rows are strictly more frequent than its i-th entry |
| Vocabulary.Words | src/wikilangs/vocabulary.py:134-137 | exactly the tokens of the table, never more of them than rows |
| Vocabulary.VocabDictKeys | src/wikilangs/vocabulary.py:139-150 | `VocabDict` (`vocab_dict`): the keys of `vocab_dict` are distinct and are exactly `words` |
| Vocabulary.VocabDictAgreesWithLookup | src/wikilangs/vocabulary.py:139-150 | `VocabDict` (`vocab_dict`): with unique tokens `vocab_dict` holds what `lookup` returns |
| Languages.ToString | src/wikilangs/languages.py:42-46 | `code: name`, followed by ` (common name)` exactly when the common name is non-empty and differs from the name |
| Languages.ToStringExamples | src/wikilangs/languages.py:42-46 | three renderings, with and without a distinct common name |
| Languages.FormatUnknownName | src/wikilangs/languages.py:149-164 | the upper-cased code followed by the label for its length |
| Languages.FormatUnknownNameCase | src/wikilangs/languages.py:158-164 | the name does not depend on the letter case of the code |
| Languages.FormatUnknownNameExamples | src/wikilangs/languages.py:159-164 | the ISO 639-1, ISO 639-3 and Unknown labels for codes of length 2, 3 and 4 |
| Languages.AfterFirstDot | src/wikilangs/languages.py:62 | `c.split(".", 1)[1]`: the suffix after the first dot |
| Languages.AfterFirstDotOfPrefix | src/wikilangs/languages.py:61-62 | for a config starting with `date.` the language is what follows that prefix |
| Languages.SelectOffers | src/wikilangs/languages.py:61-62 | a code is selected exactly when some config starting with the prefix names it |
| Languages.SelectEmpty | src/wikilangs/languages.py:65-69 | the selection is empty exactly when no config starts with the prefix |
| Languages.Languages | src/wikilangs/languages.py:49-74 | fails with the date exactly when the configs cannot be retrieved; otherwise a strictly ascending list |
| Languages.LanguagesContents | src/wikilangs/languages.py:61-71 | the list holds the date's languages, or the `latest` ones when the date has none, or nothing |
| Languages.Enrich | src/wikilangs/languages.py:108-144 | the code upper-cased as name without pycountry; the ISO record when found; the unknown-language name otherwise |
| Languages.LanguagesWithMetadata | src/wikilangs/languages.py:77-146 | fails exactly when `languages` fails; one entry per code in the same order; each entry is the upper-cased code without pycountry, the ISO record's entry when the lookup finds the code, and the `_format_unknown_language_name` entry otherwise |
| Languages.LanguagesWithMetadataSorted | src/wikilangs/languages.py:104-146 | the enriched list is sorted strictly by code |
| Languages.GetLanguageInfo | src/wikilangs/languages.py:167-201 | none exactly when pycountry is present and the lookup fails with an error other than `LookupError`; otherwise an entry for the code |
| Languages.GetLanguageInfoAgrees | src/wikilangs/languages.py:182-201 | a returned entry is the one `languages_with_metadata` builds for that code |
| HfDiagnostic.PartitionStatus | scripts/hf_diagnostic.py:163-167 | present and missing are the paths in and not in the listing, in order; together a permutation of the paths; the status is ok exactly when every path is listed |
| HfDiagnostic.Split | scripts/hf_diagnostic.py:164-166 | the loop sends each path to present or missing by membership |
| HfDiagnostic.Folders | scripts/hf_diagnostic.py:131 | the base folder first, then `variant_base` for each variant in order |
| HfDiagnostic.CheckMarkov | scripts/hf_diagnostic.py:128-134 | two paths per depth and folder, `2·depths·(1+variants)` in all; present holds the listed ones and missing the others, each in path order; ok exactly when every path is listed |
| HfDiagnostic.MarkovPathsAt | scripts/hf_diagnostic.py:130-133 | the transitions and metadata paths of depth i and folder f sit at positions `2·F·i + 2·f` and the next |
| HfDiagnostic.CheckNgram | scripts/hf_diagnostic.py:137-143 | two paths per gram size and folder, `2·grams·(1+variants)` in all; present holds the listed ones and missing the others, each in path order; ok exactly when every path is listed |
| HfDiagnostic.NgramPathsAt | scripts/hf_diagnostic.py:139-142 | the model and metadata paths of gram i and folder f sit at positions `2·F·i + 2·f` and the next |
| HfDiagnostic.TokenizerSuffixExamples | scripts/hf_diagnostic.py:149 | `vocab_size // 1000` followed by `k`, flooring (999 gives 0k, −1 gives −1k) |
| HfDiagnostic.CheckTokenizer | scripts/hf_diagnostic.py:146-152 | two paths per vocabulary size; present holds the listed ones and missing the others, each in path order; ok exactly when every path is listed |
| HfDiagnostic.TokenizerPathsAt | scripts/hf_diagnostic.py:148-151 | the model and vocab paths of size i sit at positions 2i and 2i+1 |
| HfDiagnostic.CheckDataset | scripts/hf_diagnostic.py:122-125 | three dataset paths; present holds the listed ones and missing the others, in path order; ok exactly when all three are listed |
| HfDiagnostic.CheckVocabulary | scripts/hf_diagnostic.py:155-160 | two vocabulary paths; present holds the listed ones and missing the others, in path order; ok exactly when both are listed |
| HfDiagnostic.DefaultComponentsSorted | scripts/hf_diagnostic.py:103 | the default component list is strictly ascending and holds exactly the supported components |
| HfDiagnostic.EnsureDefaults | scripts/hf_diagnostic.py:97-111 | each unset or empty option gets its default; set options and the other arguments are unchanged |
| HfDiagnostic.EnsureDefaultsIdempotent | scripts/hf_diagnostic.py:97-111 | applying the defaults twice changes nothing more |
| Publish.VersionGroups | scripts/publish.py:51 | a version is three non-empty digit groups joined by dots, and every such string is a version |
| Publish.VersionChars | scripts/publish.py:51 | a version holds only digits and dots |
| Publish.HeaderIff | scripts/publish.py:51 | `ParseHeader` (`SECTION_HEADER_RE`): a line parses as a section header with a version exactly when it is `## [version] - date` followed by white space only |
| Publish.HeaderHead | scripts/publish.py:51 | `ParseHeader` (`SECTION_HEADER_RE`): a header line begins with `## [version] - ` and a date |
| Seqs.Indices | scripts/publish.py:64-68 | the positions of exactly the lines that match, in increasing order |
| Publish.LatestSection | scripts/publish.py:69-78 | the first recorded header is the first header line of the text, and the section ends at the next header line or at the end of the text |
| Publish.SectionEnd | scripts/publish.py:74-78 | the section ends after its start and within the text |
| Publish.ExtractLatestChangelog | scripts/publish.py:55-80 | fails exactly when no line is a header; otherwise the first header's version and the stripped text from it up to the next header or the end |
| Publish.SectionStartsWithHeader | scripts/publish.py:72-80 | the returned section begins with its own header line |
| Publish.VersionLineIff | scripts/publish.py:22 | `ParseVersionLine` (the version pattern): a line yields a version exactly when it is `version`, optional space, `=`, optional space and the quoted version, followed by anything |
| Publish.FirstVersion | scripts/publish.py:21-24 | none when no line carries a version, otherwise the version of the first line that does |
| Publish.VersionFromPyproject | scripts/publish.py:19-27 | a missing file gives none; an existing file gives the version of its first version line, and none exactly when no line has the shape of one |
| Publish.FirstVersionShape | scripts/publish.py:21-27 | the first version line decides the result, and no earlier line carries one |
| Publish.ParseVersionLineExample | scripts/publish.py:22 | `ParseVersionLine`: `version = "0.1.2"  # release` yields 0.1.2 |
| Publish.ParseVersionLineIndented | scripts/publish.py:22 | `ParseVersionLine`: an indented version line does not match, because the pattern is anchored |
| LanguageCountries.CountryLanguagesGroups | scripts/generate_language_countries.py:224-242 | `CountryLanguages` (the first loop): each country's `macro` and `endemic` lists hold one entry per (available language, pair naming the country), macrolanguages in `macro`, in table order, with the pair's primary flag |
| LanguageCountries.CountryLanguagesCodes | scripts/generate_language_countries.py:226-242 | `CountryLanguages` (the first loop): only available languages are listed, macrolanguages exactly in `macro` |
| LanguageCountries.CountryListed | scripts/generate_language_countries.py:224-242 | `CountryLanguages` (the first loop): a country is a key exactly when some available language names it |
| LanguageCountries.LanguageCountriesEntries | scripts/generate_language_countries.py:244-251 | `LanguageCountries` (the second loop): exactly the available languages of the table are keys, each with its countries in list order and its macrolanguage flag |
| LanguageCountries.CountryStats | scripts/generate_language_countries.py:253-262 | one stats record per country, in the same order, carrying that country's lists |
| LanguageCountries.StatsTotals | scripts/generate_language_countries.py:255-262 | total is endemic plus macro, each the size of its list, and at least 1 |
| LanguageCountries.Generate | scripts/generate_language_countries.py:221-268 | the available language count is the number of distinct codes with models |
| FetchLanguages.CleanLanguageName | website/scripts/fetch_languages.py:116-152 | the override whenever the code has one; otherwise the upper-cased code or a name longer than two characters that differs from the code ignoring case |
| FetchLanguages.CleanLanguageNameCases | website/scripts/fetch_languages.py:136-152 | without an override, the upper-cased code exactly when the collapsed name equals the code up to case or is at most two long; otherwise the collapsed name up to letter case |
| FetchLanguages.CleanLanguageNameOverride | website/scripts/fetch_languages.py:119-120 | the override for `hu` is returned whatever the name |
| FetchLanguages.CollapseKeepsWords | website/scripts/fetch_languages.py:141 | collapsing white space keeps the words of the name |
| FetchLanguages.ParseFrontmatter | website/scripts/fetch_languages.py:189-204 | `{}` without a leading `---` or without a closing `---` from index 3; any other result is what the loader made of the stripped text between them |
| FetchLanguages.ParseFrontmatterLoads | website/scripts/fetch_languages.py:196-201 | with both fences the result is the loaded mapping, `{}` when loading fails or yields null |
| FetchLanguages.ExtractMetricsKeys | website/scripts/fetch_languages.py:207-218 | `ExtractMetrics` (`extract_metrics`): `{}` without `metrics`; otherwise a name is a key exactly when some item has it non-empty with a non-null value; keys are distinct |
| FetchLanguages.ExtractMetricsLastWins | website/scripts/fetch_languages.py:212-216 | `ExtractMetrics` (`extract_metrics`): a later item with the same name overwrites an earlier one |
| FetchLanguages.ExcerptLines | website/scripts/fetch_languages.py:230-244 | over the stripped lines, the collected lines are a prefix of the prose lines: all of them, or up to and including the first whose joined length exceeds the limit |
| FetchLanguages.BeforeLastSpaceShape | website/scripts/fetch_languages.py:248 | `rsplit(' ', 1)[0]` keeps the text before the last space, or all of it when there is none |
| FetchLanguages.TruncateBounds | website/scripts/fetch_languages.py:246-250 | `Truncate`: a text shorter than the limit is kept whole; otherwise the first `max_length` characters are cut back to just before their last space (kept whole when they hold no space) and followed by `...`, at most three characters over the limit; a negative limit drops that many characters from the end, as a Python slice does |
| FetchLanguages.CutAtLastSpaceUnique | website/scripts/fetch_languages.py:246-248 | the cut-at-last-space shape fixes the excerpt: two texts that both have it for the same slice are equal |
| FetchLanguages.ExtractExcerpt | website/scripts/fetch_languages.py:221-250 | the collected lines are the prose lines of the body, all of them or up to the first whose join exceeds the limit, with every shorter prefix within it; the excerpt is at most the limit plus 3 long; it is the joined prose when that is shorter than the limit; otherwise it is the first `max_length` characters of the joined lines cut back to just before their last space (whole when they hold no space) followed by `...`, a prefix of the joined prose before the `...` |

## Left out

- Downloads, file reading and writing, JSON and parquet loading, and the variant-folder fallback of the model loaders: network and file-system I/O. The tables and metadata are given values.
- pandas and numpy mechanics and JSON-string contexts of Markov rows: contexts are sequences of tokens.
- NGram.Score: returns the list of per-window terms instead of their sum of natural logarithms, because floating point and `math.log` are not modelled. A matching row whose frequency over `total_ngrams` is not positive makes `math.log` raise `ValueError`; the model returns that row's term like any other.
- FetchLanguages.ExtractMetrics: a `metrics` value that is null or not a list, or an item that is not a mapping, makes `extract_metrics` raise `TypeError` or `AttributeError`, and nothing catches it; the front matter here holds only a list of name/value items, so these inputs cannot be written.
- Markov.Choose: the weighted draw of `random.choices` is a nondeterministic choice among the tokens it can return; the 70/30 frequencies are statistical and not stated.
- `random` sampling of a start context in `generate` is a nondeterministic choice of a table row.
- Vocabulary.GetWordsWithPrefix: pandas' default sort is not stable, so the order among equal frequencies is left open.
- tokenizer.py, embeddings.py and llm.py: thin wrappers over SentencePiece, BabelVec and torch.
- Text.Upper, Text.Title and Text.IsUpper: case mapping covers ASCII letters only; Python maps all of Unicode.
- `\d` in the version and header patterns matches ASCII digits only; Python matches any Unicode decimal digit.
- FetchLanguages.CleanLanguageName: the ten annotation-removing regular expressions are a parameter.
- The white-space collapse in `clean_language_name` is modelled as joining the words with single spaces, which is what `re.sub(r'\s+', ' ', s).strip()` computes.
- FetchLanguages.ParseFrontmatter: `yaml.safe_load` is a parameter. A loaded value that is neither null nor a mapping is not modelled, and neither is a metric name that is not a string.
- Languages.Languages: `get_dataset_config_names` is a parameter whose failure is `None`.
- Languages.Enrich: `pycountry.languages.lookup` is a parameter returning found, not found (`LookupError`) or failed.
- The 168-entry `LANGUAGE_COUNTRIES` table is a parameter with distinct keys; `MACROLANGUAGES` is a constant.
- `fetch_model_card`, the other async fetchers and `generate_output` in fetch_languages.py: network I/O.
- `git_is_clean`, `git_tag_exists`, `ensure_gh_cli` and `main` in publish.py: git, subprocess and GitHub CLI calls.
- `build_file_set`, `parse_args` and `describe_status` in hf_diagnostic.py: repository listing, argument parsing and printing. The listing is a given set of paths.
- website/scripts/generate_language_continents.py: a constant-table lookup inside an I/O `main`.
