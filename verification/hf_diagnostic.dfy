/** The asset diagnostic of `scripts/hf_diagnostic.py`: it lists the paths
    each model component needs for one date and language and splits them into
    those present in the repository's file set and those missing. Listing the
    repository, parsing the command line and printing the report are outside
    the model: the file set and the arguments are given values. */
module HfDiagnostic {
  import opened Wrappers
  import Text
  import Seqs
  import Sorting

  datatype ComponentStatus = ComponentStatus(component: string, missing: seq<string>, present: seq<string>)

  /** `ComponentStatus.ok`. */
  predicate Ok(status: ComponentStatus) {
    |status.missing| == 0
  }

  // ---------------------------------------------------------------------------
  // partition_status
  // ---------------------------------------------------------------------------

  function InFiles(files: set<string>): string -> bool {
    path => path in files
  }

  /** The loop of `partition_status`. */
  method Split(paths: seq<string>, files: set<string>) returns (missing: seq<string>, present: seq<string>)
    ensures present == Seqs.Filter(paths, InFiles(files))
    ensures missing == Seqs.Filter(paths, Seqs.Not(InFiles(files)))
  {
    missing, present := [], [];
    var k := 0;
    while k < |paths|
      invariant k <= |paths|
      invariant present == Seqs.Filter(paths[..k], InFiles(files))
      invariant missing == Seqs.Filter(paths[..k], Seqs.Not(InFiles(files)))
    {
      var path := paths[k];
      assert paths[..k + 1] == paths[..k] + [path];
      Seqs.FilterSnoc(paths[..k], path, InFiles(files));
      Seqs.FilterSnoc(paths[..k], path, Seqs.Not(InFiles(files)));
      assert InFiles(files)(path) == (path in files);
      assert Seqs.Not(InFiles(files))(path) == (path !in files);
      if path in files {
        present := present + [path];
      } else {
        missing := missing + [path];
      }
      k := k + 1;
    }
    assert paths[..k] == paths;
  }

  /** `partition_status`: each path goes, in input order, to `present` when
      the repository has it and to `missing` otherwise. */
  method PartitionStatus(name: string, paths: seq<string>, files: set<string>) returns (r: ComponentStatus)
    ensures r.component == name
    ensures r.present == Seqs.Filter(paths, InFiles(files))
    ensures r.missing == Seqs.Filter(paths, Seqs.Not(InFiles(files)))
    ensures multiset(r.present) + multiset(r.missing) == multiset(paths)
    ensures forall i :: 0 <= i < |r.present| ==> r.present[i] in files
    ensures forall i :: 0 <= i < |r.missing| ==> r.missing[i] !in files
    ensures Seqs.IsSubsequence(r.present, paths) && Seqs.IsSubsequence(r.missing, paths)
    ensures Ok(r) <==> forall i :: 0 <= i < |paths| ==> paths[i] in files
  {
    var missing, present := Split(paths, files);
    r := ComponentStatus(name, missing, present);
    Seqs.FilterSplit(paths, InFiles(files));
    Seqs.FilterSubsequence(paths, InFiles(files));
    Seqs.FilterSubsequence(paths, Seqs.Not(InFiles(files)));
    forall i | 0 <= i < |r.present|
      ensures r.present[i] in files
    {
      assert InFiles(files)(r.present[i]);
    }
    forall i | 0 <= i < |r.missing|
      ensures r.missing[i] !in files
    {
      assert Seqs.Not(InFiles(files))(r.missing[i]);
    }
    if !Ok(r) {
      assert r.missing[0] in multiset(paths);
    } else {
      forall i | 0 <= i < |paths| ensures paths[i] in files {
        assert paths[i] in multiset(paths);
        assert paths[i] in multiset(r.present);
      }
    }
  }

  // ---------------------------------------------------------------------------
  // The path builders
  // ---------------------------------------------------------------------------

  function ModelDir(date: string, lang: string, folder: string): string {
    date + "/" + lang + "/models/" + folder + "/"
  }

  /** `[base, *[f"{variant}_{base}" for variant in variants]]`. */
  function Folders(base: string, variants: seq<string>): (r: seq<string>)
    ensures |r| == 1 + |variants|
    ensures r[0] == base
    ensures forall v :: 0 <= v < |variants| ==> r[v + 1] == variants[v] + "_" + base
  {
    [base] + seq(|variants|, v requires 0 <= v < |variants| => variants[v] + "_" + base)
  }

  /** The paths of one size: a pair for each folder, in folder order. */
  function Row(folders: seq<string>, pair: int -> string -> seq<string>): int -> seq<string> {
    n => Seqs.FlatMap(folders, pair(n))
  }

  /** The layout shared by the markov and n-gram lists: for each size, for
      each folder, a pair of paths. */
  function Grid(sizes: seq<int>, folders: seq<string>, pair: int -> string -> seq<string>): seq<string> {
    Seqs.FlatMap(sizes, Row(folders, pair))
  }

  /** Where the pair of size `i` and folder `f` starts, with `folders` folders. */
  function Slot(folders: nat, i: nat, f: nat): nat {
    2 * folders * i + 2 * f
  }

  /** Every size and folder give exactly two paths. */
  predicate PairsOfTwo(sizes: seq<int>, folders: seq<string>, pair: int -> string -> seq<string>) {
    forall n, m :: 0 <= n < |sizes| && 0 <= m < |folders| ==> |pair(sizes[n])(folders[m])| == 2
  }

  lemma GridAt(sizes: seq<int>, folders: seq<string>, pair: int -> string -> seq<string>,
               i: nat, f: nat, b: nat)
    requires PairsOfTwo(sizes, folders, pair)
    requires i < |sizes| && f < |folders| && b < 2
    ensures |Grid(sizes, folders, pair)| == 2 * |folders| * |sizes|
    ensures Slot(|folders|, i, f) + b < |Grid(sizes, folders, pair)|
            && Grid(sizes, folders, pair)[Slot(|folders|, i, f) + b] == pair(sizes[i])(folders[f])[b]
  {
    GridLength(sizes, folders, pair);
    var row := Row(folders, pair);
    forall n | 0 <= n < |sizes| ensures |row(sizes[n])| == 2 * |folders| {
      Seqs.FlatMapLength(folders, pair(sizes[n]), 2);
    }
    Seqs.FlatMapAt(folders, pair(sizes[i]), 2, f, b);
    Seqs.FlatMapAt(sizes, row, 2 * |folders|, i, 2 * f + b);
    assert Slot(|folders|, i, f) + b == 2 * |folders| * i + (2 * f + b);
  }

  lemma GridLength(sizes: seq<int>, folders: seq<string>, pair: int -> string -> seq<string>)
    requires PairsOfTwo(sizes, folders, pair)
    ensures |Grid(sizes, folders, pair)| == 2 * |folders| * |sizes|
  {
    var row := Row(folders, pair);
    forall n | 0 <= n < |sizes| ensures |row(sizes[n])| == 2 * |folders| {
      Seqs.FlatMapLength(folders, pair(sizes[n]), 2);
    }
    Seqs.FlatMapLength(sizes, row, 2 * |folders|);
  }

  function MarkovStem(date: string, lang: string, folder: string, depth: int): string {
    ModelDir(date, lang, folder) + lang + "_markov" + Text.IntToString(depth)
  }

  function MarkovPair(date: string, lang: string): int -> string -> seq<string> {
    depth => folder =>
      [MarkovStem(date, lang, folder, depth) + "_transitions.parquet",
       MarkovStem(date, lang, folder, depth) + "_metadata.json"]
  }

  function MarkovPaths(date: string, lang: string, depths: seq<int>, variants: seq<string>): seq<string> {
    Grid(depths, Folders("markov", variants), MarkovPair(date, lang))
  }

  function NgramStem(date: string, lang: string, folder: string, gram: int): string {
    ModelDir(date, lang, folder) + lang + "_" + Text.IntToString(gram) + "gram"
  }

  function NgramPair(date: string, lang: string): int -> string -> seq<string> {
    gram => folder =>
      [NgramStem(date, lang, folder, gram) + "_model.parquet",
       NgramStem(date, lang, folder, gram) + "_metadata.json"]
  }

  function NgramPaths(date: string, lang: string, grams: seq<int>, variants: seq<string>): seq<string> {
    Grid(grams, Folders("ngram", variants), NgramPair(date, lang))
  }

  /** `check_markov`: two files per depth and folder, the plain "markov"
      folder first and then one per variant. */
  method CheckMarkov(date: string, lang: string, files: set<string>, depths: seq<int>, variants: seq<string>)
      returns (r: ComponentStatus)
    ensures r.component == "markov"
    ensures r.present == Seqs.Filter(MarkovPaths(date, lang, depths, variants), InFiles(files))
    ensures r.missing == Seqs.Filter(MarkovPaths(date, lang, depths, variants), Seqs.Not(InFiles(files)))
    ensures Ok(r) <==> forall i :: 0 <= i < |MarkovPaths(date, lang, depths, variants)| ==> MarkovPaths(date, lang, depths, variants)[i] in files
    ensures |r.present| + |r.missing| == 2 * |depths| * (1 + |variants|)
    ensures multiset(r.present) + multiset(r.missing) == multiset(MarkovPaths(date, lang, depths, variants))
  {
    var paths := MarkovPaths(date, lang, depths, variants);
    r := PartitionStatus("markov", paths, files);
    MarkovPathsCount(date, lang, depths, variants);
    assert |r.present| + |r.missing| == |multiset(paths)|;
  }

  lemma MarkovPathsCount(date: string, lang: string, depths: seq<int>, variants: seq<string>)
    ensures |MarkovPaths(date, lang, depths, variants)| == 2 * |depths| * (1 + |variants|)
  {
    GridLength(depths, Folders("markov", variants), MarkovPair(date, lang));
  }

  /** Position `Slot(1+|variants|, i, f)`, that is `2·(1+|variants|)·i + 2·f`, holds the transitions file of depth
      `depths[i]` in folder `f`, and the next position its metadata file. */
  lemma MarkovPathsAt(date: string, lang: string, depths: seq<int>, variants: seq<string>, i: nat, f: nat)
    requires i < |depths| && f <= |variants|
    ensures Slot(1 + |variants|, i, f) + 1 < |MarkovPaths(date, lang, depths, variants)|
    ensures MarkovPaths(date, lang, depths, variants)[Slot(1 + |variants|, i, f)]
              == MarkovStem(date, lang, Folders("markov", variants)[f], depths[i]) + "_transitions.parquet"
    ensures MarkovPaths(date, lang, depths, variants)[Slot(1 + |variants|, i, f) + 1]
              == MarkovStem(date, lang, Folders("markov", variants)[f], depths[i]) + "_metadata.json"
  {
    var folders := Folders("markov", variants);
    var pair := MarkovPair(date, lang);
    assert PairsOfTwo(depths, folders, pair);
    GridAt(depths, folders, pair, i, f, 0);
    GridAt(depths, folders, pair, i, f, 1);
  }


  /** `check_ngram`: two files per gram size and folder. */
  method CheckNgram(date: string, lang: string, files: set<string>, grams: seq<int>, variants: seq<string>)
      returns (r: ComponentStatus)
    ensures r.component == "ngram"
    ensures r.present == Seqs.Filter(NgramPaths(date, lang, grams, variants), InFiles(files))
    ensures r.missing == Seqs.Filter(NgramPaths(date, lang, grams, variants), Seqs.Not(InFiles(files)))
    ensures Ok(r) <==> forall i :: 0 <= i < |NgramPaths(date, lang, grams, variants)| ==> NgramPaths(date, lang, grams, variants)[i] in files
    ensures |r.present| + |r.missing| == 2 * |grams| * (1 + |variants|)
    ensures multiset(r.present) + multiset(r.missing) == multiset(NgramPaths(date, lang, grams, variants))
  {
    var paths := NgramPaths(date, lang, grams, variants);
    r := PartitionStatus("ngram", paths, files);
    NgramPathsCount(date, lang, grams, variants);
    assert |r.present| + |r.missing| == |multiset(paths)|;
  }

  lemma NgramPathsCount(date: string, lang: string, grams: seq<int>, variants: seq<string>)
    ensures |NgramPaths(date, lang, grams, variants)| == 2 * |grams| * (1 + |variants|)
  {
    GridLength(grams, Folders("ngram", variants), NgramPair(date, lang));
  }

  /** Position `Slot(1+|variants|, i, f)`, that is `2·(1+|variants|)·i + 2·f`, holds the model file of gram size
      `grams[i]` in folder `f`, and the next position its metadata file. */
  lemma NgramPathsAt(date: string, lang: string, grams: seq<int>, variants: seq<string>, i: nat, f: nat)
    requires i < |grams| && f <= |variants|
    ensures Slot(1 + |variants|, i, f) + 1 < |NgramPaths(date, lang, grams, variants)|
    ensures NgramPaths(date, lang, grams, variants)[Slot(1 + |variants|, i, f)]
              == NgramStem(date, lang, Folders("ngram", variants)[f], grams[i]) + "_model.parquet"
    ensures NgramPaths(date, lang, grams, variants)[Slot(1 + |variants|, i, f) + 1]
              == NgramStem(date, lang, Folders("ngram", variants)[f], grams[i]) + "_metadata.json"
  {
    var folders := Folders("ngram", variants);
    var pair := NgramPair(date, lang);
    assert PairsOfTwo(grams, folders, pair);
    GridAt(grams, folders, pair, i, f, 0);
    GridAt(grams, folders, pair, i, f, 1);
  }


  /** `f"{vocab_size // 1000}k"`. Python's `//` rounds down; for the positive
      divisor 1000 Dafny's Euclidean `/` does the same. */
  function TokenizerSuffix(vocabSize: int): string {
    Text.IntToString(vocabSize / 1000) + "k"
  }

  lemma TokenizerSuffixExamples()
    ensures TokenizerSuffix(8000) == "8k"
    ensures TokenizerSuffix(16000) == "16k"
    ensures TokenizerSuffix(32000) == "32k"
    ensures TokenizerSuffix(1500) == "1k"
    ensures TokenizerSuffix(999) == "0k"
    ensures TokenizerSuffix(-1) == "-1k"
  {
  }

  /** The path of a tokenizer's files without their extension. */
  function TokenizerStem(date: string, lang: string, vocabSize: int): string {
    ModelDir(date, lang, "tokenizer") + lang + "_tokenizer_" + TokenizerSuffix(vocabSize)
  }

  function TokenizerPair(date: string, lang: string): int -> seq<string> {
    vocabSize => [TokenizerStem(date, lang, vocabSize) + ".model", TokenizerStem(date, lang, vocabSize) + ".vocab"]
  }

  function TokenizerPaths(date: string, lang: string, vocabSizes: seq<int>): seq<string> {
    Seqs.FlatMap(vocabSizes, TokenizerPair(date, lang))
  }

  /** `check_tokenizer`: the model and vocab file of each vocabulary size,
      named by its size in thousands. */
  method CheckTokenizer(date: string, lang: string, files: set<string>, vocabSizes: seq<int>)
      returns (r: ComponentStatus)
    ensures r.component == "tokenizer"
    ensures r.present == Seqs.Filter(TokenizerPaths(date, lang, vocabSizes), InFiles(files))
    ensures r.missing == Seqs.Filter(TokenizerPaths(date, lang, vocabSizes), Seqs.Not(InFiles(files)))
    ensures Ok(r) <==> forall i :: 0 <= i < |TokenizerPaths(date, lang, vocabSizes)| ==> TokenizerPaths(date, lang, vocabSizes)[i] in files
    ensures |r.present| + |r.missing| == 2 * |vocabSizes|
    ensures multiset(r.present) + multiset(r.missing) == multiset(TokenizerPaths(date, lang, vocabSizes))
  {
    var paths := TokenizerPaths(date, lang, vocabSizes);
    r := PartitionStatus("tokenizer", paths, files);
    Seqs.FlatMapLength(vocabSizes, TokenizerPair(date, lang), 2);
    assert |r.present| + |r.missing| == |multiset(paths)|;
  }

  lemma TokenizerPathsAt(date: string, lang: string, vocabSizes: seq<int>, i: nat)
    requires i < |vocabSizes|
    ensures |TokenizerPaths(date, lang, vocabSizes)| == 2 * |vocabSizes|
    ensures TokenizerPaths(date, lang, vocabSizes)[2 * i] == TokenizerStem(date, lang, vocabSizes[i]) + ".model"
    ensures TokenizerPaths(date, lang, vocabSizes)[2 * i + 1] == TokenizerStem(date, lang, vocabSizes[i]) + ".vocab"
  {
    var r := TokenizerPaths(date, lang, vocabSizes);
    var pair := TokenizerPair(date, lang)(vocabSizes[i]);
    PairLengths(date, lang, vocabSizes);
    assert |r| == 2 * |vocabSizes| && r[2 * i] == pair[0] by {
      Seqs.FlatMapAt(vocabSizes, TokenizerPair(date, lang), 2, i, 0);
    }
    assert r[2 * i + 1] == pair[1] by {
      Seqs.FlatMapAt(vocabSizes, TokenizerPair(date, lang), 2, i, 1);
    }
  }

  /** Each vocabulary size names exactly two files. */
  lemma PairLengths(date: string, lang: string, vocabSizes: seq<int>)
    ensures forall n :: 0 <= n < |vocabSizes| ==> |TokenizerPair(date, lang)(vocabSizes[n])| == 2
  {
  }

  function DatasetPaths(date: string, lang: string): seq<string> {
    var dir := date + "/" + lang + "/dataset/";
    [dir + "1000k.parquet", dir + "5000k.parquet", dir + "10000k.parquet"]
  }

  /** `check_dataset`: the three dataset sizes. */
  method CheckDataset(date: string, lang: string, files: set<string>) returns (r: ComponentStatus)
    ensures r.component == "dataset"
    ensures r.present == Seqs.Filter(DatasetPaths(date, lang), InFiles(files))
    ensures r.missing == Seqs.Filter(DatasetPaths(date, lang), Seqs.Not(InFiles(files)))
    ensures |r.present| + |r.missing| == 3
    ensures Ok(r) <==> forall i :: 0 <= i < 3 ==> DatasetPaths(date, lang)[i] in files
  {
    r := PartitionStatus("dataset", DatasetPaths(date, lang), files);
    assert |r.present| + |r.missing| == |multiset(DatasetPaths(date, lang))|;
  }

  function VocabularyPaths(date: string, lang: string): seq<string> {
    var dir := ModelDir(date, lang, "vocabulary");
    [dir + lang + "_vocabulary.json", dir + lang + "_vocabulary_metadata.json"]
  }

  /** `check_vocabulary`: the vocabulary and its metadata. */
  method CheckVocabulary(date: string, lang: string, files: set<string>) returns (r: ComponentStatus)
    ensures r.component == "vocabulary"
    ensures r.present == Seqs.Filter(VocabularyPaths(date, lang), InFiles(files))
    ensures r.missing == Seqs.Filter(VocabularyPaths(date, lang), Seqs.Not(InFiles(files)))
    ensures |r.present| + |r.missing| == 2
    ensures Ok(r) <==> forall i :: 0 <= i < 2 ==> VocabularyPaths(date, lang)[i] in files
  {
    r := PartitionStatus("vocabulary", VocabularyPaths(date, lang), files);
    assert |r.present| + |r.missing| == |multiset(VocabularyPaths(date, lang))|;
  }

  // ---------------------------------------------------------------------------
  // ensure_defaults
  // ---------------------------------------------------------------------------

  /** The parsed command line; `None` is an option that was never given. */
  datatype Args = Args(
    repoId: string,
    dates: Option<seq<string>>,
    langs: Option<seq<string>>,
    components: Option<seq<string>>,
    depths: Option<seq<int>>,
    grams: Option<seq<int>>,
    vocabSizes: Option<seq<int>>,
    variants: Option<seq<string>>,
    quiet: bool,
    showFiles: bool)

  const SupportedComponents: set<string> := {"dataset", "markov", "ngram", "tokenizer", "vocabulary"}

  /** `sorted(SUPPORTED_COMPONENTS)`. */
  const DefaultComponents: seq<string> := ["dataset", "markov", "ngram", "tokenizer", "vocabulary"]

  lemma DefaultComponentsSorted()
    ensures Sorting.StrictlyAscending(DefaultComponents)
    ensures forall c :: c in DefaultComponents <==> c in SupportedComponents
  {
    assert Sorting.Less("dataset", "markov");
    assert Sorting.Less("markov", "ngram");
    assert Sorting.Less("ngram", "tokenizer");
    assert Sorting.Less("tokenizer", "vocabulary");
    forall i, j | 0 <= i < j < |DefaultComponents|
      ensures Sorting.Less(DefaultComponents[i], DefaultComponents[j])
    {
      var k := i;
      while k + 1 < j
        invariant i <= k < j
        invariant k == i || Sorting.Less(DefaultComponents[i], DefaultComponents[k])
        decreases j - k
      {
        if k > i {
          Sorting.LessTransitive(DefaultComponents[i], DefaultComponents[k], DefaultComponents[k + 1]);
        }
        k := k + 1;
      }
      if k > i {
        Sorting.LessTransitive(DefaultComponents[i], DefaultComponents[k], DefaultComponents[j]);
      }
    }
  }

  /** Python's `not xs` for an optional list. */
  predicate Unset<T>(xs: Option<seq<T>>) {
    xs.None? || |xs.value| == 0
  }

  function OrDefault<T>(xs: Option<seq<T>>, default: seq<T>): Option<seq<T>> {
    if Unset(xs) then Some(default) else xs
  }

  /** A field after `ensure_defaults`: kept when it was set, the default otherwise. */
  predicate Defaulted<T(==)>(before: Option<seq<T>>, after: Option<seq<T>>, default: seq<T>) {
    (!Unset(before) ==> after == before) && (Unset(before) ==> after == Some(default))
  }

  /** `ensure_defaults`. */
  function EnsureDefaults(args: Args): (r: Args)
    ensures Defaulted(args.dates, r.dates, ["20251201"])
    ensures Defaulted(args.langs, r.langs, ["ary"])
    ensures Defaulted(args.components, r.components, DefaultComponents)
    ensures Defaulted(args.depths, r.depths, [1, 2, 3, 4, 5])
    ensures Defaulted(args.grams, r.grams, [2, 3, 4])
    ensures Defaulted(args.vocabSizes, r.vocabSizes, [8000, 16000, 32000])
    ensures Defaulted(args.variants, r.variants, ["word", "subword"])
    ensures r.repoId == args.repoId && r.quiet == args.quiet && r.showFiles == args.showFiles
  {
    args.(dates := OrDefault(args.dates, ["20251201"]),
          langs := OrDefault(args.langs, ["ary"]),
          components := OrDefault(args.components, DefaultComponents),
          depths := OrDefault(args.depths, [1, 2, 3, 4, 5]),
          grams := OrDefault(args.grams, [2, 3, 4]),
          vocabSizes := OrDefault(args.vocabSizes, [8000, 16000, 32000]),
          variants := OrDefault(args.variants, ["word", "subword"]))
  }

  /** After `ensure_defaults` every list is set, so a second call changes
      nothing. */
  lemma EnsureDefaultsIdempotent(args: Args)
    ensures var r := EnsureDefaults(args);
            && !Unset(r.dates) && !Unset(r.langs) && !Unset(r.components) && !Unset(r.depths)
            && !Unset(r.grams) && !Unset(r.vocabSizes) && !Unset(r.variants)
            && EnsureDefaults(r) == r
  {
  }
}
