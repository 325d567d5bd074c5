/** The word-frequency vocabulary of `src/wikilangs/vocabulary.py`: a table of
    (token, frequency, idf score, rank) rows queried by exact word, by prefix
    and as a whole. Loading the table is outside the model: the rows are a
    given value. */
module Vocabulary {
  import opened Wrappers
  import Seqs
  import Sorting
  import Dicts

  datatype Row = Row(token: string, frequency: int, idfScore: real, rank: int)

  /** The per-word record `vocab_dict` maps each token to. */
  datatype Entry = Entry(frequency: int, idfScore: real, rank: int)

  function IsWord(word: string): Row -> bool {
    (row: Row) => row.token == word
  }

  /** `lookup`: the first row whose token is `word`, or `None`. */
  function Lookup(rows: seq<Row>, word: string): (r: Option<Row>)
    ensures r.None? <==> forall j :: 0 <= j < |rows| ==> rows[j].token != word
    ensures r.Some? ==> exists j :: Seqs.IsFirst(rows, IsWord(word), j) && r.value == rows[j]
  {
    match Seqs.First(rows, IsWord(word))
    case Some(j) => Some(rows[j])
    case None => None
  }

  /** `get_frequency`: the first matching row's frequency, or 0. */
  function GetFrequency(rows: seq<Row>, word: string): (r: int)
    ensures (forall j :: 0 <= j < |rows| ==> rows[j].token != word) ==> r == 0
    ensures forall j :: Seqs.IsFirst(rows, IsWord(word), j) ==> r == rows[j].frequency
  {
    match Seqs.First(rows, IsWord(word))
    case Some(j) =>
      rows[j].frequency
    case None => 0
  }

  /** `get_frequency` agrees with `lookup`. */
  lemma FrequencyOfLookup(rows: seq<Row>, word: string)
    ensures GetFrequency(rows, word) == match Lookup(rows, word)
                                        case None => 0
                                        case Some(row) => row.frequency
  {
    match Lookup(rows, word)
    case None =>
    case Some(row) =>
      var j :| Seqs.IsFirst(rows, IsWord(word), j) && row == rows[j];
  }

  /** `get_similar_words`: no similarity data, so always empty. */
  function GetSimilarWords(rows: seq<Row>, word: string, topK: int): (r: seq<string>)
    ensures r == []
  {
    []
  }

  // ---------------------------------------------------------------------------
  // get_words_with_prefix
  // ---------------------------------------------------------------------------

  function StartsWith(prefix: string): Row -> bool {
    (row: Row) => prefix <= row.token
  }

  function Frequency(row: Row): int {
    row.frequency
  }

  function Tokens(rows: seq<Row>): (r: seq<string>)
    ensures |r| == |rows|
    ensures forall i :: 0 <= i < |rows| ==> r[i] == rows[i].token
  {
    seq(|rows|, i requires 0 <= i < |rows| => rows[i].token)
  }

  /** The rows whose token starts with `prefix`, in table order. */
  function Matching(rows: seq<Row>, prefix: string): seq<Row> {
    Seqs.Filter(rows, StartsWith(prefix))
  }

  /** A reordering of `rows` by non-increasing frequency. */
  predicate IsRanking(ranked: seq<Row>, rows: seq<Row>) {
    multiset(ranked) == multiset(rows) && Sorting.SortedDesc(ranked, Frequency)
  }

  /** A stable sort is one ranking, so some ranking exists. */
  lemma RankingExists(rows: seq<Row>)
    ensures exists ranked :: IsRanking(ranked, rows)
  {
    var stable := Sorting.SortDesc(rows, Frequency);
    assert IsRanking(stable, rows);
  }

  /** A ranking of the matching rows has their number of elements, each a
      table row starting with the prefix. */
  lemma RankingOfMatching(order: seq<Row>, rows: seq<Row>, prefix: string)
    requires IsRanking(order, Matching(rows, prefix))
    ensures |order| == |Matching(rows, prefix)|
    ensures forall i :: 0 <= i < |order| ==> prefix <= order[i].token && order[i] in rows
  {
    var matching := Matching(rows, prefix);
    Seqs.FilterMembers(rows, StartsWith(prefix));
    assert |order| == |multiset(order)| == |multiset(matching)| == |matching|;
    forall i | 0 <= i < |order|
      ensures prefix <= order[i].token && order[i] in rows
    {
      assert order[i] in multiset(matching);
      var k :| 0 <= k < |matching| && matching[k] == order[i];
      assert StartsWith(prefix)(matching[k]);
    }
  }

  /** `get_words_with_prefix`. pandas' default sort is not stable, so the
      order of equal frequencies is any order: `ranked` is the ranking the
      sort happened to produce. */
  method GetWordsWithPrefix(rows: seq<Row>, prefix: string, topK: int)
      returns (r: seq<string>, ghost ranked: seq<Row>)
    ensures topK >= 0 ==> |r| == Seqs.Min(topK, |Matching(rows, prefix)|)
    ensures topK < 0 ==> |r| == Seqs.Max(0, |Matching(rows, prefix)| + topK)
    ensures forall i :: 0 <= i < |r| ==> prefix <= r[i]
    ensures forall i :: 0 <= i < |r| ==> exists j :: 0 <= j < |rows| && rows[j].token == r[i]
    ensures IsRanking(ranked, Matching(rows, prefix))
    ensures |r| <= |ranked| && forall i :: 0 <= i < |r| ==> r[i] == ranked[i].token
    ensures forall i :: 0 <= i < |r| ==>
              |Seqs.Filter(Matching(rows, prefix), MoreFrequent(ranked[i].frequency))| <= i
  {
    RankingExists(Matching(rows, prefix));
    var order: seq<Row> :| IsRanking(order, Matching(rows, prefix));
    RankingOfMatching(order, rows, prefix);
    ranked := order;
    r := Tokens(Seqs.PyPrefix(order, topK));
    assert forall i :: 0 <= i < |r| ==> r[i] == order[i].token;
    forall i | 0 <= i < |r|
      ensures |Seqs.Filter(Matching(rows, prefix), MoreFrequent(order[i].frequency))| <= i
    {
      RankingTop(order, Matching(rows, prefix), i);
    }
  }

  function MoreFrequent(f: int): Row -> bool {
    (row: Row) => row.frequency > f
  }

  /** A ranking puts the most frequent rows first: fewer than `i + 1` rows
      are strictly more frequent than its `i`-th entry. */
  lemma RankingTop(ranked: seq<Row>, rows: seq<Row>, i: nat)
    requires IsRanking(ranked, rows) && i < |ranked|
    ensures |Seqs.Filter(rows, MoreFrequent(ranked[i].frequency))| <= i
  {
    var p := MoreFrequent(ranked[i].frequency);
    Seqs.FilterCountOfPermutation(ranked, rows, p);
    assert ranked == ranked[..i] + ranked[i..];
    Seqs.FilterAppend(ranked[..i], ranked[i..], p);
    NoneMoreFrequentAfter(ranked, i);
    Seqs.FilterNone(ranked[i..], p);
  }

  /** In a descending ranking nothing from position `i` on is more frequent
      than the entry at `i`. */
  lemma NoneMoreFrequentAfter(ranked: seq<Row>, i: nat)
    requires Sorting.SortedDesc(ranked, Frequency) && i < |ranked|
    ensures forall j :: 0 <= j < |ranked[i..]| ==> !MoreFrequent(ranked[i].frequency)(ranked[i..][j])
  {
    forall j | 0 <= j < |ranked[i..]| ensures ranked[i..][j].frequency <= ranked[i].frequency {
      assert ranked[i..][j] == ranked[i + j];
      if j > 0 {
        assert Frequency(ranked[i]) >= Frequency(ranked[i + j]);
      }
    }
  }

  // ---------------------------------------------------------------------------
  // size, words, vocab_dict
  // ---------------------------------------------------------------------------

  /** `size`: the number of rows. */
  function Size(rows: seq<Row>): nat {
    |rows|
  }

  /** `words`: the set of tokens, never larger than the table. */
  function Words(rows: seq<Row>): (r: set<string>)
    ensures forall j :: 0 <= j < |rows| ==> rows[j].token in r
    ensures forall w :: w in r ==> exists j :: 0 <= j < |rows| && rows[j].token == w
    ensures |r| <= Size(rows)
    decreases |rows|
  {
    if |rows| == 0 then {}
    else
      var rest := Words(rows[1..]);
      assert forall j :: 1 <= j < |rows| ==> rows[j] == rows[1..][j - 1];
      {rows[0].token} + rest
  }

  function KeepAll(row: Row): bool {
    true
  }

  function Token(row: Row): string {
    row.token
  }

  function EntryOf(row: Row): Entry {
    Entry(row.frequency, row.idfScore, row.rank)
  }

  /** `vocab_dict`: every row written into a dict in table order, so the last
      row of a repeated token wins. */
  function VocabDict(rows: seq<Row>): Dicts.Dict<string, Entry> {
    Dicts.Collect(rows, KeepAll, Token, EntryOf)
  }

  /** The keys of `vocab_dict` are exactly `words`, each once. */
  lemma VocabDictKeys(rows: seq<Row>, w: string)
    ensures Dicts.DistinctKeys(VocabDict(rows))
    ensures w in Dicts.Keys(VocabDict(rows)) <==> w in Words(rows)
  {
    Dicts.CollectDistinct(rows, KeepAll, Token, EntryOf);
    Dicts.CollectKeys(rows, KeepAll, Token, EntryOf, w);
  }

  /** `vocab_dict` holds the fields of the last row of each token, while
      `lookup` returns the first: the two agree when tokens are unique. */
  lemma VocabDictAgreesWithLookup(rows: seq<Row>, w: string)
    requires forall i, j :: 0 <= i < j < |rows| ==> rows[i].token != rows[j].token
    ensures match Lookup(rows, w)
            case None => Dicts.Get(VocabDict(rows), w).None?
            case Some(row) => Dicts.Get(VocabDict(rows), w) == Some(EntryOf(row))
  {
    VocabDictKeys(rows, w);
    match Lookup(rows, w)
    case None =>
    case Some(row) =>
      var j :| Seqs.IsFirst(rows, IsWord(w), j) && row == rows[j];
      UniqueIsLast(rows, w, j);
  }

  /** With unique tokens the first row of a word is also its last. */
  lemma UniqueIsLast(rows: seq<Row>, w: string, j: int)
    requires forall i, j :: 0 <= i < j < |rows| ==> rows[i].token != rows[j].token
    requires Seqs.IsFirst(rows, IsWord(w), j)
    ensures Dicts.Get(VocabDict(rows), w) == Some(EntryOf(rows[j]))
  {
    assert Dicts.IsLastWith(rows, KeepAll, Token, j);
    Dicts.CollectLast(rows, KeepAll, Token, EntryOf, j);
  }
}
