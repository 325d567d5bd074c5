/** The n-gram model of `src/wikilangs/ngram.py`: an immutable table of
    (n-gram, frequency) rows plus metadata, used to score a text and to predict
    the next token after a context. Loading the table from the model
    repository is outside the model: the table and metadata are given values.

    Scores are not floating-point numbers here. A score is a `LogLikelihood`: either negative
    infinity or the list of per-window probability terms; `score` returns
    the sum of the natural logarithms of those terms. */
module NGram {
  import opened Wrappers
  import Text
  import Seqs
  import Sorting

  datatype Row = Row(ngram: seq<string>, frequency: int)

  /** The metadata keys the model reads; a missing key is `None`. */
  datatype Metadata = Metadata(totalNgrams: Option<int>, uniqueNgrams: Option<int>)

  datatype Model = Model(gramSize: int, table: seq<Row>, metadata: Metadata)

  datatype Error = UnsupportedGramSize(gramSize: int)

  const SupportedSizes: seq<int> := [2, 3, 4, 5]

  /** The smoothing probability given to an n-gram absent from the table: 1e-10. */
  const UnseenProbability: real := 0.0000000001

  predicate Valid(m: Model) {
    m.gramSize in SupportedSizes
  }

  /** `NGramModel.__init__`: the gram size is checked before anything is loaded. */
  function NewModel(gramSize: int, table: seq<Row>, metadata: Metadata): (r: Result<Model, Error>)
    ensures r.Failure? <==> gramSize != 2 && gramSize != 3 && gramSize != 4 && gramSize != 5
    ensures r.Failure? ==> r.error == UnsupportedGramSize(gramSize)
    ensures r.Success? ==> Valid(r.value) && r.value == Model(gramSize, table, metadata)
  {
    if gramSize in SupportedSizes then Success(Model(gramSize, table, metadata))
    else Failure(UnsupportedGramSize(gramSize))
  }

  /** `text.strip().split()`. */
  function Tokenize(text: string): seq<string> {
    Text.Words(Text.Strip(text))
  }

  // ---------------------------------------------------------------------------
  // score
  // ---------------------------------------------------------------------------

  /** One window's contribution: `ln(frequency / total)` for a table hit,
      `ln(1e-10)` otherwise. */
  datatype Term = Seen(frequency: int, total: int) | Unseen

  datatype LogLikelihood = NegativeInfinity | LogSum(terms: seq<Term>)

  /** The denominator `score` uses: the metadata's `total_ngrams`, or 1. */
  function ScoreTotal(m: Model): int {
    m.metadata.totalNgrams.GetOr(1)
  }

  function HasNgram(ngram: seq<string>): Row -> bool {
    (row: Row) => row.ngram == ngram
  }

  /** Row `j` is the first row equal to `ngram`, the one pandas' `iloc[0]` picks. */
  predicate IsFirstMatch(table: seq<Row>, ngram: seq<string>, j: int) {
    Seqs.IsFirst(table, HasNgram(ngram), j)
  }

  function FirstMatch(table: seq<Row>, ngram: seq<string>): (r: Option<nat>)
    ensures r.Some? ==> IsFirstMatch(table, ngram, r.value)
    ensures r.None? ==> forall j :: 0 <= j < |table| ==> table[j].ngram != ngram
  {
    Seqs.First(table, HasNgram(ngram))
  }

  function WindowTerm(m: Model, ngram: seq<string>): Term {
    match FirstMatch(m.table, ngram)
    case Some(j) => Seen(m.table[j].frequency, ScoreTotal(m))
    case None => Unseen
  }

  /** A term is what `score` adds for that window. */
  ghost predicate TermFor(m: Model, ngram: seq<string>, t: Term) {
    match t
    case Seen(f, total) =>
      total == ScoreTotal(m)
      && exists j :: IsFirstMatch(m.table, ngram, j) && m.table[j].frequency == f
    case Unseen =>
      forall j :: 0 <= j < |m.table| ==> m.table[j].ngram != ngram
  }

  /** The terms of the first `count` windows of width `n`. */
  function Terms(m: Model, tokens: seq<string>, n: nat, count: nat): (r: seq<Term>)
    requires count + n <= |tokens| + 1
    ensures |r| == count
    ensures forall i :: 0 <= i < count ==> TermFor(m, tokens[i..i + n], r[i])
  {
    if count == 0 then []
    else Terms(m, tokens, n, count - 1) + [WindowTerm(m, tokens[count - 1..count - 1 + n])]
  }

  /** `NGramModel.score`. */
  function Score(m: Model, text: string): (r: LogLikelihood)
    requires Valid(m)
    ensures r.NegativeInfinity? <==> |Tokenize(text)| < m.gramSize
    ensures r.LogSum? ==> |r.terms| == |Tokenize(text)| - m.gramSize + 1
    ensures r.LogSum? ==> forall i :: 0 <= i < |r.terms| ==>
              TermFor(m, Tokenize(text)[i..i + m.gramSize], r.terms[i])
  {
    var tokens := Tokenize(text);
    if |tokens| < m.gramSize then NegativeInfinity
    else LogSum(Terms(m, tokens, m.gramSize, |tokens| - m.gramSize + 1))
  }

  /** The term list is a function of the text: each window term is the unique
      one `TermFor` allows, so equal inputs give equal scores. */
  lemma TermForUnique(m: Model, ngram: seq<string>, t1: Term, t2: Term)
    requires TermFor(m, ngram, t1) && TermFor(m, ngram, t2)
    ensures t1 == t2
  {
    if t1.Seen? && t2.Seen? {
      var j1 :| IsFirstMatch(m.table, ngram, j1) && m.table[j1].frequency == t1.frequency;
      var j2 :| IsFirstMatch(m.table, ngram, j2) && m.table[j2].frequency == t2.frequency;
      if j1 < j2 {
      } else if j2 < j1 {
      }
    }
  }

  /** The worked example: with `total_ngrams = 100` and the 3-gram "a b c"
      seen 10 times, scoring "a b c" gives exactly `ln(10/100)`. */
  lemma ScoreExample()
    ensures Score(Model(3, [Row(["a", "b", "c"], 10)], Metadata(Some(100), None)), "a b c")
            == LogSum([Seen(10, 100)])
  {
    var m := Model(3, [Row(["a", "b", "c"], 10)], Metadata(Some(100), None));
    TokenizeExample();
    var r := Score(m, "a b c");
    assert |r.terms| == 1;
    assert TermFor(m, ["a", "b", "c"], Seen(10, 100)) by {
      assert IsFirstMatch(m.table, ["a", "b", "c"], 0);
    }
    TermForUnique(m, ["a", "b", "c"], r.terms[0], Seen(10, 100));
  }

  lemma TokenizeExample()
    ensures Tokenize("a b c") == ["a", "b", "c"]
  {
    assert Text.Join(["a", "b", "c"], " ") == "a b c";
    Text.StripOfTrimmed("a b c");
    Text.WordsOfJoin(["a", "b", "c"]);
  }

  // ---------------------------------------------------------------------------
  // predict_next
  // ---------------------------------------------------------------------------

  datatype Candidate = Candidate(token: string, frequency: int)

  datatype Prediction = Prediction(token: string, probability: real)

  function Frequency(c: Candidate): int {
    c.frequency
  }

  /** A row of length `n` whose first `n - 1` tokens are `anchor`. */
  predicate Continues(row: Row, anchor: seq<string>, n: nat) {
    n >= 1 && |row.ngram| == n && row.ngram[..n - 1] == anchor
  }

  function CandidateOf(row: Row): Candidate
    requires |row.ngram| > 0
  {
    Candidate(row.ngram[|row.ngram| - 1], row.frequency)
  }

  /** The `(next_token, frequency)` pairs of the continuing rows, in table order. */
  function Candidates(table: seq<Row>, anchor: seq<string>, n: nat): (r: seq<Candidate>)
    ensures |r| <= |table|
    ensures forall i :: 0 <= i < |r| ==>
              exists j :: 0 <= j < |table| && Continues(table[j], anchor, n) && r[i] == CandidateOf(table[j])
    ensures |r| == 0 <==> forall j :: 0 <= j < |table| ==> !Continues(table[j], anchor, n)
    decreases |table|
  {
    if |table| == 0 then []
    else
      var rest := Candidates(table[1..], anchor, n);
      assert forall j :: 1 <= j < |table| ==> table[j] == table[1..][j - 1];
      if Continues(table[0], anchor, n) then [CandidateOf(table[0])] + rest else rest
  }

  /** Every continuing row contributes its candidate. */
  lemma {:induction false} CandidatesComplete(table: seq<Row>, anchor: seq<string>, n: nat, j: nat)
    requires j < |table| && Continues(table[j], anchor, n)
    ensures CandidateOf(table[j]) in Candidates(table, anchor, n)
    decreases |table|
  {
    if j > 0 {
      assert table[j] == table[1..][j - 1];
      CandidatesComplete(table[1..], anchor, n, j - 1);
    }
  }

  function ContinuesP(anchor: seq<string>, n: nat): Row -> bool {
    row => Continues(row, anchor, n)
  }

  /** The candidates are exactly one pair per continuing row, in table
      order: the pairs of the rows that continue the context. */
  lemma {:induction false} CandidatesInOrder(table: seq<Row>, anchor: seq<string>, n: nat)
    ensures |Candidates(table, anchor, n)| == |Seqs.Filter(table, ContinuesP(anchor, n))|
    ensures forall i :: 0 <= i < |Candidates(table, anchor, n)| ==>
              Continues(Seqs.Filter(table, ContinuesP(anchor, n))[i], anchor, n)
              && Candidates(table, anchor, n)[i] == CandidateOf(Seqs.Filter(table, ContinuesP(anchor, n))[i])
    decreases |table|
  {
    if |table| > 0 {
      CandidatesInOrder(table[1..], anchor, n);
    }
  }

  function TotalFrequency(cs: seq<Candidate>): int
    decreases |cs|
  {
    if |cs| == 0 then 0 else cs[0].frequency + TotalFrequency(cs[1..])
  }

  /** `freq / total_freq if total_freq > 0 else 0.0`. */
  function Probability(c: Candidate, total: int): real {
    if total > 0 then c.frequency as real / total as real else 0.0
  }

  function Normalise(cs: seq<Candidate>, total: int): (r: seq<Prediction>)
    ensures |r| == |cs|
    ensures forall i :: 0 <= i < |cs| ==> r[i] == Prediction(cs[i].token, Probability(cs[i], total))
  {
    seq(|cs|, i requires 0 <= i < |cs| => Prediction(cs[i].token, Probability(cs[i], total)))
  }

  /** The last `n - 1` tokens of the context. */
  function Anchor(tokens: seq<string>, n: int): seq<string>
    requires 1 <= n <= |tokens| + 1
  {
    tokens[|tokens| - (n - 1)..]
  }

  /** Candidates stably sorted by descending frequency. */
  function Ranked(cs: seq<Candidate>): seq<Candidate> {
    Sorting.SortDesc(cs, Frequency)
  }

  /** The first `top_k` ranked candidates, each normalised by the frequency
      total of ALL candidates. */
  function Predict(cs: seq<Candidate>, topK: int): (r: seq<Prediction>)
    ensures topK >= 0 ==> |r| <= topK
    ensures |r| <= |cs|
    ensures forall i :: 0 <= i < |r| ==> exists c :: c in cs && c.token == r[i].token
  {
    var ranked := Ranked(cs);
    var r := Normalise(Seqs.PyPrefix(ranked, topK), TotalFrequency(cs));
    assert forall i :: 0 <= i < |r| ==> r[i].token == ranked[i].token && ranked[i] in multiset(cs);
    r
  }

  /** The candidates `predict_next` ranks for a context of enough tokens. */
  function ContextCandidates(m: Model, tokens: seq<string>): seq<Candidate>
    requires Valid(m) && |tokens| >= m.gramSize - 1
  {
    Candidates(m.table, Anchor(tokens, m.gramSize), m.gramSize)
  }

  /** `NGramModel.predict_next`. */
  function PredictNext(m: Model, context: string, topK: int): (r: seq<Prediction>)
    requires Valid(m)
    ensures |Tokenize(context)| < m.gramSize - 1 ==> r == []
    ensures topK >= 0 ==> |r| <= topK
  {
    var tokens := Tokenize(context);
    if |tokens| < m.gramSize - 1 then []
    else
      var cs := ContextCandidates(m, tokens);
      if |cs| == 0 then [] else Predict(cs, topK)
  }

  /** Every predicted token ends a table row of length n whose first n - 1
      tokens are the last n - 1 context tokens. */
  lemma PredictNextFromTable(m: Model, context: string, topK: int)
    requires Valid(m)
    ensures var r := PredictNext(m, context, topK);
            forall i :: 0 <= i < |r| ==>
              exists j :: 0 <= j < |m.table|
                && Continues(m.table[j], Anchor(Tokenize(context), m.gramSize), m.gramSize)
                && m.table[j].ngram[m.gramSize - 1] == r[i].token
  {
    var tokens := Tokenize(context);
    var r := PredictNext(m, context, topK);
    if |tokens| >= m.gramSize - 1 {
      var anchor := Anchor(tokens, m.gramSize);
      var cs := ContextCandidates(m, tokens);
      assert r == if |cs| == 0 then [] else Predict(cs, topK);
      forall i | 0 <= i < |r|
        ensures exists j :: 0 <= j < |m.table|
                  && Continues(m.table[j], anchor, m.gramSize)
                  && m.table[j].ngram[m.gramSize - 1] == r[i].token
      {
        var c :| c in cs && c.token == r[i].token;
        CandidateInTable(m.table, anchor, m.gramSize, c);
      }
    }
  }

  /** A candidate's token ends a continuing row of the table. */
  lemma CandidateInTable(table: seq<Row>, anchor: seq<string>, n: nat, c: Candidate)
    requires c in Candidates(table, anchor, n)
    ensures exists j :: 0 <= j < |table| && Continues(table[j], anchor, n) && table[j].ngram[n - 1] == c.token
  {
    var cs := Candidates(table, anchor, n);
    var p :| 0 <= p < |cs| && cs[p] == c;
    var j :| 0 <= j < |table| && Continues(table[j], anchor, n) && cs[p] == CandidateOf(table[j]);
  }

  /** No continuation in the table means no prediction. */
  lemma PredictNextNoMatch(m: Model, context: string, topK: int)
    requires Valid(m) && |Tokenize(context)| >= m.gramSize - 1
    requires forall j :: 0 <= j < |m.table| ==>
               !Continues(m.table[j], Anchor(Tokenize(context), m.gramSize), m.gramSize)
    ensures PredictNext(m, context, topK) == []
  {
  }

  lemma InsertTotal(x: Candidate, ys: seq<Candidate>)
    requires Sorting.SortedDesc(ys, Frequency)
    ensures TotalFrequency(Sorting.Insert(x, ys, Frequency)) == x.frequency + TotalFrequency(ys)
    decreases |ys|
  {
    if |ys| > 0 && ys[0].frequency > x.frequency {
      InsertTotal(x, ys[1..]);
    }
  }

  lemma RankedTotal(xs: seq<Candidate>)
    ensures TotalFrequency(Ranked(xs)) == TotalFrequency(xs)
    decreases |xs|
  {
    if |xs| > 0 {
      RankedTotal(xs[1..]);
      InsertTotal(xs[0], Ranked(xs[1..]));
    }
  }

  /** Probabilities never increase along a prediction list: the ranking is by
      descending frequency and the divisor is shared. */
  lemma PredictDescending(cs: seq<Candidate>, topK: int)
    ensures var r := Predict(cs, topK);
            forall i, j :: 0 <= i < j < |r| ==> r[i].probability >= r[j].probability
  {
    var ranked := Ranked(cs);
    var total := TotalFrequency(cs);
    var r := Predict(cs, topK);
    assert forall i :: 0 <= i < |r| ==> r[i].probability == Probability(ranked[i], total);
    forall i, j | 0 <= i < j < |r|
      ensures r[i].probability >= r[j].probability
    {
      ProbabilityMonotone(ranked[i], ranked[j], total);
    }
  }

  /** A larger frequency never gets a smaller probability. */
  lemma ProbabilityMonotone(a: Candidate, b: Candidate, total: int)
    requires a.frequency >= b.frequency
    ensures Probability(a, total) >= Probability(b, total)
  {
    if total > 0 {
      var t := total as real;
      var d := (a.frequency - b.frequency) as real;
      assert a.frequency as real / t - b.frequency as real / t == d / t;
    }
  }

  /** `predict_next` lists probabilities in non-increasing order. */
  lemma PredictNextDescending(m: Model, context: string, topK: int)
    requires Valid(m)
    ensures var r := PredictNext(m, context, topK);
            forall i, j :: 0 <= i < j < |r| ==> r[i].probability >= r[j].probability
  {
    var tokens := Tokenize(context);
    if |tokens| >= m.gramSize - 1 {
      PredictDescending(ContextCandidates(m, tokens), topK);
    }
  }

  /** Among equal frequencies the ranking keeps table order (Python's sort is
      stable), and the ranking is a permutation of the candidates. */
  lemma PredictNextStable(m: Model, context: string, topK: int)
    requires Valid(m) && |Tokenize(context)| >= m.gramSize - 1
    ensures var cs := ContextCandidates(m, Tokenize(context));
            var r := PredictNext(m, context, topK);
            && multiset(Ranked(cs)) == multiset(cs)
            && (forall f :: Sorting.FilterKey(Ranked(cs), Frequency, f) == Sorting.FilterKey(cs, Frequency, f))
            && |r| == |Seqs.PyPrefix(Ranked(cs), topK)|
            && forall i :: 0 <= i < |r| ==> r[i].token == Ranked(cs)[i].token
  {
    var cs := ContextCandidates(m, Tokenize(context));
    if |cs| == 0 {
      assert |multiset(Ranked(cs))| == 0;
    }
  }

  function ProbabilitiesOf(ps: seq<Prediction>): (r: seq<real>)
    ensures |r| == |ps|
    ensures forall i :: 0 <= i < |ps| ==> r[i] == ps[i].probability
  {
    seq(|ps|, i requires 0 <= i < |ps| => ps[i].probability)
  }

  lemma NormaliseSum(cs: seq<Candidate>, total: int)
    requires total > 0
    ensures Seqs.Sum(ProbabilitiesOf(Normalise(cs, total))) == TotalFrequency(cs) as real / total as real
    decreases |cs|
  {
    if |cs| > 0 {
      assert ProbabilitiesOf(Normalise(cs, total))[1..] == ProbabilitiesOf(Normalise(cs[1..], total));
      NormaliseSum(cs[1..], total);
    }
  }

  lemma TotalNonNegative(cs: seq<Candidate>)
    requires forall i :: 0 <= i < |cs| ==> cs[i].frequency >= 0
    ensures TotalFrequency(cs) >= 0
    ensures forall i :: 0 <= i < |cs| ==> cs[i].frequency <= TotalFrequency(cs)
    decreases |cs|
  {
    if |cs| > 0 {
      TotalNonNegative(cs[1..]);
      assert forall i :: 1 <= i < |cs| ==> cs[i] == cs[1..][i - 1];
    }
  }

  lemma ZeroSum(xs: seq<real>)
    requires forall i :: 0 <= i < |xs| ==> xs[i] == 0.0
    ensures Seqs.Sum(xs) == 0.0
    decreases |xs|
  {
    if |xs| > 0 {
      ZeroSum(xs[1..]);
    }
  }

  lemma RatioAtMostOne(f: int, t: int)
    requires 0 <= f <= t && t > 0
    ensures f as real / t as real <= 1.0
  {
    var q := f as real / t as real;
    assert q * t as real == f as real;
  }

  lemma DivideBySelf(x: real)
    requires x > 0.0
    ensures x / x == 1.0
  {
  }

  /** Ranking keeps the length, the total and the non-negativity of frequencies. */
  lemma RankedFacts(cs: seq<Candidate>)
    requires forall i :: 0 <= i < |cs| ==> cs[i].frequency >= 0
    ensures |Ranked(cs)| == |cs|
    ensures TotalFrequency(Ranked(cs)) == TotalFrequency(cs)
    ensures forall i :: 0 <= i < |cs| ==> Ranked(cs)[i].frequency >= 0
  {
    var ranked := Ranked(cs);
    assert |multiset(ranked)| == |multiset(cs)|;
    forall i | 0 <= i < |ranked|
      ensures ranked[i].frequency >= 0
    {
      assert ranked[i] in multiset(cs);
    }
    RankedTotal(cs);
  }

  /** Normalising frequencies in [0, total] gives probabilities in [0, 1]. */
  lemma NormaliseBounds(cs: seq<Candidate>, total: int)
    requires forall i :: 0 <= i < |cs| ==> 0 <= cs[i].frequency <= total
    ensures var all := ProbabilitiesOf(Normalise(cs, total));
            forall i :: 0 <= i < |all| ==> 0.0 <= all[i] <= 1.0
  {
    var all := ProbabilitiesOf(Normalise(cs, total));
    forall i | 0 <= i < |all|
      ensures 0.0 <= all[i] <= 1.0
    {
      if total > 0 {
        RatioAtMostOne(cs[i].frequency, total);
      }
    }
  }

  /** Normalising non-negative frequencies by their own total gives a
      sequence whose prefixes sum to at most 1, and the whole sequence sums to
      1 when the total is positive. */
  lemma {:induction false} NormaliseSumBound(cs: seq<Candidate>, k: nat)
    requires k <= |cs|
    requires forall i :: 0 <= i < |cs| ==> cs[i].frequency >= 0
    ensures var all := ProbabilitiesOf(Normalise(cs, TotalFrequency(cs)));
            && Seqs.Sum(all[..k]) <= 1.0
            && (k == |cs| && TotalFrequency(cs) > 0 ==> Seqs.Sum(all[..k]) == 1.0)
  {
    var total := TotalFrequency(cs);
    var all := ProbabilitiesOf(Normalise(cs, total));
    TotalNonNegative(cs);
    NormaliseBounds(cs, total);
    Seqs.SumPrefix(all, k);
    if total > 0 {
      NormaliseSum(cs, total);
      DivideBySelf(total as real);
      if k == |cs| {
        assert all[..k] == all;
      }
    } else {
      ZeroSum(all);
    }
  }

  /** With non-negative frequencies every probability lies in [0, 1], the
      probabilities sum to at most 1, and to exactly 1 when `top_k` cuts
      nothing and some frequency is positive. */
  lemma PredictDistribution(cs: seq<Candidate>, topK: int)
    requires forall i :: 0 <= i < |cs| ==> cs[i].frequency >= 0
    ensures var r := Predict(cs, topK);
            && (forall i :: 0 <= i < |r| ==> 0.0 <= r[i].probability <= 1.0)
            && Seqs.Sum(ProbabilitiesOf(r)) <= 1.0
            && (topK >= |cs| && TotalFrequency(cs) > 0 ==> Seqs.Sum(ProbabilitiesOf(r)) == 1.0)
  {
    var ranked := Ranked(cs);
    RankedFacts(cs);
    var k := |Seqs.PyPrefix(ranked, topK)|;
    var all := ProbabilitiesOf(Normalise(ranked, TotalFrequency(ranked)));
    PredictPrefix(cs, topK);
    NormaliseBounds(ranked, TotalFrequency(ranked)) by {
      TotalNonNegative(ranked);
    }
    NormaliseSumBound(ranked, k);
  }

  /** The predicted probabilities are a prefix of the normalised ranking. */
  lemma PredictPrefix(cs: seq<Candidate>, topK: int)
    ensures var ranked := Ranked(cs);
            var k := |Seqs.PyPrefix(ranked, topK)|;
            && k <= |ranked|
            && ProbabilitiesOf(Predict(cs, topK))
               == ProbabilitiesOf(Normalise(ranked, TotalFrequency(cs)))[..k]
  {
    var ranked := Ranked(cs);
    var k := |Seqs.PyPrefix(ranked, topK)|;
    assert Seqs.PyPrefix(ranked, topK) == ranked[..k];
  }

  /** `predict_next` returns a sub-distribution: probabilities in [0, 1] with
      sum at most 1, exactly 1 when nothing was cut and the total is positive. */
  lemma PredictNextDistribution(m: Model, context: string, topK: int)
    requires Valid(m)
    requires forall j :: 0 <= j < |m.table| ==> m.table[j].frequency >= 0
    ensures var r := PredictNext(m, context, topK);
            && (forall i :: 0 <= i < |r| ==> 0.0 <= r[i].probability <= 1.0)
            && Seqs.Sum(ProbabilitiesOf(r)) <= 1.0
    ensures var tokens := Tokenize(context);
            |tokens| >= m.gramSize - 1
            && topK >= |ContextCandidates(m, tokens)|
            && TotalFrequency(ContextCandidates(m, tokens)) > 0
            ==> Seqs.Sum(ProbabilitiesOf(PredictNext(m, context, topK))) == 1.0
  {
    var tokens := Tokenize(context);
    if |tokens| >= m.gramSize - 1 {
      var cs := ContextCandidates(m, tokens);
      forall i | 0 <= i < |cs|
        ensures cs[i].frequency >= 0
      {
        var j :| 0 <= j < |m.table| && Continues(m.table[j], Anchor(tokens, m.gramSize), m.gramSize)
                 && cs[i] == CandidateOf(m.table[j]);
      }
      PredictDistribution(cs, topK);
    }
  }

  // ---------------------------------------------------------------------------
  // Size properties
  // ---------------------------------------------------------------------------

  /** `vocab_size`: the metadata's `unique_ngrams`, or the table length. */
  function VocabSize(m: Model): int {
    m.metadata.uniqueNgrams.GetOr(|m.table|)
  }

  /** `total_ngrams`: the metadata's `total_ngrams`, or the table length. */
  function TotalNgrams(m: Model): int {
    m.metadata.totalNgrams.GetOr(|m.table|)
  }

  /** `size`: always the table length. */
  function Size(m: Model): nat {
    |m.table|
  }

  /** The size properties fall back to the table length when the metadata
      lacks the key, while `score` falls back to a denominator of 1: the two
      readings of a missing `total_ngrams` disagree on every table whose
      length is not 1. */
  lemma SizeFallbacks(m: Model)
    ensures Size(m) == |m.table|
    ensures m.metadata.uniqueNgrams.None? ==> VocabSize(m) == Size(m)
    ensures m.metadata.uniqueNgrams.Some? ==> VocabSize(m) == m.metadata.uniqueNgrams.value
    ensures m.metadata.totalNgrams.None? ==> TotalNgrams(m) == Size(m) && ScoreTotal(m) == 1
    ensures m.metadata.totalNgrams.Some? ==> TotalNgrams(m) == ScoreTotal(m) == m.metadata.totalNgrams.value
  {
  }
}
