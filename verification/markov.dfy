/** The Markov-chain generator of `src/wikilangs/markov.py`: a table of
    (context, next token, probability) rows, an exact-match transition lookup
    and a bounded random walk that slides a fixed-width window over the
    generated tokens. Loading the table is outside the model: the table and
    the metadata are given values.

    The two random draws of `generate`, `DataFrame.sample(n=1)` and
    `random.choices`, are nondeterministic choices (`:|`) constrained by what
    they can return. */
module Markov {
  import opened Wrappers
  import Text
  import Dicts
  import Seqs

  datatype Row = Row(context: seq<string>, nextToken: string, probability: real)

  /** The metadata key the model reads; a missing key is `None`. */
  datatype Metadata = Metadata(vocabSize: Option<int>)

  datatype Chain = Chain(depth: int, table: seq<Row>, metadata: Metadata)

  datatype Error =
    | UnsupportedDepth(depth: int)
      /** `sample(n=1)` on an empty table, when no seed is given. */
    | EmptyTable

  const SupportedDepths: seq<int> := [1, 2, 3, 4, 5]

  /** The token a short seed is padded with. */
  const Pad: string := "<pad>"

  /** How many random contexts a dead end may try before generation stops. */
  const MaxRetries: nat := 10

  /** SentencePiece's word-start marker, U+2581. */
  const Marker: char := '\U{2581}'

  predicate Valid(c: Chain) {
    c.depth in SupportedDepths
  }

  /** Every row's context has exactly `depth` tokens. */
  predicate WellFormed(c: Chain) {
    forall j :: 0 <= j < |c.table| ==> |c.table[j].context| == c.depth
  }

  /** `MarkovChain.__init__`: the depth is checked before anything is loaded. */
  function NewChain(depth: int, table: seq<Row>, metadata: Metadata): (r: Result<Chain, Error>)
    ensures r.Failure? <==> depth < 1 || 5 < depth
    ensures r.Failure? ==> r.error == UnsupportedDepth(depth)
    ensures r.Success? ==> Valid(r.value) && r.value == Chain(depth, table, metadata)
  {
    if depth in SupportedDepths then Success(Chain(depth, table, metadata))
    else Failure(UnsupportedDepth(depth))
  }

  /** `vocab_size`: the metadata value, or 0. */
  function VocabSize(c: Chain): int {
    c.metadata.vocabSize.GetOr(0)
  }

  /** `size` and `total_transitions`: both the number of rows. */
  function Size(c: Chain): nat {
    |c.table|
  }

  lemma SizeFallbacks(c: Chain)
    ensures c.metadata.vocabSize.None? ==> VocabSize(c) == 0
    ensures c.metadata.vocabSize.Some? ==> VocabSize(c) == c.metadata.vocabSize.value
    ensures Size(c) == |c.table|
  {
  }

  // ---------------------------------------------------------------------------
  // get_transitions
  // ---------------------------------------------------------------------------

  /** Next token to raw probability, in order of first appearance. */
  type Transitions = Dicts.Dict<string, real>

  function Matches(state: seq<string>): Row -> bool {
    (row: Row) => row.context == state
  }

  function NextToken(row: Row): string {
    row.nextToken
  }

  function Probability(row: Row): real {
    row.probability
  }

  /** Row `j` matches `state` and no later matching row has the same next token. */
  predicate IsLastFor(table: seq<Row>, state: seq<string>, j: int) {
    Dicts.IsLastWith(table, Matches(state), NextToken, j)
  }

  /** `get_transitions`: the rows whose context equals `state`, folded into a
      dict in table order, so a later row overwrites an earlier one with the
      same next token. */
  function GetTransitions(table: seq<Row>, state: seq<string>): Transitions {
    Dicts.Collect(table, Matches(state), NextToken, Probability)
  }

  lemma GetTransitionsDistinct(table: seq<Row>, state: seq<string>)
    ensures Dicts.DistinctKeys(GetTransitions(table, state))
  {
    Dicts.CollectDistinct(table, Matches(state), NextToken, Probability);
  }

  /** The keys are exactly the next tokens of the matching rows. */
  lemma GetTransitionsKeys(table: seq<Row>, state: seq<string>, t: string)
    ensures t in Dicts.Keys(GetTransitions(table, state)) <==>
            exists j :: 0 <= j < |table| && table[j].context == state && table[j].nextToken == t
  {
    Dicts.CollectKeys(table, Matches(state), NextToken, Probability, t);
  }

  /** The last matching row with a given next token supplies its value. */
  lemma GetTransitionsLast(table: seq<Row>, state: seq<string>, j: int)
    requires IsLastFor(table, state, j)
    ensures Dicts.Get(GetTransitions(table, state), table[j].nextToken) == Some(table[j].probability)
  {
    Dicts.CollectLast(table, Matches(state), NextToken, Probability, j);
  }

  /** No matching row means no transitions, and the converse. */
  lemma GetTransitionsEmpty(table: seq<Row>, state: seq<string>)
    ensures |GetTransitions(table, state)| == 0 <==>
            forall j :: 0 <= j < |table| ==> table[j].context != state
  {
    Dicts.CollectEmpty(table, Matches(state), NextToken, Probability);
  }

  /** Every entry of the dict is the raw probability of the last matching row
      with that next token. */
  lemma GetTransitionsValue(table: seq<Row>, state: seq<string>, t: string)
    requires t in Dicts.Keys(GetTransitions(table, state))
    ensures exists k :: IsLastFor(table, state, k) && table[k].nextToken == t
                        && Dicts.Get(GetTransitions(table, state), t) == Some(table[k].probability)
  {
    Dicts.CollectValue(table, Matches(state), NextToken, Probability, t);
  }

  /** A context taken from a row of the table always has a transition: the row's own. */
  lemma RowContextLive(table: seq<Row>, j: int)
    requires 0 <= j < |table|
    ensures table[j].nextToken in Dicts.Keys(GetTransitions(table, table[j].context))
    ensures |GetTransitions(table, table[j].context)| > 0
  {
    GetTransitionsKeys(table, table[j].context, table[j].nextToken);
  }

  // ---------------------------------------------------------------------------
  // Sampling the next token
  // ---------------------------------------------------------------------------

  function Weights(d: Transitions): (r: seq<real>)
    ensures |r| == |d|
    ensures forall i :: 0 <= i < |d| ==> r[i] == d[i].1
  {
    seq(|d|, i requires 0 <= i < |d| => d[i].1)
  }

  /** Weights `random.choices` receives: non-negative with a positive total.
      Dividing by the total, as `generate` does first, keeps which weights
      are positive. */
  predicate Weighted(d: Transitions) {
    Seqs.Sum(Weights(d)) > 0.0 && forall i :: 0 <= i < |d| ==> d[i].1 >= 0.0
  }

  /** What the sampler may return: a key of the dict and, when the weights
      are proper, a key of positive weight (a bisection over cumulative
      weights never lands on a zero-width slot). Otherwise `random.choices` falls
      back to a uniform choice among the keys. */
  predicate Chosen(d: Transitions, t: string) {
    t in Dicts.Keys(d)
    && (Weighted(d) ==> exists i :: 0 <= i < |d| && d[i].0 == t && d[i].1 > 0.0)
  }

  /** One draw of the next token from a non-empty transition dict. */
  method Choose(d: Transitions) returns (t: string)
    requires |d| > 0
    ensures Chosen(d, t)
  {
    if Weighted(d) {
      Seqs.PositiveTerm(Weights(d));
      var i :| 0 <= i < |d| && d[i].1 > 0.0;
      t := d[i].0;
    } else {
      t := d[0].0;
    }
  }

  // ---------------------------------------------------------------------------
  // Windows and cleanup
  // ---------------------------------------------------------------------------

  function Pads(n: nat): (r: seq<string>)
    ensures |r| == n
    ensures forall i :: 0 <= i < n ==> r[i] == Pad
  {
    seq(n, i => Pad)
  }

  /** The starting window for a seed: right-padded with `<pad>` when short,
      otherwise the seed's last `depth` tokens. */
  function InitialWindow(seed: seq<string>, depth: int): (r: seq<string>)
    requires depth >= 1
    ensures |r| == depth
    ensures |seed| < depth ==> seed <= r && forall i :: |seed| <= i < depth ==> r[i] == Pad
    ensures |seed| >= depth ==> seed[..|seed| - depth] + r == seed
  {
    if |seed| < depth then seed + Pads(depth - |seed|)
    else
      assert seed[..|seed| - depth] + seed[|seed| - depth..] == seed;
      seed[|seed| - depth..]
  }

  /** `current_context[1:] + [next_token]`. */
  function Slide(w: seq<string>, t: string): (r: seq<string>)
    ensures |w| > 0 ==> |r| == |w| && [w[0]] + r == w + [t]
    ensures |w| == 0 ==> r == [t]
  {
    if |w| == 0 then [t] else w[1..] + [t]
  }

  /** Strips one leading SentencePiece marker. */
  function Clean(token: string): (r: string)
    ensures |token| > 0 && token[0] == Marker ==> [Marker] + r == token
    ensures !(|token| > 0 && token[0] == Marker) ==> r == token
  {
    if |token| > 0 && token[0] == Marker then token[1..] else token
  }

  /** Exactly one marker goes: a doubly marked token keeps its second one. */
  lemma CleanOnce(w: string)
    ensures Clean([Marker] + w) == w
    ensures Clean([Marker, Marker] + w) == [Marker] + w
  {
    assert ([Marker] + w)[1..] == w;
    assert ([Marker, Marker] + w)[1..] == [Marker] + w;
  }

  function CleanAll(tokens: seq<string>): (r: seq<string>)
    ensures |r| == |tokens|
    ensures forall i :: 0 <= i < |tokens| ==> r[i] == Clean(tokens[i])
  {
    seq(|tokens|, i requires 0 <= i < |tokens| => Clean(tokens[i]))
  }

  /** The generated text: cleaned tokens joined by single spaces. */
  function Render(tokens: seq<string>): string {
    Text.Join(CleanAll(tokens), " ")
  }

  /** When every cleaned token is a word, splitting the text on whitespace
      gives back exactly the cleaned tokens. */
  lemma RenderWords(tokens: seq<string>)
    requires forall i :: 0 <= i < |tokens| ==> Text.IsWord(Clean(tokens[i]))
    ensures Text.Words(Render(tokens)) == CleanAll(tokens)
  {
    Text.WordsOfJoin(CleanAll(tokens));
  }

  // ---------------------------------------------------------------------------
  // generate
  // ---------------------------------------------------------------------------

  predicate Live(c: Chain, w: seq<string>) {
    |GetTransitions(c.table, w)| > 0
  }

  ghost predicate IsRowContext(c: Chain, w: seq<string>) {
    exists j :: 0 <= j < |c.table| && c.table[j].context == w
  }

  /** The window a step draws from, given the window it starts with: that
      window when it has transitions, otherwise a resampled row context. */
  ghost predicate Recovered(c: Chain, start: seq<string>, w: seq<string>) {
    if Live(c, start) then w == start else IsRowContext(c, w)
  }

  /** One step of a walk: from window `start`, recovery settles on `w` and
      the sampler draws `t` from `w`'s transitions. */
  ghost predicate Step(c: Chain, start: seq<string>, w: seq<string>, t: string) {
    Recovered(c, start, w) && Chosen(GetTransitions(c.table, w), t)
  }

  /** The window step `i` starts from: the initial window, or the previous
      step's window slid over the previous token. */
  function StartOf(init: seq<string>, tokens: seq<string>, windows: seq<seq<string>>, i: nat): seq<string>
    requires |init| + |windows| == |tokens| && i <= |windows|
  {
    if i == 0 then init else Slide(windows[i - 1], tokens[|init| + i - 1])
  }

  /** The tokens after `init` were drawn one per step, from the windows
      recorded in `windows`. */
  ghost predicate Walk(c: Chain, init: seq<string>, tokens: seq<string>, windows: seq<seq<string>>)
    requires |init| + |windows| == |tokens|
  {
    forall i :: 0 <= i < |windows| ==>
      Step(c, StartOf(init, tokens, windows, i), windows[i], tokens[|init| + i])
  }

  /** Extending a walk by one draw. */
  lemma WalkSnoc(c: Chain, init: seq<string>, tokens: seq<string>, windows: seq<seq<string>>,
                 w: seq<string>, t: string)
    requires |init| + |windows| == |tokens|
    requires Walk(c, init, tokens, windows)
    requires Step(c, StartOf(init, tokens, windows, |windows|), w, t)
    ensures Walk(c, init, tokens + [t], windows + [w])
  {
    var tokens', windows' := tokens + [t], windows + [w];
    forall i | 0 <= i < |windows'|
      ensures Step(c, StartOf(init, tokens', windows', i), windows'[i], tokens'[|init| + i])
    {
      StartOfSnoc(init, tokens, windows, w, t, i);
      if i < |windows| {
        assert Step(c, StartOf(init, tokens, windows, i), windows[i], tokens[|init| + i]);
      }
    }
  }

  /** Appending a step leaves the earlier steps' windows and tokens alone. */
  lemma StartOfSnoc(init: seq<string>, tokens: seq<string>, windows: seq<seq<string>>,
                    w: seq<string>, t: string, i: nat)
    requires |init| + |windows| == |tokens| && i <= |windows|
    ensures StartOf(init, tokens + [t], windows + [w], i) == StartOf(init, tokens, windows, i)
    ensures (windows + [w])[i] == if i < |windows| then windows[i] else w
    ensures (tokens + [t])[|init| + i] == if i < |windows| then tokens[|init| + i] else t
  {
  }

  /** The dead-end recovery loop of `generate`: while the window has no
      transitions and fewer than 10 retries were made, replace it with a
      random row's context. A row's context always has a transition, so at
      most one retry ever happens, and the loop gives up only on an empty
      table. */
  method Recover(c: Chain, start: seq<string>) returns (window: seq<string>, d: Transitions, retries: nat)
    ensures d == GetTransitions(c.table, window)
    ensures retries <= 1
    ensures retries == 0 <==> Live(c, start) || |c.table| == 0
    ensures |d| > 0 ==> Recovered(c, start, window)
    ensures |d| == 0 <==> !Live(c, start) && |c.table| == 0
    ensures |d| == 0 ==> window == start
    ensures WellFormed(c) && |start| == c.depth ==> |window| == c.depth
  {
    window := start;
    d := GetTransitions(c.table, window);
    retries := 0;
    while |d| == 0 && retries < MaxRetries
      invariant d == GetTransitions(c.table, window)
      invariant retries <= 1
      invariant retries == 0 ==> window == start
      invariant retries > 0 ==> !Live(c, start) && IsRowContext(c, window) && |d| > 0
      invariant WellFormed(c) && |start| == c.depth ==> |window| == c.depth
    {
      if |c.table| > 0 {
        var j :| 0 <= j < |c.table|;
        window := c.table[j].context;
        d := GetTransitions(c.table, window);
        RowContextLive(c.table, j);
        retries := retries + 1;
      } else {
        break;
      }
    }
  }

  /** `t` is the next token of some row. */
  ghost predicate IsRowToken(c: Chain, t: string) {
    exists j :: 0 <= j < |c.table| && c.table[j].nextToken == t
  }

  lemma RowTokensSnoc(c: Chain, init: seq<string>, tokens: seq<string>, t: string)
    requires |init| <= |tokens|
    requires forall k :: |init| <= k < |tokens| ==> IsRowToken(c, tokens[k])
    requires IsRowToken(c, t)
    ensures forall k :: |init| <= k < |tokens| + 1 ==> IsRowToken(c, (tokens + [t])[k])
  {
    forall k | |init| <= k < |tokens| + 1
      ensures IsRowToken(c, (tokens + [t])[k])
    {
      if k < |tokens| {
        assert (tokens + [t])[k] == tokens[k];
      }
    }
  }

  /** Every window has `depth` tokens. */
  predicate HaveDepth(ws: seq<seq<string>>, depth: int) {
    forall k :: 0 <= k < |ws| ==> |ws[k]| == depth
  }

  /** Appending a window of the right depth keeps every window at that
      depth, and sliding keeps the depth. */
  lemma HaveDepthSnoc(ws: seq<seq<string>>, w: seq<string>, t: string, depth: int)
    requires HaveDepth(ws, depth) && |w| == depth && depth >= 1
    ensures HaveDepth(ws + [w], depth)
    ensures |Slide(w, t)| == depth
  {
    assert forall k :: 0 <= k < |ws| ==> (ws + [w])[k] == ws[k];
  }

  /** The next step starts from the last window slid over the last token. */
  lemma StartOfNext(init: seq<string>, tokens: seq<string>, windows: seq<seq<string>>,
                    w: seq<string>, t: string)
    requires |init| + |windows| == |tokens|
    ensures StartOf(init, tokens + [t], windows + [w], |windows| + 1) == Slide(w, t)
  {
    assert (windows + [w])[|windows|] == w;
    assert (tokens + [t])[|init| + |windows|] == t;
  }

  /** The `for i in range(length)` loop of `generate`, from window `init`:
      at most `steps` draws, exactly `steps` unless the table is empty. */
  method Walker(c: Chain, init: seq<string>, steps: nat)
      returns (tokens: seq<string>, ghost windows: seq<seq<string>>)
    requires Valid(c)
    ensures init <= tokens
    ensures |tokens| <= |init| + steps
    ensures |c.table| > 0 ==> |tokens| == |init| + steps
    ensures forall i :: |init| <= i < |tokens| ==> IsRowToken(c, tokens[i])
    ensures |init| + |windows| == |tokens|
    ensures Walk(c, init, tokens, windows)
    ensures WellFormed(c) && |init| == c.depth ==> HaveDepth(windows, c.depth)
  {
    windows := [];
    tokens := init;
    var window := init;
    var i := 0;
    while i < steps
      invariant 0 <= i <= steps
      invariant |tokens| == |init| + i && |windows| == i
      invariant init <= tokens
      invariant window == StartOf(init, tokens, windows, i)
      invariant Walk(c, init, tokens, windows)
      invariant forall k :: |init| <= k < |tokens| ==> IsRowToken(c, tokens[k])
      invariant WellFormed(c) && |init| == c.depth ==> |window| == c.depth && HaveDepth(windows, c.depth)
    {
      var w, d, _ := Recover(c, window);
      if |d| == 0 {
        break;
      }
      var t := Choose(d);
      GetTransitionsKeys(c.table, w, t);
      assert IsRowToken(c, t);
      assert Step(c, StartOf(init, tokens, windows, i), w, t);
      WalkSnoc(c, init, tokens, windows, w, t);
      RowTokensSnoc(c, init, tokens, t);
      if WellFormed(c) && |init| == c.depth {
        HaveDepthSnoc(windows, w, t, c.depth);
      }
      StartOfNext(init, tokens, windows, w, t);
      windows := windows + [w];
      tokens := tokens + [t];
      window := Slide(w, t);
      i := i + 1;
    }
  }

  /** `generate(length, seed)`. Returns the text together with the token
      list it renders and the starting window; the ghost `windows` records
      the window each token was drawn from. */
  method Generate(c: Chain, length: int, seed: Option<seq<string>>)
      returns (r: Result<string, Error>, tokens: seq<string>, init: seq<string>,
               ghost windows: seq<seq<string>>)
    requires Valid(c)
    ensures r.Failure? <==> seed.None? && |c.table| == 0
    ensures r.Failure? ==> r.error == EmptyTable
    ensures r.Success? ==> r.value == Render(tokens)
    ensures seed.Some? ==> init == InitialWindow(seed.value, c.depth)
    ensures seed.None? && r.Success? ==> IsRowContext(c, init)
    ensures init <= tokens
    ensures |tokens| <= |init| + Seqs.Max(0, length)
    ensures |c.table| > 0 ==> |tokens| == |init| + Seqs.Max(0, length)
    ensures forall i :: |init| <= i < |tokens| ==> IsRowToken(c, tokens[i])
    ensures |init| + |windows| == |tokens|
    ensures Walk(c, init, tokens, windows)
    ensures WellFormed(c) && |init| == c.depth ==> HaveDepth(windows, c.depth)
  {
    if seed.None? {
      if |c.table| == 0 {
        return Failure(EmptyTable), [], [], [];
      }
      var j :| 0 <= j < |c.table|;
      init := c.table[j].context;
    } else {
      init := InitialWindow(seed.value, c.depth);
    }
    tokens, windows := Walker(c, init, Seqs.Max(0, length));
    r := Success(Render(tokens));
  }

  /** Two rows continue "the dog" with "barks" (0.7) and "runs" (0.3): one
      step from that seed renders as one of the two sentences. */
  method GenerateExample() returns (s: string)
    ensures s == "the dog barks" || s == "the dog runs"
  {
    var c := ExampleChain();
    var r, tokens, init, windows := Generate(c, 1, Some(["the", "dog"]));
    ExampleSeedWindow();
    var t := tokens[2];
    assert tokens == ["the", "dog", t];
    ExampleRowTokens(c, t);
    ExampleRender(t);
    s := r.value;
  }

  /** Two rows continue "the dog" with "barks" (0.7) and "runs" (0.3). */
  function ExampleChain(): (c: Chain)
    ensures Valid(c) && |c.table| == 2
  {
    Chain(2, [Row(["the", "dog"], "barks", 0.7), Row(["the", "dog"], "runs", 0.3)], Metadata(None))
  }

  lemma ExampleSeedWindow()
    ensures InitialWindow(["the", "dog"], 2) == ["the", "dog"]
  {
  }

  lemma ExampleRowTokens(c: Chain, t: string)
    requires c == ExampleChain() && IsRowToken(c, t)
    ensures t == "barks" || t == "runs"
  {
  }

  /** Unmarked tokens render as themselves, separated by spaces. */
  lemma ExampleRender(t: string)
    requires t == "barks" || t == "runs"
    ensures Render(["the", "dog", t]) == "the dog barks" || Render(["the", "dog", t]) == "the dog runs"
  {
    var tokens := ["the", "dog", t];
    assert CleanAll(tokens) == tokens;
    assert Text.Join(tokens, " ") == "the" + " " + Text.Join(tokens[1..], " ");
    assert Text.Join(tokens[1..], " ") == "dog" + " " + Text.Join(tokens[2..], " ");
  }
}
