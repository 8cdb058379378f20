/** `top_sentences` of questions.py: score every sentence by the summed IDF of the query
    words it contains, take the first `n` of the stable descending ranking, and, when two
    of those `n` scores are equal, sort those same `n` sentences by query term density
    instead. */
module SentenceRanker {
  import opened Seqs
  import opened Corpus
  import opened Ranking

  /** The IDF-sum score of a sentence: each query word it contains counts once. */
  function SentenceScore(query: seq<string>, tokens: seq<string>, idfs: map<string, real>): (s: real)
    requires forall w :: w in query && w in tokens ==> w in idfs
  {
    if query == [] then 0.0
    else
      var word := query[|query| - 1];
      SentenceScore(query[..|query| - 1], tokens, idfs) + (if word in tokens then idfs[word] else 0.0)
  }

  /** With non-negative IDFs every sentence scores at least 0. */
  lemma {:induction false} SentenceScoreNonNegative(query: seq<string>, tokens: seq<string>, idfs: map<string, real>)
    requires forall w :: w in query && w in tokens ==> w in idfs
    requires forall w :: w in idfs ==> idfs[w] >= 0.0
    ensures SentenceScore(query, tokens, idfs) >= 0.0
    decreases |query|
  {
    if query != [] {
      assert forall w :: w in query[..|query| - 1] ==> w in query;
      SentenceScoreNonNegative(query[..|query| - 1], tokens, idfs);
    }
  }

  /** The score of every sentence, by position. */
  function SentenceScores(query: seq<string>, sentences: seq<Entry>, idfs: map<string, real>): (s: seq<real>)
    requires IdfsCover(idfs, query, sentences)
    ensures |s| == |sentences|
  {
    seq(|sentences|, k requires 0 <= k < |sentences| => SentenceScore(query, sentences[k].tokens, idfs))
  }

  /** `[word for word in tokens if word in query]`. */
  function Matches(query: seq<string>, tokens: seq<string>): (m: seq<string>)
    ensures |m| <= |tokens|
  {
    var m := Filter(tokens, w => w in query);
    FilterLength(tokens, w => w in query);
    m
  }

  /** Query term density: the share of a sentence's tokens, counted with repeats, that are query words. */
  function Density(query: seq<string>, tokens: seq<string>): (d: real)
    requires |tokens| > 0
  {
    |Matches(query, tokens)| as real / |tokens| as real
  }

  /** A density lies in [0, 1]; it is 1 exactly when every token is a query word and 0 exactly when none is. */
  lemma DensityRange(query: seq<string>, tokens: seq<string>)
    requires |tokens| > 0
    ensures 0.0 <= Density(query, tokens) <= 1.0
    ensures Density(query, tokens) == 1.0 <==> forall w :: w in tokens ==> w in query
    ensures Density(query, tokens) == 0.0 <==> forall w :: w in tokens ==> w !in query
  {
    MatchesAll(query, tokens);
    MatchesNone(query, tokens);
    FractionBounds(|Matches(query, tokens)| as real, |tokens| as real);
  }

  lemma {:induction false} MatchesAll(query: seq<string>, tokens: seq<string>)
    ensures |Matches(query, tokens)| == |tokens| <==> forall w :: w in tokens ==> w in query
  {
    if tokens != [] {
      var t := tokens[1..];
      MatchesAll(query, t);
      assert forall w :: w in tokens <==> w == tokens[0] || w in t;
      if tokens[0] in query {
        assert Matches(query, tokens) == [tokens[0]] + Matches(query, t);
      } else {
        assert Matches(query, tokens) == Matches(query, t);
      }
    }
  }

  lemma {:induction false} MatchesNone(query: seq<string>, tokens: seq<string>)
    ensures |Matches(query, tokens)| == 0 <==> forall w :: w in tokens ==> w !in query
  {
    if tokens != [] {
      var t := tokens[1..];
      MatchesNone(query, t);
      assert forall w :: w in tokens <==> w == tokens[0] || w in t;
      if tokens[0] in query {
        assert Matches(query, tokens) == [tokens[0]] + Matches(query, t);
      } else {
        assert Matches(query, tokens) == Matches(query, t);
      }
    }
  }

  /** What the caller guarantees: a sentence is only kept when its token list is non-empty. */
  predicate NonEmptyTokens(sentences: seq<Entry>) {
    forall k :: 0 <= k < |sentences| ==> |sentences[k].tokens| > 0
  }

  /** The scores at the given positions, in that order: the values of `temp_dict`. */
  function ScoresAt(scores: seq<real>, positions: seq<nat>): (v: seq<real>)
    requires forall k :: 0 <= k < |positions| ==> positions[k] < |scores|
    ensures |v| == |positions|
  {
    seq(|positions|, a requires 0 <= a < |positions| => scores[positions[a]])
  }

  /** The densities of the sentences at the given positions, in that order: the values of `qtd_dict`. */
  function DensitiesAt(query: seq<string>, sentences: seq<Entry>, positions: seq<nat>): (v: seq<real>)
    requires NonEmptyTokens(sentences)
    requires forall k :: 0 <= k < |positions| ==> positions[k] < |sentences|
    ensures |v| == |positions|
  {
    seq(|positions|, a requires 0 <= a < |positions| => Density(query, sentences[positions[a]].tokens))
  }

  /** `positions` rearranged by a ranking of its indices. */
  function Reorder(positions: seq<nat>, order: seq<nat>): (r: seq<nat>)
    requires forall p :: 0 <= p < |order| ==> order[p] < |positions|
    ensures |r| == |order|
  {
    seq(|order|, p requires 0 <= p < |order| => positions[order[p]])
  }

  /** The first `n` positions of the IDF-sum ranking. */
  function PrimaryTop(query: seq<string>, sentences: seq<Entry>, idfs: map<string, real>, n: int): (top: seq<nat>)
    requires IdfsCover(idfs, query, sentences)
    ensures RankedBy(SentenceScores(query, sentences, idfs), top)
  {
    Take(Ranked(SentenceScores(query, sentences, idfs)), n)
  }

  /** Two of the top scores are equal: the condition `len(values) != len(set(values))`. */
  predicate HasTie(query: seq<string>, sentences: seq<Entry>, idfs: map<string, real>, n: int)
    requires IdfsCover(idfs, query, sentences)
  {
    !NoDuplicates(ScoresAt(SentenceScores(query, sentences, idfs), PrimaryTop(query, sentences, idfs, n)))
  }

  /** The positions of the sentences top_sentences returns. */
  function TopSentencePositions(query: seq<string>, sentences: seq<Entry>, idfs: map<string, real>, n: int): (p: seq<nat>)
    requires IdfsCover(idfs, query, sentences) && NonEmptyTokens(sentences)
    ensures forall k :: 0 <= k < |p| ==> p[k] < |sentences|
  {
    var top := PrimaryTop(query, sentences, idfs, n);
    if !HasTie(query, sentences, idfs, n) then top
    else Take(Reorder(top, Ranked(DensitiesAt(query, sentences, top))), n)
  }

  /** The scoring loop of top_sentences: `new_dict` maps every sentence, and nothing else, to its score. */
  method ScoreSentences(query: seq<string>, sentences: seq<Entry>, idfs: map<string, real>)
    returns (newDict: map<string, real>)
    requires UniqueKeys(sentences) && IdfsCover(idfs, query, sentences)
    ensures newDict.Keys == set k | 0 <= k < |sentences| :: sentences[k].key
    ensures forall k :: 0 <= k < |sentences| ==> newDict[sentences[k].key] == SentenceScore(query, sentences[k].tokens, idfs)
  {
    newDict := map[];
    var i := 0;
    while i < |sentences|
      invariant 0 <= i <= |sentences|
      invariant newDict.Keys == set k | 0 <= k < i :: sentences[k].key
      invariant forall k :: 0 <= k < i ==> newDict[sentences[k].key] == SentenceScore(query, sentences[k].tokens, idfs)
    {
      newDict := ScoreSentence(query, sentences[i], idfs, newDict);
      PrefixKeys(sentences, i);
      i := i + 1;
    }
  }

  /** One pass of the scoring loop: `new_dict[sentence]` starts at 0 and every query word found
      in the sentence adds its IDF; only that key changes. */
  method ScoreSentence(query: seq<string>, sentence: Entry, idfs: map<string, real>, dict: map<string, real>)
    returns (updated: map<string, real>)
    requires forall w :: w in query && w in sentence.tokens ==> w in idfs
    ensures updated == dict[sentence.key := SentenceScore(query, sentence.tokens, idfs)]
  {
    updated := dict[sentence.key := 0.0];
    var j := 0;
    while j < |query|
      invariant 0 <= j <= |query|
      invariant updated == dict[sentence.key := SentenceScore(query[..j], sentence.tokens, idfs)]
    {
      var word := query[j];
      assert forall w :: w in query[..j + 1] ==> w in query;
      assert query[..j + 1][..j] == query[..j];
      if word in sentence.tokens {
        var idf := idfs[word];
        updated := updated[sentence.key := updated[sentence.key] + idf];
      }
      j := j + 1;
    }
    assert query[..j] == query;
  }

  /** The loop that fills `temp_dict`: each of the given keys mapped to its score in `newDict`. */
  method CopyScores(keys: seq<string>, newDict: map<string, real>) returns (tempDict: map<string, real>)
    requires forall b :: 0 <= b < |keys| ==> keys[b] in newDict
    requires NoDuplicates(keys)
    ensures tempDict.Keys == set b | 0 <= b < |keys| :: keys[b]
    ensures forall b :: 0 <= b < |keys| ==> tempDict[keys[b]] == newDict[keys[b]]
  {
    tempDict := map[];
    var a := 0;
    while a < |keys|
      invariant 0 <= a <= |keys|
      invariant tempDict.Keys == set b | 0 <= b < a :: keys[b]
      invariant forall b :: 0 <= b < a ==> tempDict[keys[b]] == newDict[keys[b]]
    {
      tempDict := tempDict[keys[a] := newDict[keys[a]]];
      assert (set b | 0 <= b < a :: keys[b]) + {keys[a]} == set b | 0 <= b < a + 1 :: keys[b];
      a := a + 1;
    }
  }

  /** The loop that fills `qtd_dict`: for each key of `temp_dict`, looked up in `sentences`, the share of
      its tokens that are query words; the table holds those keys and no others. */
  method DensityTable(query: seq<string>, chosen: seq<Entry>) returns (qtdDict: map<string, real>)
    requires NonEmptyTokens(chosen) && UniqueKeys(chosen)
    ensures qtdDict.Keys == set b | 0 <= b < |chosen| :: chosen[b].key
    ensures forall b :: 0 <= b < |chosen| ==> qtdDict[chosen[b].key] == Density(query, chosen[b].tokens)
  {
    qtdDict := map[];
    var a := 0;
    while a < |chosen|
      invariant 0 <= a <= |chosen|
      invariant qtdDict.Keys == set b | 0 <= b < a :: chosen[b].key
      invariant forall b :: 0 <= b < a ==> qtdDict[chosen[b].key] == Density(query, chosen[b].tokens)
    {
      qtdDict := StoreDensity(query, chosen[a], qtdDict);
      PrefixKeys(chosen, a);
      a := a + 1;
    }
  }

  /** One pass of the loop that fills `qtd_dict`: the sentence's density stored under its key. */
  method StoreDensity(query: seq<string>, sentence: Entry, qtdDict: map<string, real>) returns (updated: map<string, real>)
    requires |sentence.tokens| > 0
    ensures updated == qtdDict[sentence.key := Density(query, sentence.tokens)]
  {
    var intersection := Matches(query, sentence.tokens);
    var queryDensity := |intersection| as real / |sentence.tokens| as real;
    updated := qtdDict[sentence.key := queryDensity];
  }

  /** The tie branch of top_sentences: fill `qtd_dict` from the keys of `temp_dict`, sort those keys
      by density and keep the first `n`. */
  method ByDensity(query: seq<string>, sentences: seq<Entry>, top: seq<nat>, topKeys: seq<string>, n: int)
    returns (result: seq<string>)
    requires NonEmptyTokens(sentences) && UniqueKeys(sentences) && NoDuplicates(top)
    requires forall b :: 0 <= b < |top| ==> top[b] < |sentences|
    requires topKeys == KeysAt(sentences, top)
    ensures result == KeysAt(sentences, Take(Reorder(top, Ranked(DensitiesAt(query, sentences, top))), n))
  {
    var chosen := EntriesAt(sentences, top);
    EntriesAtUnique(sentences, top);
    var qtdDict := DensityTable(query, chosen);
    var densities := seq(|topKeys|, b requires 0 <= b < |topKeys| => qtdDict[topKeys[b]]);
    assert densities == DensitiesAt(query, sentences, top);
    var order := Ranked(densities);
    var byDensity := seq(|order|, p requires 0 <= p < |order| => topKeys[order[p]]);
    assert byDensity == KeysAt(sentences, Reorder(top, order));
    result := Take(byDensity, n);
    TakeKeysAt(sentences, Reorder(top, order), n);
  }

  /** The scoring loop and the first ranking: the top `n` positions and their keys. */
  method RankByScore(query: seq<string>, sentences: seq<Entry>, idfs: map<string, real>, n: int)
    returns (newDict: map<string, real>, top: seq<nat>, topKeys: seq<string>)
    requires UniqueKeys(sentences) && IdfsCover(idfs, query, sentences)
    ensures top == PrimaryTop(query, sentences, idfs, n)
    ensures topKeys == KeysAt(sentences, top)
    ensures NoDuplicates(top) && NoDuplicates(topKeys)
    ensures forall b :: 0 <= b < |top| ==> top[b] < |sentences|
    ensures newDict.Keys == set k | 0 <= k < |sentences| :: sentences[k].key
    ensures forall b :: 0 <= b < |topKeys| ==> topKeys[b] in newDict
    ensures forall b :: 0 <= b < |top| ==> newDict[topKeys[b]] == SentenceScores(query, sentences, idfs)[top[b]]
  {
    newDict := ScoreSentences(query, sentences, idfs);
    var scores := seq(|sentences|, k requires 0 <= k < |sentences| => newDict[sentences[k].key]);
    assert scores == SentenceScores(query, sentences, idfs);
    var primary := Ranked(scores);
    var rankedSentences := KeysAt(sentences, primary);
    top := Take(primary, n);
    topKeys := Take(rankedSentences, n);
    TakeKeysAt(sentences, primary, n);
    RankedDistinct(scores, top);
    KeysAtDistinct(sentences, top);
  }

  /** top_sentences: score, rank, copy the top `n` into `temp_dict`; without a repeated score return
      them, otherwise sort the keys of `temp_dict` by density and return the first `n`. */
  method TopSentences(query: seq<string>, sentences: seq<Entry>, idfs: map<string, real>, n: int)
    returns (result: seq<string>)
    requires UniqueKeys(sentences) && IdfsCover(idfs, query, sentences) && NonEmptyTokens(sentences)
    ensures result == KeysAt(sentences, TopSentencePositions(query, sentences, idfs, n))
  {
    var newDict, top, topKeys := RankByScore(query, sentences, idfs, n);
    var tempDict := CopyScores(topKeys, newDict);
    var tempValues := seq(|topKeys|, b requires 0 <= b < |topKeys| => tempDict[topKeys[b]]);
    assert tempValues == ScoresAt(SentenceScores(query, sentences, idfs), top);
    NoDuplicatesIffSetSize(tempValues);
    if |tempValues| == |Elements(tempValues)| {
      result := topKeys;
    } else {
      result := ByDensity(query, sentences, top, topKeys, n);
    }
  }

  /** top_sentences returns min(n, |sentences|) distinct positions of `sentences`, each named by its own key. */
  lemma TopSentencesShape(query: seq<string>, sentences: seq<Entry>, idfs: map<string, real>, n: int)
    requires UniqueKeys(sentences) && IdfsCover(idfs, query, sentences) && NonEmptyTokens(sentences)
    ensures var p := TopSentencePositions(query, sentences, idfs, n);
      && (forall k :: 0 <= k < |p| ==> p[k] < |sentences|)
      && (n >= 0 ==> |p| == Min(n, |sentences|))
      && NoDuplicates(p)
      && NoDuplicates(KeysAt(sentences, p))
  {
    var top := PrimaryTop(query, sentences, idfs, n);
    RankedDistinct(SentenceScores(query, sentences, idfs), top);
    var p := TopSentencePositions(query, sentences, idfs, n);
    if HasTie(query, sentences, idfs, n) {
      var densities := DensitiesAt(query, sentences, top);
      var order := Ranked(densities);
      RankedDistinct(densities, order);
      var re := Reorder(top, order);
      assert NoDuplicates(re) by {
        forall a, b | 0 <= a < b < |re| ensures re[a] != re[b] {
          assert order[a] != order[b];
        }
      }
      assert forall k :: 0 <= k < |p| ==> p[k] == re[k];
    }
    KeysAtDistinct(sentences, p);
  }

  /** With pairwise distinct top scores the primary ranking is returned unchanged, in strictly decreasing score order. */
  lemma NoTieKeepsRanking(query: seq<string>, sentences: seq<Entry>, idfs: map<string, real>, n: int)
    requires IdfsCover(idfs, query, sentences) && NonEmptyTokens(sentences)
    requires !HasTie(query, sentences, idfs, n)
    ensures TopSentencePositions(query, sentences, idfs, n) == PrimaryTop(query, sentences, idfs, n)
    ensures var p, s := TopSentencePositions(query, sentences, idfs, n), SentenceScores(query, sentences, idfs);
      forall a, b :: 0 <= a < b < |p| ==> s[p[a]] > s[p[b]]
  {
    var s := SentenceScores(query, sentences, idfs);
    var top := PrimaryTop(query, sentences, idfs, n);
    var v := ScoresAt(s, top);
    forall a, b | 0 <= a < b < |top| ensures s[top[a]] > s[top[b]] {
      assert v[a] == s[top[a]] && v[b] == s[top[b]];
      assert Ahead(s, top[a], top[b]);
    }
  }

  /** Rearranging a ranking by a second ranking of its indices: the same positions, now ordered by
      the second key, and by the first among equal second keys. */
  lemma ReorderRanked(s: seq<real>, top: seq<nat>, d: seq<real>, order: seq<nat>)
    requires RankedBy(s, top) && |d| == |top|
    requires |order| == |top| && (forall x :: x in order <==> 0 <= x < |top|) && RankedBy(d, order)
    ensures var re := Reorder(top, order);
      && (forall x :: x in re <==> x in top)
      && (forall a, b :: 0 <= a < b < |re| ==>
           d[order[a]] > d[order[b]] || (d[order[a]] == d[order[b]] && Ahead(s, re[a], re[b])))
  {
    var re := Reorder(top, order);
    forall x ensures x in re <==> x in top {
      if x in top {
        var c :| 0 <= c < |top| && top[c] == x;
        assert c in order;
        var a :| 0 <= a < |order| && order[a] == c;
        assert re[a] == x;
      }
    }
    forall a, b | 0 <= a < b < |re|
      ensures d[order[a]] > d[order[b]] || (d[order[a]] == d[order[b]] && Ahead(s, re[a], re[b]))
    {
      assert Ahead(d, order[a], order[b]);
      if d[order[a]] == d[order[b]] {
        assert Ahead(s, top[order[a]], top[order[b]]);
      }
    }
  }

  /** On a tie and with `n` at least 0, the final `[:n]` keeps all of the reordered top `n`. */
  lemma TiePositions(query: seq<string>, sentences: seq<Entry>, idfs: map<string, real>, n: int)
    requires IdfsCover(idfs, query, sentences) && NonEmptyTokens(sentences)
    requires HasTie(query, sentences, idfs, n) && n >= 0
    ensures var top := PrimaryTop(query, sentences, idfs, n);
      TopSentencePositions(query, sentences, idfs, n) == Reorder(top, Ranked(DensitiesAt(query, sentences, top)))
  {
  }

  /** On a tie the result holds the same sentences as the primary top `n`, now by non-increasing
      density; sentences of equal density keep their order in the primary ranking. */
  lemma TieReorders(query: seq<string>, sentences: seq<Entry>, idfs: map<string, real>, n: int)
    requires IdfsCover(idfs, query, sentences) && NonEmptyTokens(sentences)
    requires HasTie(query, sentences, idfs, n) && n >= 0
    ensures var p, top := TopSentencePositions(query, sentences, idfs, n), PrimaryTop(query, sentences, idfs, n);
      |p| == |top| && (forall x :: x in p <==> x in top) && (forall k :: 0 <= k < |p| ==> p[k] < |sentences|)
    ensures var p, s := TopSentencePositions(query, sentences, idfs, n), SentenceScores(query, sentences, idfs);
      forall a, b :: 0 <= a < b < |p| ==>
        Density(query, sentences[p[a]].tokens) > Density(query, sentences[p[b]].tokens)
        || (Density(query, sentences[p[a]].tokens) == Density(query, sentences[p[b]].tokens) && Ahead(s, p[a], p[b]))
  {
    var s := SentenceScores(query, sentences, idfs);
    var top := PrimaryTop(query, sentences, idfs, n);
    var densities := DensitiesAt(query, sentences, top);
    var order := Ranked(densities);
    TiePositions(query, sentences, idfs, n);
    var p := Reorder(top, order);
    ReorderRanked(s, top, densities, order);
    forall a | 0 <= a < |p| ensures densities[order[a]] == Density(query, sentences[p[a]].tokens) {
      assert p[a] == top[order[a]];
    }
  }

  /** In either branch the sentences returned are the top scorers: none left out scores more than one returned. */
  lemma TopSentencesAreTop(query: seq<string>, sentences: seq<Entry>, idfs: map<string, real>, n: int, k: nat)
    requires IdfsCover(idfs, query, sentences) && NonEmptyTokens(sentences) && n >= 0
    requires k < |sentences| && k !in TopSentencePositions(query, sentences, idfs, n)
    ensures var p, s := TopSentencePositions(query, sentences, idfs, n), SentenceScores(query, sentences, idfs);
      forall x :: x in p ==> x < |s| && s[x] >= s[k]
  {
    var s := SentenceScores(query, sentences, idfs);
    var top := PrimaryTop(query, sentences, idfs, n);
    if HasTie(query, sentences, idfs, n) {
      TieReorders(query, sentences, idfs, n);
    }
    assert k !in top;
    TakeIsTop(s, n, k);
    forall x | x in top ensures s[x] >= s[k] {
      var a :| 0 <= a < |top| && top[a] == x;
      assert Ahead(s, top[a], k);
    }
  }

  /** The density re-sort applies to all of the top `n`, not only to the tied ones: with scores 9, 5, 5
      and densities 1/4, 1, 1/2, the clear leader by score ends up last: s1, s2, s3 become s2, s3, s1. */
  lemma TieDemotesLeader(query: seq<string>, sentences: seq<Entry>, idfs: map<string, real>)
    requires query == ["a", "b"] && idfs == map["a" := 9.0, "b" := 5.0]
    requires sentences == [Entry("s1", ["a", "x", "x", "x"]), Entry("s2", ["b"]), Entry("s3", ["b", "y"])]
    ensures IdfsCover(idfs, query, sentences) && NonEmptyTokens(sentences)
    ensures PrimaryTop(query, sentences, idfs, 3) == [0, 1, 2]
    ensures HasTie(query, sentences, idfs, 3)
    ensures TopSentencePositions(query, sentences, idfs, 3) == [1, 2, 0]
  {
    ExampleScores(query, sentences, idfs);
    ExamplePrimary(query, sentences, idfs);
    ExampleDensities(query, sentences);
    ExampleFinal(query, sentences, idfs);
  }

  lemma ExamplePrimary(query: seq<string>, sentences: seq<Entry>, idfs: map<string, real>)
    requires IdfsCover(idfs, query, sentences) && SentenceScores(query, sentences, idfs) == [9.0, 5.0, 5.0]
    ensures PrimaryTop(query, sentences, idfs, 3) == [0, 1, 2]
    ensures HasTie(query, sentences, idfs, 3)
  {
    var scores := SentenceScores(query, sentences, idfs);
    RankingUnique(scores, Ranked(scores), [0, 1, 2]);
    var top := PrimaryTop(query, sentences, idfs, 3);
    assert ScoresAt(scores, top)[1] == ScoresAt(scores, top)[2];
  }

  lemma ExampleFinal(query: seq<string>, sentences: seq<Entry>, idfs: map<string, real>)
    requires IdfsCover(idfs, query, sentences) && NonEmptyTokens(sentences)
    requires PrimaryTop(query, sentences, idfs, 3) == [0, 1, 2] && HasTie(query, sentences, idfs, 3)
    requires DensitiesAt(query, sentences, [0, 1, 2]) == [0.25, 1.0, 0.5]
    ensures TopSentencePositions(query, sentences, idfs, 3) == [1, 2, 0]
  {
    ExampleDensitiesRanked(DensitiesAt(query, sentences, [0, 1, 2]));
    TiePositions(query, sentences, idfs, 3);
    assert Reorder([0, 1, 2], [1, 2, 0]) == [1, 2, 0];
  }

  lemma ExampleDensitiesRanked(densities: seq<real>)
    requires densities == [0.25, 1.0, 0.5]
    ensures Ranked(densities) == [1, 2, 0]
  {
    RankingUnique(densities, Ranked(densities), [1, 2, 0]);
  }

  lemma ExampleScores(query: seq<string>, sentences: seq<Entry>, idfs: map<string, real>)
    requires query == ["a", "b"] && idfs == map["a" := 9.0, "b" := 5.0]
    requires sentences == [Entry("s1", ["a", "x", "x", "x"]), Entry("s2", ["b"]), Entry("s3", ["b", "y"])]
    ensures IdfsCover(idfs, query, sentences)
    ensures SentenceScores(query, sentences, idfs) == [9.0, 5.0, 5.0]
  {
    assert query[..1] == ["a"] && ["a"][..0] == [];
    assert "b" !in ["a", "x", "x", "x"];
    assert "a" !in ["b"] && "a" !in ["b", "y"];
    forall t | t in [sentences[0].tokens, sentences[1].tokens, sentences[2].tokens]
      ensures SentenceScore(["a"], t, idfs) == if "a" in t then 9.0 else 0.0
    {
      assert SentenceScore([], t, idfs) == 0.0;
    }
    assert SentenceScore(query, sentences[0].tokens, idfs) == 9.0;
    assert SentenceScore(query, sentences[1].tokens, idfs) == 5.0;
    assert SentenceScore(query, sentences[2].tokens, idfs) == 5.0;
  }

  lemma ExampleDensities(query: seq<string>, sentences: seq<Entry>)
    requires query == ["a", "b"]
    requires sentences == [Entry("s1", ["a", "x", "x", "x"]), Entry("s2", ["b"]), Entry("s3", ["b", "y"])]
    ensures NonEmptyTokens(sentences)
    ensures DensitiesAt(query, sentences, [0, 1, 2]) == [0.25, 1.0, 0.5]
  {
    ExampleMatches(query);
  }

  lemma ExampleMatches(query: seq<string>)
    requires query == ["a", "b"]
    ensures Matches(query, ["a", "x", "x", "x"]) == ["a"]
    ensures Matches(query, ["b"]) == ["b"]
    ensures Matches(query, ["b", "y"]) == ["b"]
  {
    assert ["a", "x", "x", "x"][1..] == ["x", "x", "x"] && ["x", "x", "x"][1..] == ["x", "x"] && ["x", "x"][1..] == ["x"];
    assert ["b", "y"][1..] == ["y"];
  }
}
