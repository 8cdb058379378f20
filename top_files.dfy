/** `top_files` of questions.py: score every file by summed tf-idf over the query
    words it contains, rank the files by score with a stable descending sort and keep
    the first `n`. The query set is given as the sequence its iteration visits. */
module FileRanker {
  import opened Seqs
  import opened Corpus
  import opened Ranking
  import opened IdfIndex
  import opened Tokenizer
  import opened Text

  /** The tf-idf score of a token list: for each query word it contains, its count times its IDF. */
  function FileScore(query: seq<string>, tokens: seq<string>, idfs: map<string, real>): (s: real)
    requires forall w :: w in query && w in tokens ==> w in idfs
  {
    if query == [] then 0.0
    else
      var word := query[|query| - 1];
      FileScore(query[..|query| - 1], tokens, idfs) + TfIdf(word, tokens, idfs)
  }

  /** What one query word adds to a file's score: its count in the file times its IDF, or 0 when absent. */
  function TfIdf(word: string, tokens: seq<string>, idfs: map<string, real>): (s: real)
    requires word in tokens ==> word in idfs
    ensures word !in tokens ==> s == 0.0
  {
    if word in tokens then Weight(Count(tokens, word), idfs[word]) else 0.0
  }

  /** `tf * idf`. */
  function Weight(tf: nat, idf: real): (w: real) {
    tf as real * idf
  }

  /** With non-negative IDFs every file scores at least 0. */
  lemma {:induction false} FileScoreNonNegative(query: seq<string>, tokens: seq<string>, idfs: map<string, real>)
    requires forall w :: w in query && w in tokens ==> w in idfs
    requires forall w :: w in idfs ==> idfs[w] >= 0.0
    ensures FileScore(query, tokens, idfs) >= 0.0
    decreases |query|
  {
    if query != [] {
      var word := query[|query| - 1];
      assert forall w :: w in query[..|query| - 1] ==> w in query;
      FileScoreNonNegative(query[..|query| - 1], tokens, idfs);
      if word in tokens {
        ProductNonNegative(Count(tokens, word) as real, idfs[word]);
        assert Weight(Count(tokens, word), idfs[word]) >= 0.0;
      }
    }
  }

  lemma ProductNonNegative(a: real, b: real)
    requires a >= 0.0 && b >= 0.0
    ensures a * b >= 0.0
  {
  }

  /** The last query word's share of a file's score. */
  lemma FileScoreLast(query: seq<string>, tokens: seq<string>, idfs: map<string, real>)
    requires query != [] && forall w :: w in query && w in tokens ==> w in idfs
    ensures FileScore(query, tokens, idfs) == FileScore(query[..|query| - 1], tokens, idfs) + TfIdf(query[|query| - 1], tokens, idfs)
  {
  }

  /** Extending the scanned prefix of the query by one word adds that word's share. */
  lemma FileScoreStep(query: seq<string>, j: nat, tokens: seq<string>, idfs: map<string, real>)
    requires j < |query| && forall w :: w in query && w in tokens ==> w in idfs
    ensures FileScore(query[..j + 1], tokens, idfs) == FileScore(query[..j], tokens, idfs) + TfIdf(query[j], tokens, idfs)
  {
    assert forall w :: w in query[..j + 1] ==> w in query;
    assert query[..j + 1][..j] == query[..j];
    FileScoreLast(query[..j + 1], tokens, idfs);
  }

  /** The score of every file, by position. */
  function FileScores(query: seq<string>, files: seq<Entry>, idfs: map<string, real>): (s: seq<real>)
    requires IdfsCover(idfs, query, files)
    ensures |s| == |files|
  {
    seq(|files|, k requires 0 <= k < |files| => FileScore(query, files[k].tokens, idfs))
  }

  /** The positions of the files top_files returns. */
  function TopFilePositions(query: seq<string>, files: seq<Entry>, idfs: map<string, real>, n: int): (p: seq<nat>)
    requires IdfsCover(idfs, query, files)
  {
    Take(Ranked(FileScores(query, files, idfs)), n)
  }

  /** top_files: the loop fills `new_dict` with each file's score, then the keys are sorted. */
  method TopFiles(query: seq<string>, files: seq<Entry>, idfs: map<string, real>, n: int)
    returns (ranked: seq<string>)
    requires UniqueKeys(files) && IdfsCover(idfs, query, files)
    ensures ranked == KeysAt(files, TopFilePositions(query, files, idfs, n))
  {
    var newDict: map<string, real> := map[];
    var i := 0;
    while i < |files|
      invariant 0 <= i <= |files|
      invariant forall k :: 0 <= k < i ==> files[k].key in newDict
      invariant forall k :: 0 <= k < i ==> newDict[files[k].key] == FileScore(query, files[k].tokens, idfs)
    {
      newDict := ScoreFile(query, files[i], idfs, newDict);
      i := i + 1;
    }
    var scores := seq(|files|, k requires 0 <= k < |files| => newDict[files[k].key]);
    assert scores == FileScores(query, files, idfs);
    var rankedFiles := KeysAt(files, Ranked(scores));
    ranked := Take(rankedFiles, n);
    TakeKeysAt(files, Ranked(scores), n);
  }

  /** One pass of the outer loop of top_files: `new_dict[file]` starts at 0 and every query
      word found in the file adds its count times its IDF; only that key changes. */
  method ScoreFile(query: seq<string>, file: Entry, idfs: map<string, real>, dict: map<string, real>)
    returns (updated: map<string, real>)
    requires forall w :: w in query && w in file.tokens ==> w in idfs
    ensures updated == dict[file.key := FileScore(query, file.tokens, idfs)]
  {
    updated := dict[file.key := 0.0];
    var j := 0;
    while j < |query|
      invariant 0 <= j <= |query|
      invariant updated == dict[file.key := FileScore(query[..j], file.tokens, idfs)]
    {
      var word := query[j];
      FileScoreStep(query, j, file.tokens, idfs);
      if word in file.tokens {
        var tf := Count(file.tokens, word);
        var idf := idfs[word];
        var tfIdf := Weight(tf, idf);
        updated := updated[file.key := updated[file.key] + tfIdf];
      }
      j := j + 1;
    }
    assert query[..j] == query;
  }

  /** top_files returns min(n, |files|) distinct file names, each a key of `files`. */
  lemma TopFilesShape(query: seq<string>, files: seq<Entry>, idfs: map<string, real>, n: int)
    requires UniqueKeys(files) && IdfsCover(idfs, query, files)
    ensures var r := KeysAt(files, TopFilePositions(query, files, idfs, n));
      && (n >= 0 ==> |r| == Min(n, |files|))
      && NoDuplicates(r)
      && forall name :: name in r ==> exists k :: 0 <= k < |files| && files[k].key == name
  {
    var scores := FileScores(query, files, idfs);
    var p := TopFilePositions(query, files, idfs, n);
    RankedDistinct(scores, Ranked(scores));
    KeysAtDistinct(files, p);
  }

  /** The result is ordered by non-increasing score, and files with equal scores keep their dictionary order. */
  lemma TopFilesOrdered(query: seq<string>, files: seq<Entry>, idfs: map<string, real>, n: int)
    requires IdfsCover(idfs, query, files)
    ensures var p, s := TopFilePositions(query, files, idfs, n), FileScores(query, files, idfs);
      forall a, b :: 0 <= a < b < |p| ==> s[p[a]] > s[p[b]] || (s[p[a]] == s[p[b]] && p[a] < p[b])
  {
  }

  /** No file left out scores more than a file returned. */
  lemma TopFilesAreTop(query: seq<string>, files: seq<Entry>, idfs: map<string, real>, n: int, k: nat)
    requires IdfsCover(idfs, query, files)
    requires k < |files| && k !in TopFilePositions(query, files, idfs, n)
    ensures var p, s := TopFilePositions(query, files, idfs, n), FileScores(query, files, idfs);
      forall a :: 0 <= a < |p| ==> s[p[a]] >= s[k]
  {
    TakeIsTop(FileScores(query, files, idfs), n, k);
  }

  /** The score of a concatenated query is the sum of the scores of its parts. */
  lemma {:induction false} FileScoreAppend(a: seq<string>, b: seq<string>, tokens: seq<string>, idfs: map<string, real>)
    requires forall w :: w in a + b && w in tokens ==> w in idfs
    ensures FileScore(a + b, tokens, idfs) == FileScore(a, tokens, idfs) + FileScore(b, tokens, idfs)
    decreases |b|
  {
    if b != [] {
      var b', word := b[..|b| - 1], b[|b| - 1];
      assert b == b' + [word];
      assert a + b == (a + b') + [word];
      assert forall w :: w in a + b' ==> w in a + b;
      assert forall w :: w in b' ==> w in b;
      FileScoreAppend(a, b', tokens, idfs);
      FileScoreLast(a + b, tokens, idfs);
      FileScoreLast(b, tokens, idfs);
      assert (a + b)[..|a + b| - 1] == a + b';
    } else {
      assert a + b == a;
    }
  }

  /** A query word found in no file adds nothing to any score and leaves the ranking unchanged,
      wherever it stands in the query and whether or not it has an IDF. */
  lemma UnseenQueryWord(query: seq<string>, at: nat, w: string, files: seq<Entry>, idfs: map<string, real>, n: int)
    requires at <= |query| && IdfsCover(idfs, query, files)
    requires forall k :: 0 <= k < |files| ==> w !in files[k].tokens
    ensures IdfsCover(idfs, query[..at] + [w] + query[at..], files)
    ensures FileScores(query[..at] + [w] + query[at..], files, idfs) == FileScores(query, files, idfs)
    ensures TopFilePositions(query[..at] + [w] + query[at..], files, idfs, n) == TopFilePositions(query, files, idfs, n)
  {
    var extended := query[..at] + [w] + query[at..];
    assert forall x :: x in extended ==> x == w || x in query by {
      assert query == query[..at] + query[at..];
    }
    assert IdfsCover(idfs, extended, files);
    forall k | 0 <= k < |files|
      ensures FileScore(extended, files[k].tokens, idfs) == FileScore(query, files[k].tokens, idfs)
    {
      var t := files[k].tokens;
      FileScoreAppend(query[..at] + [w], query[at..], t, idfs);
      FileScoreAppend(query[..at], [w], t, idfs);
      FileScoreAppend(query[..at], query[at..], t, idfs);
      assert FileScore([w], t, idfs) == 0.0 by {
        assert [w][..0] == [];
      }
      assert query[..at] + query[at..] == query;
    }
  }

  /** Two documents whose token lists are those of "The cat sat." and "The cat sat on the mat.",
      and the query {cat, mat}: "mat" occurs only in the second, so it is the single best file. */
  lemma CatAndMatExample(ln: real -> real)
    requires IsLog(ln)
    ensures var files := [Entry("doc1", ["cat", "sat"]), Entry("doc2", ["cat", "sat", "mat"])];
      var idfs := IdfTable(files, ln);
      IdfsCover(idfs, ["cat", "mat"], files) && KeysAt(files, TopFilePositions(["cat", "mat"], files, idfs, 1)) == ["doc2"]
  {
    var files := [Entry("doc1", ["cat", "sat"]), Entry("doc2", ["cat", "sat", "mat"])];
    var idfs := IdfTable(files, ln);
    CatAndMatIdfs(files, ln);
    CatAndMatScores(files, idfs);
    TwoScoresRanked(FileScores(["cat", "mat"], files, idfs));
  }

  /** Two scores, the second strictly larger: the ranking puts the second first. */
  lemma TwoScoresRanked(scores: seq<real>)
    requires |scores| == 2 && scores[0] < scores[1]
    ensures Ranked(scores) == [1, 0]
  {
    RankingUnique(scores, Ranked(scores), [1, 0]);
  }

  lemma CatAndMatIdfs(files: seq<Entry>, ln: real -> real)
    requires IsLog(ln)
    requires files == [Entry("doc1", ["cat", "sat"]), Entry("doc2", ["cat", "sat", "mat"])]
    ensures "cat" in IdfTable(files, ln) && IdfTable(files, ln)["cat"] == 0.0
    ensures "mat" in IdfTable(files, ln) && IdfTable(files, ln)["mat"] > 0.0
  {
    assert files[..1] == [Entry("doc1", ["cat", "sat"])];
    assert DocFreq(files, "cat") == 2;
    assert DocFreq(files, "mat") == 1;
    assert ln(1.0) < ln(2.0);
  }

  lemma CatAndMatScores(files: seq<Entry>, idfs: map<string, real>)
    requires files == [Entry("doc1", ["cat", "sat"]), Entry("doc2", ["cat", "sat", "mat"])]
    requires "cat" in idfs && idfs["cat"] == 0.0 && "mat" in idfs && idfs["mat"] > 0.0
    ensures IdfsCover(idfs, ["cat", "mat"], files)
    ensures FileScores(["cat", "mat"], files, idfs) == [0.0, idfs["mat"]]
  {
    assert ["cat", "mat"][..1] == ["cat"] && ["cat"][..0] == [];
    assert Count(["cat", "sat", "mat"], "mat") == 1;
    assert "mat" !in ["cat", "sat"];
    assert FileScore(["cat"], ["cat", "sat"], idfs) == 0.0;
    assert FileScore(["cat"], ["cat", "sat", "mat"], idfs) == 0.0;
  }
}
