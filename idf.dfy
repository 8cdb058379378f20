/** `compute_idfs` of questions.py: the inverse document frequency of every word that
    occurs in at least one entry. The natural logarithm is a parameter `ln`; what the
    lemmas need of it is stated by IsLog. */
module IdfIndex {
  import opened Corpus

  /** The two facts about `math.log` the ranking relies on. */
  ghost predicate IsLog(ln: real -> real) {
    ln(1.0) == 0.0 && forall x, y :: 0.0 < x < y ==> ln(x) < ln(y)
  }

  /** `len(documents) / f` with `f` the document frequency of `w`; always at least 1. */
  function Ratio(c: seq<Entry>, w: string): (x: real)
    requires w in WordSet(c)
    ensures x >= 1.0
    ensures x == 1.0 <==> DocFreq(c, w) == |c|
  {
    QuotientAtLeastOne(|c| as real, DocFreq(c, w) as real);
    |c| as real / DocFreq(c, w) as real
  }

  lemma QuotientAtLeastOne(n: real, f: real)
    requires 0.0 < f <= n
    ensures n / f >= 1.0
    ensures n / f == 1.0 <==> f == n
  {
  }

  lemma QuotientAntitone(n: real, f: real, g: real)
    requires 0.0 < f < g && 0.0 < n
    ensures n / g < n / f
  {
  }

  /** The table compute_idfs returns. */
  function IdfTable(c: seq<Entry>, ln: real -> real): (table: map<string, real>) {
    map w | w in WordSet(c) :: ln(Ratio(c, w))
  }

  /** compute_idfs: for each entry in order and each of its words, count the entries
      containing the word, take the log of the ratio and store it under the word. */
  method ComputeIdfs(documents: seq<Entry>, ln: real -> real) returns (idfs: map<string, real>)
    ensures idfs.Keys == WordSet(documents)
    ensures forall w :: w in idfs ==> 1 <= DocFreq(documents, w) <= |documents|
    ensures idfs == IdfTable(documents, ln)
  {
    idfs := map[];
    var i := 0;
    while i < |documents|
      invariant 0 <= i <= |documents|
      invariant idfs.Keys == WordSet(documents[..i])
      invariant forall w :: w in idfs ==> w in WordSet(documents) && idfs[w] == ln(Ratio(documents, w))
    {
      idfs := StoreIdfs(documents, i, idfs, ln);
      assert documents[..i + 1][..i] == documents[..i];
      i := i + 1;
    }
    assert documents[..i] == documents;
  }

  /** The inner loop of compute_idfs over the words of entry `i`: each gets its IDF stored. */
  method StoreIdfs(documents: seq<Entry>, i: nat, idfs: map<string, real>, ln: real -> real)
    returns (updated: map<string, real>)
    requires i < |documents|
    requires forall w :: w in idfs ==> w in WordSet(documents) && idfs[w] == ln(Ratio(documents, w))
    ensures updated.Keys == idfs.Keys + (set w | w in documents[i].tokens)
    ensures forall w :: w in updated ==> w in WordSet(documents) && updated[w] == ln(Ratio(documents, w))
  {
    updated := idfs;
    var words := documents[i].tokens;
    var j := 0;
    while j < |words|
      invariant 0 <= j <= |words|
      invariant updated.Keys == idfs.Keys + (set w | w in words[..j])
      invariant forall w :: w in updated ==> w in WordSet(documents) && updated[w] == ln(Ratio(documents, w))
    {
      var word := words[j];
      var f := DocFreq(documents, word);
      assert word in documents[i].tokens;
      var idf := ln(|documents| as real / f as real);
      updated := updated[word := idf];
      assert words[..j + 1] == words[..j] + [word];
      j := j + 1;
    }
    assert words[..j] == words;
  }

  /** Every IDF is non-negative, and it is zero exactly for a word found in every entry. */
  lemma IdfRange(c: seq<Entry>, ln: real -> real, w: string)
    requires IsLog(ln) && w in IdfTable(c, ln)
    ensures IdfTable(c, ln)[w] >= 0.0
    ensures IdfTable(c, ln)[w] == 0.0 <==> DocFreq(c, w) == |c|
  {
    var x := Ratio(c, w);
    if x > 1.0 {
      assert ln(1.0) < ln(x);
    }
  }

  /** A rarer word has a strictly larger IDF. */
  lemma IdfMonotonic(c: seq<Entry>, ln: real -> real, u: string, v: string)
    requires IsLog(ln) && u in IdfTable(c, ln) && v in IdfTable(c, ln)
    requires DocFreq(c, u) < DocFreq(c, v)
    ensures IdfTable(c, ln)[u] > IdfTable(c, ln)[v]
  {
    QuotientAntitone(|c| as real, DocFreq(c, u) as real, DocFreq(c, v) as real);
    assert ln(Ratio(c, v)) < ln(Ratio(c, u));
  }

  /** The table built from a corpus covers every query against that same corpus:
      ranking files or sentences with it never fails a lookup. */
  lemma IdfTableCovers(query: seq<string>, c: seq<Entry>, ln: real -> real)
    ensures IdfsCover(IdfTable(c, ln), query, c)
  {
  }
}
