/** The dictionaries questions.py passes around: a name (file name or sentence text)
    mapped to its token list. A Python dict keeps insertion order, so it is a sequence
    of entries with pairwise distinct keys. */
module Corpus {
  import opened Seqs

  datatype Entry = Entry(key: string, tokens: seq<string>)

  /** What makes a sequence of entries a dictionary: no key twice. */
  predicate UniqueKeys(c: seq<Entry>) {
    forall i, j :: 0 <= i < j < |c| ==> c[i].key != c[j].key
  }

  /** The keys at the given positions, in that order. */
  function KeysAt(c: seq<Entry>, positions: seq<nat>): (r: seq<string>)
    requires forall k :: 0 <= k < |positions| ==> positions[k] < |c|
    ensures |r| == |positions|
    ensures forall k :: 0 <= k < |r| ==> r[k] == c[positions[k]].key
  {
    seq(|positions|, k requires 0 <= k < |positions| => c[positions[k]].key)
  }

  /** The entries at the given positions, in that order: a dictionary's items looked up by key. */
  function EntriesAt(c: seq<Entry>, positions: seq<nat>): (r: seq<Entry>)
    requires forall k :: 0 <= k < |positions| ==> positions[k] < |c|
    ensures |r| == |positions|
    ensures forall k :: 0 <= k < |r| ==> r[k] == c[positions[k]]
  {
    seq(|positions|, k requires 0 <= k < |positions| => c[positions[k]])
  }

  /** Distinct positions of a dictionary pick out a dictionary. */
  lemma EntriesAtUnique(c: seq<Entry>, positions: seq<nat>)
    requires UniqueKeys(c) && NoDuplicates(positions)
    requires forall k :: 0 <= k < |positions| ==> positions[k] < |c|
    ensures UniqueKeys(EntriesAt(c, positions))
  {
    var r := EntriesAt(c, positions);
    forall i, j | 0 <= i < j < |r| ensures r[i].key != r[j].key {
      assert positions[i] != positions[j];
    }
  }

  /** One more entry adds its key to the keys of a prefix. */
  lemma PrefixKeys(c: seq<Entry>, a: nat)
    requires a < |c|
    ensures (set b | 0 <= b < a :: c[b].key) + {c[a].key} == set b | 0 <= b < a + 1 :: c[b].key
  {
  }

  /** Distinct positions of a dictionary name distinct keys. */
  lemma KeysAtDistinct(c: seq<Entry>, positions: seq<nat>)
    requires UniqueKeys(c) && NoDuplicates(positions)
    requires forall k :: 0 <= k < |positions| ==> positions[k] < |c|
    ensures NoDuplicates(KeysAt(c, positions))
  {
  }

  /** Taking the first `n` keys is taking the keys of the first `n` positions. */
  lemma TakeKeysAt(c: seq<Entry>, positions: seq<nat>, n: int)
    requires forall k :: 0 <= k < |positions| ==> positions[k] < |c|
    ensures Take(KeysAt(c, positions), n) == KeysAt(c, Take(positions, n))
  {
  }

  /** Every query word that some entry contains has an IDF, so no lookup `idfs[word]` fails. */
  predicate IdfsCover(idfs: map<string, real>, query: seq<string>, c: seq<Entry>) {
    forall k, w :: 0 <= k < |c| && w in c[k].tokens && w in query ==> w in idfs
  }

  /** Every word that occurs in at least one entry. */
  function WordSet(c: seq<Entry>): (s: set<string>)
    ensures forall w :: w in s <==> exists i :: 0 <= i < |c| && w in c[i].tokens
  {
    if c == [] then {}
    else
      var last := c[|c| - 1];
      assert forall i :: 0 <= i < |c| - 1 ==> c[..|c| - 1][i] == c[i];
      WordSet(c[..|c| - 1]) + (set w | w in last.tokens)
  }

  /** `sum(word in documents[name] for name in documents)`: how many entries contain `w`. */
  function DocFreq(c: seq<Entry>, w: string): (d: nat)
    ensures d <= |c|
    ensures d >= 1 <==> w in WordSet(c)
  {
    if c == [] then 0
    else DocFreq(c[..|c| - 1], w) + (if w in c[|c| - 1].tokens then 1 else 0)
  }
}
