/** The two operations of parser.py around the chart parser: `preprocess`, which lowercases a
    sentence's words after a removal loop over the same list, and `np_chunk`, which collects
    the noun-phrase chunks of a parse tree. The word splitter and the parser are not modelled:
    `preprocess` receives the splitter's tokens and `np_chunk` the parser's tree. */
module Parser {
  import opened Text
  import opened Seqs

  /** The index `words.remove(w)` removes at: the first occurrence of `w`. */
  function FirstIndex(words: seq<string>, w: string): (k: nat)
    requires w in words
    ensures k < |words| && words[k] == w && w !in words[..k]
  {
    if words[0] == w then 0
    else
      var k := FirstIndex(words[1..], w);
      assert words[..k + 1] == [words[0]] + words[1..][..k];
      k + 1
  }

  /** `words.remove(w)`: the first element equal to `w` removed. */
  function RemoveFirst(words: seq<string>, w: string): (r: seq<string>)
    requires w in words
    ensures |r| == |words| - 1
    ensures exists k :: 0 <= k < |words| && words[k] == w && w !in words[..k] && r == words[..k] + words[k + 1..]
    ensures IsSubsequence(r, words)
  {
    var k := FirstIndex(words, w);
    DropOneSubsequence(words, k);
    words[..k] + words[k + 1..]
  }

  /** Leaving out one element gives a subsequence. */
  lemma {:induction false} DropOneSubsequence<T>(s: seq<T>, k: nat)
    requires k < |s|
    ensures IsSubsequence(s[..k] + s[k + 1..], s)
  {
    if k == 0 {
      assert s[..0] + s[1..] == s[1..];
      SubsequenceOfSelf(s[1..]);
    } else {
      var a := s[..k] + s[k + 1..];
      DropOneSubsequence(s[1..], k - 1);
      assert a[1..] == s[1..][..k - 1] + s[1..][k..];
    }
  }

  /** When the head is not `w`, the removal happens in the tail. */
  lemma RemoveFirstTail(words: seq<string>, w: string)
    requires w in words && words[0] != w
    ensures RemoveFirst(words, w) == [words[0]] + RemoveFirst(words[1..], w)
  {
    var k := FirstIndex(words[1..], w);
    assert FirstIndex(words, w) == k + 1;
    assert words[..k + 1] == [words[0]] + words[1..][..k];
    assert words[k + 2..] == words[1..][k + 1..];
  }

  /** Removing `w` takes one occurrence of `w` away and leaves the count of every other word as it was. */
  lemma {:induction false} RemoveFirstCount(words: seq<string>, w: string, x: string)
    requires w in words
    ensures Count(RemoveFirst(words, w), x) == Count(words, x) - (if x == w then 1 else 0)
  {
    if words[0] != w {
      var t := RemoveFirst(words[1..], w);
      RemoveFirstTail(words, w);
      RemoveFirstCount(words[1..], w, x);
      assert ([words[0]] + t)[1..] == t;
      assert Count([words[0]] + t, x) == (if words[0] == x then 1 else 0) + Count(t, x);
    } else {
      assert RemoveFirst(words, w) == words[1..];
    }
  }

  /** Python's `for w in words:` over a list the body shrinks: the iterator holds an index `i`
      and stops once `i` reaches the current length, so the word that slides into a removed
      word's place is never visited. */
  function Sweep(words: seq<string>, i: nat): (r: seq<string>)
    requires i <= |words| + 1
    ensures |r| <= |words|
    ensures |r| == |words| ==> r == words
    ensures (forall k :: i <= k < |words| ==> HasAlpha(words[k])) ==> r == words
    decreases |words| - i + 1
  {
    if i >= |words| then words
    else if HasAlpha(words[i]) then Sweep(words, i + 1)
    else Sweep(RemoveFirst(words, words[i]), i + 1)
  }

  /** The number of alphabetic characters of `w`, counted from its end. */
  function AlphaCount(w: string): (n: nat)
    ensures n == 0 <==> !HasAlpha(w)
  {
    if w == [] then 0
    else
      assert forall i :: 0 <= i < |w| - 1 ==> w[..|w| - 1][i] == w[i];
      AlphaCount(w[..|w| - 1]) + (if IsAlpha(w[|w| - 1]) then 1 else 0)
  }

  /** The inner loop of preprocess: `alphabet_chars` over the characters of `w`. */
  method CountAlphabetChars(w: string) returns (alphabetChars: nat)
    ensures alphabetChars == AlphaCount(w)
  {
    alphabetChars := 0;
    var k := 0;
    while k < |w|
      invariant 0 <= k <= |w|
      invariant alphabetChars == AlphaCount(w[..k])
    {
      if IsAlpha(w[k]) {
        alphabetChars := alphabetChars + 1;
      }
      assert w[..k + 1][..k] == w[..k];
      k := k + 1;
    }
    assert w[..k] == w;
  }

  /** preprocess over the splitter's tokens: the removal loop, then lowercasing. */
  method Preprocess(tokens: seq<string>) returns (r: seq<string>)
    ensures r == LowerAll(Sweep(tokens, 0))
    ensures forall w :: w in r ==> IsLower(w)
  {
    var words := tokens;
    var i := 0;
    while i < |words|
      invariant 0 <= i <= |words| + 1
      invariant Sweep(words, i) == Sweep(tokens, 0)
      decreases |words| - i + 1
    {
      var w := words[i];
      var alphabetChars := CountAlphabetChars(w);
      if alphabetChars == 0 {
        words := RemoveFirst(words, w);
      }
      i := i + 1;
    }
    r := LowerAll(words);
  }

  /** The removal loop only removes: its result is a subsequence of its input. */
  lemma {:induction false} SweepSubsequence(words: seq<string>, i: nat)
    requires i <= |words| + 1
    ensures IsSubsequence(Sweep(words, i), words)
    decreases |words| - i + 1
  {
    if i >= |words| {
      SubsequenceOfSelf(words);
    } else if HasAlpha(words[i]) {
      SweepSubsequence(words, i + 1);
    } else {
      var removed := RemoveFirst(words, words[i]);
      SweepSubsequence(removed, i + 1);
      SubsequenceTransitive(Sweep(removed, i + 1), removed, words);
    }
  }

  /** Removing a word that fails the test leaves what passes the test unchanged. */
  lemma {:induction false} FilterRemoveFailing(words: seq<string>, w: string, p: string -> bool)
    requires w in words && !p(w)
    ensures Filter(RemoveFirst(words, w), p) == Filter(words, p)
  {
    if words[0] != w {
      FilterRemoveFailing(words[1..], w, p);
      RemoveFirstTail(words, w);
      assert ([words[0]] + RemoveFirst(words[1..], w))[1..] == RemoveFirst(words[1..], w);
    } else {
      assert RemoveFirst(words, w) == words[1..];
    }
  }

  /** The loop removes only words without a letter, so the words with a letter are all still there, in order. */
  lemma {:induction false} SweepKeepsAlpha(words: seq<string>, i: nat)
    requires i <= |words| + 1
    ensures Filter(Sweep(words, i), HasAlpha) == Filter(words, HasAlpha)
    decreases |words| - i + 1
  {
    if i < |words| {
      if HasAlpha(words[i]) {
        SweepKeepsAlpha(words, i + 1);
      } else {
        SweepKeepsAlpha(RemoveFirst(words, words[i]), i + 1);
        FilterRemoveFailing(words, words[i], HasAlpha);
      }
    }
  }

  /** Lowercasing keeps a subsequence a subsequence. */
  lemma {:induction false} LowerAllSubsequence(a: seq<string>, b: seq<string>)
    requires IsSubsequence(a, b)
    ensures IsSubsequence(LowerAll(a), LowerAll(b))
    decreases |b|
  {
    if a != [] {
      assert LowerAll(b)[1..] == LowerAll(b[1..]);
      if a[0] == b[0] && IsSubsequence(a[1..], b[1..]) {
        LowerAllSubsequence(a[1..], b[1..]);
        assert LowerAll(a)[1..] == LowerAll(a[1..]);
      } else {
        LowerAllSubsequence(a, b[1..]);
      }
    }
  }

  /** Keeping the words with a letter commutes with lowercasing. */
  lemma {:induction false} FilterLowerAll(s: seq<string>)
    ensures Filter(LowerAll(s), HasAlpha) == LowerAll(Filter(s, HasAlpha))
  {
    if s != [] {
      FilterLowerAll(s[1..]);
      LowerHasAlpha(s[0]);
      assert LowerAll(s)[1..] == LowerAll(s[1..]);
      if HasAlpha(s[0]) {
        assert LowerAll([s[0]] + Filter(s[1..], HasAlpha)) == [Lower(s[0])] + LowerAll(Filter(s[1..], HasAlpha));
      }
    }
  }

  /** preprocess returns a subsequence of the lowercased tokens, so no more words than it was given. */
  lemma PreprocessSubsequence(tokens: seq<string>)
    ensures IsSubsequence(LowerAll(Sweep(tokens, 0)), LowerAll(tokens))
    ensures |LowerAll(Sweep(tokens, 0))| <= |tokens|
  {
    SweepSubsequence(tokens, 0);
    LowerAllSubsequence(Sweep(tokens, 0), tokens);
    SubsequenceLength(LowerAll(Sweep(tokens, 0)), LowerAll(tokens));
  }

  /** Every token with a letter survives preprocess, lowercased and in its original order:
      the words with a letter of the result are exactly the lowercased words with a letter of the input. */
  lemma PreprocessKeepsWords(tokens: seq<string>)
    ensures Filter(LowerAll(Sweep(tokens, 0)), HasAlpha) == LowerAll(Filter(tokens, HasAlpha))
  {
    FilterLowerAll(Sweep(tokens, 0));
    SweepKeepsAlpha(tokens, 0);
  }

  /** Two adjacent punctuation tokens: the first is removed, the second slides into its place and is
      skipped, so "," is returned although it has no letter. */
  lemma AdjacentPunctuationSurvives()
    ensures Sweep([",", ","], 0) == [","]
    ensures !HasAlpha(",")
  {
    assert !HasAlpha(",") by {
      assert !IsAlpha(","[0]);
    }
    assert RemoveFirst([",", ","], ",") == [","];
  }

  /** `remove` takes the earliest occurrence, even one the loop has already passed: the third step
      removes the "," skipped at index 0 rather than the one it is looking at. */
  lemma RemoveTakesEarliest()
    ensures RemoveFirst([",", "a", ","], ",") == ["a", ","]
    ensures Sweep([",", ",", "a", ","], 0) == ["a", ","]
  {
    assert !HasAlpha(",") by {
      assert !IsAlpha(","[0]);
    }
    assert HasAlpha("a") by {
      assert IsAlpha("a"[0]);
    }
    assert RemoveFirst([",", ",", "a", ","], ",") == [",", "a", ","];
    assert RemoveFirst([",", "a", ","], ",") == ["a", ","];
  }

  /** What the docstring of preprocess describes: every word with no letter removed, the rest lowercased. */
  function PreprocessIntended(tokens: seq<string>): (r: seq<string>)
    ensures forall w :: w in r ==> HasAlpha(w) && IsLower(w)
  {
    var kept := Filter(tokens, HasAlpha);
    forall w | w in kept ensures HasAlpha(Lower(w)) {
      LowerHasAlpha(w);
    }
    LowerAll(kept)
  }

  /** The intended result is the as-written result with its letterless words dropped; the two
      agree whenever the as-written loop happens to remove every letterless word. */
  lemma IntendedFiltersAsWritten(tokens: seq<string>)
    ensures PreprocessIntended(tokens) == Filter(LowerAll(Sweep(tokens, 0)), HasAlpha)
    ensures (forall w :: w in Sweep(tokens, 0) ==> HasAlpha(w)) ==> PreprocessIntended(tokens) == LowerAll(Sweep(tokens, 0))
  {
    PreprocessKeepsWords(tokens);
    var swept := Sweep(tokens, 0);
    if forall w :: w in swept ==> HasAlpha(w) {
      FilterAllPass(swept, HasAlpha);
      FilterLowerAll(swept);
    }
  }

  /** A parse tree: a word, or a node with its label and children. */
  datatype Tree = Leaf(word: string) | Node(tag: string, children: seq<Tree>)

  /** `t.subtrees()`: every node of `t`, in preorder, `t` itself first; words are not subtrees. */
  function Subtrees(t: Tree): (r: seq<Tree>)
    ensures t.Node? ==> r != [] && r[0] == t
    ensures forall s :: s in r ==> s.Node?
    decreases t
  {
    match t
    case Leaf(_) => []
    case Node(_, children) => [t] + Forest(children)
  }

  /** The subtrees of each tree of `ts` in turn. */
  function Forest(ts: seq<Tree>): (r: seq<Tree>)
    ensures forall s :: s in r ==> s.Node?
    ensures forall k :: 0 <= k < |ts| && ts[k].Node? ==> ts[k] in r
    decreases ts
  {
    if ts == [] then [] else Subtrees(ts[0]) + Forest(ts[1..])
  }

  /** The filter `lambda t: t.label() == 'NP'`. */
  predicate IsNP(t: Tree) {
    t.Node? && t.tag == "NP"
  }

  /** `t.subtrees(lambda t: t.label() == 'NP')`. */
  function NpSubtrees(t: Tree): (r: seq<Tree>)
    ensures forall s :: s in r <==> s in Subtrees(t) && IsNP(s)
  {
    var r := Filter(Subtrees(t), IsNP);
    FilterKeepsPassing(Subtrees(t), IsNP);
    r
  }

  /** A noun-phrase chunk: an NP none of whose proper subtrees is an NP. */
  predicate IsChunk(t: Tree) {
    IsNP(t) && forall s :: s in Forest(t.children) ==> !IsNP(s)
  }

  /** np_chunk: walk the NP subtrees in preorder, keep those whose own NP subtrees are just themselves. */
  method NpChunk(tree: Tree) returns (npChunks: seq<Tree>)
    ensures npChunks == Filter(NpSubtrees(tree), IsChunk)
  {
    npChunks := [];
    var nounPhrases: seq<Tree> := [];
    var candidates := NpSubtrees(tree);
    var k := 0;
    while k < |candidates|
      invariant 0 <= k <= |candidates|
      invariant nounPhrases == candidates[..k]
      invariant npChunks == Filter(candidates[..k], IsChunk)
    {
      var child := candidates[k];
      nounPhrases := nounPhrases + [child];
      OneNpIffChunk(child);
      FilterSnoc(candidates[..k], child, IsChunk);
      if |NpSubtrees(child)| == 1 {
        npChunks := npChunks + [child];
      }
      assert candidates[..k + 1] == candidates[..k] + [child];
      k := k + 1;
    }
    assert candidates[..k] == candidates;
  }

  /** An NP's own NP subtrees start with itself, so there is exactly one of them when it is a chunk. */
  lemma OneNpIffChunk(t: Tree)
    requires IsNP(t)
    ensures |NpSubtrees(t)| == 1 <==> IsChunk(t)
  {
    var below := Forest(t.children);
    assert Subtrees(t) == [t] + below;
    assert ([t] + below)[1..] == below;
    assert Filter(Subtrees(t), IsNP) == [t] + Filter(below, IsNP);
    FilterKeepsPassing(below, IsNP);
    if Filter(below, IsNP) != [] {
      assert Filter(below, IsNP)[0] in Filter(below, IsNP);
    }
  }

  /** np_chunk returns exactly the chunks among the subtrees, in preorder, and no chunk it returns lies inside another. */
  lemma ChunksExactly(tree: Tree)
    ensures forall s :: s in Filter(NpSubtrees(tree), IsChunk) <==> s in Subtrees(tree) && IsChunk(s)
    ensures IsSubsequence(Filter(NpSubtrees(tree), IsChunk), Subtrees(tree))
    ensures forall a, b :: a in Filter(NpSubtrees(tree), IsChunk) && b in Filter(NpSubtrees(tree), IsChunk) ==>
      a.tag == "NP" && a !in Forest(b.children)
  {
    var chunks := Filter(NpSubtrees(tree), IsChunk);
    FilterKeepsPassing(NpSubtrees(tree), IsChunk);
    SubsequenceTransitive(chunks, NpSubtrees(tree), Subtrees(tree));
  }

  /** The number of nodes and words of a tree. */
  function Size(t: Tree): (n: nat)
    ensures n >= 1
    decreases t
  {
    match t
    case Leaf(_) => 1
    case Node(_, children) => 1 + ForestSize(children)
  }

  function ForestSize(ts: seq<Tree>): (n: nat)
    decreases ts
  {
    if ts == [] then 0 else Size(ts[0]) + ForestSize(ts[1..])
  }

  /** A subtree is no larger than its tree. */
  lemma {:induction false} SubtreeSize(t: Tree, s: Tree)
    requires s in Subtrees(t)
    ensures Size(s) <= Size(t)
    decreases t
  {
    if s != t {
      ForestSubtreeSize(t.children, s);
    }
  }

  lemma {:induction false} ForestSubtreeSize(ts: seq<Tree>, s: Tree)
    requires s in Forest(ts)
    ensures Size(s) <= ForestSize(ts)
    decreases ts
  {
    if s in Subtrees(ts[0]) {
      SubtreeSize(ts[0], s);
    } else {
      ForestSubtreeSize(ts[1..], s);
    }
  }

  /** A subtree of a subtree is a subtree. */
  lemma {:induction false} SubtreeTransitive(t: Tree, s: Tree, c: Tree)
    requires s in Subtrees(t) && c in Subtrees(s)
    ensures c in Subtrees(t)
    decreases t
  {
    if s != t {
      ForestTransitive(t.children, s, c);
    }
  }

  lemma {:induction false} ForestTransitive(ts: seq<Tree>, s: Tree, c: Tree)
    requires s in Forest(ts) && c in Subtrees(s)
    ensures c in Forest(ts)
    decreases ts
  {
    if s in Subtrees(ts[0]) {
      SubtreeTransitive(ts[0], s, c);
    } else {
      ForestTransitive(ts[1..], s, c);
    }
  }

  /** Every NP holds a chunk: descend to a smaller NP until none is left below. */
  lemma {:induction false} ChunkBelow(s: Tree)
    requires IsNP(s)
    ensures exists c :: c in Subtrees(s) && IsChunk(c)
    decreases Size(s)
  {
    assert s in Subtrees(s);
    if !IsChunk(s) {
      var s' :| s' in Forest(s.children) && IsNP(s');
      ForestSubtreeSize(s.children, s');
      ChunkBelow(s');
      var c :| c in Subtrees(s') && IsChunk(c);
      SubtreeTransitive(s, s', c);
    }
  }

  /** A tree with a noun phrase has at least one chunk, so np_chunk returns something. */
  lemma SomeChunk(tree: Tree)
    requires NpSubtrees(tree) != []
    ensures Filter(NpSubtrees(tree), IsChunk) != []
  {
    var s := NpSubtrees(tree)[0];
    ChunkBelow(s);
    var c :| c in Subtrees(s) && IsChunk(c);
    SubtreeTransitive(tree, s, c);
    ChunksExactly(tree);
  }
}
