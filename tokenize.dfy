/** `tokenize` of questions.py over the token list the word splitter produced:
    lowercase every token, drop the stopwords, then drop every token that occurs
    inside the punctuation string. */
module Tokenizer {
  import opened Text
  import opened Seqs

  /** Python's `string.punctuation`. */
  const Punctuation: string := "!\"#$%&'()*+,-./:;<=>?@[\\]^_`{|}~"

  /** Python's `string.punctuation` is every printable ASCII character other than a letter, a digit
      or the space, once each and in code order. */
  lemma PunctuationIsAsciiSymbols()
    ensures |Punctuation| == 32
    ensures forall i, j :: 0 <= i < j < |Punctuation| ==> Punctuation[i] < Punctuation[j]
    ensures forall c: char :: c in Punctuation <==> '!' <= c <= '~' && !IsAlpha(c) && !IsDigit(c)
  {
    PunctuationAscending();
    PunctuationSymbols();
    PunctuationComplete();
  }

  lemma PunctuationAscending()
    ensures forall i :: 0 <= i < |Punctuation| - 1 ==> Punctuation[i] < Punctuation[i + 1]
    ensures forall i, j :: 0 <= i < j < |Punctuation| ==> Punctuation[i] < Punctuation[j]
  {
    forall i, j | 0 <= i < j < |Punctuation| ensures Punctuation[i] < Punctuation[j] {
      var k := i;
      while k < j
        invariant i <= k <= j && Punctuation[i] <= Punctuation[k]
        invariant k > i ==> Punctuation[i] < Punctuation[k]
      {
        k := k + 1;
      }
    }
  }

  lemma PunctuationSymbols()
    ensures forall c: char :: c in Punctuation ==> '!' <= c <= '~' && !IsAlpha(c) && !IsDigit(c)
  {
  }

  lemma PunctuationComplete()
    ensures forall c: char :: '!' <= c <= '~' && !IsAlpha(c) && !IsDigit(c) ==> c in Punctuation
  {
    forall c: char | '!' <= c <= '~' && !IsAlpha(c) && !IsDigit(c) ensures c in Punctuation {
      var k := if c <= '/' then c as int - 33 else if c <= '@' then c as int - 43
        else if c <= '`' then c as int - 69 else c as int - 95;
      assert Punctuation[k] == c;
    }
  }

  /** The test a token must pass to stay: not a stopword and not a substring of the punctuation string. */
  predicate Keep(stopwords: set<string>, w: string) {
    w !in stopwords && !IsSubstring(w, Punctuation)
  }

  /** The token list of `document`, given the splitter's tokens and the stopword list. */
  function Tokenize(tokens: seq<string>, stopwords: set<string>): (r: seq<string>)
    ensures IsSubsequence(r, LowerAll(tokens))
    ensures forall w :: w in r ==> Keep(stopwords, w) && IsLower(w)
    ensures forall w {:trigger Count(r, w)} ::
      Count(r, w) == if Keep(stopwords, w) then Count(LowerAll(tokens), w) else 0
  {
    var lowered := LowerAll(tokens);
    var content := Filter(lowered, w => w !in stopwords);
    var r := Filter(content, w => !IsSubstring(w, Punctuation));
    SubsequenceTransitive(r, content, lowered);
    r
  }

  /** Tokenizing a token list that is already tokenized gives it back unchanged. */
  lemma TokenizeIdempotent(tokens: seq<string>, stopwords: set<string>)
    ensures Tokenize(Tokenize(tokens, stopwords), stopwords) == Tokenize(tokens, stopwords)
  {
    var r := Tokenize(tokens, stopwords);
    forall w | w in r ensures Lower(w) == w {
      LowerOfLower(w);
    }
    assert LowerAll(r) == r;
    FilterAllPass(r, w => w !in stopwords);
    FilterAllPass(r, w => !IsSubstring(w, Punctuation));
  }

  /** A token with a letter in it is never taken for punctuation. */
  lemma LetterIsNotPunctuation(w: string, i: nat)
    requires i < |w| && IsAlpha(w[i])
    ensures !IsSubstring(w, Punctuation)
  {
    assert forall k :: 0 <= k < |Punctuation| ==> !IsAlpha(Punctuation[k]);
    forall j | 0 <= j <= |Punctuation| - |w| ensures !OccursAt(w, Punctuation, j) {
      assert Punctuation[j..j + |w|][i] == Punctuation[j + i];
      assert !IsAlpha(Punctuation[j + i]);
      assert Punctuation[j..j + |w|][i] != w[i];
    }
  }

  /** Because the punctuation test is a substring test, "," is dropped but "--" is kept,
      though both consist of punctuation only. */
  lemma PunctuationIsASubstringTest()
    ensures Tokenize([","], {}) == []
    ensures Tokenize(["--"], {}) == ["--"]
  {
    DashDashIsNotPunctuation();
    assert OccursAt(",", Punctuation, 11);
    assert Lower("--") == "--";
    assert Lower(",") == ",";
  }

  lemma DashDashIsNotPunctuation()
    ensures !IsSubstring("--", Punctuation)
  {
    DashIsAlone();
    forall i | 0 <= i <= |Punctuation| - 2 ensures !OccursAt("--", Punctuation, i) {
      assert Punctuation[i..i + 2] == [Punctuation[i], Punctuation[i + 1]];
      if Punctuation[i] == '-' {
        assert Punctuation[i + 1] == '.';
      }
    }
  }

  /** The punctuation string holds one '-', followed by '.'. */
  lemma DashIsAlone()
    ensures forall k :: 0 <= k < |Punctuation| && Punctuation[k] == '-' ==> k == 12
    ensures Punctuation[13] == '.'
  {
  }
}
