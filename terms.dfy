/**
 Normalisation of text into index terms: tokenize, lowercase, drop stopwords
 and the literal punctuation tokens, stem. The tokenizer, the lowercasing of
 strings and the stemmer are foreign library code and appear here only as
 function values.
 */
module Terms {
  import opened Wrappers

  /** The literal tokens `add` skips besides the stopwords. */
  const Punctuation: set<string> := {".", ",", ":", ""}

  /**
   The normalisation an index applies. `wordTokenize` is the library word
   tokenizer that `add` calls, `lower` is string lowercasing, `stemmer` is the
   configured stemmer (None when it is unset) and `stopwords` the ignored words.
   */
  datatype Normalizer = Normalizer(
    wordTokenize: string -> seq<string>,
    lower: string -> string,
    stemmer: Option<string -> string>,
    stopwords: set<string>)
  {
    /** The term a surviving token is posted under: its stem, or itself without a stemmer. */
    function Stem(token: string): string
    {
      if stemmer.Some? then stemmer.value(token) else token
    }

    /** A lowered token survives filtering when it is no stopword and no punctuation token. */
    predicate Kept(token: string)
    {
      token !in stopwords && token !in Punctuation
    }

    /** The lowered tokens of a document, in order. */
    function Tokens(doc: string): seq<string>
    {
      var ts := wordTokenize(doc);
      seq(|ts|, i requires 0 <= i < |ts| => lower(ts[i]))
    }

    /** The terms under which a sequence of lowered tokens is posted. */
    function TermsOf(ts: seq<string>): set<string>
    {
      set t | t in ts && Kept(t) :: Stem(t)
    }

    /** The terms under which `add` posts a document. */
    function DocTerms(doc: string): set<string>
    {
      TermsOf(Tokens(doc))
    }

    /** The key `lookup` reads for a query word: lowered, then stemmed. No stopword filter. */
    function QueryTerm(word: string): string
    {
      Stem(lower(word))
    }

    /** A term comes from a document exactly when some kept token of it stems to that term. */
    lemma TermsOfMembership(ts: seq<string>, term: string)
      ensures term in TermsOf(ts) <==> exists t :: t in ts && Kept(t) && Stem(t) == term
    {
    }

    /** Extending the token sequence by one token adds at most that token's term. */
    lemma TermsOfSnoc(ts: seq<string>, t: string)
      ensures TermsOf(ts + [t]) == TermsOf(ts) + (if Kept(t) then {Stem(t)} else {})
    {
    }

    /** Without a stemmer no stopword and no punctuation token ever becomes a term. */
    lemma NoStemmerTermsAreKept(ts: seq<string>)
      requires stemmer.None?
      ensures forall term :: term in TermsOf(ts) ==> Kept(term)
    {
    }
  }
}
