/**
 The inverted index. Two stores back it: `tokens` maps a term to the set of
 file names whose text holds it (store 0), and `docs` maps a file name to the
 text stored for it, the empty string marking a file that was checked and held
 no text (store 1).
 */
module TextIndex {
  import opened Wrappers
  import opened Terms
  import opened Postings
  import opened Conjunction

  /** A lookup hit: a file name and what the document store holds for it (None if nothing). */
  type Hit = (string, Option<string>)

  /** Every file name in a posting has an entry in the document store. */
  predicate StoresClosed(tokens: Store, docs: map<string, string>)
  {
    forall t, g :: t in tokens && g in tokens[t] ==> g in docs
  }

  /**
   The postings agree with the stored texts: a file name sits in the posting of a
   term exactly when the term comes from its stored text. Files stored with the
   empty "no text" marker are exempt from the completeness half.
   */
  predicate StoresCoherent(norm: Normalizer, tokens: Store, docs: map<string, string>)
  {
    && (forall t, g :: t in tokens && g in tokens[t] ==> g in docs && t in norm.DocTerms(docs[g]))
    && (forall g, t :: g in docs && docs[g] != "" && t in norm.DocTerms(docs[g]) ==> t in tokens && g in tokens[t])
  }

  /** The hits of one term: every file name of its posting, paired with its stored text. */
  function Hits(tokens: Store, docs: map<string, string>, term: string): set<Hit>
  {
    set id | id in Posting(tokens, term) :: (id, Get(docs, id))
  }

  /** The hit set of each query word, in query order. */
  function HitSets(norm: Normalizer, tokens: Store, docs: map<string, string>, words: seq<string>): seq<set<Hit>>
  {
    seq(|words|, i requires 0 <= i < |words| => Hits(tokens, docs, norm.QueryTerm(words[i])))
  }

  /** The hit sets of a longer query extend those of its prefix by the next word's hits. */
  lemma HitSetsSnoc(norm: Normalizer, tokens: Store, docs: map<string, string>, words: seq<string>, i: nat)
    requires i < |words|
    ensures HitSets(norm, tokens, docs, words[..i + 1])
         == HitSets(norm, tokens, docs, words[..i]) + [Hits(tokens, docs, norm.QueryTerm(words[i]))]
  {
  }

  /** Every hit pairs a posted file name with its stored text when the stores are closed. */
  lemma HitsResolveText(tokens: Store, docs: map<string, string>, term: string)
    requires StoresClosed(tokens, docs)
    ensures forall h :: h in Hits(tokens, docs, term) ==> h.0 in docs && h.1 == Some(docs[h.0])
  {
  }

  /** A query of no words matches nothing; a query of one word returns that word's hits. */
  lemma LookupOfFewWords(norm: Normalizer, tokens: Store, docs: map<string, string>, w: string)
    ensures Fold(HitSets(norm, tokens, docs, [])) == {}
    ensures Fold(HitSets(norm, tokens, docs, [w])) == Hits(tokens, docs, norm.QueryTerm(w))
    ensures norm.QueryTerm(w) !in tokens ==> Fold(HitSets(norm, tokens, docs, [w])) == {}
  {
  }

  /** With closed stores every lookup result carries the stored text, and comes from the last word's hits. */
  lemma LookupResolvesText(norm: Normalizer, tokens: Store, docs: map<string, string>, words: seq<string>)
    requires StoresClosed(tokens, docs)
    ensures forall h :: h in Fold(HitSets(norm, tokens, docs, words)) ==> h.0 in docs && h.1 == Some(docs[h.0])
    ensures words != [] ==> Fold(HitSets(norm, tokens, docs, words)) <= Hits(tokens, docs, norm.QueryTerm(words[|words| - 1]))
  {
  }

  /**
   Coherent stores answer a one-word query with every file whose stored text
   yields the word's term, and with nothing else.
   */
  lemma LookupFindsDocuments(norm: Normalizer, tokens: Store, docs: map<string, string>, w: string, g: string)
    requires StoresCoherent(norm, tokens, docs)
    requires g in docs && docs[g] != ""
    ensures (g, Some(docs[g])) in Fold(HitSets(norm, tokens, docs, [w])) <==> norm.QueryTerm(w) in norm.DocTerms(docs[g])
  {
    LookupOfFewWords(norm, tokens, docs, w);
    var term := norm.QueryTerm(w);
    if term in norm.DocTerms(docs[g]) {
      assert g in Posting(tokens, term);
    }
  }

  /**
   What adding a document does to the token store: the file joins the posting
   of the term of every kept lowered token, every earlier member of every
   posting stays, no other file name gains or loses a posting, and every new
   key is a term of the document (a kept token itself when there is no stemmer).
   */
  lemma AddEffects(norm: Normalizer, tokens: Store, f: string, doc: string)
    ensures var r := WithPostings(tokens, f, norm.DocTerms(doc));
      && (forall t :: t in norm.Tokens(doc) && norm.Kept(t) ==> f in Posting(r, norm.Stem(t)))
      && (forall t :: t in tokens ==> t in r && tokens[t] <= r[t])
      && (forall t, g :: g != f ==> (g in Posting(r, t) <==> g in Posting(tokens, t)))
      && (forall t :: t in r && t !in tokens ==> t in norm.DocTerms(doc))
      && (norm.stemmer.None? ==> forall t :: t in r && t !in tokens ==> norm.Kept(t))
  {
  }

  /** Adding a new file keeps the postings closed over the document store. */
  lemma AddKeepsClosed(tokens: Store, docs: map<string, string>, f: string, doc: string, terms: set<string>)
    requires StoresClosed(tokens, docs)
    ensures StoresClosed(WithPostings(tokens, f, terms), docs[f := doc])
  {
  }

  /** Adding a file not yet stored keeps the postings coherent with the stored texts. */
  lemma AddKeepsCoherent(norm: Normalizer, tokens: Store, docs: map<string, string>, f: string, doc: string)
    requires StoresCoherent(norm, tokens, docs) && f !in docs
    ensures StoresCoherent(norm, WithPostings(tokens, f, norm.DocTerms(doc)), docs[f := doc])
  {
    var r := WithPostings(tokens, f, norm.DocTerms(doc));
    var d := docs[f := doc];
    forall t, g | t in r && g in r[t] ensures g in d && t in norm.DocTerms(d[g]) {
      assert g in Posting(r, t);
      if g != f {
        assert g in Posting(tokens, t);
      } else {
        assert f !in Posting(tokens, t);
      }
    }
    forall g, t | g in d && d[g] != "" && t in norm.DocTerms(d[g]) ensures t in r && g in r[t] {
      if g != f {
        assert g in Posting(tokens, t);
      }
      assert g in Posting(r, t);
    }
  }

  /** Marking a file not yet stored as holding no text keeps the postings coherent. */
  lemma MarkKeepsCoherent(norm: Normalizer, tokens: Store, docs: map<string, string>, f: string)
    requires StoresCoherent(norm, tokens, docs) && f !in docs
    ensures StoresCoherent(norm, tokens, docs[f := ""])
  {
  }

  /** An empty index is coherent. */
  lemma EmptyIsCoherent(norm: Normalizer)
    ensures StoresCoherent(norm, map[], map[])
  {
  }

  /**
   A word with no hits followed by a word with hits returns those hits, although
   no file holds both; the stores are ones the index reaches by adding "cats".
   */
  lemma LookupLeaksPastUnseenWord()
    ensures var norm := Normalizer(s => [s], s => s, None, {});
            var tokens := map["cats" := {"img1.png"}];
            var docs := map["img1.png" := "cats"];
            var hs := HitSets(norm, tokens, docs, ["zzz", "cats"]);
            && StoresCoherent(norm, tokens, docs)
            && Fold(hs) == {("img1.png", Some("cats"))} && Intersection(hs) == {}
  {
    var norm := Normalizer(s => [s], s => s, None, {});
    var tokens := map["cats" := {"img1.png"}];
    var docs := map["img1.png" := "cats"];
    var hs := HitSets(norm, tokens, docs, ["zzz", "cats"]);
    assert norm.Tokens("cats") == ["cats"];
    assert norm.Kept("cats") by {
      assert |"cats"| == 4;
    }
    norm.TermsOfMembership(["cats"], "cats");
    forall u | u in norm.DocTerms("cats") ensures u == "cats" {
      norm.TermsOfMembership(["cats"], u);
    }
    assert norm.QueryTerm("zzz") == "zzz" && norm.QueryTerm("cats") == "cats";
    assert Posting(tokens, "zzz") == {};
    assert hs[0] == {};
    assert Get(docs, "img1.png") == Some("cats");
    assert hs[1] == {("img1.png", Some("cats"))};
    FoldAfterEmpty(hs, 1);
    assert hs[..2] == hs;
  }

  class Index {
    /** Store 0: term to the set of file names holding it. */
    var tokens: Store
    /** Store 1: file name to its text, "" for a file checked and found without text. */
    var docs: map<string, string>
    /** The configured tokenizer. It is kept but `Add` tokenizes with `norm.wordTokenize` instead. */
    const tokenizer: string -> seq<string>
    /** Lowercasing, the configured stemmer and stopword set, and the tokenizer `Add` calls. */
    const norm: Normalizer

    /**
     Opens the index over the stores as they persist from earlier runs. The
     stopword list becomes a set; `None` or an empty list gives no stopwords.
     */
    constructor (storedTokens: Store, storedDocs: map<string, string>,
                 tokenizer: string -> seq<string>, stemmer: Option<string -> string>,
                 stopwords: Option<seq<string>>,
                 wordTokenize: string -> seq<string>, lower: string -> string)
      ensures tokens == storedTokens && docs == storedDocs
      ensures this.tokenizer == tokenizer
      ensures norm.wordTokenize == wordTokenize && norm.lower == lower && norm.stemmer == stemmer
      ensures forall w :: w in norm.stopwords <==> stopwords.Some? && w in stopwords.value
    {
      tokens := storedTokens;
      docs := storedDocs;
      this.tokenizer := tokenizer;
      var words := if stopwords.Some? && stopwords.value != [] then set w | w in stopwords.value else {};
      norm := Normalizer(wordTokenize, lower, stemmer, words);
    }

    predicate Closed()
      reads this
    {
      StoresClosed(tokens, docs)
    }

    predicate Coherent()
      reads this
    {
      StoresCoherent(norm, tokens, docs)
    }

    /** Conjunctive lookup, accumulating with the empty set read as "no constraint yet". */
    method Lookup(words: seq<string>) returns (conjunct: set<Hit>)
      ensures conjunct == Fold(HitSets(norm, tokens, docs, words))
    {
      conjunct := {};
      for i := 0 to |words|
        invariant conjunct == Fold(HitSets(norm, tokens, docs, words[..i]))
      {
        var word := norm.lower(words[i]);
        if norm.stemmer.Some? {
          word := norm.stemmer.value(word);
        }
        var hits := Hits(tokens, docs, word);
        HitSetsSnoc(norm, tokens, docs, words, i);
        FoldSnoc(HitSets(norm, tokens, docs, words[..i]), hits);
        conjunct := if conjunct != {} then conjunct * hits else hits;
      }
      assert words[..|words|] == words;
    }

    /** Conjunctive lookup as intended: the first word's hits, intersected with each later word's. */
    method IntendedLookup(words: seq<string>) returns (result: set<Hit>)
      ensures result == Intersection(HitSets(norm, tokens, docs, words))
    {
      result := {};
      var first := true;
      for i := 0 to |words|
        invariant first <==> i == 0
        invariant result == Intersection(HitSets(norm, tokens, docs, words[..i]))
      {
        var hits := Hits(tokens, docs, norm.QueryTerm(words[i]));
        if first {
          result := hits;
          first := false;
        } else {
          result := result * hits;
        }
        ghost var hs := HitSets(norm, tokens, docs, words[..i + 1]);
        assert hs[..i] == HitSets(norm, tokens, docs, words[..i]);
      }
      assert words[..|words|] == words;
    }

    /** A file counts as processed when the document store holds any entry for it, even "". */
    method DocumentIsProcessed(filename: string) returns (processed: bool)
      ensures processed <==> filename in docs
    {
      var res := Get(docs, filename);
      if res.Some? && res.value != "" {
        return true;
      }
      if res == Some("") {
        return true;
      }
      return false;
    }

    /** Records that the file was checked and held no text; the postings stay as they are. */
    method SetContainsNoText(filename: string)
      modifies this
      ensures docs == old(docs)[filename := ""]
      ensures tokens == old(tokens)
      ensures filename in docs
      ensures old(Closed()) ==> Closed()
      ensures old(filename !in docs && Coherent()) ==> Coherent()
    {
      if filename !in docs && Coherent() {
        MarkKeepsCoherent(norm, tokens, docs, filename);
      }
      docs := docs[filename := ""];
    }

    /**
     Posts the file under the term of every lowered token that is neither a
     stopword nor a punctuation token, then stores the text. Whether the file
     was processed before is not checked here.
     */
    method Add(filename: string, document: string)
      modifies this
      ensures tokens == WithPostings(old(tokens), filename, norm.DocTerms(document))
      ensures docs == old(docs)[filename := document]
      ensures forall t :: t in norm.Tokens(document) && norm.Kept(t) ==> filename in Posting(tokens, norm.Stem(t))
      ensures forall t :: t in old(tokens) ==> t in tokens && old(tokens)[t] <= tokens[t]
      ensures forall t, g :: g != filename ==> (g in Posting(tokens, t) <==> g in Posting(old(tokens), t))
      ensures forall t :: t in tokens && t !in old(tokens) ==> t in norm.DocTerms(document)
      ensures norm.stemmer.None? ==> forall t :: t in tokens && t !in old(tokens) ==> norm.Kept(t)
      ensures old(Closed()) ==> Closed()
      ensures old(filename !in docs && Coherent()) ==> Coherent()
    {
      AddEffects(norm, tokens, filename, document);
      ghost var start := tokens;
      var ts := norm.Tokens(document);
      WithNoPostings(start, filename);
      for i := 0 to |ts|
        invariant tokens == WithPostings(start, filename, norm.TermsOf(ts[..i]))
        invariant docs == old(docs)
      {
        var token := ts[i];
        ghost var done := norm.TermsOf(ts[..i]);
        assert ts[..i + 1] == ts[..i] + [token];
        norm.TermsOfSnoc(ts[..i], token);
        if token in norm.stopwords {
          assert norm.TermsOf(ts[..i + 1]) == done;
          continue;
        }
        if token in Punctuation {
          assert norm.TermsOf(ts[..i + 1]) == done;
          continue;
        }
        if norm.stemmer.Some? {
          token := norm.stemmer.value(token);
        }
        assert norm.TermsOf(ts[..i + 1]) == done + {token};
        SaddExtends(start, filename, done, token);
        tokens := Sadd(tokens, token, filename);
      }
      assert ts[..|ts|] == ts;
      docs := docs[filename := document];
      if old(filename !in docs && Coherent()) {
        AddKeepsCoherent(norm, start, old(docs), filename, document);
      }
      if old(Closed()) {
        AddKeepsClosed(start, old(docs), filename, document, norm.DocTerms(document));
      }
    }
  }
}
