/**
 The token store: a map from term to the set of file names whose text holds
 that term. A term that was never added reads as the empty set, as a set
 store reports for a missing key.
 */
module Postings {

  type Store = map<string, set<string>>

  /** The members of the posting of `term`; empty when the term is unseen. */
  function Posting(tokens: Store, term: string): set<string>
  {
    if term in tokens then tokens[term] else {}
  }

  /** Adds `f` to the posting of `term`, creating the posting when it is missing. */
  function Sadd(tokens: Store, term: string, f: string): (r: Store)
    ensures r.Keys == tokens.Keys + {term}
    ensures Posting(r, term) == Posting(tokens, term) + {f}
    ensures forall t :: t != term ==> Posting(r, t) == Posting(tokens, t)
  {
    tokens[term := Posting(tokens, term) + {f}]
  }

  /**
   The store after `f` has been added to the posting of every term in `terms`:
   `f` joins exactly those postings and every other file name keeps its postings.
   */
  function WithPostings(tokens: Store, f: string, terms: set<string>): (r: Store)
    ensures r.Keys == tokens.Keys + terms
    ensures forall t :: f in Posting(r, t) <==> f in Posting(tokens, t) || t in terms
    ensures forall t, g :: g != f ==> (g in Posting(r, t) <==> g in Posting(tokens, t))
  {
    map t | t in tokens.Keys + terms :: Posting(tokens, t) + (if t in terms then {f} else {})
  }

  /** Adding a file under no term leaves the store as it was. */
  lemma WithNoPostings(tokens: Store, f: string)
    ensures WithPostings(tokens, f, {}) == tokens
  {
    var r := WithPostings(tokens, f, {});
    forall t | t in tokens ensures r[t] == tokens[t] {
      assert Posting(r, t) == r[t];
    }
  }

  /** Posting one more term extends the set of terms the file is posted under. */
  lemma SaddExtends(tokens: Store, f: string, terms: set<string>, term: string)
    ensures Sadd(WithPostings(tokens, f, terms), term, f) == WithPostings(tokens, f, terms + {term})
  {
    var w := WithPostings(tokens, f, terms);
    var a := Sadd(w, term, f);
    var b := WithPostings(tokens, f, terms + {term});
    assert a.Keys == b.Keys;
    forall t | t in a ensures a[t] == b[t] {
      assert Posting(a, t) == a[t] && Posting(b, t) == b[t];
      forall g ensures g in Posting(a, t) <==> g in Posting(b, t) {
        if g == f {
          assert f in Posting(a, t) <==> f in Posting(w, t) || t == term;
        } else {
          assert g in Posting(a, t) <==> g in Posting(w, t);
        }
      }
    }
  }

  /** Posting a file under the same terms twice leaves the store posting it once. */
  lemma WithPostingsIdempotent(tokens: Store, f: string, terms: set<string>)
    ensures WithPostings(WithPostings(tokens, f, terms), f, terms) == WithPostings(tokens, f, terms)
  {
  }

  /** Adding postings only grows the store: every earlier member of every posting stays. */
  lemma WithPostingsGrows(tokens: Store, f: string, terms: set<string>)
    ensures forall t :: t in tokens ==> t in WithPostings(tokens, f, terms) && tokens[t] <= WithPostings(tokens, f, terms)[t]
  {
  }
}
