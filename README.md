# Inverted text index over detected image text

This project models the core of `textindex.py`, a script that finds text in
image files with an OCR service and builds an inverted index over it. The index
keeps two key-value stores:

- `tokens` maps a normalised term to the set of file names whose text holds that term.
- `docs` maps a file name to its full detected text. The empty string is a marker for a file that was checked and held no text.

`Index.Add` tokenizes a document and lowercases each token. It drops stopwords
and the literal tokens `.`, `,`, `:` and the empty token, and stems what is left
when a stemmer is configured. It then adds the file name to each term's posting
and finally stores the text. `Index.Lookup` answers a conjunctive query. The
driver indexes the outcome of text detection for each file, and it skips files
the index already holds, so a run can be repeated.

Layout, one module per file:

- `wrappers.dfy` (`Wrappers`): `Option` and a store read that may miss.
- `terms.dfy` (`Terms`): the `Normalizer`, holding the word tokenizer, lowercasing, the optional stemmer and the stopword set. The library functions appear as function values.
- `postings.dfy` (`Postings`): the token store as a pure map of sets. `Sadd` is the set-add of one member. `WithPostings` is the store after one file is posted under a set of terms.
- `conjunction.dfy` (`Conjunction`): the query accumulator. `Fold` is the source's accumulation. `Intersection` is the intersection of all hit sets.
- `textindex.dfy` (`TextIndex`): the `Index` class, whose two stores are the fields `tokens` and `docs`, with the store invariants `Closed` and `Coherent`.
- `driver.dfy` (`Driver`): `extract_descriptions` and the skip loop of `main`.

Two invariants are proved about the stores:

- `Closed`: every file name in a posting has a `docs` entry. `Add` and `SetContainsNoText` always preserve it. Under it, every lookup hit carries the stored text.
- `Coherent`: a file name is in the posting of a term exactly when the term comes from the file's stored text. Files stored with the empty marker are exempt from the "every term is posted" half. `Add` and `SetContainsNoText` preserve it for a file that is not yet stored. The driver only calls them for such files, so it preserves `Coherent` unconditionally.

Behaviour of the code that the model keeps as it is:

- `add` and `set_contains_no_text` do not refuse a file that is already processed. Only the driver's skip check prevents re-processing.
- `lookup` treats an empty accumulator as "no constraint yet" (see Findings).
- A posted file name with no `docs` entry shows up in a hit with no text (`None`). No error is raised.
- `add` tokenizes with the library's word tokenizer, not with the tokenizer passed to the constructor. The model keeps that tokenizer in a field that `Add` never reads.

## Model

| member | source | states |
|---|---|---|
| `TextIndex.Index.constructor` | python/text/textindex.py:112-138 | the stores are the persisted ones; the stemmer and tokenizer are the given ones; the stopword set holds exactly the listed words, and is empty when `None` or an empty list is given |
| `TextIndex.Index.DocumentIsProcessed` | python/text/textindex.py:168-179 | true exactly when `docs` holds an entry for the file, whether non-empty text or the `""` marker |
| `TextIndex.Index.SetContainsNoText` | python/text/textindex.py:181-184 | stores `""` for the file and leaves `tokens` unchanged; the file is processed afterwards; `Closed` is kept, and `Coherent` is kept for a new file |
| `TextIndex.Index.Add` | python/text/textindex.py:186-204 | the new `tokens` posts the file under exactly the document's terms; `docs[f]` is the document; each kept lowered token's stem posting holds `f`; earlier postings only grow; no other file name gains or loses a posting; every new key is a document term (a kept token itself with no stemmer); `Closed` is kept, and `Coherent` is kept for a new file |
| `TextIndex.Index.Lookup` | python/text/textindex.py:140-157 | the result is the left fold of the words' hit sets in which an empty accumulator is replaced by the next hits rather than intersected |
| `TextIndex.Index.IntendedLookup` | python/text/textindex.py:140-157 | the corrected query: the intersection of every word's hit set, and empty for no words |
| `Terms.Normalizer.TermsOfMembership` | python/text/textindex.py:193-199 | a term is posted for a document exactly when some kept lowered token of it stems to that term |
| `Terms.Normalizer.TermsOfSnoc` | python/text/textindex.py:193-199 | one more token adds its stemmed term when it is kept, and nothing when it is a stopword or punctuation |
| `Terms.Normalizer.NoStemmerTermsAreKept` | python/text/textindex.py:194-199 | without a stemmer no stopword or punctuation token becomes a term |
| `Postings.Sadd` | python/text/textindex.py:201 | set-add: the posting of the term gains the file, the term becomes a key, and every other posting is unchanged |
| `Postings.WithPostings` | python/text/textindex.py:193-201 | the file joins exactly the postings of the given terms; every other file name keeps exactly its postings; the keys grow by the terms |
| `Postings.SaddExtends` | python/text/textindex.py:193-201 | one set-add in the loop extends the set of terms the file is posted under by that term |
| `Postings.WithNoPostings` | python/text/textindex.py:193 | posting a file under no term leaves the store as it was (the start of the loop) |
| `Postings.WithPostingsIdempotent` | python/text/textindex.py:201-204 | posting a file under the same terms twice gives the same store as once, so adding the same document twice leaves the state of one add |
| `Postings.WithPostingsGrows` | python/text/textindex.py:201 | every key stays and every posting keeps all its earlier members |
| `TextIndex.AddEffects` | python/text/textindex.py:193-201 | after adding a document, every kept token's term posting holds the file; postings only grow; other file names are untouched; new keys are terms of the document, and are kept tokens when there is no stemmer |
| `TextIndex.AddKeepsClosed` | python/text/textindex.py:193-204 | adding a document keeps every posted file name present in `docs` |
| `TextIndex.AddKeepsCoherent` | python/text/textindex.py:186-204 | adding a file not yet stored keeps postings and stored texts in exact agreement |
| `TextIndex.MarkKeepsCoherent` | python/text/textindex.py:181-184 | marking a file not yet stored as textless keeps postings and texts in agreement |
| `TextIndex.EmptyIsCoherent` | python/text/textindex.py:128-131 | two empty stores are coherent |
| `TextIndex.HitsResolveText` | python/text/textindex.py:150-154 | over closed stores each hit pairs a posted file name with its stored text, never with nothing |
| `TextIndex.HitSetsSnoc` | python/text/textindex.py:144-154 | the hit sets of a longer query extend those of its prefix by the next word's hits |
| `TextIndex.LookupOfFewWords` | python/text/textindex.py:142-157 | a query of no words returns the empty set; a one-word query returns that word's hits, and the empty set for an unseen term |
| `TextIndex.LookupResolvesText` | python/text/textindex.py:150-157 | over closed stores every result carries its stored text, and every result is among the last word's hits |
| `TextIndex.LookupFindsDocuments` | python/text/textindex.py:144-157 | over coherent stores a one-word query returns a stored file with text exactly when the word's term comes from that text |
| `TextIndex.LookupLeaksPastUnseenWord` | python/text/textindex.py:155 | over coherent stores holding only the text "cats", the query "zzz cats" returns the "cats" hit although the intersection is empty |
| `Conjunction.Fold` | python/text/textindex.py:142-157 | no hit sets fold to the empty set; otherwise the result lies within the last hit set |
| `Conjunction.FoldSnoc` | python/text/textindex.py:155 | folding one more hit set is one more accumulation step |
| `Conjunction.Intersection` | python/text/textindex.py:141 | an element is in the result exactly when every one of the (at least one) hit sets holds it |
| `Conjunction.FoldIsIntersection` | python/text/textindex.py:155 | while every running accumulator stays non-empty, the fold equals the intersection of all hit sets |
| `Conjunction.FoldCoversIntersection` | python/text/textindex.py:155 | the fold always contains the intersection: the quirk adds results and never drops one |
| `Conjunction.FoldAfterEmpty` | python/text/textindex.py:155 | once the accumulator is empty, the next word's hits replace it unintersected |
| `Conjunction.FoldLeaksAfterEmptyHits` | python/text/textindex.py:155 | an empty first hit set followed by a non-empty one folds to the second set, while the intersection is empty |
| `Driver.DescriptionsAppend` | python/text/textindex.py:215-218 | the document text of two annotation lists in a row is the concatenation of their texts |
| `Driver.DescriptionsSkipMissing` | python/text/textindex.py:216-220 | an annotation without a description contributes nothing to the document |
| `Driver.Concatenate` | python/text/textindex.py:215-220 | the loop builds the in-order concatenation of the descriptions, skipping entries that lack one |
| `Driver.ExtractDescriptions` | python/text/textindex.py:212-227 | a non-empty annotation list adds the concatenated descriptions as the file's document; an empty list stores the no-text marker and leaves postings alone; a failed detection changes nothing; `Closed` is kept, and `Coherent` is kept for a new file |
| `Driver.RunPostingsUnchanged` | python/text/textindex.py:256-260 | a skipped file, a failed detection or an empty annotation list leaves the run's postings as they were |
| `Driver.RunPostingsAdd` | python/text/textindex.py:212-227 | indexing a file not yet processed gives it exactly the postings of its detected text's terms and leaves every other name's postings alone |
| `Driver.IndexFiles` | python/text/textindex.py:232-260 | afterwards a file is processed exactly when it was before or its detection succeeded; files processed before keep their text and their postings; new entries hold the detected text; a file indexed in the run gains exactly the postings of its detected text's terms, and every other name not processed before keeps its postings; postings only grow; `Closed` and `Coherent` are kept; a run in which every file is already processed or fails detection changes nothing |

## Findings

| source | as written | input that shows it | evidently intended | confidence | as-written member | corrected member |
|---|---|---|---|---|---|---|
| python/text/textindex.py:155 | the accumulator is tested for emptiness, so an empty running result is read as "no constraint yet" and the next word's hits replace it | `lookup("zzz", "cats")` where only "cats" is indexed (for img1.png) returns the img1.png hit | return the intersection of the hits, as the method's docstring says (empty here) | not executed | `TextIndex.LookupLeaksPastUnseenWord` | `TextIndex.Index.IntendedLookup` |

`Index.Lookup` keeps the behaviour as written, because that is what the index
does. `Index.IntendedLookup` is the corrected query, proved equal to the
intersection of every word's hits. Nothing else in the model performs a query.

## Left out

- `VisionApi` (network client, base64 encoding, API discovery, retries): only its three outcomes are modelled, as the `Detection` input (a non-empty list, an empty list, `None`).
- Redis: the connection, the `ping` at construction and durability across restarts. The two databases are the fields `tokens` and `docs`. The constructor takes their persisted contents.
- nltk: `word_tokenize`, `EnglishStemmer` and the stopword corpus are foreign library code. They are function values (`Normalizer.wordTokenize`, `Normalizer.stemmer`) and a set. Python's `str.lower` is the function value `Normalizer.lower`.
- `os.walk`, `open` and `argparse`: the file list is a given sequence. `get_text_from_file`'s call of text detection is the function `detect`. So one run sees one detection outcome per file name.
- `print_lookup`, the progress dots and the diagnostic prints: console output only.
- `get_words`: unused by the index and depends on the regular-expression engine.
- The constructor's `__unique_id` counter: never read.
- The constructor's default arguments (`nltk.word_tokenize`, `EnglishStemmer()` and nltk's English stopword list) are not modelled: the caller passes the tokenizer, the stemmer and the stopword list.
- Concurrency: the script is single-threaded.
- Byte-versus-text distinctions of the store values: values are modelled as strings.
