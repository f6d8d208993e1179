/**
 The ingestion driver: it turns the outcome of text detection for a file into
 an index update, and walks a list of files, skipping those already processed.
 Text detection itself is a network service; its outcome for each file is an
 input here.
 */
module Driver {
  import opened Wrappers
  import opened Terms
  import opened Postings
  import opened TextIndex

  /** One entry of a detection response; `description` is None when the entry lacks that key. */
  datatype Annotation = Annotation(description: Option<string>)

  /**
   The outcome of detecting text in one file: None when the request failed,
   otherwise the list of annotations, empty when no text was found.
   */
  type Detection = Option<seq<Annotation>>

  /** What one annotation contributes to the document: its description, or nothing. */
  function DescriptionOf(a: Annotation): string
  {
    if a.description.Some? then a.description.value else ""
  }

  /** The descriptions of the annotations concatenated in order. */
  function Descriptions(texts: seq<Annotation>): string
  {
    if texts == [] then "" else DescriptionOf(texts[0]) + Descriptions(texts[1..])
  }

  /** Concatenating two annotation lists concatenates their descriptions. */
  lemma {:induction false} DescriptionsAppend(a: seq<Annotation>, b: seq<Annotation>)
    ensures Descriptions(a + b) == Descriptions(a) + Descriptions(b)
  {
    if a != [] {
      assert (a + b)[1..] == a[1..] + b;
      DescriptionsAppend(a[1..], b);
    } else {
      assert a + b == b;
    }
  }

  /** Annotations without a description add nothing to the document. */
  lemma {:induction false} DescriptionsSkipMissing(texts: seq<Annotation>, i: nat)
    requires i < |texts| && texts[i].description.None?
    ensures Descriptions(texts) == Descriptions(texts[..i]) + Descriptions(texts[i + 1..])
  {
    assert texts == texts[..i] + ([texts[i]] + texts[i + 1..]);
    DescriptionsAppend(texts[..i], [texts[i]] + texts[i + 1..]);
    assert ([texts[i]] + texts[i + 1..])[1..] == texts[i + 1..];
  }

  /** The text stored for a file whose detection succeeded with these annotations. */
  function StoredText(texts: seq<Annotation>): string
  {
    if texts != [] then Descriptions(texts) else ""
  }

  /** Builds the document from the annotations, one description after another. */
  method Concatenate(texts: seq<Annotation>) returns (document: string)
    ensures document == Descriptions(texts)
  {
    document := "";
    for i := 0 to |texts|
      invariant document == Descriptions(texts[..i])
    {
      if texts[i].description.Some? {
        document := document + texts[i].description.value;
      }
      assert texts[..i + 1] == texts[..i] + [texts[i]];
      DescriptionsAppend(texts[..i], [texts[i]]);
    }
    assert texts[..|texts|] == texts;
  }

  /**
   Indexes the outcome of detection for one file: a non-empty annotation list is
   added as one document, an empty list marks the file as holding no text, and a
   failed detection changes nothing, so the file is tried again on a later run.
   */
  method ExtractDescriptions(inputFilename: string, index: Index, texts: Detection)
    modifies index
    ensures texts.Some? && texts.value != [] ==>
      && index.tokens == WithPostings(old(index.tokens), inputFilename, index.norm.DocTerms(Descriptions(texts.value)))
      && index.docs == old(index.docs)[inputFilename := Descriptions(texts.value)]
    ensures texts == Some([]) ==> index.tokens == old(index.tokens) && index.docs == old(index.docs)[inputFilename := ""]
    ensures texts.None? ==> index.tokens == old(index.tokens) && index.docs == old(index.docs)
    ensures old(index.Closed()) ==> index.Closed()
    ensures old(inputFilename !in index.docs && index.Coherent()) ==> index.Coherent()
  {
    if texts.Some? && texts.value != [] {
      var document := Concatenate(texts.value);
      index.Add(inputFilename, document);
    } else if texts == Some([]) {
      index.SetContainsNoText(inputFilename);
    }
  }

  /**
   The postings of file names absent from `docsBefore`, after a run over `done`:
   such a name keeps its earlier postings and gains exactly the terms of the text
   detected for it when it is one of `done` and its detection found annotations.
   */
  ghost predicate RunPostings(norm: Normalizer, before: Store, docsBefore: map<string, string>,
                              after: Store, done: seq<string>, detect: string -> Detection)
  {
    forall t, g :: g !in docsBefore ==>
      (g in Posting(after, t) <==> (g in Posting(before, t) ||
        (g in done && detect(g).Some? && detect(g).value != [] && t in norm.DocTerms(Descriptions(detect(g).value)))))
  }

  /** A file skipped, failing or found without text leaves the postings of the run as they were. */
  lemma RunPostingsUnchanged(norm: Normalizer, before: Store, docsBefore: map<string, string>,
                             after: Store, done: seq<string>, detect: string -> Detection, f: string)
    requires RunPostings(norm, before, docsBefore, after, done, detect)
    requires f in docsBefore || f in done || detect(f).None? || detect(f) == Some([])
    ensures RunPostings(norm, before, docsBefore, after, done + [f], detect)
  {
  }

  /** Indexing a file not yet processed adds exactly its detected text's terms to the run's postings. */
  lemma RunPostingsAdd(norm: Normalizer, before: Store, docsBefore: map<string, string>,
                       after: Store, done: seq<string>, detect: string -> Detection, f: string)
    requires RunPostings(norm, before, docsBefore, after, done, detect)
    requires f !in docsBefore && !(f in done && detect(f).Some?)
    requires detect(f).Some? && detect(f).value != []
    ensures RunPostings(norm, before, docsBefore,
                        WithPostings(after, f, norm.DocTerms(Descriptions(detect(f).value))), done + [f], detect)
  {
  }

  /**
   Runs detection and indexing over the files, skipping every file the index
   already holds. Files processed before the run keep their stored text and
   their postings; a file is processed afterwards exactly when it was before or
   its detection succeeded; a file indexed during the run gains exactly the
   postings of its detected text's terms, and any other name not processed
   before keeps its postings; a run over files that are all processed or all
   fail changes nothing.
   */
  method IndexFiles(index: Index, files: seq<string>, detect: string -> Detection)
    modifies index
    ensures forall g :: g in index.docs <==> g in old(index.docs) || (g in files && detect(g).Some?)
    ensures forall g :: g in old(index.docs) ==> index.docs[g] == old(index.docs)[g]
    ensures forall g :: g in index.docs && g !in old(index.docs) ==> index.docs[g] == StoredText(detect(g).value)
    ensures forall t :: t in old(index.tokens) ==> t in index.tokens && old(index.tokens)[t] <= index.tokens[t]
    ensures forall t, g :: g in old(index.docs) ==> (g in Posting(index.tokens, t) <==> g in Posting(old(index.tokens), t))
    ensures RunPostings(index.norm, old(index.tokens), old(index.docs), index.tokens, files, detect)
    ensures old(index.Closed()) ==> index.Closed()
    ensures old(index.Coherent()) ==> index.Coherent()
    ensures (forall g :: g in files ==> g in old(index.docs) || detect(g).None?) ==>
      index.tokens == old(index.tokens) && index.docs == old(index.docs)
  {
    for i := 0 to |files|
      invariant forall g :: g in index.docs <==> g in old(index.docs) || (g in files[..i] && detect(g).Some?)
      invariant forall g :: g in old(index.docs) ==> index.docs[g] == old(index.docs)[g]
      invariant forall g :: g in index.docs && g !in old(index.docs) ==> index.docs[g] == StoredText(detect(g).value)
      invariant forall t :: t in old(index.tokens) ==> t in index.tokens && old(index.tokens)[t] <= index.tokens[t]
      invariant forall t, g :: g in old(index.docs) ==> (g in Posting(index.tokens, t) <==> g in Posting(old(index.tokens), t))
      invariant RunPostings(index.norm, old(index.tokens), old(index.docs), index.tokens, files[..i], detect)
      invariant old(index.Closed()) ==> index.Closed()
      invariant old(index.Coherent()) ==> index.Coherent()
      invariant (forall g :: g in files ==> g in old(index.docs) || detect(g).None?) ==>
        index.tokens == old(index.tokens) && index.docs == old(index.docs)
    {
      var filename := files[i];
      assert files[..i + 1] == files[..i] + [filename];
      var processed := index.DocumentIsProcessed(filename);
      if processed {
        RunPostingsUnchanged(index.norm, old(index.tokens), old(index.docs), index.tokens, files[..i], detect, filename);
        continue;
      }
      ghost var mid := index.tokens;
      ExtractDescriptions(filename, index, detect(filename));
      if detect(filename).Some? && detect(filename).value != [] {
        RunPostingsAdd(index.norm, old(index.tokens), old(index.docs), mid, files[..i], detect, filename);
      } else {
        RunPostingsUnchanged(index.norm, old(index.tokens), old(index.docs), mid, files[..i], detect, filename);
      }
    }
    assert files[..|files|] == files;
  }
}
