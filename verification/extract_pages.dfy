/**
 `extract_pages_from_file` (utils/extract.py, lines 25-44): pick a loader
 by file type, load the documents, and clean each one's text.

 The loaders themselves read files and parse PDF, text and Word formats;
 here loading is a parameter `load` that maps the chosen loader and the
 path to a loading error or to the documents it produced.
 */
module Extraction {
  import opened Strings
  import opened Cleaning
  import opened CleaningProofs
  import opened CleanTextProperties
  import opened FileTypes

  /** A loaded document: its text and its metadata (page numbers for a
      PDF). Only the text is used. */
  datatype Document = Document(pageContent: string, metadata: map<string, string>)

  // ---------------------------------------------------------------------
  // Cleaning the documents (lines 40-44)
  // ---------------------------------------------------------------------

  /** `[clean_text(doc.page_content) for doc in documents]`. */
  function CleanPages(docs: seq<Document>): (pages: seq<string>)
    ensures |pages| == |docs|
    ensures forall i :: 0 <= i < |docs| ==> pages[i] == CleanText(docs[i].pageContent)
    decreases |docs|
  {
    if |docs| == 0 then [] else [CleanText(docs[0].pageContent)] + CleanPages(docs[1..])
  }

  /** `extract_pages_from_file(path)`: an unsupported extension fails
      before any loader runs; a loading error passes through; otherwise
      the documents are cleaned in order. */
  function ExtractPages(path: string, load: (Loader, string) -> Result<seq<Document>>): (r: Result<seq<string>>)
    ensures SelectLoader(path).Err? ==> r == Err(Unsupported(Extension(path)))
    ensures SelectLoader(path).Ok? && load(SelectLoader(path).value, path).Err? ==>
              r == Err(load(SelectLoader(path).value, path).message)
    ensures r.Ok? <==> SelectLoader(path).Ok? && load(SelectLoader(path).value, path).Ok?
    ensures r.Ok? ==> r.value == CleanPages(load(SelectLoader(path).value, path).value)
  {
    match SelectLoader(path)
    case Err(m) => Err(m)
    case Ok(loader) =>
      match load(loader, path)
      case Err(m) => Err(m)
      case Ok(docs) => Ok(CleanPages(docs))
  }

  /** Cleaning documents one by one commutes with splitting the list:
      pages come out in the order of their documents. */
  lemma {:induction false} CleanPagesAppend(a: seq<Document>, b: seq<Document>)
    ensures CleanPages(a + b) == CleanPages(a) + CleanPages(b)
    decreases |a|
  {
    if |a| == 0 {
      assert a + b == b;
    } else {
      assert (a + b)[1..] == a[1..] + b;
      CleanPagesAppend(a[1..], b);
    }
  }

  /** Every page of a list of cleaned documents is tidy. */
  lemma CleanPagesAreTidy(docs: seq<Document>)
    ensures forall i :: 0 <= i < |docs| ==> Tidy(CleanPages(docs)[i])
  {
    forall i | 0 <= i < |docs|
      ensures Tidy(CleanPages(docs)[i])
    {
      CleanTextShape(docs[i].pageContent);
    }
  }

  /** On success the file type was supported, loading succeeded, there is
      one page per loaded document, and every page is tidy. */
  lemma ExtractedPagesAreClean(path: string, load: (Loader, string) -> Result<seq<Document>>)
    requires ExtractPages(path, load).Ok?
    ensures Extension(path) in Supported
    ensures load(SelectLoader(path).value, path).Ok?
    ensures |ExtractPages(path, load).value| == |load(SelectLoader(path).value, path).value|
    ensures forall i :: 0 <= i < |ExtractPages(path, load).value| ==> Tidy(ExtractPages(path, load).value[i])
  {
    CleanPagesAreTidy(load(SelectLoader(path).value, path).value);
  }

  /** Pages cleaned from documents without a literal `<PARA>` are fixed
      points of cleaning. */
  lemma CleanPagesAreStable(docs: seq<Document>)
    requires forall i :: 0 <= i < |docs| ==> !Contains(docs[i].pageContent, Marker)
    ensures forall i :: 0 <= i < |docs| ==> CleanText(CleanPages(docs)[i]) == CleanPages(docs)[i]
  {
    forall i | 0 <= i < |docs|
      ensures CleanText(CleanPages(docs)[i]) == CleanPages(docs)[i]
    {
      CleanTextIdempotent(docs[i].pageContent);
    }
  }
}
