/**
 * The splitter dispatch of app.py:70-95: every loaded document goes to the
 * Python-aware, the JavaScript-aware or the generic text splitter according
 * to the suffix of its `file_name`, and the chunks are concatenated in
 * document order. The splitters themselves are a parameter: what they do
 * inside is not part of this model.
 */
module Splitting {
  import opened Wrappers
  import opened Names
  import opened Extraction
  import opened Seqs

  /** Chunk size and overlap every splitter is built with (app.py:70-78). */
  const ChunkSize: nat := 2000
  const ChunkOverlap: nat := 200

  datatype Language = Python | Js

  /** How a splitter is built: for a language, or the generic one. */
  datatype SplitterConfig = SplitterConfig(language: Option<Language>, chunkSize: nat, chunkOverlap: nat)

  const PythonSplitter := SplitterConfig(Some(Python), ChunkSize, ChunkOverlap)
  const JsSplitter := SplitterConfig(Some(Js), ChunkSize, ChunkOverlap)
  const GenericSplitter := SplitterConfig(None, ChunkSize, ChunkOverlap)

  /** `splitter.split_documents([doc])` for the splitter built from a config. */
  type SplitFn = (SplitterConfig, Document) -> seq<Document>

  /** The branch of app.py:85-93 a document's file name takes. */
  function ChooseSplitter(fileName: string): SplitterConfig
  {
    if EndsWith(fileName, ".py") then PythonSplitter
    else if EndsWith(fileName, ".js") then JsSplitter
    else GenericSplitter
  }

  function SplitOne(doc: Document, split: SplitFn): seq<Document>
  {
    split(ChooseSplitter(doc.fileName), doc)
  }

  /** `final_splits` after the loop: each document's chunks, in order. */
  function SplitAll(docs: seq<Document>, split: SplitFn): seq<Document>
  {
    if docs == [] then []
    else SplitAll(docs[..|docs| - 1], split) + SplitOne(docs[|docs| - 1], split)
  }

  /** The number of chunks each document yields, summed from the first. */
  function ChunkTotal(docs: seq<Document>, split: SplitFn): nat
  {
    if docs == [] then 0 else |SplitOne(docs[0], split)| + ChunkTotal(docs[1..], split)
  }

  /** The loop of app.py:80-95, extending `final_splits` per document. */
  method SplitDocuments(docs: seq<Document>, split: SplitFn) returns (finalSplits: seq<Document>)
    ensures finalSplits == SplitAll(docs, split)
  {
    finalSplits := [];
    var i := 0;
    while i < |docs|
      invariant 0 <= i <= |docs|
      invariant finalSplits == SplitAll(docs[..i], split)
    {
      var doc := docs[i];
      var splits;
      if EndsWith(doc.fileName, ".py") {
        splits := split(PythonSplitter, doc);
      } else if EndsWith(doc.fileName, ".js") {
        splits := split(JsSplitter, doc);
      } else {
        splits := split(GenericSplitter, doc);
      }
      SplitAllStep(docs, i, split);
      finalSplits := finalSplits + splits;
      i := i + 1;
    }
    Whole(docs);
  }

  /** Splitting two runs of documents one after the other is splitting them
      together. */
  lemma {:induction false} SplitAllAppend(a: seq<Document>, b: seq<Document>, split: SplitFn)
    ensures SplitAll(a + b, split) == SplitAll(a, split) + SplitAll(b, split)
    decreases |b|
  {
    if b == [] {
      assert a + b == a;
    } else {
      var init := b[..|b| - 1];
      assert (a + b)[..|a + b| - 1] == a + init;
      assert (a + b)[|a + b| - 1] == b[|b| - 1];
      SplitAllAppend(a, init, split);
    }
  }

  /**
   * Each document's chunks form one contiguous block of `final_splits`, in
   * document order, and that block is what the splitter chosen by its file
   * name made of it.
   */
  lemma SplitAllBlock(docs: seq<Document>, i: nat, split: SplitFn)
    requires i < |docs|
    ensures SplitAll(docs, split)
         == SplitAll(docs[..i], split)
            + SplitOne(docs[i], split)
            + SplitAll(docs[i + 1..], split)
  {
    var upto, rest := docs[..i + 1], docs[i + 1..];
    Rejoin(docs, i + 1);
    SplitAllAppend(upto, rest, split);
    SplitAllStep(docs, i, split);
  }

  lemma SplitAllStep(docs: seq<Document>, i: nat, split: SplitFn)
    requires i < |docs|
    ensures SplitAll(docs[..i + 1], split) == SplitAll(docs[..i], split) + SplitOne(docs[i], split)
  {
    assert docs[..i + 1][..i] == docs[..i];
  }

  /** The chunk count reported at app.py:103 is the sum of the per-document
      chunk counts. */
  lemma {:induction false} ChunkCount(docs: seq<Document>, split: SplitFn)
    ensures |SplitAll(docs, split)| == ChunkTotal(docs, split)
  {
    if docs != [] {
      SplitAllAppend([docs[0]], docs[1..], split);
      assert [docs[0]] + docs[1..] == docs;
      assert [docs[0]][..0] == [];
      ChunkCount(docs[1..], split);
    }
  }

  /**
   * For a document that the walk can return (its extension is allowed) the
   * suffix test agrees with the extension: the Python splitter exactly for
   * `.py`, the JavaScript splitter exactly for `.js`, the generic one for
   * `.md`, `.txt` and `.json`. Every splitter is built with the same size and
   * overlap.
   */
  lemma SelectedRouting(name: string)
    requires Selected(name)
    ensures ChooseSplitter(name).chunkSize == ChunkSize
    ensures ChooseSplitter(name).chunkOverlap == ChunkOverlap
    ensures ChooseSplitter(name).language == Some(Python) <==> Extension(name) == ".py"
    ensures ChooseSplitter(name).language == Some(Js) <==> Extension(name) == ".js"
    ensures ChooseSplitter(name).language == None <==> Extension(name) in {".md", ".txt", ".json"}
  {
    var e := Extension(name);
    assert e != "";
    ExtensionSuffix(name, e);
    SuffixOfSuffix(name, e, ".py");
    SuffixOfSuffix(name, e, ".js");
  }

  /** Two suffixes of one name that each hold a single, leading dot are the
      same suffix. */
  lemma SuffixOfSuffix(name: string, e: string, s: string)
    requires 0 < |e| <= |name| && name[|name| - |e|..] == e && e[0] == '.' && '.' !in e[1..]
    requires |s| > 0 && s[0] == '.' && '.' !in s[1..]
    ensures EndsWith(name, s) <==> e == s
  {
  }

  /** A file named exactly `.py` would take the Python branch, but the walk
      never returns it: its extension is empty. */
  lemma BareDotPyNeverReachesSplitter()
    ensures ChooseSplitter(".py").language == Some(Python)
    ensures !Selected(".py")
  {
    HiddenNameExamples();
  }

  /** Splitting documents from the walk uses only three splitters, never a
      document's own choice of one. */
  lemma WalkedDocumentsRouting(root: Dir, load: Loader)
    ensures forall doc :: doc in WalkDir([], root, load) ==>
      (ChooseSplitter(doc.fileName) == PythonSplitter <==> Extension(doc.fileName) == ".py") &&
      (ChooseSplitter(doc.fileName) == JsSplitter <==> Extension(doc.fileName) == ".js") &&
      (ChooseSplitter(doc.fileName) == GenericSplitter <==> Extension(doc.fileName) in {".md", ".txt", ".json"})
  {
    WalkDirSound([], root, load);
    forall doc | doc in WalkDir([], root, load)
      ensures (ChooseSplitter(doc.fileName) == PythonSplitter <==> Extension(doc.fileName) == ".py")
      ensures (ChooseSplitter(doc.fileName) == JsSplitter <==> Extension(doc.fileName) == ".js")
      ensures (ChooseSplitter(doc.fileName) == GenericSplitter <==> Extension(doc.fileName) in {".md", ".txt", ".json"})
    {
      SelectedRouting(doc.fileName);
    }
  }
}
