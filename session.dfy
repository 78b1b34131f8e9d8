/**
 * The session of app.py:57-130: one mutable slot, `vectorstore`, that is
 * empty until an uploaded archive has been processed, is replaced as a whole
 * by each processing run that finishes, and guards every question.
 *
 * Building the index, retrieving from it and the language model are
 * parameters; the index is represented by the chunks it was built from.
 */
module Session {
  import opened Wrappers
  import opened Extraction
  import opened Splitting

  /** The similarity index over one run's chunks (`FAISS.from_documents`). */
  datatype VectorIndex = VectorIndex(chunks: seq<Document>)

  /** What the page shows after a chat submission. */
  datatype Reply =
    | NoInput                                          // nothing was submitted
    | Warning(message: string)                         // no index yet: nothing retrieved, no model call
    | Answer(context: seq<Document>, text: string)     // retrieved chunks and the model's answer

  const UploadFirst := "Please upload a .zip file first."

  /** Retrieval from an index for a question (`vectorstore.as_retriever()`). */
  type Retriever = (VectorIndex, string) -> seq<Document>

  /** The language model answering a question from a context. */
  type Model = (seq<Document>, string) -> string

  class AppSession {
    /** `st.session_state.vectorstore`: `None` until a build has finished. */
    var vectorstore: Option<VectorIndex>

    /** app.py:57-58: a new session starts without an index. */
    constructor ()
      ensures vectorstore == None
    {
      vectorstore := None;
    }

    /**
     * The "Process Zip" action (app.py:64-103): walk the extracted archive,
     * report the document count, split every document, build the index and
     * report the chunk count. When the index build raises, the action stops
     * after the first report and the previous index stays in place; otherwise
     * the new index replaces the old one whole.
     */
    method ProcessZip(root: Dir, load: Loader, split: SplitFn, buildFails: seq<Document> -> bool)
      returns (found: nat, processed: Option<nat>)
      modifies this
      ensures found == |WalkDir([], root, load)|
      ensures var chunks := SplitAll(WalkDir([], root, load), split);
        if buildFails(chunks) then
          processed == None && vectorstore == old(vectorstore)
        else
          processed == Some(|chunks|) && vectorstore == Some(VectorIndex(chunks))
    {
      var docs := ExtractDocuments(root, load);
      found := |docs|;
      var finalSplits := SplitDocuments(docs, split);
      if buildFails(finalSplits) {
        processed := None;
      } else {
        vectorstore := Some(VectorIndex(finalSplits));
        processed := Some(|finalSplits|);
      }
    }

    /**
     * A chat submission (app.py:105-130). An empty submission does nothing;
     * without an index the only outcome is the warning, with no retrieval
     * and no model call; otherwise the answer is the model's, given what the
     * current index retrieves for the question.
     */
    method Ask(question: string, retrieve: Retriever, model: Model) returns (reply: Reply)
      ensures question == "" ==> reply == NoInput
      ensures question != "" && vectorstore == None ==> reply == Warning(UploadFirst)
      ensures question != "" && vectorstore != None ==>
        reply == Answer(retrieve(vectorstore.value, question),
                        model(retrieve(vectorstore.value, question), question))
    {
      if question == "" {
        reply := NoInput;
      } else if vectorstore == None {
        reply := Warning(UploadFirst);
      } else {
        var context := retrieve(vectorstore.value, question);
        var text := model(context, question);
        reply := Answer(context, text);
      }
    }
  }

  /**
   * A session's life: a question before any upload gets the warning; after
   * two uploads the index holds the second archive's chunks only, and a
   * question is answered from them.
   */
  method UploadTwice(first: Dir, second: Dir, load: Loader, split: SplitFn, buildFails: seq<Document> -> bool,
                     question: string, retrieve: Retriever, model: Model)
    returns (before: Reply, after: Reply, index: Option<VectorIndex>)
    requires question != ""
    requires !buildFails(SplitAll(WalkDir([], second, load), split))
    ensures before == Warning(UploadFirst)
    ensures index == Some(VectorIndex(SplitAll(WalkDir([], second, load), split)))
    ensures after.Answer? && after.context == retrieve(index.value, question)
  {
    var session := new AppSession();
    before := session.Ask(question, retrieve, model);
    var _, _ := session.ProcessZip(first, load, split, buildFails);
    var _, _ := session.ProcessZip(second, load, split, buildFails);
    index := session.vectorstore;
    after := session.Ask(question, retrieve, model);
  }
}
