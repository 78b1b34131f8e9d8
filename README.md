# Codebase Teacher: archive walk, splitter dispatch and session guard

A Dafny model of the logic of `app.py` that is the repository's own: the
"chat with your codebase" page takes a zipped project, walks the extracted
tree, loads the source and text files it finds, splits each loaded document
with a Python-aware, JavaScript-aware or generic splitter, builds a
similarity index over the chunks, and answers questions from it only once
an index exists.

- `names.dfy`, module `Names`: the fixed deny-set of directory names, the
  fixed allow-set of extensions, `os.path.splitext` on a bare file name (the
  extension runs from the last dot; a name made of leading dots and no
  further dot, such as `.py` or `..json`, has none) and `str.endswith`.
- `extraction.dfy`, module `Extraction`: the extracted archive as a tree
  value (`Dir`: name, files, subdirectories), the loader as a function from
  a path to the documents it yields or `None` when it raises, the walk as a
  recursive specification (`WalkDir`) and as the imperative loop of
  `process_zip_file` (`ExtractDocuments`), which keeps a stack of directories
  to visit, prunes each directory's subdirectory list before descending and
  appends to the result; then what the walk returns.
- `splitting.dfy`, module `Splitting`: the choice of splitter by file-name
  suffix, the loop that extends `final_splits` per document, and the reported
  chunk count.
- `session.dfy`, module `Session`: the session object with its one field
  `vectorstore`, the "Process Zip" action and the chat question.
- `wrappers.dfy`, module `Wrappers`: `Option`; `seqs.dfy`, module `Seqs`: four sequence facts the proofs share.

The walk's root is the scratch directory, which also holds the saved
`uploaded.zip`; the root itself is never pruned, whatever its name, and the
archive file is never returned because its extension is `.zip`.

## Model

| member | source | states |
|---|---|---|
| `Names.LastIndexOf` | app.py:42 | the result is the index of the last occurrence of the character, or -1 when there is none |
| `Names.SplitExt` | app.py:42 | root and extension put back together give the name; the extension is empty or starts with its only dot |
| `Names.ExtensionSuffix` | app.py:42-43 | a non-empty extension is exactly a suffix of the name that starts with its only dot, where the text before that dot is not made only of dots |
| `Names.EmptyExtensionIff` | app.py:42-43 | the extension is empty exactly when the name is leading dots followed by text with no dot |
| `Names.ExtensionOfStem` | app.py:42 | a stem that is not all dots followed by a one-dot extension splits exactly there |
| `Names.HiddenNameNotSelected` | app.py:42-43 | a name of leading dots and no further dot has empty extension and is never loaded |
| `Names.SelectedExamples` | app.py:27 | `main.py`, `README.md` and `data.tar.json` are loaded |
| `Names.RefusedExamples` | app.py:42-43 | `uploaded.zip` (extension `.zip`) and `APP.PY` (extension `.PY`) are not loaded |
| `Names.HiddenNameExamples` | app.py:42-43 | `.py`, `..json` and `Makefile` have empty extension and are not loaded |
| `Extraction.Prune` | app.py:39 | the kept subdirectories are exactly those of the list whose name is not denied |
| `Extraction.ExtractDocuments` | app.py:38-55 | the stack-driven walk returns exactly the top-down walk `WalkDir` of the tree |
| `Extraction.PruneAppend` | app.py:39 | filtering two runs of subdirectory names one after the other is filtering them together, so the kept names stay in listing order |
| `Extraction.TagOrder` | app.py:49-51 | a file's loaded texts become documents one for one, in the loader's order, each tagged with the file's path and base name |
| `Extraction.AppendFiles` | app.py:41-54 | the loop over one directory's files appends exactly that directory's documents, file by file |
| `Extraction.AppendLoaded` | app.py:49-51 | the documents a file loads are appended in order, each tagged with the file's base name |
| `Extraction.WalkDirSound` | app.py:38-51 | every returned document comes from a file with an allowed extension that lies in the tree, on a path with no denied directory at any depth, and carries that file's base name and a text its loader yielded |
| `Extraction.WalkForestSound` | app.py:38-39 | documents from a subdirectory list lie strictly below the parent, under a child that is not denied |
| `Extraction.WalkDirComplete` | app.py:38-51 | every file with an allowed extension on a path free of denied directories whose loading succeeds contributes every document its loader yields |
| `Extraction.LoadFailureSkipped` | app.py:46-54 | a file whose loading raises contributes no document |
| `Extraction.WalkDirFailure` | app.py:46-54 | when loading one file raises, the walk returns what it would otherwise return minus that file's documents, in the same order |
| `Extraction.WalkForestFailure` | app.py:46-54 | the same for a list of subdirectories |
| `Extraction.OwnFilesFirst` | app.py:38-51 | documents from a directory's own files come before every document from its subdirectories |
| `Extraction.SmallArchive` | app.py:26-55 | for a scratch directory with `uploaded.zip`, `main.py`, `venv/site.py` and `src/util.py`, the result is the documents of `main.py` then `src/util.py` |
| `Splitting.SplitDocuments` | app.py:80-95 | the dispatch loop returns `SplitAll`: each document split by the splitter its file name selects, concatenated in document order |
| `Splitting.SplitAllAppend` | app.py:95 | splitting two runs of documents in sequence is splitting them together |
| `Splitting.SplitAllBlock` | app.py:82-95 | each document's chunks form one contiguous block in document order, produced by the splitter its file name selects |
| `Splitting.ChunkCount` | app.py:103 | the reported chunk count is the sum of the per-document chunk counts |
| `Splitting.SelectedRouting` | app.py:85-93 | for a name with an allowed extension: Python splitter exactly for `.py`, JavaScript exactly for `.js`, generic exactly for `.md`, `.txt`, `.json`; every splitter uses size 2000 and overlap 200 |
| `Splitting.BareDotPyNeverReachesSplitter` | app.py:85-86 | a file named `.py` would take the Python branch, yet the walk never loads it |
| `Splitting.WalkedDocumentsRouting` | app.py:82-93 | every document the walk returns is routed by its extension as above |
| `Session.AppSession.constructor` | app.py:57-58 | a session starts with no index |
| `Session.AppSession.ProcessZip` | app.py:64-103 | reports the document count; if the index build raises, the old index stays and no chunk count is reported; otherwise the index is replaced whole by one over this archive's chunks and their count is reported |
| `Session.AppSession.Ask` | app.py:105-130 | an empty submission does nothing; with no index the reply is only the warning "Please upload a .zip file first."; otherwise the model's answer over what the current index retrieves |
| `Session.UploadTwice` | app.py:57-110 | for a non-empty question: asked before any upload it gets only the warning; when the second of two uploads builds its index without raising, the index holds the second archive's chunks only and the question is answered from them |

## Left out

- The Streamlit page, sidebar, uploader, buttons, spinners and messages (app.py:16-17, 60-67, 103-105, 128-130); `ProcessZip` returns the two counts instead of writing them, and the "upload present and button pressed" condition of app.py:64 is not modelled.
- Creating the scratch directory, writing the upload and `extractall` (app.py:29-36): the extracted tree, `uploaded.zip` included, is an input value. Cleanup of the scratch directory is file-system work and is not modelled.
- Symbolic links: the tree has none because `extractall` (app.py:36) writes a link entry of the archive as an ordinary file. Directory-listing errors, which `os.walk` skips, are not modelled either. Real directories cannot hold two entries of one name; `Dir` can, and the lemmas hold regardless.
- `TextLoader` and UTF-8 decoding (app.py:47-48): the loader is a function parameter that yields texts or raises; the `source` metadata it sets is modelled as the document's path.
- The chunking inside `RecursiveCharacterTextSplitter` (app.py:70-78): splitters are a function parameter applied to a splitter configuration, so chunk length and overlap bounds are not modelled.
- Embeddings and the FAISS index (app.py:97-101, 125): the index is represented by the chunks it was built from, and whether the build raises is a predicate parameter.
- The Groq model, prompt template and retrieval chain (app.py:111-129): retrieval and the model are function parameters.
- `Session.AppSession.Ask`: the guard `not st.session_state.vectorstore` is modelled as a test for `None`; an index object that Python would consider false is not modelled.
- Debug `print` calls.
- app.py keeps no count or log of skipped files, and neither does the model; "Found N files." reports the number of loaded documents, which is what `found` is.
