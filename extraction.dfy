/**
 * `process_zip_file` (app.py:24-55): a top-down walk of the extracted
 * archive that prunes denied directories, keeps files with an allowed
 * extension, loads each kept file and tags every loaded document with the
 * file's base name, skipping a file whose loading raises.
 *
 * The extracted archive is a tree value; the text loader is a function from
 * a path to the documents it yields, or `None` when it raises.
 */
module Extraction {
  import opened Wrappers
  import opened Names
  import opened Seqs

  /** A directory of the extracted archive, with its files and
      subdirectories in the order the file system lists them. */
  datatype Dir = Dir(name: string, files: seq<string>, children: seq<Dir>)

  /** The directories from the walk's root down to a file, and its base name. */
  datatype FilePath = FilePath(dirs: seq<string>, name: string)

  /** A loaded document: where it was read, its `file_name` metadata and
      its text. */
  datatype Document = Document(source: FilePath, fileName: string, content: string)

  /** `TextLoader(path).load()`: the page contents it yields, or `None` when
      it raises (a missing file, bytes that are not UTF-8). */
  type Loader = FilePath -> Option<seq<string>>

  /** A directory the walk has still to visit, with the path that leads to it. */
  datatype Visit = Visit(dirs: seq<string>, dir: Dir)

  /** `[d for d in dirnames if d not in IGNORE_DIRS]` (app.py:39). */
  function Prune(ds: seq<Dir>): (r: seq<Dir>)
    ensures |r| <= |ds|
    ensures forall d :: d in r <==> d in ds && !IsIgnoredDir(d.name)
  {
    if ds == [] then []
    else (if IsIgnoredDir(ds[0].name) then [] else [ds[0]]) + Prune(ds[1..])
  }

  /** Filtering two runs of subdirectories is filtering them together. */
  lemma {:induction false} PruneAppend(a: seq<Dir>, b: seq<Dir>)
    ensures Prune(a + b) == Prune(a) + Prune(b)
  {
    if a == [] {
      assert a + b == b;
    } else {
      var head := if IsIgnoredDir(a[0].name) then [] else [a[0]];
      assert (a + b)[0] == a[0];
      assert (a + b)[1..] == a[1..] + b;
      PruneAppend(a[1..], b);
      AppendAssoc(head, Prune(a[1..]), Prune(b));
    }
  }

  /** The loaded documents of one file, each tagged with the file's name. */
  function Tag(path: FilePath, texts: seq<string>): seq<Document>
  {
    if texts == [] then []
    else Tag(path, texts[..|texts| - 1]) + [Document(path, path.name, texts[|texts| - 1])]
  }

  /** Each loaded text becomes one document, in the loader's order. */
  lemma {:induction false} TagOrder(path: FilePath, texts: seq<string>)
    ensures |Tag(path, texts)| == |texts|
    ensures forall i :: 0 <= i < |texts| ==> Tag(path, texts)[i] == Document(path, path.name, texts[i])
  {
    if texts != [] {
      TagOrder(path, texts[..|texts| - 1]);
    }
  }

  /** What one file adds to the output: nothing unless its extension is
      allowed, nothing if loading raises, else its documents in order. */
  function LoadFile(dirs: seq<string>, f: string, load: Loader): seq<Document>
  {
    if !Selected(f) then []
    else match load(FilePath(dirs, f))
      case None => []
      case Some(texts) => Tag(FilePath(dirs, f), texts)
  }

  /** The documents of a directory's own files, in listing order. */
  function FilesDocs(dirs: seq<string>, files: seq<string>, load: Loader): seq<Document>
  {
    if files == [] then []
    else FilesDocs(dirs, files[..|files| - 1], load) + LoadFile(dirs, files[|files| - 1], load)
  }

  /** The output of the top-down walk of `d`, reached by `dirs`: its own files
      first, then each subdirectory that is not denied, in listing order. */
  function WalkDir(dirs: seq<string>, d: Dir, load: Loader): seq<Document>
    decreases d
  {
    FilesDocs(dirs, d.files, load) + WalkForest(dirs, d.children, load)
  }

  function WalkForest(dirs: seq<string>, ds: seq<Dir>, load: Loader): seq<Document>
    decreases ds
  {
    if ds == [] then []
    else
      (if IsIgnoredDir(ds[0].name) then [] else WalkDir(dirs + [ds[0].name], ds[0], load))
      + WalkForest(dirs, ds[1..], load)
  }

  /** The subdirectories to visit, each with the path that reaches it. */
  function Entries(dirs: seq<string>, ds: seq<Dir>): seq<Visit>
  {
    if ds == [] then [] else [Visit(dirs + [ds[0].name], ds[0])] + Entries(dirs, ds[1..])
  }

  /** What the walk still owes for the directories waiting on its stack. */
  function StackDocs(stack: seq<Visit>, load: Loader): seq<Document>
  {
    if stack == [] then []
    else WalkDir(stack[0].dirs, stack[0].dir, load) + StackDocs(stack[1..], load)
  }

  function Size(d: Dir): nat
    decreases d
  {
    1 + ForestSize(d.children)
  }

  function ForestSize(ds: seq<Dir>): nat
    decreases ds
  {
    if ds == [] then 0 else Size(ds[0]) + ForestSize(ds[1..])
  }

  function StackSize(stack: seq<Visit>): nat
  {
    if stack == [] then 0 else Size(stack[0].dir) + StackSize(stack[1..])
  }

  // ---------------------------------------------------------------------
  // The walk itself
  // ---------------------------------------------------------------------

  /**
   * The loop of app.py:38-54 over `os.walk(temp_dir)`. The walk keeps a stack
   * of directories to visit, as `os.walk` does: it takes the next one, lets
   * the body prune its subdirectory list in place, handles its files, then
   * puts the surviving subdirectories in front of the rest, in order.
   */
  method ExtractDocuments(root: Dir, load: Loader) returns (documents: seq<Document>)
    ensures documents == WalkDir([], root, load)
  {
    documents := [];
    var stack := [Visit([], root)];
    while stack != []
      invariant documents + StackDocs(stack, load) == WalkDir([], root, load)
      decreases StackSize(stack)
    {
      var dirpath, d := stack[0].dirs, stack[0].dir;
      var dirnames := Prune(d.children);
      ghost var own := FilesDocs(dirpath, d.files, load);
      ghost var below := WalkForest(dirpath, d.children, load);
      ghost var rest := StackDocs(stack[1..], load);
      assert StackDocs(stack, load) == own + below + rest;
      AppendAssoc(documents, own, below + rest);
      AppendAssoc(own, below, rest);
      documents := AppendFiles(documents, dirpath, d.files, load);
      StackDocsAppend(Entries(dirpath, dirnames), stack[1..], load);
      PrunedEntriesDocs(dirpath, d.children, load);
      StackSizeAppend(Entries(dirpath, dirnames), stack[1..]);
      EntriesSize(dirpath, dirnames);
      PruneSize(d.children);
      stack := Entries(dirpath, dirnames) + stack[1..];
    }
  }

  /** The inner loop of app.py:41-54 over one directory's file names,
      appending to `documents`. */
  method AppendFiles(documents: seq<Document>, dirpath: seq<string>, files: seq<string>, load: Loader)
    returns (out: seq<Document>)
    ensures out == documents + FilesDocs(dirpath, files, load)
  {
    out := documents;
    var i := 0;
    while i < |files|
      invariant 0 <= i <= |files|
      invariant out == documents + FilesDocs(dirpath, files[..i], load)
    {
      var f := files[i];
      FilesDocsStep(dirpath, files, i, load);
      ghost var done := FilesDocs(dirpath, files[..i], load);
      if Selected(f) {
        var path := FilePath(dirpath, f);
        match load(path) {
          case None =>
            // the loader raised: `continue` with the next file
            AppendNil(documents + done);
          case Some(texts) =>
            out := AppendLoaded(out, path, texts);
            AppendAssoc(documents, done, Tag(path, texts));
        }
      } else {
        AppendNil(documents + done);
      }
      i := i + 1;
    }
    Whole(files);
  }

  /** The loop of app.py:49-51: tag each loaded document with the file's base
      name and append it. */
  method AppendLoaded(documents: seq<Document>, path: FilePath, texts: seq<string>)
    returns (out: seq<Document>)
    ensures out == documents + Tag(path, texts)
  {
    out := documents;
    var j := 0;
    while j < |texts|
      invariant 0 <= j <= |texts|
      invariant out == documents + Tag(path, texts[..j])
    {
      assert texts[..j + 1][..j] == texts[..j];
      out := out + [Document(path, path.name, texts[j])];
      j := j + 1;
    }
    Whole(texts);
  }

  // ---------------------------------------------------------------------
  // Lemmas that let the stack stand for the recursive walk
  // ---------------------------------------------------------------------

  lemma FilesDocsStep(dirs: seq<string>, files: seq<string>, i: nat, load: Loader)
    requires i < |files|
    ensures FilesDocs(dirs, files[..i + 1], load)
         == FilesDocs(dirs, files[..i], load) + LoadFile(dirs, files[i], load)
  {
    assert files[..i + 1][..i] == files[..i];
  }

  lemma {:induction false} StackDocsAppend(a: seq<Visit>, b: seq<Visit>, load: Loader)
    ensures StackDocs(a + b, load) == StackDocs(a, load) + StackDocs(b, load)
  {
    if a != [] {
      assert (a + b)[1..] == a[1..] + b;
      StackDocsAppend(a[1..], b, load);
    } else {
      assert a + b == b;
    }
  }

  lemma {:induction false} StackSizeAppend(a: seq<Visit>, b: seq<Visit>)
    ensures StackSize(a + b) == StackSize(a) + StackSize(b)
  {
    if a != [] {
      assert (a + b)[1..] == a[1..] + b;
      StackSizeAppend(a[1..], b);
    } else {
      assert a + b == b;
    }
  }

  lemma {:induction false} EntriesAppend(dirs: seq<string>, a: seq<Dir>, b: seq<Dir>)
    ensures Entries(dirs, a + b) == Entries(dirs, a) + Entries(dirs, b)
  {
    if a != [] {
      assert (a + b)[1..] == a[1..] + b;
      EntriesAppend(dirs, a[1..], b);
    } else {
      assert a + b == b;
    }
  }

  lemma {:induction false} EntriesSize(dirs: seq<string>, ds: seq<Dir>)
    ensures StackSize(Entries(dirs, ds)) == ForestSize(ds)
  {
    if ds != [] {
      EntriesSize(dirs, ds[1..]);
    }
  }

  lemma {:induction false} PruneSize(ds: seq<Dir>)
    ensures ForestSize(Prune(ds)) <= ForestSize(ds)
  {
    if ds != [] {
      PruneSize(ds[1..]);
      var head := if IsIgnoredDir(ds[0].name) then [] else [ds[0]];
      ForestSizeAppend(head, Prune(ds[1..]));
      if head != [] {
        assert head[1..] == [];
      }
    }
  }

  lemma {:induction false} ForestSizeAppend(a: seq<Dir>, b: seq<Dir>)
    ensures ForestSize(a + b) == ForestSize(a) + ForestSize(b)
  {
    if a != [] {
      assert (a + b)[1..] == a[1..] + b;
      ForestSizeAppend(a[1..], b);
    } else {
      assert a + b == b;
    }
  }

  /** Visiting the pruned subdirectories one after another yields what the
      recursive walk yields for the unpruned list. */
  lemma {:induction false} PrunedEntriesDocs(dirs: seq<string>, ds: seq<Dir>, load: Loader)
    ensures StackDocs(Entries(dirs, Prune(ds)), load) == WalkForest(dirs, ds, load)
  {
    if ds != [] {
      var head := if IsIgnoredDir(ds[0].name) then [] else [ds[0]];
      EntriesAppend(dirs, head, Prune(ds[1..]));
      StackDocsAppend(Entries(dirs, head), Entries(dirs, Prune(ds[1..])), load);
      PrunedEntriesDocs(dirs, ds[1..], load);
      if head != [] {
        assert head[1..] == [];
        assert Entries(dirs, head) == [Visit(dirs + [ds[0].name], ds[0])];
      }
    }
  }

  // ---------------------------------------------------------------------
  // What the walk returns
  // ---------------------------------------------------------------------

  /** `f` is a file of `d` in the subdirectory reached by the names `rel`. */
  ghost predicate FileIn(d: Dir, rel: seq<string>, f: string)
    decreases d
  {
    if rel == [] then f in d.files
    else exists k :: 0 <= k < |d.children| && d.children[k].name == rel[0]
                     && FileIn(d.children[k], rel[1..], f)
  }

  /** The document is one the loader yielded for a selected file, and its
      `file_name` is that file's base name. */
  ghost predicate LoadedFrom(doc: Document, load: Loader)
  {
    && doc.fileName == doc.source.name
    && Selected(doc.fileName)
    && load(doc.source).Some?
    && doc.content in load(doc.source).value
  }

  /** The document lies below `dirs`, and no directory between is denied. */
  ghost predicate BelowUnpruned(dirs: seq<string>, doc: Document)
  {
    && |dirs| <= |doc.source.dirs|
    && doc.source.dirs[..|dirs|] == dirs
    && forall k :: |dirs| <= k < |doc.source.dirs| ==> !IsIgnoredDir(doc.source.dirs[k])
  }

  lemma {:induction false} TagSound(path: FilePath, texts: seq<string>)
    ensures forall doc :: doc in Tag(path, texts) ==>
      doc.source == path && doc.fileName == path.name && doc.content in texts
  {
    if texts != [] {
      TagSound(path, texts[..|texts| - 1]);
    }
  }

  lemma {:induction false} FilesDocsSound(dirs: seq<string>, files: seq<string>, load: Loader)
    ensures forall doc :: doc in FilesDocs(dirs, files, load) ==>
      doc.source.dirs == dirs && doc.fileName in files && LoadedFrom(doc, load)
  {
    if files != [] {
      var f := files[|files| - 1];
      FilesDocsSound(dirs, files[..|files| - 1], load);
      if Selected(f) && load(FilePath(dirs, f)).Some? {
        TagSound(FilePath(dirs, f), load(FilePath(dirs, f)).value);
      }
    }
  }

  /**
   * Soundness of the walk: every returned document was loaded from a file
   * with an allowed extension that really lies in the tree, on a path none of
   * whose directories below the starting one is denied, and it carries that
   * file's base name. So nothing beneath `venv`, `.git`, `node_modules`, ...
   * is ever returned, at any depth.
   */
  lemma {:induction false} WalkDirSound(dirs: seq<string>, d: Dir, load: Loader)
    ensures forall doc :: doc in WalkDir(dirs, d, load) ==>
      && LoadedFrom(doc, load)
      && BelowUnpruned(dirs, doc)
      && FileIn(d, doc.source.dirs[|dirs|..], doc.fileName)
    decreases d
  {
    FilesDocsSound(dirs, d.files, load);
    WalkForestSound(dirs, d.children, load);
    forall doc | doc in WalkDir(dirs, d, load)
      ensures LoadedFrom(doc, load) && BelowUnpruned(dirs, doc)
      ensures FileIn(d, doc.source.dirs[|dirs|..], doc.fileName)
    {
      var path := doc.source.dirs;
      if doc in FilesDocs(dirs, d.files, load) {
        assert path[|dirs|..] == [];
      } else {
        var rel := path[|dirs|..];
        var k :| 0 <= k < |d.children| && d.children[k].name == path[|dirs|]
                 && FileIn(d.children[k], path[|dirs| + 1..], doc.fileName);
        assert rel[0] == path[|dirs|] && rel[1..] == path[|dirs| + 1..];
      }
    }
  }

  lemma {:induction false} WalkForestSound(dirs: seq<string>, ds: seq<Dir>, load: Loader)
    ensures forall doc :: doc in WalkForest(dirs, ds, load) ==>
      && LoadedFrom(doc, load)
      && BelowUnpruned(dirs, doc)
      && |doc.source.dirs| > |dirs|
      && exists k :: 0 <= k < |ds| && ds[k].name == doc.source.dirs[|dirs|]
                     && FileIn(ds[k], doc.source.dirs[|dirs| + 1..], doc.fileName)
    decreases ds
  {
    if ds != [] {
      var n := ds[0].name;
      var sub := dirs + [n];
      WalkForestSound(dirs, ds[1..], load);
      if !IsIgnoredDir(n) {
        WalkDirSound(sub, ds[0], load);
      }
      forall doc | doc in WalkForest(dirs, ds, load)
        ensures LoadedFrom(doc, load) && BelowUnpruned(dirs, doc) && |doc.source.dirs| > |dirs|
        ensures exists k :: 0 <= k < |ds| && ds[k].name == doc.source.dirs[|dirs|]
                            && FileIn(ds[k], doc.source.dirs[|dirs| + 1..], doc.fileName)
      {
        var path := doc.source.dirs;
        if !IsIgnoredDir(n) && doc in WalkDir(sub, ds[0], load) {
          BelowChild(dirs, n, doc);
        } else {
          assert doc in WalkForest(dirs, ds[1..], load);
          var k :| 0 <= k < |ds[1..]| && ds[1..][k].name == path[|dirs|]
                   && FileIn(ds[1..][k], path[|dirs| + 1..], doc.fileName);
          assert ds[k + 1] == ds[1..][k];
        }
      }
    }
  }

  /** A document below an undenied child directory lies below its parent. */
  lemma BelowChild(dirs: seq<string>, n: string, doc: Document)
    requires !IsIgnoredDir(n) && BelowUnpruned(dirs + [n], doc)
    ensures BelowUnpruned(dirs, doc) && |doc.source.dirs| > |dirs|
    ensures doc.source.dirs[|dirs|] == n
    ensures doc.source.dirs[|dirs| + 1..] == doc.source.dirs[|dirs + [n]|..]
  {
    var path := doc.source.dirs;
    var sub := dirs + [n];
    assert path[..|dirs|] == path[..|sub|][..|dirs|];
    assert path[|dirs|] == path[..|sub|][|dirs|];
  }

  lemma {:induction false} TagComplete(path: FilePath, texts: seq<string>, t: string)
    requires t in texts
    ensures Document(path, path.name, t) in Tag(path, texts)
  {
    if texts[|texts| - 1] != t {
      var init := texts[..|texts| - 1];
      assert texts == init + [texts[|texts| - 1]];
      TagComplete(path, init, t);
    }
  }

  lemma {:induction false} FilesDocsComplete(dirs: seq<string>, files: seq<string>, load: Loader, f: string, t: string)
    requires f in files && Selected(f)
    requires load(FilePath(dirs, f)).Some? && t in load(FilePath(dirs, f)).value
    ensures Document(FilePath(dirs, f), f, t) in FilesDocs(dirs, files, load)
  {
    var init := files[..|files| - 1];
    if files[|files| - 1] == f {
      TagComplete(FilePath(dirs, f), load(FilePath(dirs, f)).value, t);
    } else {
      assert files == init + [files[|files| - 1]];
      FilesDocsComplete(dirs, init, load, f, t);
    }
  }

  lemma {:induction false} WalkForestContains(dirs: seq<string>, ds: seq<Dir>, k: nat, load: Loader, doc: Document)
    requires k < |ds| && !IsIgnoredDir(ds[k].name)
    requires doc in WalkDir(dirs + [ds[k].name], ds[k], load)
    ensures doc in WalkForest(dirs, ds, load)
  {
    var head := if IsIgnoredDir(ds[0].name) then [] else WalkDir(dirs + [ds[0].name], ds[0], load);
    var tail := WalkForest(dirs, ds[1..], load);
    assert WalkForest(dirs, ds, load) == head + tail;
    if k > 0 {
      assert ds[1..][k - 1] == ds[k];
      WalkForestContains(dirs, ds[1..], k - 1, load, doc);
      assert doc in tail;
    } else {
      assert doc in head;
    }
  }

  /**
   * Completeness of the walk: every file with an allowed extension that lies
   * on a path free of denied directories, and whose loading does not raise,
   * contributes each document the loader yields for it, tagged with its base
   * name, whatever happened to the other files.
   */
  lemma {:induction false} WalkDirComplete(dirs: seq<string>, d: Dir, load: Loader, rel: seq<string>, f: string, t: string)
    requires FileIn(d, rel, f)
    requires forall k :: 0 <= k < |rel| ==> !IsIgnoredDir(rel[k])
    requires Selected(f)
    requires load(FilePath(dirs + rel, f)).Some? && t in load(FilePath(dirs + rel, f)).value
    ensures Document(FilePath(dirs + rel, f), f, t) in WalkDir(dirs, d, load)
    decreases d
  {
    if rel == [] {
      assert dirs + rel == dirs;
      FilesDocsComplete(dirs, d.files, load, f, t);
    } else {
      var k :| 0 <= k < |d.children| && d.children[k].name == rel[0]
               && FileIn(d.children[k], rel[1..], f);
      var c := d.children[k];
      assert dirs + [c.name] + rel[1..] == dirs + rel;
      assert !IsIgnoredDir(rel[0]);
      assert forall j :: 0 <= j < |rel[1..]| ==> rel[1..][j] == rel[j + 1];
      WalkDirComplete(dirs + [c.name], c, load, rel[1..], f, t);
      WalkForestContains(dirs, d.children, k, load, Document(FilePath(dirs + rel, f), f, t));
    }
  }

  /** A file whose loading raises contributes nothing. */
  lemma LoadFailureSkipped(root: Dir, load: Loader, path: FilePath)
    requires load(path).None?
    ensures forall doc :: doc in WalkDir([], root, load) ==> doc.source != path
  {
    WalkDirSound([], root, load);
  }

  /**
   * Documents from a directory's own files come before every document from
   * its subdirectories.
   */
  lemma OwnFilesFirst(dirs: seq<string>, d: Dir, load: Loader)
    ensures var r := WalkDir(dirs, d, load);
      forall i, j :: 0 <= i < j < |r| && r[j].source.dirs == dirs ==> r[i].source.dirs == dirs
  {
    var own := FilesDocs(dirs, d.files, load);
    var below := WalkForest(dirs, d.children, load);
    var r := WalkDir(dirs, d, load);
    FilesDocsSound(dirs, d.files, load);
    WalkForestSound(dirs, d.children, load);
    forall j | |own| <= j < |r|
      ensures |r[j].source.dirs| > |dirs|
    {
      assert r[j] == below[j - |own|];
    }
    forall i | 0 <= i < |own|
      ensures r[i].source.dirs == dirs
    {
      assert r[i] == own[i];
    }
  }

  // ---------------------------------------------------------------------
  // A file that fails to load is skipped and the walk goes on
  // ---------------------------------------------------------------------

  /** The documents of `docs`, in order, that were not read from `path`. */
  function Without(docs: seq<Document>, path: FilePath): seq<Document>
  {
    if docs == [] then []
    else (if docs[0].source == path then [] else [docs[0]]) + Without(docs[1..], path)
  }

  lemma {:induction false} WithoutAppend(a: seq<Document>, b: seq<Document>, path: FilePath)
    ensures Without(a + b, path) == Without(a, path) + Without(b, path)
  {
    if a == [] {
      assert a + b == b;
    } else {
      var head := if a[0].source == path then [] else [a[0]];
      assert (a + b)[0] == a[0];
      assert (a + b)[1..] == a[1..] + b;
      WithoutAppend(a[1..], b, path);
      AppendAssoc(head, Without(a[1..], path), Without(b, path));
    }
  }

  /** `broken` is `load` except that loading `path` raises. */
  ghost predicate FailsOnlyAt(load: Loader, broken: Loader, path: FilePath)
  {
    broken(path).None? && forall p :: p != path ==> broken(p) == load(p)
  }

  lemma {:induction false} TagWithout(path: FilePath, texts: seq<string>, other: FilePath)
    requires path != other
    ensures Without(Tag(path, texts), other) == Tag(path, texts)
  {
    if texts != [] {
      var init := texts[..|texts| - 1];
      WithoutAppend(Tag(path, init), [Document(path, path.name, texts[|texts| - 1])], other);
      TagWithout(path, init, other);
    }
  }

  lemma {:induction false} TagAllFrom(path: FilePath, texts: seq<string>)
    ensures Without(Tag(path, texts), path) == []
  {
    if texts != [] {
      var init := texts[..|texts| - 1];
      WithoutAppend(Tag(path, init), [Document(path, path.name, texts[|texts| - 1])], path);
      TagAllFrom(path, init);
    }
  }

  lemma {:induction false} FilesDocsFailure(dirs: seq<string>, files: seq<string>, load: Loader, broken: Loader, path: FilePath)
    requires FailsOnlyAt(load, broken, path)
    ensures FilesDocs(dirs, files, broken) == Without(FilesDocs(dirs, files, load), path)
  {
    if files != [] {
      var init := files[..|files| - 1];
      var f := files[|files| - 1];
      var here := FilePath(dirs, f);
      FilesDocsFailure(dirs, init, load, broken, path);
      WithoutAppend(FilesDocs(dirs, init, load), LoadFile(dirs, f, load), path);
      if Selected(f) && load(here).Some? {
        if here == path {
          TagAllFrom(here, load(here).value);
        } else {
          TagWithout(here, load(here).value, path);
        }
      }
    }
  }

  /**
   * When loading one file raises, the walk returns exactly what it would
   * have returned otherwise, minus that file's documents: the failure is
   * skipped, every other file is still processed, and the order is kept.
   */
  lemma {:induction false} WalkDirFailure(dirs: seq<string>, d: Dir, load: Loader, broken: Loader, path: FilePath)
    requires FailsOnlyAt(load, broken, path)
    ensures WalkDir(dirs, d, broken) == Without(WalkDir(dirs, d, load), path)
    decreases d
  {
    FilesDocsFailure(dirs, d.files, load, broken, path);
    WalkForestFailure(dirs, d.children, load, broken, path);
    WithoutAppend(FilesDocs(dirs, d.files, load), WalkForest(dirs, d.children, load), path);
  }

  lemma {:induction false} WalkForestFailure(dirs: seq<string>, ds: seq<Dir>, load: Loader, broken: Loader, path: FilePath)
    requires FailsOnlyAt(load, broken, path)
    ensures WalkForest(dirs, ds, broken) == Without(WalkForest(dirs, ds, load), path)
    decreases ds
  {
    if ds != [] {
      var head := if IsIgnoredDir(ds[0].name) then [] else WalkDir(dirs + [ds[0].name], ds[0], load);
      if !IsIgnoredDir(ds[0].name) {
        WalkDirFailure(dirs + [ds[0].name], ds[0], load, broken, path);
      }
      WalkForestFailure(dirs, ds[1..], load, broken, path);
      WithoutAppend(head, WalkForest(dirs, ds[1..], load), path);
    }
  }

  // ---------------------------------------------------------------------
  // A concrete archive
  // ---------------------------------------------------------------------

  /**
   * The scratch directory holds the saved `uploaded.zip`, the extracted
   * `main.py`, a `venv` tree and a `src` tree: the archive itself is not
   * returned, nothing under `venv` is, and the order is the walk's.
   */
  lemma SmallArchive(tmp: string, load: Loader, t: string, u: string)
    requires load(FilePath([], "main.py")) == Some([t])
    requires load(FilePath(["src"], "util.py")) == Some([u])
    ensures WalkDir([], Dir(tmp, ["uploaded.zip", "main.py"],
                          [Dir("venv", ["site.py"], []), Dir("src", ["util.py"], [])]), load)
         == [Document(FilePath([], "main.py"), "main.py", t),
             Document(FilePath(["src"], "util.py"), "util.py", u)]
  {
    SmallArchiveRootFiles(load, t);
    SmallArchiveSubdirs(load, u);
  }

  lemma SmallArchiveRootFiles(load: Loader, t: string)
    requires load(FilePath([], "main.py")) == Some([t])
    ensures FilesDocs([], ["uploaded.zip", "main.py"], load)
         == [Document(FilePath([], "main.py"), "main.py", t)]
  {
    SelectedExamples();
    RefusedExamples();
    var files := ["uploaded.zip", "main.py"];
    assert files[..1] == ["uploaded.zip"];
    assert ["uploaded.zip"][..0] == [];
    assert FilesDocs([], ["uploaded.zip"], load) == [];
    assert Tag(FilePath([], "main.py"), [t]) == [Document(FilePath([], "main.py"), "main.py", t)];
  }

  lemma SmallArchiveSubdirs(load: Loader, u: string)
    requires load(FilePath(["src"], "util.py")) == Some([u])
    ensures WalkForest([], [Dir("venv", ["site.py"], []), Dir("src", ["util.py"], [])], load)
         == [Document(FilePath(["src"], "util.py"), "util.py", u)]
  {
    assert "util" + ".py" == "util.py";
    assert "util"[0] == 'u';
    ExtensionOfStem("util", ".py");
    assert IsIgnoredDir("venv") && !IsIgnoredDir("src");
    var src := Dir("src", ["util.py"], []);
    assert ["util.py"][..0] == [];
    assert Selected("util.py");
    assert [u][..0] == [];
    assert Tag(FilePath(["src"], "util.py"), [u]) == [Document(FilePath(["src"], "util.py"), "util.py", u)];
    assert LoadFile(["src"], "util.py", load) == [Document(FilePath(["src"], "util.py"), "util.py", u)];
    assert FilesDocs(["src"], ["util.py"], load) == [Document(FilePath(["src"], "util.py"), "util.py", u)];
    assert [] + ["src"] == ["src"];
    assert WalkDir(["src"], src, load) == [Document(FilePath(["src"], "util.py"), "util.py", u)];
  }
}
