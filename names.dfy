/**
 * Pure predicates on file and directory names used by the archive walk of
 * app.py: the fixed deny-set of directory names, the fixed allow-set of file
 * extensions, `os.path.splitext` on a bare file name, and `str.endswith`.
 */
module Names {

  /** Directory names whose whole subtree the walk never visits (app.py:26).
      Matching is exact and case-sensitive. */
  const IgnoreDirs: set<string> :=
    {"venv", "env", ".git", "__pycache__", "node_modules", "etc", "Include", "Lib", "Scripts", "share"}

  /** File extensions, dot included, whose files are loaded (app.py:27). */
  const AllowedExtensions: set<string> := {".py", ".js", ".md", ".txt", ".json"}

  predicate IsIgnoredDir(name: string)
  {
    name in IgnoreDirs
  }

  /** Python's `s.endswith(suffix)`. */
  predicate EndsWith(s: string, suffix: string)
  {
    |suffix| <= |s| && s[|s| - |suffix|..] == suffix
  }

  predicate AllDots(s: string)
  {
    forall k :: 0 <= k < |s| ==> s[k] == '.'
  }

  /** The index of the last `c` in `s`, or -1 when `s` holds no `c`
      (Python's `str.rfind`). */
  function LastIndexOf(s: string, c: char): (r: int)
    ensures -1 <= r < |s|
    ensures r >= 0 ==> s[r] == c
    ensures forall k :: r < k < |s| ==> s[k] != c
  {
    if |s| == 0 then -1
    else if s[|s| - 1] == c then |s| - 1
    else LastIndexOf(s[..|s| - 1], c)
  }

  /**
   * `os.path.splitext` on a file name that holds no path separator: the
   * extension runs from the last dot to the end, unless every character
   * before that dot is itself a dot (a hidden-file name such as `.py` or
   * `..json`), in which case there is no extension.
   */
  function SplitExt(name: string): (r: (string, string))
    ensures r.0 + r.1 == name
    ensures r.1 == "" || (r.1[0] == '.' && '.' !in r.1[1..])
  {
    var dot := LastIndexOf(name, '.');
    if dot >= 0 && !AllDots(name[..dot]) then (name[..dot], name[dot..]) else (name, "")
  }

  function Extension(name: string): string
  {
    SplitExt(name).1
  }

  /** The extension test of app.py:42-43: is this file loaded at all? */
  predicate Selected(name: string)
  {
    Extension(name) in AllowedExtensions
  }

  /** A name made of leading dots followed by text without a dot. */
  ghost predicate DotsThenNoDot(name: string)
  {
    exists n :: 0 <= n <= |name| && AllDots(name[..n]) && '.' !in name[n..]
  }

  /** A non-empty extension is exactly a suffix of the name that starts with
      its only dot and is preceded by something other than dots. */
  lemma ExtensionSuffix(name: string, e: string)
    requires e != ""
    ensures Extension(name) == e <==>
      (|e| <= |name| && name[|name| - |e|..] == e && e[0] == '.' && '.' !in e[1..]
       && !AllDots(name[..|name| - |e|]))
  {
    var dot := LastIndexOf(name, '.');
    var split := SplitExt(name);
    if Extension(name) == e {
      assert split.1 == e;
      assert dot >= 0 && !AllDots(name[..dot]);
      assert split.0 == name[..dot];
      assert |name| - |e| == dot;
    }
    if |e| <= |name| && name[|name| - |e|..] == e && e[0] == '.' && '.' !in e[1..]
       && !AllDots(name[..|name| - |e|]) {
      var i := |name| - |e|;
      assert name[i] == '.';
      assert dot == i;
    }
  }

  /** The extension is empty exactly when the name is some dots followed by
      text with no dot: `Makefile`, `.py`, `..json`. */
  lemma EmptyExtensionIff(name: string)
    ensures Extension(name) == "" <==> DotsThenNoDot(name)
  {
    var dot := LastIndexOf(name, '.');
    if Extension(name) == "" {
      if dot < 0 {
        assert AllDots(name[..0]);
        assert name[0..] == name;
      } else {
        assert AllDots(name[..dot]);
        assert AllDots(name[..dot + 1]);
        assert '.' !in name[dot + 1..];
      }
    }
    if DotsThenNoDot(name) {
      var n :| 0 <= n <= |name| && AllDots(name[..n]) && '.' !in name[n..];
      if dot >= 0 {
        assert dot < n;
        assert AllDots(name[..dot]) by {
          forall k | 0 <= k < dot ensures name[..dot][k] == '.' {
            assert name[..n][k] == name[k];
          }
        }
      }
    }
  }

  /** A name of leading dots and no further dot is never selected, however
      its tail reads (`.py`, `..json`). */
  lemma HiddenNameNotSelected(name: string, n: nat)
    requires n <= |name| && AllDots(name[..n]) && '.' !in name[n..]
    ensures Extension(name) == "" && !Selected(name)
  {
    EmptyExtensionIff(name);
  }

  /** A stem that is not all dots followed by a one-dot extension splits
      exactly there. */
  lemma ExtensionOfStem(stem: string, e: string)
    requires |e| > 0 && e[0] == '.' && '.' !in e[1..] && !AllDots(stem)
    ensures Extension(stem + e) == e
  {
    var name := stem + e;
    assert name[|name| - |e|..] == e;
    assert name[..|name| - |e|] == stem;
    ExtensionSuffix(name, e);
  }

  /** Source and text files are selected; a double extension keeps only its
      last part. */
  lemma SelectedExamples()
    ensures Selected("main.py") && Selected("README.md") && Selected("data.tar.json")
  {
    assert "main" + ".py" == "main.py";
    assert "main"[0] == 'm';
    ExtensionOfStem("main", ".py");
    assert "README" + ".md" == "README.md";
    assert "README"[0] == 'R';
    ExtensionOfStem("README", ".md");
    assert "data.tar" + ".json" == "data.tar.json";
    assert "data.tar"[0] == 'd';
    ExtensionOfStem("data.tar", ".json");
  }

  /** The saved archive and an upper-case extension are refused. */
  lemma RefusedExamples()
    ensures Extension("uploaded.zip") == ".zip" && !Selected("uploaded.zip")
    ensures Extension("APP.PY") == ".PY" && !Selected("APP.PY")
  {
    assert "uploaded" + ".zip" == "uploaded.zip";
    assert "uploaded"[0] == 'u';
    ExtensionOfStem("uploaded", ".zip");
    assert "APP" + ".PY" == "APP.PY";
    assert "APP"[0] == 'A';
    ExtensionOfStem("APP", ".PY");
  }

  /** Hidden-file names and names without a dot have no extension. */
  lemma HiddenNameExamples()
    ensures Extension(".py") == "" && !Selected(".py")
    ensures Extension("..json") == "" && !Selected("..json")
    ensures Extension("Makefile") == "" && !Selected("Makefile")
  {
    HiddenNameNotSelected(".py", 1);
    HiddenNameNotSelected("..json", 2);
    HiddenNameNotSelected("Makefile", 0);
  }
}
