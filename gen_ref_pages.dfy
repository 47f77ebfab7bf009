/** The reference-page generator of the Python bindings (docs/gen_ref_pages.py):
    every `.py` file under `rustfst-python/rustfst`, visited in sorted order,
    becomes a navigation entry and a stub page `::: <dotted identifier>`
    under `docs/reference`; package `__init__` files become `index.md`, and
    `__main__` files are skipped. Paths are sequences of parts relative to
    the repository root; the virtual files written through
    `mkdocs_gen_files` are a map from path to content. */
module RefPages {
  import opened Results
  import opened PathOrder

  const PYTHON_ROOT: Path := ["rustfst-python"]
  const MODULE_ROOT: Path := ["rustfst-python", "rustfst"]
  const REFERENCE: Path := ["docs", "reference"]
  const SUMMARY: Path := ["docs", "reference", "SUMMARY.md"]

  /** A file the scan `rglob("*.py")` finds below the module root. */
  predicate IsModuleFile(p: Path) {
    |p| > |MODULE_ROOT| && p[..|MODULE_ROOT|] == MODULE_ROOT
  }

  predicate ModuleFiles(paths: seq<Path>) {
    forall k :: 0 <= k < |paths| ==> IsModuleFile(paths[k])
  }

  // ---------------------------------------------------------------------
  // `pathlib` on the last part of a path

  /** `str.rfind('.')`. */
  function LastDot(name: string): (r: Option<nat>)
    ensures r.Some? ==> r.value < |name| && name[r.value] == '.'
    ensures r.Some? ==> forall k :: r.value < k < |name| ==> name[k] != '.'
    ensures r.None? ==> forall k :: 0 <= k < |name| ==> name[k] != '.'
  {
    if name == [] then None
    else if name[|name| - 1] == '.' then Some(|name| - 1)
    else LastDot(name[..|name| - 1])
  }

  /** `PurePath.stem`: the name without its suffix; a name has a suffix
      when its last dot is neither its first nor its last character. */
  function Stem(name: string): string {
    match LastDot(name)
    case Some(i) => if 0 < i < |name| - 1 then name[..i] else name
    case None => name
  }

  /** `PurePath.with_suffix(suffix)`. */
  function WithSuffix(p: Path, suffix: string): (r: Path)
    requires p != []
    ensures |r| == |p| && r[..|p| - 1] == p[..|p| - 1] && r[|p| - 1] == Stem(p[|p| - 1]) + suffix
  {
    p[..|p| - 1] + [Stem(p[|p| - 1]) + suffix]
  }

  /** `PurePath.with_name(name)`. */
  function WithName(p: Path, name: string): (r: Path)
    requires p != []
    ensures |r| == |p| && r[..|p| - 1] == p[..|p| - 1] && r[|p| - 1] == name
  {
    p[..|p| - 1] + [name]
  }

  /** `sep.join(parts)`. */
  function Join(sep: string, parts: seq<string>): string {
    if parts == [] then ""
    else if |parts| == 1 then parts[0]
    else Join(sep, parts[..|parts| - 1]) + sep + parts[|parts| - 1]
  }

  /** `PurePath.as_posix()`. */
  function AsPosix(p: Path): string {
    Join("/", p)
  }

  // ---------------------------------------------------------------------
  // One module file
  /** What one module file yields: its navigation key (`parts`), its
      document path relative to `docs/reference`, and the full path of its stub. */
  datatype Page = Page(parts: seq<string>, docPath: Path, fullDocPath: Path)

  /** The translation of one discovered file: `None` exactly for a
      `__main__` file, and otherwise a stub path below `docs/reference` one
      part longer than the file's own path. */
  function Translate(p: Path): (r: Option<Page>)
    requires IsModuleFile(p)
    ensures r.None? <==> Stem(p[|p| - 1]) == "__main__"
    ensures r.Some? ==> |r.value.fullDocPath| == |p| + 1 && r.value.fullDocPath[..|REFERENCE|] == REFERENCE
  {
    var rel := p[|PYTHON_ROOT|..];
    assert rel[|rel| - 1] == p[|p| - 1];
    var modulePath := WithSuffix(rel, "");
    var docPath := WithSuffix(rel, ".md");
    var fullDocPath := REFERENCE + docPath;
    var parts := modulePath;
    assert parts[|parts| - 1] == Stem(p[|p| - 1]) + "" == Stem(p[|p| - 1]);
    if parts[|parts| - 1] == "__init__" then
      assert WithName(fullDocPath, "index.md")[..|REFERENCE|] == REFERENCE;
      Some(Page(parts[..|parts| - 1], WithName(docPath, "index.md"), WithName(fullDocPath, "index.md")))
    else if parts[|parts| - 1] == "__main__" then None
    else Some(Page(parts, docPath, fullDocPath))
  }

  /** The content of a stub page: one line naming the module. */
  function Stub(parts: seq<string>): string {
    "::: " + Join(".", parts) + "\n"
  }

  // ---------------------------------------------------------------------
  // The navigation

  datatype NavEntry = NavEntry(key: seq<string>, value: string)

  /** The position of `key` in `nav`, if any. */
  function KeyIndex(nav: seq<NavEntry>, key: seq<string>): (r: Option<nat>)
    ensures r.Some? ==> r.value < |nav| && nav[r.value].key == key
    ensures r.None? ==> forall k :: 0 <= k < |nav| ==> nav[k].key != key
  {
    if nav == [] then None
    else if nav[|nav| - 1].key == key then Some(|nav| - 1)
    else KeyIndex(nav[..|nav| - 1], key)
  }

  /** `nav[key] = value`: a key already present keeps its place and takes
      the new value; a new key goes last. */
  function NavSet(nav: seq<NavEntry>, key: seq<string>, value: string): seq<NavEntry>
  {
    match KeyIndex(nav, key)
    case Some(k) => nav[k := NavEntry(key, value)]
    case None => nav + [NavEntry(key, value)]
  }

  predicate DistinctNavKeys(nav: seq<NavEntry>) {
    forall i, j :: 0 <= i < j < |nav| ==> nav[i].key != nav[j].key
  }

  /** `nav[key]` reads back `value`, every other key keeps its value and
      place, keys stay distinct, and the navigation grows only by a new key. */
  lemma NavSetSpec(nav: seq<NavEntry>, key: seq<string>, value: string)
    requires DistinctNavKeys(nav)
    ensures var r := NavSet(nav, key, value);
      && DistinctNavKeys(r)
      && (exists k :: 0 <= k < |r| && r[k] == NavEntry(key, value))
      && (forall k :: 0 <= k < |nav| && nav[k].key != key ==> r[k] == nav[k])
      && |r| == |nav| + (if KeyIndex(nav, key).Some? then 0 else 1)
  {
    var r := NavSet(nav, key, value);
    match KeyIndex(nav, key)
    case Some(k) =>
      assert r[k] == NavEntry(key, value);
    case None =>
      assert r[|nav|] == NavEntry(key, value);
  }

  // ---------------------------------------------------------------------
  // The whole build

  /** What the generator has produced so far: the navigation, the stub
      pages written, and the edit path set for each page. */
  datatype Site = Site(nav: seq<NavEntry>, files: map<Path, string>, editPaths: map<Path, Path>)

  /** The translations of `paths`, one per path. */
  function Pages(paths: seq<Path>): (r: seq<Option<Page>>)
    requires ModuleFiles(paths)
    ensures |r| == |paths| && forall k :: 0 <= k < |paths| ==> r[k] == Translate(paths[k])
  {
    seq(|paths|, k requires 0 <= k < |paths| => Translate(paths[k]))
  }

  /** One turn of the loop, for the file `p` whose translation is `page`. */
  function Visit(site: Site, page: Option<Page>, p: Path): Site {
    match page
    case None => site
    case Some(pg) =>
      Site(NavSet(site.nav, pg.parts, AsPosix(pg.docPath)),
           site.files[pg.fullDocPath := Stub(pg.parts)],
           site.editPaths[pg.fullDocPath := p])
  }

  /** The loop over the first `n` files, in order; `pages` are their translations. */
  function Build(pages: seq<Option<Page>>, paths: seq<Path>, n: nat): Site
    requires |pages| == |paths| && n <= |paths|
  {
    if n == 0 then Site([], map[], map[])
    else Visit(Build(pages, paths, n - 1), pages[n - 1], paths[n - 1])
  }

  /** One turn of the module loop: the file `path` adds its navigation
      entry, its stub and its edit path, unless it is a `__main__` file. */
  method VisitFile(path: Path, nav: seq<NavEntry>, files: map<Path, string>, editPaths: map<Path, Path>)
      returns (nav': seq<NavEntry>, files': map<Path, string>, editPaths': map<Path, Path>)
    requires IsModuleFile(path)
    ensures Site(nav', files', editPaths') == Visit(Site(nav, files, editPaths), Translate(path), path)
  {
    nav', files', editPaths' := nav, files, editPaths;
    var rel := path[|PYTHON_ROOT|..];
    var modulePath := WithSuffix(rel, "");
    var docPath := WithSuffix(rel, ".md");
    var fullDocPath := REFERENCE + docPath;
    var parts := modulePath;
    if parts[|parts| - 1] == "__init__" {
      parts := parts[..|parts| - 1];
      docPath := WithName(docPath, "index.md");
      fullDocPath := WithName(fullDocPath, "index.md");
    } else if parts[|parts| - 1] == "__main__" {
      return;
    }
    nav' := NavSet(nav', parts, AsPosix(docPath));
    var identifier := Join(".", parts);
    files' := files'[fullDocPath := "::: " + identifier + "\n"];
    editPaths' := editPaths'[fullDocPath := path];
  }

  /** The module loop, in sorted order, and the `SUMMARY.md` write.
      `literateNav` stands for `Nav.build_literate_nav`. */
  /** Sorting keeps every path below `rustfst-python/rustfst`. */
  lemma SortedModuleFiles(discovered: seq<Path>)
    requires ModuleFiles(discovered)
    ensures ModuleFiles(SortPaths(discovered))
  {
    var paths := SortPaths(discovered);
    forall k | 0 <= k < |paths| ensures IsModuleFile(paths[k]) {
      assert paths[k] in multiset(discovered);
    }
  }

  method GenerateReferencePages(discovered: seq<Path>, literateNav: seq<NavEntry> -> string)
      returns (nav: seq<NavEntry>, files: map<Path, string>, editPaths: map<Path, Path>)
    requires ModuleFiles(discovered)
    ensures ModuleFiles(SortPaths(discovered))
    ensures var paths := SortPaths(discovered); var site := Build(Pages(paths), paths, |paths|);
      && nav == site.nav && editPaths == site.editPaths
      && files == site.files[SUMMARY := literateNav(site.nav)]
  {
    var paths := SortPaths(discovered);
    SortedModuleFiles(discovered);
    ghost var pages := Pages(paths);
    nav, files, editPaths := [], map[], map[];
    for i := 0 to |paths|
      invariant Site(nav, files, editPaths) == Build(pages, paths, i)
    {
      nav, files, editPaths := VisitFile(paths[i], nav, files, editPaths);
    }
    files := files[SUMMARY := literateNav(nav)];
  }

  // ---------------------------------------------------------------------
  // The path rules

  /** The file `stem.py` has the suffix `.py`. */
  lemma LastDotOfPy(stem: string)
    ensures LastDot(stem + ".py") == Some(|stem|)
  {
    var name := stem + ".py";
    var p := stem + ".p";
    var dot := stem + ".";
    assert name != [] && name[|name| - 1] == 'y' && name[..|name| - 1] == p;
    assert LastDot(name) == LastDot(p);
    assert p != [] && p[|p| - 1] == 'p' && p[..|p| - 1] == dot;
    assert LastDot(p) == LastDot(dot);
    assert dot != [] && dot[|dot| - 1] == '.';
  }

  /** The stem of `stem.py`. */
  lemma StemOfPy(stem: string)
    requires stem != ""
    ensures Stem(stem + ".py") == stem
  {
    LastDotOfPy(stem);
    assert (stem + ".py")[..|stem|] == stem;
  }

  /** An ordinary module `rustfst/<dirs>/<stem>.py`: its key is its parts
      without the suffix, its document path the same path with `.md`, and its
      stub goes to that path under `docs/reference`. */
  lemma TranslateModule(dirs: seq<string>, stem: string)
    requires stem != "" && stem != "__init__" && stem != "__main__"
    ensures var p := MODULE_ROOT + dirs + [stem + ".py"];
      && IsModuleFile(p)
      && Translate(p) == Some(Page(["rustfst"] + dirs + [stem], ["rustfst"] + dirs + [stem + ".md"],
                                   REFERENCE + ["rustfst"] + dirs + [stem + ".md"]))
  {
    var p := MODULE_ROOT + dirs + [stem + ".py"];
    assert p[..|MODULE_ROOT|] == MODULE_ROOT;
    var rel := p[|PYTHON_ROOT|..];
    assert rel == ["rustfst"] + dirs + [stem + ".py"];
    assert rel[..|rel| - 1] == ["rustfst"] + dirs;
    StemOfPy(stem);
    assert stem + "" == stem;
    var parts := WithSuffix(rel, "");
    var docPath := WithSuffix(rel, ".md");
    assert parts == ["rustfst"] + dirs + [stem];
    assert docPath == ["rustfst"] + dirs + [stem + ".md"];
    assert REFERENCE + docPath == REFERENCE + ["rustfst"] + dirs + [stem + ".md"];
    assert Translate(p) == Some(Page(parts, docPath, REFERENCE + docPath));
  }

  /** A package `rustfst/<dirs>/__init__.py`: its key drops `__init__`, and
      its page is `index.md` of the package directory. */
  lemma TranslateInit(dirs: seq<string>)
    ensures var p := MODULE_ROOT + dirs + ["__init__.py"];
      && IsModuleFile(p)
      && Translate(p) == Some(Page(["rustfst"] + dirs, ["rustfst"] + dirs + ["index.md"],
                                   REFERENCE + ["rustfst"] + dirs + ["index.md"]))
  {
    var p := MODULE_ROOT + dirs + ["__init__.py"];
    assert p[..|MODULE_ROOT|] == MODULE_ROOT;
    var rel := p[|PYTHON_ROOT|..];
    assert rel == ["rustfst"] + dirs + ["__init__.py"];
    assert rel[..|rel| - 1] == ["rustfst"] + dirs;
    assert "__init__" + ".py" == "__init__.py";
    StemOfPy("__init__");
    assert "__init__" + "" == "__init__";
    var parts := WithSuffix(rel, "");
    assert parts == ["rustfst"] + dirs + ["__init__"];
    assert parts[..|parts| - 1] == ["rustfst"] + dirs;
    var docPath := WithSuffix(rel, ".md");
    assert docPath[..|docPath| - 1] == ["rustfst"] + dirs;
    assert WithName(docPath, "index.md") == ["rustfst"] + dirs + ["index.md"];
    assert (REFERENCE + docPath)[..|docPath| + 1] == REFERENCE + ["rustfst"] + dirs;
    assert WithName(REFERENCE + docPath, "index.md") == REFERENCE + ["rustfst"] + dirs + ["index.md"];
  }

  /** A `rustfst/<dirs>/__main__.py` yields nothing. */
  lemma TranslateMain(dirs: seq<string>)
    ensures var p := MODULE_ROOT + dirs + ["__main__.py"];
      IsModuleFile(p) && Translate(p) == None
  {
    var p := MODULE_ROOT + dirs + ["__main__.py"];
    assert p[..|MODULE_ROOT|] == MODULE_ROOT;
    assert "__main__" + ".py" == "__main__.py";
    StemOfPy("__main__");
  }


  // ---------------------------------------------------------------------
  // What the loop produces

  /** The navigation entries of the first `n` pages, in order. */
  function Entries(pages: seq<Option<Page>>, n: nat): (r: seq<NavEntry>)
    requires n <= |pages|
    ensures |r| <= n
  {
    if n == 0 then []
    else
      Entries(pages, n - 1)
      + (match pages[n - 1]
         case Some(page) => [NavEntry(page.parts, AsPosix(page.docPath))]
         case None => [])
  }

  /** The number of skipped (`__main__`) files among the first `n`. */
  function MainCount(pages: seq<Option<Page>>, n: nat): nat
    requires n <= |pages|
  {
    if n == 0 then 0
    else MainCount(pages, n - 1) + (if pages[n - 1].None? then 1 else 0)
  }

  /** The `k`-th file has a page whose stub is `f`. */
  predicate StubFrom(pages: seq<Option<Page>>, k: int, f: Path) {
    0 <= k < |pages| && pages[k].Some? && pages[k].value.fullDocPath == f
  }

  /** The `k`-th file has a page whose navigation key is `key`. */
  predicate KeyFrom(pages: seq<Option<Page>>, k: int, key: seq<string>) {
    0 <= k < |pages| && pages[k].Some? && pages[k].value.parts == key
  }

  /** No two pages share a navigation key. */
  ghost predicate DistinctKeys(pages: seq<Option<Page>>) {
    forall i, j, key :: i < j && KeyFrom(pages, i, key) ==> !KeyFrom(pages, j, key)
  }

  /** No two pages share a stub path. */
  ghost predicate DistinctStubs(pages: seq<Option<Page>>) {
    forall i, j, f :: i < j && StubFrom(pages, i, f) ==> !StubFrom(pages, j, f)
  }

  /** Every file written is the stub of a page met in the loop, with that
      page's file as edit path; and every page met has its stub written. */
  lemma {:induction false} BuildFiles(pages: seq<Option<Page>>, paths: seq<Path>, n: nat)
    requires |pages| == |paths| && n <= |paths|
    ensures var site := Build(pages, paths, n);
      && site.files.Keys == site.editPaths.Keys
      && (forall f :: f in site.files ==>
            exists k :: StubFrom(pages, k, f) && k < n
                        && site.files[f] == Stub(pages[k].value.parts) && site.editPaths[f] == paths[k])
      && (forall k, f :: k < n && StubFrom(pages, k, f) ==> f in site.files)
  {
    if n > 0 {
      BuildFiles(pages, paths, n - 1);
      var prev := Build(pages, paths, n - 1);
      var site := Build(pages, paths, n);
      match pages[n - 1]
      case None =>
      case Some(page) =>
        assert StubFrom(pages, n - 1, page.fullDocPath);
        forall f | f in site.files
          ensures exists k :: StubFrom(pages, k, f) && k < n
                              && site.files[f] == Stub(pages[k].value.parts) && site.editPaths[f] == paths[k]
        {
          if f != page.fullDocPath {
            var k :| StubFrom(pages, k, f) && k < n - 1
                     && prev.files[f] == Stub(pages[k].value.parts) && prev.editPaths[f] == paths[k];
          }
        }
    }
  }

  /** Some page among the first `n` has the navigation key `key`. */
  ghost predicate KeyMet(pages: seq<Option<Page>>, n: nat, key: seq<string>) {
    exists k :: k < n && KeyFrom(pages, k, key)
  }

  /** Every navigation entry comes from one of the pages met. */
  lemma {:induction false} EntriesFromPages(pages: seq<Option<Page>>, n: nat)
    requires n <= |pages|
    ensures forall j :: 0 <= j < |Entries(pages, n)| ==> KeyMet(pages, n, Entries(pages, n)[j].key)
  {
    var entries := Entries(pages, n);
    forall j | 0 <= j < |entries| ensures KeyMet(pages, n, entries[j].key) {
      var prev := Entries(pages, n - 1);
      EntriesFromPages(pages, n - 1);
      if j < |prev| {
        assert entries[j] == prev[j];
        assert KeyMet(pages, n - 1, prev[j].key);
        var k :| k < n - 1 && KeyFrom(pages, k, prev[j].key);
      } else {
        assert KeyFrom(pages, n - 1, entries[j].key);
      }
    }
  }

  /** With distinct keys, the navigation lists the pages in the order the
      loop meets them. */
  lemma {:induction false} BuildNav(pages: seq<Option<Page>>, paths: seq<Path>, n: nat)
    requires |pages| == |paths| && n <= |paths| && DistinctKeys(pages)
    ensures Build(pages, paths, n).nav == Entries(pages, n) && DistinctNavKeys(Entries(pages, n))
  {
    if n > 0 {
      BuildNav(pages, paths, n - 1);
      var prev := Entries(pages, n - 1);
      match pages[n - 1]
      case None =>
        assert Entries(pages, n) == prev + [];
      case Some(page) =>
        EntriesFromPages(pages, n - 1);
        assert KeyFrom(pages, n - 1, page.parts);
        forall j | 0 <= j < |prev| ensures prev[j].key != page.parts {
          assert KeyMet(pages, n - 1, prev[j].key);
          var k :| k < n - 1 && KeyFrom(pages, k, prev[j].key);
        }
        NavSetSpec(prev, page.parts, AsPosix(page.docPath));
        assert Entries(pages, n) == prev + [NavEntry(page.parts, AsPosix(page.docPath))];
    }
  }

  /** With distinct stub paths, one stub is written per file that is not
      skipped. */
  lemma {:induction false} BuildCount(pages: seq<Option<Page>>, paths: seq<Path>, n: nat)
    requires |pages| == |paths| && n <= |paths| && DistinctStubs(pages)
    ensures MainCount(pages, n) <= n
    ensures |Build(pages, paths, n).files| == n - MainCount(pages, n)
  {
    if n > 0 {
      BuildCount(pages, paths, n - 1);
      BuildFiles(pages, paths, n - 1);
      var prev := Build(pages, paths, n - 1);
      match pages[n - 1]
      case None =>
      case Some(page) =>
        assert StubFrom(pages, n - 1, page.fullDocPath);
        forall f | f in prev.files ensures f != page.fullDocPath {
          var k :| StubFrom(pages, k, f) && k < n - 1;
        }
        assert Build(pages, paths, n).files.Keys == prev.files.Keys + {page.fullDocPath};
    }
  }

  /** The generator, end to end: the files are visited in sorted order,
      whatever order they were discovered in, the navigation lists their
      pages in that order, and one stub is written per file that is not a
      `__main__` file, none of them at the place of `SUMMARY.md`. */
  lemma GeneratedSite(discovered: seq<Path>)
    requires ModuleFiles(discovered)
    requires (SortedModuleFiles(discovered);
              DistinctKeys(Pages(SortPaths(discovered))) && DistinctStubs(Pages(SortPaths(discovered))))
    ensures (SortedModuleFiles(discovered);
      var paths := SortPaths(discovered); var pages := Pages(paths); var site := Build(pages, paths, |paths|);
      && Sorted(paths) && multiset(paths) == multiset(discovered)
      && site.nav == Entries(pages, |paths|)
      && SUMMARY !in site.files
      && |site.files| == |discovered| - MainCount(pages, |paths|))
  {
    SortedModuleFiles(discovered);
    var paths := SortPaths(discovered);
    var pages := Pages(paths);
    SortPathsSorted(discovered);
    BuildNav(pages, paths, |paths|);
    BuildCount(pages, paths, |paths|);
    BuildFiles(pages, paths, |paths|);
    var site := Build(pages, paths, |paths|);
    forall f | f in site.files ensures f != SUMMARY {
      var k :| StubFrom(pages, k, f) && k < |paths|;
      assert pages[k] == Translate(paths[k]);
      assert |f| > |SUMMARY|;
    }
  }
}
