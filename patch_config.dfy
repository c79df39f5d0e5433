/** `PatchConfigAnalyzer.analyze_patch`: the CONFIG options a patch needs,
    from the added lines of the C files it touches. The tree is given as
    values: for each path, the Makefiles of its directories from its own
    upwards, and its lines (None when the file cannot be read). */
module PatchConfig {
  import opened Results
  import opened Text
  import opened JudgeConfig
  import opened SourceAnalyzer

  /** The files of the kernel tree the analysis reads. */
  datatype Tree = Tree(makefiles: string -> seq<Option<string>>, sources: string -> Option<seq<string>>)

  /** Only C sources and headers are analyzed. */
  predicate IsCSource(path: string) {
    EndsWith(path, ".c") || EndsWith(path, ".h")
  }

  /** What the Makefiles give for a file: the CONFIG of the first Makefile
      that names one, nothing otherwise. */
  function MakefileConfigs(tree: Tree, path: string): (r: set<string>)
    ensures |r| <= 1 && forall c :: c in r ==> c != []
  {
    var m := MakefileSearch(tree.makefiles(path), ObjName(path), 0);
    if m.Some? then {m.value} else {}
  }

  /** What the conditions around the changed lines give for a file. */
  function SourceConfigs(tree: Tree, path: string, nums: set<int>): set<string> {
    match tree.sources(path)
    case None => {}
    case Some(lines) => Collected(ScanLines(lines).marks, nums)
  }

  /** One file's contribution: nothing for a file that is not C; the
      Makefile's answer when there is one; the source's conditions
      otherwise. */
  function FileConfigs(tree: Tree, path: string, nums: set<int>): set<string> {
    if !IsCSource(path) then {}
    else
      var m := MakefileConfigs(tree, path);
      if m != {} then m else SourceConfigs(tree, path, nums)
  }

  /** The changed lines of the patch, per file. */
  function ChangedLines(content: string): map<string, set<int>> {
    ParseLines(map[], SplitLines(content)).files
  }

  /** The union of the contributions of the files of `keys`. */
  function UnionOver(tree: Tree, files: map<string, set<int>>, keys: set<string>): set<string>
    requires keys <= files.Keys
  {
    set p, x | p in keys && x in FileConfigs(tree, p, files[p]) :: x
  }

  lemma UnionOverAdd(tree: Tree, files: map<string, set<int>>, keys: set<string>, p: string)
    requires keys <= files.Keys && p in files
    ensures UnionOver(tree, files, keys + {p}) == UnionOver(tree, files, keys) + FileConfigs(tree, p, files[p])
  {
  }

  /** `analyze_patch` as a value: nothing when the patch cannot be read,
      otherwise the union over the files it changes. */
  function PatchConfigs(content: Option<string>, tree: Tree): set<string> {
    match content
    case None => {}
    case Some(c) => var files := ChangedLines(c); UnionOver(tree, files, files.Keys)
  }

  /** `analyze_patch`: read the patch (None when that fails), parse it,
      then for each changed C file take the Makefile's CONFIG or, failing
      that, the conditions around its changed lines. */
  method AnalyzePatch(content: Option<string>, tree: Tree) returns (configs: set<string>)
    ensures configs == PatchConfigs(content, tree)
  {
    if content.None? {
      return {};
    }
    var parser := new PatchParser(content.value);
    var filesChanged := parser.Parse();
    if filesChanged == map[] {
      return {};
    }
    configs := {};
    var todo := filesChanged.Keys;
    while todo != {}
      invariant todo <= filesChanged.Keys
      invariant configs == UnionOver(tree, filesChanged, filesChanged.Keys - todo)
      decreases |todo|
    {
      var sourceFile :| sourceFile in todo;
      var found := AnalyzeFile(tree, sourceFile, filesChanged[sourceFile]);
      UnionOverAdd(tree, filesChanged, filesChanged.Keys - todo, sourceFile);
      assert filesChanged.Keys - (todo - {sourceFile}) == (filesChanged.Keys - todo) + {sourceFile};
      configs := configs + found;
      todo := todo - {sourceFile};
    }
  }

  /** The body of the loop of `analyze_patch` for one file. */
  method AnalyzeFile(tree: Tree, sourceFile: string, lineNumbers: set<int>) returns (configs: set<string>)
    ensures configs == FileConfigs(tree, sourceFile, lineNumbers)
  {
    configs := {};
    if IsCSource(sourceFile) {
      var makefileConfigs := ExtractConfigFromMakefile(sourceFile, tree.makefiles(sourceFile));
      configs := configs + makefileConfigs;
      if makefileConfigs == {} {
        var found := ExtractConfigConditions(tree.sources(sourceFile), lineNumbers);
        configs := configs + found;
      }
    }
  }

  /** A name comes from a file exactly when the file is C and the name is
      the CONFIG of its Makefile, or, when no Makefile names one, a CONFIG
      of a condition around one of its changed lines. */
  lemma FileConfigsIff(tree: Tree, p: string, nums: set<int>, c: string)
    ensures c in FileConfigs(tree, p, nums) <==>
      IsCSource(p) &&
        var m := MakefileSearch(tree.makefiles(p), ObjName(p), 0);
        (m == Some(c) || (m.None? && tree.sources(p).Some? && c in Collected(ScanLines(tree.sources(p).value).marks, nums)))
  {
  }

  /** A name is needed exactly when some changed file gives it. */
  lemma PatchConfigsIff(content: string, tree: Tree, c: string)
    ensures var files := ChangedLines(content);
      c in PatchConfigs(Some(content), tree) <==> exists p :: p in files && c in FileConfigs(tree, p, files[p])
  {
  }

  /** A file whose Makefile names a CONFIG contributes that CONFIG and
      nothing else, whatever its source says. */
  lemma MakefileShadowsSource(tree: Tree, path: string, nums: set<int>, c: string)
    requires IsCSource(path) && MakefileSearch(tree.makefiles(path), ObjName(path), 0) == Some(c)
    ensures FileConfigs(tree, path, nums) == {c}
  {
  }

  /** A patch that touches no C file, or cannot be read, needs nothing. */
  lemma NoCFilesNoConfigs(content: Option<string>, tree: Tree)
    requires content.Some? ==> forall p :: p in ChangedLines(content.value) ==> !IsCSource(p)
    ensures PatchConfigs(content, tree) == {}
  {
  }

  /** Every name found is non-empty. */
  lemma ConfigsNonEmpty(content: Option<string>, tree: Tree)
    ensures forall c :: c in PatchConfigs(content, tree) ==> c != []
  {
    if content.Some? {
      var files := ChangedLines(content.value);
      forall c | c in PatchConfigs(content, tree)
        ensures c != []
      {
        var p :| p in files && c in FileConfigs(tree, p, files[p]);
        if c !in MakefileConfigs(tree, p) {
          var lines := tree.sources(p).value;
          CollectedIff(ScanLines(lines).marks, files[p], c);
        }
      }
    }
  }
}
