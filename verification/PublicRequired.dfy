/** The exporter's own tables and required files: every repository that tracks the required
    files, and one more spelled with a backslash, has its export refused. */
module PublicRequired {
  import opened Text
  import opened PublicManifest
  import opened PublicExport
  import opened PublicSelection

  function Below(directory: string, name: string): string { directory + "/" + name }

  const CONDUCT: string := "CODE_OF_CONDUCT.md"
  const CONTRIBUTING: string := "CONTRIBUTING.md"
  const LICENSE: string := "LICENSE"
  const SECURITY: string := "SECURITY.md"
  const BOUNDARY: string := Below("docs", "PUBLICATION_BOUNDARY.md")
  const CARGO_LICENSES: string := Below("docs", "CARGO_LICENSES.locked.json")
  const BINARY_REVIEW: string := Below("docs", "PUBLIC_BINARY_REVIEW.json")
  const HISTORY_REVIEW: string := Below("docs", "PUBLIC_BINARY_HISTORY_REVIEW.json")
  const CHECK_PAGES: string := Below("tools", "check_public_pages.py")
  const CHECK_REPOSITORY: string := Below("tools", "check_public_repository.py")
  const PACKAGE_LOCK: string := Below("web", "package-lock.json")
  const REPLAY: string := Below("web", Below("public", "public-replay.v1.json"))

  /** The required files that are public by name. */
  const BY_NAME: set<string> :=
    {CONDUCT, CONTRIBUTING, LICENSE, SECURITY, BOUNDARY, CARGO_LICENSES, BINARY_REVIEW, HISTORY_REVIEW, PUBLIC_README}

  /** The files without which nothing is exported. */
  const REQUIRED: set<string> := BY_NAME + {TEMPLATE, CHECK_PAGES, CHECK_REPOSITORY, PACKAGE_LOCK, REPLAY}

  function LowerChar(c: char): char { if 'A' <= c <= 'Z' then (c as int + 32) as char else c }

  predicate Ascii(s: string) { forall c | c in s :: c as int < 128 }

  /** What case folding does to ASCII texts. */
  ghost predicate FoldsAscii(fold: string -> string) {
    forall s | Ascii(s) :: |fold(s)| == |s| && forall i | 0 <= i < |s| :: fold(s)[i] == LowerChar(s[i])
  }

  // ---------------------------------------------------------------- paths of plain words

  predicate WordChar(c: char) {
    'a' <= c <= 'z' || 'A' <= c <= 'Z' || '0' <= c <= '9' || c == '.' || c == '_' || c == '-'
  }

  /** A segment of letters, digits and a few signs that does not start with a dot. */
  predicate Word(part: string) { part != "" && part[0] != '.' && forall i | 0 <= i < |part| :: WordChar(part[i]) }

  predicate Innocent(parts: seq<string>) { parts != [] && forall i | 0 <= i < |parts| :: Word(parts[i]) }

  lemma WordIsGood(part: string, fold: string -> string, last: bool)
    requires FoldsAscii(fold) && Word(part)
    ensures GoodPart(part) && !EnvPart(fold(part), last) && '/' !in part
  {
    assert Ascii(part);
    assert fold(part)[0] == LowerChar(part[0]) != '.';
  }

  lemma InnocentParts(parts: seq<string>, fold: string -> string)
    requires FoldsAscii(fold) && Innocent(parts)
    ensures GoodParts(parts, fold) && forall p | p in parts :: '/' !in p
  {
    forall i | 0 <= i < |parts|
      ensures GoodPart(parts[i]) && !EnvPart(fold(parts[i]), i == |parts| - 1) && '/' !in parts[i]
    {
      WordIsGood(parts[i], fold, i == |parts| - 1);
    }
  }

  lemma {:induction false} InnocentPath(parts: seq<string>)
    requires Innocent(parts)
    ensures Ascii(Join(parts, '/')) && '\\' !in Join(parts, '/')
  {
    assert Word(parts[0]);
    if |parts| > 1 { InnocentPath(parts[1..]); }
  }

  /** No prefix agrees with these first two characters and this fifth one. */
  predicate StartsClear(a: char, b: char, e: char, prefixes: seq<string>) {
    forall i | 0 <= i < |prefixes| ::
      && |prefixes[i]| > 1
      && (prefixes[i][0] != a || prefixes[i][1] != b || (|prefixes[i]| > 4 && prefixes[i][4] != e))
  }

  predicate Ends(s: string, c: char, d: char) { |s| > 1 && s[|s| - 2] == c && s[|s| - 1] == d }

  predicate EndsClear(c: char, d: char, suffixes: seq<string>) {
    forall i | 0 <= i < |suffixes| :: |suffixes[i]| > 1 && !Ends(suffixes[i], c, d)
  }

  predicate Dotted(names: seq<string>) { forall i | 0 <= i < |names| :: names[i] != "" && names[i][0] == '.' }

  lemma EndOfSuffix(path: string, suffix: string, c: char, d: char)
    requires |suffix| > 1 && Ends(path, c, d) && !Ends(suffix, c, d)
    ensures !HasSuffix(path, suffix)
  {
    if |suffix| < |path| {
      var end := path[|path| - |suffix|..];
      assert end[|suffix| - 2] == path[|path| - 2] && end[|suffix| - 1] == path[|path| - 1];
    }
  }

  lemma ClearIsNotForbidden(tables: Tables, lowered: string, c: char, d: char)
    requires |lowered| > 4 && lowered[0] != '.' && Dotted(tables.noNames)
    requires StartsClear(lowered[0], lowered[1], lowered[4], tables.noPrefixes)
    requires Ends(lowered, c, d) && EndsClear(c, d, tables.noSuffixes)
    ensures !Forbidden(tables, lowered)
  {
    forall i | 0 <= i < |tables.noSuffixes| ensures !HasSuffix(lowered, tables.noSuffixes[i]) {
      EndOfSuffix(lowered, tables.noSuffixes[i], c, d);
    }
  }

  /** What a path of words looks like in lower case: three characters in front, two at the end. */
  predicate Looks(path: string, a: char, b: char, e: char, c: char, d: char) {
    && |path| > 4 && LowerChar(path[0]) == a && LowerChar(path[1]) == b && LowerChar(path[4]) == e
    && LowerChar(path[|path| - 2]) == c && LowerChar(path[|path| - 1]) == d
  }

  predicate Allows(tables: Tables, c: char, d: char) { EndsClear(c, d, tables.noSuffixes) }

  predicate Opens(tables: Tables, a: char, b: char, e: char) { a != '.' && StartsClear(a, b, e, tables.noPrefixes) }

  predicate Clear(tables: Tables, a: char, b: char, e: char, c: char, d: char) {
    Dotted(tables.noNames) && Opens(tables, a, b, e) && Allows(tables, c, d)
  }

  lemma InnocentIsSelected(tables: Tables, fold: string -> string, parts: seq<string>, path: string,
                           a: char, b: char, e: char, c: char, d: char)
    requires FoldsAscii(fold) && Innocent(parts) && Join(parts, '/') == path
    requires Looks(path, a, b, e, c, d) && Clear(tables, a, b, e, c, d)
    requires path in tables.exact || StartsWith(path, tables.prefixes)
    ensures Selects(tables, fold, path)
  {
    InnocentParts(parts, fold);
    InnocentPath(parts);
    SplitJoin(parts, '/');
    ClearIsNotForbidden(tables, fold(path), c, d);
  }

  lemma JoinOne(a: string)
    ensures Join([a], '/') == a
  {
  }

  lemma JoinTwo(a: string, b: string)
    ensures Join([a, b], '/') == Below(a, b)
  {
    assert [a, b][1..] == [b];
  }

  lemma JoinThree(a: string, b: string, c: string)
    ensures Join([a, b, c], '/') == Below(a, Below(b, c))
  {
    assert [a, b, c][1..] == [b, c];
    JoinTwo(b, c);
  }

  lemma LooksBelow(directory: string, name: string, c: char, d: char)
    requires |directory| > 2 && |name| > 1 && Ends(name, c, d) && LowerChar(c) == c && LowerChar(d) == d
    ensures var path := Below(directory, name);
      && |path| > 4 && Ends(path, c, d) && path[0] == directory[0] && path[1] == directory[1]
      && path[4] == if |directory| > 4 then directory[4] else if |directory| == 4 then '/' else name[0]
  {
  }

  predicate Covers(tables: Tables, directory: string) { directory + "/" in tables.prefixes }

  /** What the tables must be like for the required files to be selected. */
  predicate Suited(tables: Tables) {
    && BY_NAME <= tables.exact && Dotted(tables.noNames)
    && Opens(tables, 'c', 'o', '_') && Opens(tables, 'c', 'o', 'r') && Opens(tables, 's', 'e', 'r')
    && Opens(tables, 'l', 'i', 'n') && Opens(tables, 'd', 'o', '/') && Opens(tables, 't', 'o', 's')
    && Opens(tables, 'w', 'e', 'p') && Opens(tables, 's', 'r', 'l')
    && Allows(tables, 'm', 'd') && Allows(tables, 'o', 'n') && Allows(tables, 'p', 'y')
    && Allows(tables, 'm', 'l') && Allows(tables, 's', 'e') && Allows(tables, 'r', 's')
    && Covers(tables, "tools") && Covers(tables, "web") && Covers(tables, "src")
  }

  // ---------------------------------------------------------------- the required files, one by one

  /** A word with this ending in lower case. */
  predicate Name(s: string, c: char, d: char) { Word(s) && Ends(s, c, d) && LowerChar(c) == c && LowerChar(d) == d }

  lemma ConductName()
    ensures Name(CONDUCT, 'm', 'd')
  {
  }

  lemma ContributingName()
    ensures Name(CONTRIBUTING, 'm', 'd')
  {
  }

  lemma SecurityName()
    ensures Name(SECURITY, 'm', 'd')
  {
  }

  lemma BoundaryName()
    ensures Name("PUBLICATION_BOUNDARY.md", 'm', 'd')
  {
  }

  lemma CargoLicensesName()
    ensures Name("CARGO_LICENSES.locked.json", 'o', 'n')
  {
  }

  lemma BinaryReviewName()
    ensures Name("PUBLIC_BINARY_REVIEW.json", 'o', 'n')
  {
  }

  lemma HistoryReviewName()
    ensures Name("PUBLIC_BINARY_HISTORY_REVIEW.json", 'o', 'n')
  {
  }

  lemma PublicReadmeName()
    ensures Name("PUBLIC_REPOSITORY_README.md", 'm', 'd')
  {
  }

  lemma CheckPagesName()
    ensures Name("check_public_pages.py", 'p', 'y')
  {
  }

  lemma CheckRepositoryName()
    ensures Name("check_public_repository.py", 'p', 'y')
  {
  }

  lemma PackageLockName()
    ensures Name("package-lock.json", 'o', 'n')
  {
  }

  lemma ReplayName()
    ensures Name("public-replay.v1.json", 'o', 'n')
  {
  }

  lemma PagesName()
    ensures Name("public-pages.yml", 'm', 'l')
  {
  }

  lemma SpareName()
    ensures Name("lib.rs", 'r', 's')
  {
  }

  lemma LicenseLooks()
    ensures Word(LICENSE) && Looks(LICENSE, 'l', 'i', 'n', 's', 'e')
  {
  }

  lemma TopLooks()
    ensures Looks(CONDUCT, 'c', 'o', '_', 'm', 'd') && Looks(CONTRIBUTING, 'c', 'o', 'r', 'm', 'd')
    ensures Looks(SECURITY, 's', 'e', 'r', 'm', 'd')
  {
  }

  lemma DirectoryWords()
    ensures Word("docs") && Word("tools") && Word("web") && Word("src") && Word("public") && Word("templates")
  {
  }

  lemma TopSelected(tables: Tables, fold: string -> string, name: string, a: char, b: char, e: char, c: char, d: char)
    requires FoldsAscii(fold) && Word(name) && name in tables.exact
    requires Looks(name, a, b, e, c, d) && Clear(tables, a, b, e, c, d)
    ensures Selects(tables, fold, name)
  {
    JoinOne(name);
    InnocentIsSelected(tables, fold, [name], name, a, b, e, c, d);
  }

  lemma BelowPublic(prefixes: seq<string>, directory: string, name: string)
    requires directory + "/" in prefixes
    ensures StartsWith(Below(directory, name), prefixes)
  {
    var i :| 0 <= i < |prefixes| && prefixes[i] == directory + "/";
    assert prefixes[i] <= Below(directory, name);
  }

  lemma BelowSelected(tables: Tables, fold: string -> string, directory: string, name: string,
                      a: char, b: char, e: char, c: char, d: char)
    requires FoldsAscii(fold) && Word(directory) && |directory| > 2 && Name(name, c, d)
    requires Looks(Below(directory, name), a, b, e, c, d) && Clear(tables, a, b, e, c, d)
    requires Below(directory, name) in tables.exact || Covers(tables, directory)
    ensures Selects(tables, fold, Below(directory, name))
  {
    JoinTwo(directory, name);
    if Covers(tables, directory) { BelowPublic(tables.prefixes, directory, name); }
    InnocentIsSelected(tables, fold, [directory, name], Below(directory, name), a, b, e, c, d);
  }

  lemma DeepSelected(tables: Tables, fold: string -> string, directory: string, inner: string, name: string,
                     a: char, b: char, e: char, c: char, d: char)
    requires FoldsAscii(fold) && Word(directory) && |directory| > 2 && Word(inner) && Name(name, c, d)
    requires Looks(Below(directory, Below(inner, name)), a, b, e, c, d) && Clear(tables, a, b, e, c, d)
    requires Covers(tables, directory)
    ensures Selects(tables, fold, Below(directory, Below(inner, name)))
  {
    JoinThree(directory, inner, name);
    BelowPublic(tables.prefixes, directory, Below(inner, name));
    InnocentIsSelected(tables, fold, [directory, inner, name], Below(directory, Below(inner, name)), a, b, e, c, d);
  }

  lemma DocSelected(tables: Tables, fold: string -> string, name: string, c: char, d: char)
    requires FoldsAscii(fold) && Name(name, c, d) && Clear(tables, 'd', 'o', '/', c, d) && Below("docs", name) in tables.exact
    ensures Selects(tables, fold, Below("docs", name))
  {
    DirectoryWords();
    LooksBelow("docs", name, c, d);
    BelowSelected(tables, fold, "docs", name, 'd', 'o', '/', c, d);
  }

  lemma ToolSelected(tables: Tables, fold: string -> string, name: string)
    requires FoldsAscii(fold) && Name(name, 'p', 'y') && Clear(tables, 't', 'o', 's', 'p', 'y') && Covers(tables, "tools")
    ensures Selects(tables, fold, Below("tools", name))
  {
    DirectoryWords();
    LooksBelow("tools", name, 'p', 'y');
    BelowSelected(tables, fold, "tools", name, 't', 'o', 's', 'p', 'y');
  }

  lemma ConductSelected(tables: Tables, fold: string -> string)
    requires FoldsAscii(fold) && CONDUCT in tables.exact && Clear(tables, 'c', 'o', '_', 'm', 'd')
    ensures Chosen(tables, fold)(CONDUCT)
  {
    TopLooks();
    ConductName();
    TopSelected(tables, fold, CONDUCT, 'c', 'o', '_', 'm', 'd');
  }

  lemma ContributingSelected(tables: Tables, fold: string -> string)
    requires FoldsAscii(fold) && CONTRIBUTING in tables.exact && Clear(tables, 'c', 'o', 'r', 'm', 'd')
    ensures Chosen(tables, fold)(CONTRIBUTING)
  {
    TopLooks();
    ContributingName();
    TopSelected(tables, fold, CONTRIBUTING, 'c', 'o', 'r', 'm', 'd');
  }

  lemma SecuritySelected(tables: Tables, fold: string -> string)
    requires FoldsAscii(fold) && SECURITY in tables.exact && Clear(tables, 's', 'e', 'r', 'm', 'd')
    ensures Chosen(tables, fold)(SECURITY)
  {
    TopLooks();
    SecurityName();
    TopSelected(tables, fold, SECURITY, 's', 'e', 'r', 'm', 'd');
  }

  lemma LicenseSelected(tables: Tables, fold: string -> string)
    requires FoldsAscii(fold) && LICENSE in tables.exact && Clear(tables, 'l', 'i', 'n', 's', 'e')
    ensures Chosen(tables, fold)(LICENSE)
  {
    LicenseLooks();
    TopSelected(tables, fold, LICENSE, 'l', 'i', 'n', 's', 'e');
  }

  lemma ReviewFiles(tables: Tables, fold: string -> string)
    requires FoldsAscii(fold) && BY_NAME <= tables.exact && Clear(tables, 'd', 'o', '/', 'm', 'd')
    requires Clear(tables, 'd', 'o', '/', 'o', 'n')
    ensures Chosen(tables, fold)(BOUNDARY) && Chosen(tables, fold)(CARGO_LICENSES)
    ensures Chosen(tables, fold)(BINARY_REVIEW) && Chosen(tables, fold)(HISTORY_REVIEW)
  {
    BoundaryName();
    CargoLicensesName();
    BinaryReviewName();
    HistoryReviewName();
    DocSelected(tables, fold, "PUBLICATION_BOUNDARY.md", 'm', 'd');
    DocSelected(tables, fold, "CARGO_LICENSES.locked.json", 'o', 'n');
    DocSelected(tables, fold, "PUBLIC_BINARY_REVIEW.json", 'o', 'n');
    DocSelected(tables, fold, "PUBLIC_BINARY_HISTORY_REVIEW.json", 'o', 'n');
  }

  lemma ReadmeIsBelow()
    ensures PUBLIC_README == Below("docs", "PUBLIC_REPOSITORY_README.md")
  {
  }

  lemma ReadmeSelected(tables: Tables, fold: string -> string)
    requires FoldsAscii(fold) && PUBLIC_README in tables.exact && Clear(tables, 'd', 'o', '/', 'm', 'd')
    ensures Chosen(tables, fold)(PUBLIC_README)
  {
    PublicReadmeName();
    ReadmeIsBelow();
    DocSelected(tables, fold, "PUBLIC_REPOSITORY_README.md", 'm', 'd');
  }

  lemma CheckFiles(tables: Tables, fold: string -> string)
    requires FoldsAscii(fold) && Clear(tables, 't', 'o', 's', 'p', 'y') && Covers(tables, "tools")
    ensures Chosen(tables, fold)(CHECK_PAGES) && Chosen(tables, fold)(CHECK_REPOSITORY)
  {
    CheckPagesName();
    CheckRepositoryName();
    ToolSelected(tables, fold, "check_public_pages.py");
    ToolSelected(tables, fold, "check_public_repository.py");
  }

  lemma TemplateIsBelow()
    ensures TEMPLATE == Below("tools", Below("templates", "public-pages.yml"))
    ensures Looks(TEMPLATE, 't', 'o', 's', 'm', 'l')
  {
  }

  lemma TemplateSelected(tables: Tables, fold: string -> string)
    requires FoldsAscii(fold) && Clear(tables, 't', 'o', 's', 'm', 'l') && Covers(tables, "tools")
    ensures Chosen(tables, fold)(TEMPLATE)
  {
    DirectoryWords();
    PagesName();
    TemplateIsBelow();
    DeepSelected(tables, fold, "tools", "templates", "public-pages.yml", 't', 'o', 's', 'm', 'l');
  }

  lemma WebLooks()
    ensures Looks(PACKAGE_LOCK, 'w', 'e', 'p', 'o', 'n') && Looks(REPLAY, 'w', 'e', 'p', 'o', 'n')
  {
    PackageLockName();
    ReplayName();
    LooksBelow("web", "package-lock.json", 'o', 'n');
    LooksBelow("public", "public-replay.v1.json", 'o', 'n');
    LooksBelow("web", Below("public", "public-replay.v1.json"), 'o', 'n');
  }

  lemma WebFiles(tables: Tables, fold: string -> string)
    requires FoldsAscii(fold) && Clear(tables, 'w', 'e', 'p', 'o', 'n') && Covers(tables, "web")
    ensures Chosen(tables, fold)(PACKAGE_LOCK) && Chosen(tables, fold)(REPLAY)
  {
    DirectoryWords();
    PackageLockName();
    ReplayName();
    WebLooks();
    BelowSelected(tables, fold, "web", "package-lock.json", 'w', 'e', 'p', 'o', 'n');
    DeepSelected(tables, fold, "web", "public", "public-replay.v1.json", 'w', 'e', 'p', 'o', 'n');
  }

  // ---------------------------------------------------------------- exports that refuse themselves

  const SPARE: string := Below("src", "lib.rs")
  const TURNED: string := "src\\lib.rs"

  lemma SpareTurned()
    ensures |SPARE| > 3 && SPARE[3] == '/' && SPARE[3 := '\\'] == TURNED
  {
  }

  lemma SpareSelected(tables: Tables, fold: string -> string)
    requires FoldsAscii(fold) && Clear(tables, 's', 'r', 'l', 'r', 's') && Covers(tables, "src")
    ensures Chosen(tables, fold)(SPARE)
  {
    DirectoryWords();
    SpareName();
    LooksBelow("src", "lib.rs", 'r', 's');
    BelowSelected(tables, fold, "src", "lib.rs", 's', 'r', 'l', 'r', 's');
  }

  /** A repository that tracks the required files, all of whose files are there. */
  predicate Tracks(tracked: seq<string>, source: Files, required: set<string>) {
    Present(tracked, source) && required <= set p | p in tracked
  }

  predicate ChoosesAll(required: set<string>, chosen: string -> bool) {
    forall p {:trigger chosen(p)} | p in required :: chosen(p)
  }

  /** If all required files are chosen, what is chosen is complete. */
  lemma ChosenIsComplete(tracked: seq<string>, source: Files, chosen: string -> bool, required: set<string>)
    requires Tracks(tracked, source, required) && ChoosesAll(required, chosen)
    ensures Complete(Selection(tracked, chosen), source, required)
  {
    SelectionMembers(tracked, chosen);
    var selected := Selection(tracked, chosen);
    forall k | 0 <= k < |selected| ensures selected[k] in source {
      assert selected[k] in tracked;
      var j :| 0 <= j < |tracked| && tracked[j] == selected[k];
    }
    forall p | p in required ensures p in selected { assert chosen(p); }
  }

  lemma FourteenChosen(chosen: string -> bool)
    requires chosen(CONDUCT) && chosen(CONTRIBUTING) && chosen(LICENSE) && chosen(SECURITY) && chosen(BOUNDARY)
    requires chosen(CARGO_LICENSES) && chosen(BINARY_REVIEW) && chosen(HISTORY_REVIEW) && chosen(PUBLIC_README)
    requires chosen(TEMPLATE) && chosen(CHECK_PAGES) && chosen(CHECK_REPOSITORY) && chosen(PACKAGE_LOCK) && chosen(REPLAY)
    ensures ChoosesAll(REQUIRED, chosen)
  {
  }

  /** Every required file is selected. */
  lemma RequiredSelected(tables: Tables, fold: string -> string)
    requires FoldsAscii(fold) && Suited(tables)
    ensures ChoosesAll(REQUIRED, Chosen(tables, fold))
  {
    ConductSelected(tables, fold);
    ContributingSelected(tables, fold);
    SecuritySelected(tables, fold);
    LicenseSelected(tables, fold);
    ReviewFiles(tables, fold);
    ReadmeSelected(tables, fold);
    CheckFiles(tables, fold);
    TemplateSelected(tables, fold);
    WebFiles(tables, fold);
    FourteenChosen(Chosen(tables, fold));
  }

  // ---------------------------------------------------------------- the tool's tables

  lemma NamesDotted()
    ensures Dotted(FORBIDDEN_NAMES)
  {
  }

  lemma SuffixesClear()
    ensures EndsClear('m', 'd', FORBIDDEN_SUFFIXES) && EndsClear('o', 'n', FORBIDDEN_SUFFIXES)
    ensures EndsClear('p', 'y', FORBIDDEN_SUFFIXES)
  {
  }

  lemma MoreSuffixesClear()
    ensures EndsClear('m', 'l', FORBIDDEN_SUFFIXES) && EndsClear('s', 'e', FORBIDDEN_SUFFIXES)
    ensures EndsClear('r', 's', FORBIDDEN_SUFFIXES)
  {
  }

  lemma DocsClear()
    ensures StartsClear('d', 'o', '/', FORBIDDEN_PREFIXES)
  {
  }

  lemma ToolsClear()
    ensures StartsClear('t', 'o', 's', FORBIDDEN_PREFIXES)
  {
  }

  lemma WebClear()
    ensures StartsClear('w', 'e', 'p', FORBIDDEN_PREFIXES)
  {
  }

  lemma SourceClear()
    ensures StartsClear('s', 'r', 'l', FORBIDDEN_PREFIXES)
  {
  }

  lemma PublicDirectories()
    ensures "tools" + "/" in PUBLIC_PREFIXES && "web" + "/" in PUBLIC_PREFIXES && "src" + "/" in PUBLIC_PREFIXES
  {
    assert PUBLIC_PREFIXES[13] == "tools" + "/" && PUBLIC_PREFIXES[14] == "web" + "/" && PUBLIC_PREFIXES[11] == "src" + "/";
  }

  lemma TopClear()
    ensures StartsClear('c', 'o', '_', FORBIDDEN_PREFIXES) && StartsClear('c', 'o', 'r', FORBIDDEN_PREFIXES)
    ensures StartsClear('s', 'e', 'r', FORBIDDEN_PREFIXES)
  {
  }

  lemma LicenseClear()
    ensures StartsClear('l', 'i', 'n', FORBIDDEN_PREFIXES)
  {
  }

  lemma PublicSuited(exact: set<string>)
    requires BY_NAME <= exact
    ensures Suited(PublicTables(exact))
  {
    NamesDotted();
    TopClear();
    LicenseClear();
    DocsClear();
    ToolsClear();
    WebClear();
    SourceClear();
    SuffixesClear();
    MoreSuffixesClear();
    PublicDirectories();
  }

  lemma PublicSpare(exact: set<string>, fold: string -> string)
    requires FoldsAscii(fold) && BY_NAME <= exact
    ensures Chosen(PublicTables(exact), fold)(SPARE)
  {
    PublicSuited(exact);
    SpareSelected(PublicTables(exact), fold);
  }

  lemma PublicSelected(exact: set<string>, fold: string -> string)
    requires FoldsAscii(fold) && BY_NAME <= exact
    ensures ChoosesAll(REQUIRED, Chosen(PublicTables(exact), fold))
  {
    PublicSuited(exact);
    RequiredSelected(PublicTables(exact), fold);
  }

  /** Under the tool's own tables and required files, every repository that tracks the required
      files can no longer be exported once it also tracks `src\lib.rs`: the export is complete
      and its own check refuses it.  `exact` is the tool's table of names. */
  lemma OneRefusedExport(exact: set<string>, fold: string -> string, tracked: seq<string>, source: Files, n: nat, data: string)
    requires FoldsAscii(fold) && BY_NAME <= exact && Tracks(tracked, source, REQUIRED) && n <= |tracked|
    ensures RefusesItself(InsertAt(tracked, n, TURNED), source[TURNED := data], REQUIRED, Chosen(PublicTables(exact), fold))
  {
    PublicSelected(exact, fold);
    ChosenIsComplete(tracked, source, Chosen(PublicTables(exact), fold), REQUIRED);
    PublicSpare(exact, fold);
    SpareTurned();
    BackslashRefused(PublicTables(exact), fold, tracked, source, REQUIRED, n, SPARE, 3, data);
  }
}
