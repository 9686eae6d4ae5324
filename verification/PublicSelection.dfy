/** `_selected`: which tracked paths are public.  The rule reads backslashes as slashes, the
    copying does not: the exporter's own check can therefore refuse what it selected. */
module PublicSelection {
  import opened Text
  import opened PublicManifest
  import opened PublicExport

  const PUBLIC_PREFIXES: seq<string> :=
    ["adapters/", "agentteams/", "benchmarks/", "desktop/", "examples/", "gateway/src/", "reviewer_workbench/",
     "rulepacks/", "sample_data/", "schemas/", "skills/", "src/", "tests/", "tools/", "web/"]

  const FORBIDDEN_PREFIXES: seq<string> :=
    [".git/", ".playwright-cli/", ".pytest_cache/", "07_results/", "10_reports/", "deliverables/", "desktop/build/",
     "desktop/dist/", "evidence/", "output/", "release/", "tmp/", "web/dist/", "web/node_modules/",
     "web/src-tauri/target/", "website/"]

  const FORBIDDEN_NAMES: seq<string> := [".env", ".env.local", ".streamlit/secrets.toml"]

  const FORBIDDEN_SUFFIXES: seq<string> :=
    [".db", ".key", ".log", ".mp4", ".pdf", ".pptx", ".p12", ".pem", ".pfx", ".sqlite", ".sqlite3", ".zip"]

  /** The tables of the rule; `exact` are the paths that are public by name. */
  datatype Tables = Tables(
    exact: set<string>, prefixes: seq<string>,
    noPrefixes: seq<string>, noNames: seq<string>, noSuffixes: seq<string>)

  function PublicTables(exact: set<string>): Tables {
    Tables(exact, PUBLIC_PREFIXES, FORBIDDEN_PREFIXES, FORBIDDEN_NAMES, FORBIDDEN_SUFFIXES)
  }

  predicate StartsWith(path: string, prefixes: seq<string>) {
    exists i | 0 <= i < |prefixes| :: prefixes[i] <= path
  }

  /** `Path(path).suffix` is the given one, which has its only dot in front. */
  predicate HasSuffix(path: string, suffix: string) {
    && |suffix| < |path| && path[|path| - |suffix|..] == suffix
    && path[|path| - |suffix| - 1] != '/'
  }

  predicate HasAnySuffix(path: string, suffixes: seq<string>) {
    exists i | 0 <= i < |suffixes| :: HasSuffix(path, suffixes[i])
  }

  /** One segment of `_contains_forbidden_env_path`. */
  predicate EnvPart(part: string, last: bool) {
    part == ".env" || (".env." <= part && !(part == ".env.example" && last))
  }

  predicate GoodPart(part: string) {
    part != "" && part != "." && part != ".." && forall c | c in part :: c != ':' && c as int >= 32
  }

  predicate GoodParts(parts: seq<string>, fold: string -> string) {
    forall i | 0 <= i < |parts| :: GoodPart(parts[i]) && !EnvPart(fold(parts[i]), i == |parts| - 1)
  }

  predicate Forbidden(tables: Tables, lowered: string) {
    lowered in tables.noNames || StartsWith(lowered, tables.noPrefixes) || HasAnySuffix(lowered, tables.noSuffixes)
  }

  /** `_selected`. */
  predicate Selects(tables: Tables, fold: string -> string, path: string) {
    var normal := Slashed(path);
    && GoodParts(Split(normal, '/'), fold) && !Forbidden(tables, fold(normal))
    && (normal in tables.exact || StartsWith(normal, tables.prefixes))
  }

  /** A slash that is turned into a backslash does not show after normalisation. */
  lemma SlashTurned(tables: Tables, fold: string -> string, path: string, i: nat)
    requires i < |path| && path[i] == '/'
    ensures Slashed(path[i := '\\']) == Slashed(path)
    ensures Selects(tables, fold, path[i := '\\']) <==> Selects(tables, fold, path)
  {
    var turned := path[i := '\\'];
    forall k | 0 <= k < |path| ensures Slashed(turned)[k] == Slashed(path)[k] {
      SlashedAt(turned, k);
      SlashedAt(path, k);
    }
  }

  // ---------------------------------------------------------------- exports that refuse themselves

  function Chosen(tables: Tables, fold: string -> string): string -> bool { path => Selects(tables, fold, path) }

  function InsertAt(tracked: seq<string>, n: nat, path: string): seq<string>
    requires n <= |tracked|
  {
    tracked[..n] + [path] + tracked[n..]
  }

  lemma InsertedMembers(tracked: seq<string>, n: nat, path: string)
    requires n <= |tracked|
    ensures forall p :: p in InsertAt(tracked, n, path) <==> p in tracked || p == path
  {
    assert tracked == tracked[..n] + tracked[n..];
  }

  /** A further chosen path, with its file, keeps an export complete. */
  lemma CompleteWithOneMore(tracked: seq<string>, source: Files, required: set<string>, chosen: string -> bool,
                            n: nat, path: string, data: string)
    requires n <= |tracked| && Complete(Selection(tracked, chosen), source, required) && chosen(path)
    ensures var selected := Selection(InsertAt(tracked, n, path), chosen);
      path in selected && Complete(selected, source[path := data], required)
  {
    var before, after := Selection(tracked, chosen), Selection(InsertAt(tracked, n, path), chosen);
    InsertedMembers(tracked, n, path);
    SelectionMembers(tracked, chosen);
    SelectionMembers(InsertAt(tracked, n, path), chosen);
    forall k | 0 <= k < |after| ensures after[k] in source[path := data] {
      assert after[k] in after;
      if after[k] in before {
        var j :| 0 <= j < |before| && before[j] == after[k];
      }
    }
    forall p | p in required ensures p in after { assert p in before; }
  }

  /** The export has all it needs, and its own check refuses it. */
  ghost predicate RefusesItself(tracked: seq<string>, source: Files, required: set<string>, chosen: string -> bool) {
    Complete(Selection(tracked, chosen), source, required) && !SlashlessPaths(Selection(tracked, chosen))
  }

  /** Any complete export, with one more tracked path that is spelled with a backslash, is still
      complete and is refused by the exporter's own check. */
  lemma BackslashRefused(tables: Tables, fold: string -> string, tracked: seq<string>, source: Files, required: set<string>,
                         n: nat, path: string, i: nat, data: string)
    requires n <= |tracked| && Complete(Selection(tracked, Chosen(tables, fold)), source, required)
    requires Selects(tables, fold, path) && i < |path| && path[i] == '/'
    ensures var turned := path[i := '\\'];
      RefusesItself(InsertAt(tracked, n, turned), source[turned := data], required, Chosen(tables, fold))
  {
    var turned := path[i := '\\'];
    SlashTurned(tables, fold, path, i);
    CompleteWithOneMore(tracked, source, required, Chosen(tables, fold), n, turned, data);
    var selected := Selection(InsertAt(tracked, n, turned), Chosen(tables, fold));
    var k :| 0 <= k < |selected| && selected[k] == turned;
    assert turned[i] == '\\' && '\\' in selected[k];
  }

  // ---------------------------------------------------------------- the rule, path by path

  /** A file name, with the given extension, at the end of a path. */
  ghost predicate EndsIn(path: string, extension: string) {
    exists k :: 0 < k <= |path| && path[k - 1] != '/' && path[k..] == extension
  }

  lemma SuffixEnds(path: string, suffix: string)
    ensures HasSuffix(path, suffix) <==> EndsIn(path, suffix)
  {
    if HasSuffix(path, suffix) {
      var k := |path| - |suffix|;
      assert 0 < k <= |path| && path[k - 1] != '/' && path[k..] == suffix;
    }
  }

  lemma AnySuffixEnds(path: string, suffixes: seq<string>)
    ensures HasAnySuffix(path, suffixes) <==> exists e :: e in suffixes && EndsIn(path, e)
  {
    forall i | 0 <= i < |suffixes| ensures HasSuffix(path, suffixes[i]) <==> EndsIn(path, suffixes[i]) {
      SuffixEnds(path, suffixes[i]);
    }
  }

  /** Empty, relative or unprintable segments, and environment files except a final example. */
  ghost predicate UnwantedSegment(part: string, lowered: string, last: bool) {
    || part == "" || part == "." || part == ".." || ':' in part || (exists c | c in part :: c < ' ')
    || lowered == ".env" || (".env." <= lowered && (lowered != ".env.example" || !last))
  }

  lemma GoodUnlessUnwanted(parts: seq<string>, fold: string -> string)
    ensures GoodParts(parts, fold) <==>
              forall i | 0 <= i < |parts| :: !UnwantedSegment(parts[i], fold(parts[i]), i == |parts| - 1)
  {
    forall i | 0 <= i < |parts|
      ensures GoodPart(parts[i]) && !EnvPart(fold(parts[i]), i == |parts| - 1)
         <==> !UnwantedSegment(parts[i], fold(parts[i]), i == |parts| - 1)
    {
    }
  }

  lemma BeginsWithMember(path: string, prefixes: seq<string>)
    ensures StartsWith(path, prefixes) <==> exists p :: p in prefixes && p <= path
  {
    if StartsWith(path, prefixes) {
      var i :| 0 <= i < |prefixes| && prefixes[i] <= path;
      assert prefixes[i] in prefixes;
    }
  }

  ghost predicate Kept(tables: Tables, lowered: string) {
    && lowered !in tables.noNames && !(exists p :: p in tables.noPrefixes && p <= lowered)
    && !(exists e :: e in tables.noSuffixes && EndsIn(lowered, e))
  }

  lemma ForbiddenUnlessKept(tables: Tables, lowered: string)
    ensures Forbidden(tables, lowered) <==> !Kept(tables, lowered)
  {
    BeginsWithMember(lowered, tables.noPrefixes);
    AnySuffixEnds(lowered, tables.noSuffixes);
  }

  /** Which paths are public: those listed or under a public prefix, without an unwanted segment,
      and, folded, without a forbidden name, prefix or extension. */
  lemma SelectedExactly(tables: Tables, fold: string -> string, path: string, parts: seq<string>)
    requires parts != [] && Slashed(path) == Join(parts, '/') && forall part | part in parts :: '/' !in part
    ensures Selects(tables, fold, path) <==>
      && (Slashed(path) in tables.exact || exists p :: p in tables.prefixes && p <= Slashed(path))
      && (forall i | 0 <= i < |parts| :: !UnwantedSegment(parts[i], fold(parts[i]), i == |parts| - 1))
      && Kept(tables, fold(Slashed(path)))
  {
    SplitJoin(parts, '/');
    GoodUnlessUnwanted(parts, fold);
    ForbiddenUnlessKept(tables, fold(Slashed(path)));
    BeginsWithMember(Slashed(path), tables.prefixes);
  }

  // ---------------------------------------------------------------- what is never selected

  /** No public prefix starts with this character. */
  predicate NoPrefixStarts(c: char, prefixes: seq<string>) {
    forall i | 0 <= i < |prefixes| :: prefixes[i] != "" && prefixes[i][0] != c
  }

  lemma PublicPrefixesAreLower()
    ensures NoPrefixStarts('.', PUBLIC_PREFIXES) && NoPrefixStarts('R', PUBLIC_PREFIXES) && NoPrefixStarts('P', PUBLIC_PREFIXES)
  {
  }

  lemma GeneratedStarts()
    ensures PAGES != "" && PAGES[0] == '.' && README != "" && README[0] == 'R' && MANIFEST != "" && MANIFEST[0] == 'P'
  {
  }

  lemma NotSelected(tables: Tables, fold: string -> string, path: string)
    requires path != "" && '\\' !in path && path !in tables.exact && NoPrefixStarts(path[0], tables.prefixes)
    ensures !Selects(tables, fold, path)
  {
    assert Slashed(path) == path;
  }

  /** The files that the exporter generates are not among those it selects, unless a table
      lists them by name. */
  lemma GeneratedNotSelected(exact: set<string>, fold: string -> string)
    requires {PAGES, README, MANIFEST} !! exact
    ensures !Selects(PublicTables(exact), fold, PAGES) && !Selects(PublicTables(exact), fold, README)
    ensures !Selects(PublicTables(exact), fold, MANIFEST)
  {
    PublicPrefixesAreLower();
    GeneratedStarts();
    FixedNamesSlashless();
    NotSelected(PublicTables(exact), fold, PAGES);
    NotSelected(PublicTables(exact), fold, README);
    NotSelected(PublicTables(exact), fold, MANIFEST);
  }

  lemma SecretExtensions()
    ensures ".key" in FORBIDDEN_SUFFIXES && ".pem" in FORBIDDEN_SUFFIXES && ".p12" in FORBIDDEN_SUFFIXES
    ensures ".pfx" in FORBIDDEN_SUFFIXES && ".db" in FORBIDDEN_SUFFIXES && ".sqlite" in FORBIDDEN_SUFFIXES
  {
    assert FORBIDDEN_SUFFIXES[1] == ".key" && FORBIDDEN_SUFFIXES[7] == ".pem" && FORBIDDEN_SUFFIXES[6] == ".p12";
    assert FORBIDDEN_SUFFIXES[8] == ".pfx" && FORBIDDEN_SUFFIXES[0] == ".db" && FORBIDDEN_SUFFIXES[9] == ".sqlite";
  }

  /** Keys, certificates, databases and environment files are private wherever they are. */
  lemma SecretsNotSelected(exact: set<string>, fold: string -> string, path: string)
    requires var low := fold(Slashed(path));
      || low == ".env" || low == ".env.local" || low == ".streamlit/secrets.toml"
      || EndsIn(low, ".key") || EndsIn(low, ".pem") || EndsIn(low, ".p12") || EndsIn(low, ".pfx")
      || EndsIn(low, ".db") || EndsIn(low, ".sqlite")
    ensures !Selects(PublicTables(exact), fold, path)
  {
    SecretExtensions();
    AnySuffixEnds(fold(Slashed(path)), FORBIDDEN_SUFFIXES);
  }
}
