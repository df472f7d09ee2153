/** What make:repo plans to write: the options, the names derived from the
    entity name, the fixed file layout, the artifact lists of --all and of
    the selected options, and the glob/table guard on the migration. */
module Planner {
  import opened PhpText
  import opened Placeholders

  /** The file system, path to content. Directories are not modelled. */
  type FileMap = map<string, string>

  /** The options --all, --model, --repository, --service, --controller
      and --migration. */
  datatype Options = Options(
    all: bool, model: bool, repository: bool, service: bool, controller: bool, migration: bool)

  predicate NoOption(o: Options) {
    !o.all && !o.model && !o.repository && !o.service && !o.controller && !o.migration
  }

  /** Names computed by the framework's inflector and the clock, taken as
      given: Str::studly(name), Str::snake(Str::plural(name)), Str::lower(name),
      Str::studly(tableName) and date('Y_m_d_His'). */
  datatype Names = Names(
    modelName: string, tableName: string, lowerName: string, studlyTable: string, timestamp: string)

  /** A stub name and the path its output goes to. */
  datatype Artifact = Artifact(stub: string, path: string)

  /** is_writable(): the file exists and is not read-only. */
  predicate Writable(fs: FileMap, readOnly: set<string>, path: string) {
    path in fs && path !in readOnly
  }

  const InterfacePath := "app/Contracts/RepositoryInterface.php"
  const BaseRepositoryPath := "app/Repositories/BaseRepository.php"
  const ProviderPath := "app/Providers/RepositoriesServiceProvider.php"
  const ProvidersListPath := "bootstrap/providers.php"
  const RoutesPath := "routes/api.php"
  const MigrationsDir := "database/migrations/"

  function ModelArtifact(n: Names): Artifact {
    Artifact("model", "app/Models/" + n.modelName + ".php")
  }
  function RepositoryArtifact(n: Names): Artifact {
    Artifact("repository", "app/Repositories/" + n.modelName + "Repository.php")
  }
  function ControllerArtifact(n: Names): Artifact {
    Artifact("controller", "app/Http/Controllers/" + n.modelName + "Controller.php")
  }
  function ServiceArtifact(n: Names): Artifact {
    Artifact("service", "app/Services/" + n.modelName + "Service.php")
  }
  function StoreRequestArtifact(n: Names): Artifact {
    Artifact("store-form-request", "app/Http/Requests/" + n.modelName + "StoreFormRequest.php")
  }
  function UpdateRequestArtifact(n: Names): Artifact {
    Artifact("update-form-request", "app/Http/Requests/" + n.modelName + "UpdateFormRequest.php")
  }
  function ResourceArtifact(n: Names): Artifact {
    Artifact("resource", "app/Http/Resources/" + n.modelName + "Resource.php")
  }
  function CollectionArtifact(n: Names): Artifact {
    Artifact("collection", "app/Http/Resources/" + n.modelName + "Collection.php")
  }
  function MigrationArtifact(n: Names): Artifact {
    Artifact("migration", MigrationsDir + n.timestamp + "_create_" + n.tableName + "_table.php")
  }

  const ModelKey := "{{ModelName}}"
  const LowerKey := "{{modelName}}"
  const TableKey := "{{tableName}}"
  const StudlyKey := "{{tableName|studly}}"

  /** The $replacements array, in its declaration order. */
  function Replacements(n: Names): seq<Replacement> {
    [ Replacement(ModelKey, n.modelName),
      Replacement(LowerKey, n.lowerName),
      Replacement(TableKey, n.tableName),
      Replacement(StudlyKey, n.studlyTable) ]
  }

  /** A literal key with its two opening braces and no other '{'. */
  lemma KeyIsBraceKey(key: string)
    requires key == ModelKey || key == LowerKey || key == TableKey || key == StudlyKey
    ensures BraceKey(key)
  {
    assert forall i :: 2 <= i < |key| ==> key[i] != '{';
  }

  /** The four keys are {{name}} keys and none is a prefix of another, so a
      stub written with them closes whenever the values hold no '{'. */
  lemma ReplacementsClose(n: Names)
    requires '{' !in n.modelName && '{' !in n.lowerName
    requires '{' !in n.tableName && '{' !in n.studlyTable
    ensures ClosingReplacements(Replacements(n))
  {
    var reps := Replacements(n);
    forall k | 0 <= k < 4
      ensures BraceKey(reps[k].search) && '{' !in reps[k].value
    {
      KeyIsBraceKey(reps[k].search);
    }
    KeysApart();
    ClosingFour(reps);
  }

  /** No key is a prefix of another. */
  lemma KeysApart()
    ensures !IsPrefix(ModelKey, LowerKey) && !IsPrefix(LowerKey, ModelKey)
    ensures !IsPrefix(ModelKey, TableKey) && !IsPrefix(TableKey, ModelKey)
    ensures !IsPrefix(ModelKey, StudlyKey) && !IsPrefix(StudlyKey, ModelKey)
    ensures !IsPrefix(LowerKey, TableKey) && !IsPrefix(TableKey, LowerKey)
    ensures !IsPrefix(LowerKey, StudlyKey) && !IsPrefix(StudlyKey, LowerKey)
    ensures !IsPrefix(TableKey, StudlyKey) && !IsPrefix(StudlyKey, TableKey)
  {
    assert ModelKey[2] == 'M' && LowerKey[2] == 'm' && TableKey[2] == 't' && StudlyKey[2] == 't';
    assert TableKey[11] == '}' && StudlyKey[11] == '|';
    DifferAt(ModelKey, LowerKey, 2);
    DifferAt(ModelKey, TableKey, 2);
    DifferAt(ModelKey, StudlyKey, 2);
    DifferAt(LowerKey, TableKey, 2);
    DifferAt(LowerKey, StudlyKey, 2);
    DifferAt(TableKey, StudlyKey, 11);
  }

  /** Four replacements whose keys pairwise are not prefixes of each other. */
  lemma ClosingFour(reps: seq<Replacement>)
    requires |reps| == 4
    requires forall k :: 0 <= k < 4 ==> BraceKey(reps[k].search) && '{' !in reps[k].value
    requires forall k, l :: 0 <= k < l < 4 ==>
      !IsPrefix(reps[k].search, reps[l].search) && !IsPrefix(reps[l].search, reps[k].search)
    ensures ClosingReplacements(reps)
  {
  }

  /** Two strings that differ at a common index are not prefixes of each other. */
  lemma DifferAt(a: string, b: string, i: nat)
    requires i < |a| && i < |b| && a[i] != b[i]
    ensures !IsPrefix(a, b) && !IsPrefix(b, a)
  {
    if |a| <= |b| {
      assert b[..|a|][i] == b[i] != a[i];
    }
    if |b| <= |a| {
      assert a[..|b|][i] == a[i] != b[i];
    }
  }

  /** The file name after the migrations directory matches the glob
      pattern *_create_<table>_table.php: no further '/', the star part
      does not begin with a '.', and the fixed suffix closes the name. */
  predicate IsMigrationFor(p: string, table: string) {
    var suffix := "_create_" + table + "_table.php";
    && |p| >= |MigrationsDir| + |suffix|
    && p[..|MigrationsDir|] == MigrationsDir
    && '/' !in p[|MigrationsDir|..]
    && p[|MigrationsDir|] != '.'
    && p[|p| - |suffix|..] == suffix
  }

  /** count(glob(...)) > 0 */
  predicate MigrationFileExists(fs: FileMap, table: string) {
    exists p | p in fs :: IsMigrationFor(p, table)
  }

  /** The migration guard of lines 133-143 and 224-235: no matching
      migration file and no such table (Schema::hasTable, given as a set). */
  predicate MigrationAdmitted(fs: FileMap, tables: set<string>, table: string) {
    !MigrationFileExists(fs, table) && table !in tables
  }

  /** The eight fixed entries of $files in generateAllFiles, in order. */
  function MainArtifacts(n: Names): seq<Artifact> {
    [ ModelArtifact(n), RepositoryArtifact(n), ControllerArtifact(n), ServiceArtifact(n),
      StoreRequestArtifact(n), UpdateRequestArtifact(n), ResourceArtifact(n),
      CollectionArtifact(n) ]
  }

  /** $files of generateAllFiles: the eight, then the migration if admitted. */
  function AllPlan(n: Names, admitted: bool): seq<Artifact> {
    MainArtifacts(n) + (if admitted then [MigrationArtifact(n)] else [])
  }

  /** The generateFile calls of generateSelectedFiles before the migration,
      in call order (the repository is attempted twice when --repository
      is combined with --service or --controller). */
  function SelectedArtifacts(o: Options, n: Names): seq<Artifact> {
    (if o.model then [ModelArtifact(n)] else [])
    + (if o.repository then [RepositoryArtifact(n)] else [])
    + (if o.service || o.controller then [RepositoryArtifact(n), ServiceArtifact(n)] else [])
    + (if o.controller then [ResourceArtifact(n), CollectionArtifact(n), ControllerArtifact(n)] else [])
  }

  /** The migration attempt of generateSelectedFiles. */
  function SelectedMigration(o: Options, n: Names, admitted: bool): seq<Artifact> {
    if o.migration && admitted then [MigrationArtifact(n)] else []
  }

  /** What each option asks for on its own, as a set. */
  function OptionArtifacts(o: Options, n: Names, admitted: bool): set<Artifact> {
    (if o.model then {ModelArtifact(n)} else {})
    + (if o.repository then {RepositoryArtifact(n)} else {})
    + (if o.service then {RepositoryArtifact(n), ServiceArtifact(n)} else {})
    + (if o.controller then
         {RepositoryArtifact(n), ServiceArtifact(n), ResourceArtifact(n),
          CollectionArtifact(n), ControllerArtifact(n)}
       else {})
    + (if o.migration && admitted then {MigrationArtifact(n)} else {})
  }

  function Elements(s: seq<Artifact>): set<Artifact> {
    set a | a in s
  }

  /** Selected options compose by union: the attempts of
      generateSelectedFiles are exactly the union of what each option asks. */
  lemma SelectedIsUnion(o: Options, n: Names, admitted: bool)
    ensures Elements(SelectedArtifacts(o, n) + SelectedMigration(o, n, admitted))
         == OptionArtifacts(o, n, admitted)
  {
  }

  /** --all attempts a superset of what any combination of the other
      options attempts. */
  lemma AllCoversSelected(o: Options, n: Names, admitted: bool)
    ensures OptionArtifacts(o, n, admitted) <= Elements(AllPlan(n, admitted))
  {
  }

  /** A migration path built from a date('Y_m_d_His') stamp is matched by
      the glob of the guard, so the next run finds it. */
  lemma MigrationPathMatchesGlob(n: Names)
    requires forall k :: 0 <= k < |n.timestamp| ==> IsDigit(n.timestamp[k]) || n.timestamp[k] == '_'
    requires '/' !in n.tableName
    ensures IsMigrationFor(MigrationArtifact(n).path, n.tableName)
  {
    var suffix := "_create_" + n.tableName + "_table.php";
    SuffixFacts(n.tableName);
    StampName(n.timestamp, suffix);
    DirAndName(MigrationsDir, n.timestamp + suffix, suffix, MigrationArtifact(n).path);
  }

  lemma SuffixFacts(table: string)
    requires '/' !in table
    ensures var suffix := "_create_" + table + "_table.php";
      suffix != [] && suffix[0] == '_' && '/' !in suffix
  {
    var a, b := "_create_", "_table.php";
    assert forall k :: 0 <= k < |a| ==> a[k] != '/';
    assert forall k :: 0 <= k < |b| ==> b[k] != '/';
  }

  /** A stamp of digits and underscores followed by the suffix. */
  lemma StampName(stamp: string, suffix: string)
    requires forall k :: 0 <= k < |stamp| ==> IsDigit(stamp[k]) || stamp[k] == '_'
    requires suffix != [] && suffix[0] == '_' && '/' !in suffix
    ensures var name := stamp + suffix;
      '/' !in name && name[0] != '.' && |name| >= |suffix| && name[|name| - |suffix|..] == suffix
  {
    var name := stamp + suffix;
    forall k | 0 <= k < |stamp| ensures stamp[k] != '/' && stamp[k] != '.' { }
    if stamp == [] {
      assert name[0] == suffix[0];
    } else {
      assert name[0] == stamp[0];
    }
  }

  /** A path made of a directory and a file name. */
  lemma DirAndName(dir: string, name: string, suffix: string, p: string)
    requires p == dir + name && |name| >= |suffix| && name[|name| - |suffix|..] == suffix
    ensures |p| >= |dir| + |suffix| && p[..|dir|] == dir && p[|dir|..] == name
    ensures p[|p| - |suffix|..] == suffix
  {
    assert p[|p| - |suffix|..] == name[|name| - |suffix|..];
  }

  /** Paths outside the migrations directory are never taken for
      migration files. */
  lemma NotMigrationOutsideDir(p: string, table: string)
    requires p != [] && p[0] != 'd'
    ensures !IsMigrationFor(p, table)
  {
    if |p| >= |MigrationsDir| {
      assert p[..|MigrationsDir|][0] != MigrationsDir[0];
    }
  }
}
