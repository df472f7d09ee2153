/** The whole make:repo run as a function of the state before it:
    generateFile, the attempts of generateAllFiles and of
    generateSelectedFiles, handle's two guards and its outcome message,
    and what holds of them for every input. */
module Engine {
  import opened PhpText
  import opened Placeholders
  import opened Planner
  import opened Binding
  import opened Routes

  /** The templates directory: stub name to stub text. */
  type Stubs = map<string, string>

  /** The stub of an artifact with every replacement applied. */
  function Rendered(stubs: Stubs, a: Artifact, reps: seq<Replacement>): string
    requires a.stub in stubs
  {
    Substitute(stubs[a.stub], reps)
  }

  /** When generateFile writes: the stub exists, the target does not, and
      no placeholder survives the replacements. */
  predicate Writes(fs: FileMap, stubs: Stubs, a: Artifact, reps: seq<Replacement>) {
    a.stub in stubs && a.path !in fs && !HasPlaceholder(Rendered(stubs, a, reps))
  }

  /** What generateFile returns, with the file system after it. */
  datatype Generated = Generated(fs: FileMap, ok: bool)

  /** generateFile (lines 245-278): never overwrites, and writes the
      rendered stub only when no placeholder is left in it. */
  function GenerateSpec(fs: FileMap, stubs: Stubs, a: Artifact, reps: seq<Replacement>): (r: Generated)
    ensures r.ok <==> Writes(fs, stubs, a, reps)
    ensures forall q :: q in fs ==> q in r.fs && r.fs[q] == fs[q]
    ensures forall q :: q in r.fs && q !in fs ==> q == a.path
    ensures !r.ok ==> r.fs == fs
    ensures r.ok ==> r.fs == fs[a.path := Rendered(stubs, a, reps)] && !HasPlaceholder(r.fs[a.path])
  {
    if a.stub !in stubs then Generated(fs, false)
    else if a.path in fs then Generated(fs, false)
    else
      var content := Substitute(stubs[a.stub], reps);
      if HasPlaceholder(content) then Generated(fs, false)
      else Generated(fs[a.path := content], true)
  }

  /** The file system with the two flags: filesGenerated (or the local
      $generated of generateSelectedFiles) and allFilesGenerated. */
  datatype Progress = Progress(fs: FileMap, generated: bool, complete: bool)

  /** Fresh command state: the field initialisers of lines 28-29. */
  function Fresh(fs: FileMap): Progress {
    Progress(fs, false, true)
  }

  const MigrationStub := "migration"

  /** One iteration of the loop of lines 152-161: a failure clears the
      completeness flag unless it is the migration's. */
  function Step(p: Progress, stubs: Stubs, a: Artifact, reps: seq<Replacement>): Progress {
    var r := GenerateSpec(p.fs, stubs, a, reps);
    Progress(r.fs, p.generated || r.ok, p.complete && (r.ok || a.stub == MigrationStub))
  }

  /** The artifacts attempted one after the other. */
  function Attempts(p: Progress, stubs: Stubs, plan: seq<Artifact>, reps: seq<Replacement>): Progress
    decreases |plan|
  {
    if plan == [] then p
    else Step(Attempts(p, stubs, plan[..|plan| - 1], reps), stubs, plan[|plan| - 1], reps)
  }

  /** generateAllFiles (lines 118-170): the migration guard is evaluated
      before any file is written; lines 164-166 set a flag to the value
      it already has and change nothing; the provider and the routes file
      are patched whatever happened before. */
  function GenerateAllSpec(p: Progress, stubs: Stubs, tables: set<string>, readOnly: set<string>, n: Names): Progress {
    var plan := AllPlan(n, MigrationAdmitted(p.fs, tables, n.tableName));
    var q := Attempts(p, stubs, plan, Replacements(n));
    var fs1 := RegisterBindingSpec(q.fs, readOnly, n.modelName);
    Progress(AddRouteSpec(fs1, readOnly, n.modelName, n.tableName), q.generated, q.complete)
  }

  /** The condition of line 238 for patching the provider. */
  predicate BindsAfterSelected(o: Options, generated: bool) {
    generated && (o.repository || o.service || o.controller || o.all)
  }

  /** The first half of generateSelectedFiles (lines 174-221): the
      attempts in call order, with the route added after the controller
      block; the local $generated starts false. */
  function SelectedFirst(p: Progress, stubs: Stubs, readOnly: set<string>, o: Options, n: Names): Progress {
    var q := Attempts(Progress(p.fs, false, p.complete), stubs, SelectedArtifacts(o, n), Replacements(n));
    Progress(if o.controller then AddRouteSpec(q.fs, readOnly, n.modelName, n.tableName) else q.fs,
             q.generated, q.complete)
  }

  /** The second half (lines 223-242): the migration guard on the files as
      they are by then, and the provider only if something was generated. */
  function SelectedSecond(q: Progress, stubs: Stubs, tables: set<string>, readOnly: set<string>,
                          o: Options, n: Names): Progress
  {
    var admitted := MigrationAdmitted(q.fs, tables, n.tableName);
    var q2 := Attempts(q, stubs, SelectedMigration(o, n, admitted), Replacements(n));
    Progress(if BindsAfterSelected(o, q2.generated) then RegisterBindingSpec(q2.fs, readOnly, n.modelName) else q2.fs,
             q2.generated, q2.complete)
  }

  /** generateSelectedFiles (lines 172-243): filesGenerated ends as the
      local $generated and allFilesGenerated is not touched. */
  function GenerateSelectedSpec(p: Progress, stubs: Stubs, tables: set<string>, readOnly: set<string>,
                                o: Options, n: Names): Progress
  {
    var r := SelectedSecond(SelectedFirst(p, stubs, readOnly, o, n), stubs, tables, readOnly, o, n);
    Progress(r.fs, r.generated, p.complete)
  }

  /** handle's result: the two early returns (both `return false`) and
      the three messages of lines 72-80. */
  datatype Outcome = MissingBaseFiles | NoOptions | AllGenerated | SomeGenerated | NothingNew

  datatype Run = Run(state: Progress, outcome: Outcome)

  /** checkRequiredFiles (lines 83-93). */
  predicate BaseFilesPresent(fs: FileMap) {
    InterfacePath in fs && BaseRepositoryPath in fs
  }

  /** The message chosen from the flags (lines 72-80). */
  function Message(o: Options, q: Progress): Outcome {
    if !q.generated then NothingNew
    else if o.all && q.complete then AllGenerated
    else SomeGenerated
  }

  /** handle (lines 41-81). */
  function HandleSpec(p: Progress, stubs: Stubs, tables: set<string>, readOnly: set<string>,
                      o: Options, n: Names): Run
  {
    if !BaseFilesPresent(p.fs) then Run(p, MissingBaseFiles)
    else if NoOption(o) then Run(p, NoOptions)
    else
      var q := if o.all then GenerateAllSpec(p, stubs, tables, readOnly, n)
               else GenerateSelectedSpec(p, stubs, tables, readOnly, o, n);
      Run(q, Message(o, q))
  }

  // ---------------------------------------------------------------------
  // Frames: what a step may change.

  /** Every file of a is still in b with the same content. */
  predicate Keeps(a: FileMap, b: FileMap) {
    forall q :: q in a ==> q in b && b[q] == a[q]
  }

  /** Every file of a is still in b, with the same content unless it is
      one of the patched paths. */
  predicate KeepsExcept(a: FileMap, b: FileMap, patched: set<string>) {
    forall q :: q in a ==> q in b && (q !in patched ==> b[q] == a[q])
  }

  /** Every file of b that a lacks is one of the given paths. */
  predicate AddsOnly(a: FileMap, b: FileMap, added: set<string>) {
    forall q :: q in b && q !in a ==> q in added
  }

  function Paths(plan: seq<Artifact>): set<string> {
    set a | a in plan :: a.path
  }

  /** The three files the command patches rather than generates. */
  const Patched := {ProviderPath, ProvidersListPath, RoutesPath}

  /** A sequence of attempts never overwrites or removes a file, adds only
      planned paths, and sets the flag exactly when it added one. */
  lemma {:induction false} AttemptsFrame(p: Progress, stubs: Stubs, plan: seq<Artifact>, reps: seq<Replacement>)
    ensures var r := Attempts(p, stubs, plan, reps);
      Keeps(p.fs, r.fs) && AddsOnly(p.fs, r.fs, Paths(plan))
      && (r.generated <==> p.generated || p.fs.Keys < r.fs.Keys)
  {
    if plan != [] {
      var init := plan[..|plan| - 1];
      var last := plan[|plan| - 1];
      AttemptsFrame(p, stubs, init, reps);
      var q := Attempts(p, stubs, init, reps);
      var g := GenerateSpec(q.fs, stubs, last, reps);
      assert Paths(init) + {last.path} == Paths(plan) by {
        assert plan == init + [last];
      }
      if g.ok {
        assert last.path in g.fs && last.path !in p.fs;
      }
    }
  }

  /** No two attempts of a plan share a target. */
  predicate DistinctPaths(plan: seq<Artifact>)
    decreases |plan|
  {
    plan == []
    || (DistinctPaths(plan[..|plan| - 1]) && plan[|plan| - 1].path !in Paths(plan[..|plan| - 1]))
  }

  /** With distinct targets, the completeness flag survives exactly when
      every attempt other than the migration would write into the file
      system as it was at the start; and a complete run that attempted
      anything other than a migration has generated a file. */
  lemma {:induction false} AttemptsComplete(p: Progress, stubs: Stubs, plan: seq<Artifact>, reps: seq<Replacement>)
    requires DistinctPaths(plan)
    ensures var r := Attempts(p, stubs, plan, reps);
      r.complete <==> p.complete && forall k :: 0 <= k < |plan| && plan[k].stub != MigrationStub ==> Writes(p.fs, stubs, plan[k], reps)
    ensures var r := Attempts(p, stubs, plan, reps);
      r.complete && (exists k :: 0 <= k < |plan| && plan[k].stub != MigrationStub) ==> r.generated
  {
    if plan != [] {
      var init := plan[..|plan| - 1];
      var last := plan[|plan| - 1];
      assert DistinctPaths(init);
      AttemptsComplete(p, stubs, init, reps);
      AttemptsFrame(p, stubs, init, reps);
      var q := Attempts(p, stubs, init, reps);
      assert last.path !in Paths(init);
      assert Writes(q.fs, stubs, last, reps) <==> Writes(p.fs, stubs, last, reps);
      forall k | 0 <= k < |init| ensures init[k] == plan[k] { }
    }
  }

  /** Appending one attempt is one more step. */
  lemma AttemptsSnoc(p: Progress, stubs: Stubs, plan: seq<Artifact>, a: Artifact, reps: seq<Replacement>)
    ensures Attempts(p, stubs, plan + [a], reps) == Step(Attempts(p, stubs, plan, reps), stubs, a, reps)
  {
    assert (plan + [a])[..|plan|] == plan;
  }

  /** Attempting a + b is attempting a, then b. */
  lemma {:induction false} AttemptsAppend(p: Progress, stubs: Stubs, a: seq<Artifact>, b: seq<Artifact>, reps: seq<Replacement>)
    ensures Attempts(p, stubs, a + b, reps) == Attempts(Attempts(p, stubs, a, reps), stubs, b, reps)
    decreases |b|
  {
    if b == [] {
      assert a + b == a;
    } else {
      var init := b[..|b| - 1];
      assert b == init + [b[|b| - 1]];
      assert a + b == (a + init) + [b[|b| - 1]];
      AttemptsAppend(p, stubs, a, init, reps);
      AttemptsSnoc(p, stubs, a + init, b[|b| - 1], reps);
      AttemptsSnoc(Attempts(p, stubs, a, reps), stubs, init, b[|b| - 1], reps);
    }
  }

  /** A block of one, two or three attempts is that many steps. */
  lemma AttemptsBlock(p: Progress, stubs: Stubs, x: Artifact, y: Artifact, z: Artifact, reps: seq<Replacement>)
    ensures Attempts(p, stubs, [x], reps) == Step(p, stubs, x, reps)
    ensures Attempts(p, stubs, [x, y], reps) == Step(Step(p, stubs, x, reps), stubs, y, reps)
    ensures Attempts(p, stubs, [x, y, z], reps) == Step(Step(Step(p, stubs, x, reps), stubs, y, reps), stubs, z, reps)
  {
    AttemptsSnoc(p, stubs, [], x, reps);
    assert [] + [x] == [x];
    AttemptsSnoc(p, stubs, [x], y, reps);
    assert [x] + [y] == [x, y];
    AttemptsSnoc(p, stubs, [x, y], z, reps);
    assert [x, y] + [z] == [x, y, z];
  }

  /** The attempts of generateSelectedFiles' four option blocks, each made
      or skipped, are the steps of the blocks made, in order. */
  lemma OptionBlocks(p: Progress, stubs: Stubs, reps: seq<Replacement>, b1: bool, b2: bool, b3: bool, b4: bool,
                     m: Artifact, r: Artifact, s: Artifact, res: Artifact, col: Artifact, ctl: Artifact)
    ensures Attempts(p, stubs, (if b1 then [m] else []) + (if b2 then [r] else [])
                               + (if b3 then [r, s] else []) + (if b4 then [res, col, ctl] else []), reps)
         == var p1 := if b1 then Step(p, stubs, m, reps) else p;
            var p2 := if b2 then Step(p1, stubs, r, reps) else p1;
            var p3 := if b3 then Step(Step(p2, stubs, r, reps), stubs, s, reps) else p2;
            if b4 then Step(Step(Step(p3, stubs, res, reps), stubs, col, reps), stubs, ctl, reps) else p3
  {
    var c1: seq<Artifact> := if b1 then [m] else [];
    var c2: seq<Artifact> := if b2 then [r] else [];
    var c3: seq<Artifact> := if b3 then [r, s] else [];
    var c4: seq<Artifact> := if b4 then [res, col, ctl] else [];
    AttemptsAppend(p, stubs, c1 + c2 + c3, c4, reps);
    AttemptsAppend(p, stubs, c1 + c2, c3, reps);
    AttemptsAppend(p, stubs, c1, c2, reps);
    var p1 := Attempts(p, stubs, c1, reps);
    var p2 := Attempts(p1, stubs, c2, reps);
    var p3 := Attempts(p2, stubs, c3, reps);
    AttemptsBlock(p, stubs, m, m, m, reps);
    AttemptsBlock(p1, stubs, r, r, r, reps);
    AttemptsBlock(p2, stubs, r, s, s, reps);
    AttemptsBlock(p3, stubs, res, col, ctl, reps);
  }

  // ---------------------------------------------------------------------
  // Where the generated files lie.

  /** A path under app/ whose first directory is not Providers. */
  predicate UnderApp(path: string) {
    |path| > 4 && path[0] == 'a' && path[4] != 'P'
  }

  lemma ModelUnder(n: Names)
    ensures UnderApp(ModelArtifact(n).path)
  {
    assert ModelArtifact(n).path[..5] == "app/M";
  }

  lemma RepositoryUnder(n: Names)
    ensures UnderApp(RepositoryArtifact(n).path)
  {
    assert RepositoryArtifact(n).path[..5] == "app/R";
  }

  lemma ServiceUnder(n: Names)
    ensures UnderApp(ServiceArtifact(n).path)
  {
    assert ServiceArtifact(n).path[..5] == "app/S";
  }

  lemma HttpUnder(n: Names)
    ensures UnderApp(ControllerArtifact(n).path) && UnderApp(StoreRequestArtifact(n).path)
    ensures UnderApp(UpdateRequestArtifact(n).path) && UnderApp(ResourceArtifact(n).path)
    ensures UnderApp(CollectionArtifact(n).path)
  {
    assert ControllerArtifact(n).path[..5] == "app/H";
    assert StoreRequestArtifact(n).path[..5] == "app/H";
    assert UpdateRequestArtifact(n).path[..5] == "app/H";
    assert ResourceArtifact(n).path[..5] == "app/H";
    assert CollectionArtifact(n).path[..5] == "app/H";
  }

  /** All eight fixed artifacts lie under app/, outside app/Providers. */
  lemma MainUnderApp(n: Names)
    ensures forall a :: a in MainArtifacts(n) ==> UnderApp(a.path)
  {
    ModelUnder(n);
    RepositoryUnder(n);
    ServiceUnder(n);
    HttpUnder(n);
  }

  /** Such a path is none of the patched files and no migration. */
  lemma UnderAppApart(path: string, table: string)
    requires UnderApp(path)
    ensures path !in Patched && !IsMigrationFor(path, table)
  {
    assert ProviderPath[4] == 'P';
    assert ProvidersListPath[0] == 'b' && RoutesPath[0] == 'r';
    NotMigrationOutsideDir(path, table);
  }

  /** The migration lies under database/. */
  lemma MigrationApart(n: Names)
    ensures MigrationArtifact(n).path !in Patched
    ensures MigrationArtifact(n).path[0] == 'd'
  {
    assert MigrationArtifact(n).path[..5] == "datab";
    assert ProviderPath[4] == 'P' && ProvidersListPath[0] == 'b' && RoutesPath[0] == 'r';
  }

  /** No artifact the command can attempt is a patched file, and only the
      migration artifact can look like a migration. */
  lemma PlannedApart(n: Names, table: string)
    ensures forall a :: a in AllPlan(n, true) ==> a.path !in Patched
    ensures forall a :: a in AllPlan(n, true) && a != MigrationArtifact(n) ==> !IsMigrationFor(a.path, table)
  {
    MainUnderApp(n);
    MigrationApart(n);
    forall a | a in MainArtifacts(n) ensures a.path !in Patched && !IsMigrationFor(a.path, table) {
      UnderAppApart(a.path, table);
    }
  }

  /** Every attempt of either mode is one of the --all artifacts. */
  lemma PlansWithinAll(o: Options, n: Names, admitted: bool)
    ensures Paths(AllPlan(n, admitted)) <= Paths(AllPlan(n, true))
    ensures Paths(SelectedArtifacts(o, n)) <= Paths(AllPlan(n, true))
    ensures Paths(SelectedMigration(o, n, admitted)) <= Paths(AllPlan(n, true))
  {
    SelectedIsUnion(o, n, admitted);
    AllCoversSelected(o, n, admitted);
    assert Paths(SelectedArtifacts(o, n)) <= Paths(SelectedArtifacts(o, n) + SelectedMigration(o, n, admitted));
    assert Paths(SelectedMigration(o, n, admitted)) <= Paths(SelectedArtifacts(o, n) + SelectedMigration(o, n, admitted));
  }

  // ---------------------------------------------------------------------
  // The eight fixed paths and the migration are pairwise different.

  /** A path told apart by its length beyond the model name and its fifth
      character. */
  predicate Shaped(path: string, m: string, len: int, c: char) {
    |path| == len + |m| && |path| > 4 && path[4] == c
  }

  lemma MainShapes(n: Names)
    ensures Shaped(ModelArtifact(n).path, n.modelName, 15, 'M')
    ensures Shaped(RepositoryArtifact(n).path, n.modelName, 31, 'R')
    ensures Shaped(ControllerArtifact(n).path, n.modelName, 35, 'H')
    ensures Shaped(ServiceArtifact(n).path, n.modelName, 24, 'S')
    ensures Shaped(StoreRequestArtifact(n).path, n.modelName, 38, 'H')
    ensures Shaped(UpdateRequestArtifact(n).path, n.modelName, 39, 'H')
    ensures Shaped(ResourceArtifact(n).path, n.modelName, 31, 'H')
    ensures Shaped(CollectionArtifact(n).path, n.modelName, 33, 'H')
  {
    HttpUnder(n);
    ModelUnder(n);
    RepositoryUnder(n);
    ServiceUnder(n);
  }

  /** One more target, different from the earlier ones. */
  lemma DistinctSnoc(plan: seq<Artifact>, a: Artifact)
    requires DistinctPaths(plan) && forall x :: x in plan ==> x.path != a.path
    ensures DistinctPaths(plan + [a])
  {
    assert (plan + [a])[..|plan|] == plan;
  }

  /** Every path has its listed shape. */
  predicate ShapesMatch(plan: seq<Artifact>, m: string, shapes: seq<(int, char)>) {
    |plan| == |shapes| && forall k :: 0 <= k < |plan| ==> Shaped(plan[k].path, m, shapes[k].0, shapes[k].1)
  }

  predicate DistinctShapes(shapes: seq<(int, char)>) {
    forall i, j :: 0 <= i < j < |shapes| ==> shapes[i] != shapes[j]
  }

  /** Paths of different shapes are different paths. */
  lemma {:induction false} ShapesGiveDistinct(plan: seq<Artifact>, m: string, shapes: seq<(int, char)>)
    requires ShapesMatch(plan, m, shapes) && DistinctShapes(shapes)
    ensures DistinctPaths(plan)
    decreases |plan|
  {
    if plan != [] {
      var n := |plan| - 1;
      var init, sinit := plan[..n], shapes[..n];
      assert ShapesMatch(init, m, sinit) by {
        forall k | 0 <= k < n ensures Shaped(init[k].path, m, sinit[k].0, sinit[k].1) {
          assert init[k] == plan[k] && sinit[k] == shapes[k];
        }
      }
      ShapesGiveDistinct(init, m, sinit);
    }
  }

  const MainShapeList: seq<(int, char)> :=
    [(15, 'M'), (31, 'R'), (35, 'H'), (24, 'S'), (38, 'H'), (39, 'H'), (31, 'H'), (33, 'H')]

  lemma MainShapesDiffer()
    ensures DistinctShapes(MainShapeList)
  {
  }

  /** The eight fixed targets are pairwise different. */
  lemma MainDistinct(n: Names)
    ensures DistinctPaths(MainArtifacts(n))
  {
    MainShapes(n);
    MainShapesDiffer();
    ShapesGiveDistinct(MainArtifacts(n), n.modelName, MainShapeList);
  }

  /** The --all plan never targets one path twice. */
  lemma AllPlanDistinct(n: Names, admitted: bool)
    ensures DistinctPaths(AllPlan(n, admitted))
  {
    MainDistinct(n);
    if admitted {
      MainUnderApp(n);
      MigrationApart(n);
      DistinctSnoc(MainArtifacts(n), MigrationArtifact(n));
    } else {
      assert AllPlan(n, admitted) == MainArtifacts(n);
    }
  }

  // ---------------------------------------------------------------------
  // The patches' frames.

  /** registerBinding writes the provider and may rewrite the existing
      providers list; nothing else. */
  lemma BindingFrame(fs: FileMap, readOnly: set<string>, m: string)
    ensures var r := RegisterBindingSpec(fs, readOnly, m);
      KeepsExcept(fs, r, Patched) && AddsOnly(fs, r, {ProviderPath}) && ProviderPath in r
  {
    var b := BindingCode(m);
    var provider := if ProviderPath in fs then InjectBinding(fs[ProviderPath], b) else ProviderTemplate(b);
    var fs1 := fs[ProviderPath := provider];
    var both := Writable(fs1, readOnly, ProvidersListPath);
    TwoPatches(fs, ProviderPath, provider, ProvidersListPath,
               if both then AddProviderEntry(fs1[ProvidersListPath]) else "", both);
  }

  /** One patched file written, then perhaps a second one that exists. */
  lemma TwoPatches(fs: FileMap, x: string, v: string, y: string, w: string, both: bool)
    requires x in Patched && y in Patched
    requires both ==> y in fs[x := v]
    ensures var r := if both then fs[x := v][y := w] else fs[x := v];
      KeepsExcept(fs, r, Patched) && AddsOnly(fs, r, {x}) && x in r
  {
  }

  /** The file x is present in b exactly when in a, with the same
      content. */
  predicate Untouched(a: FileMap, b: FileMap, x: string) {
    (x in b <==> x in a) && (x in a ==> b[x] == a[x])
  }

  /** addRouteResource writes only the routes file. */
  lemma RouteFrame(fs: FileMap, readOnly: set<string>, m: string, table: string)
    ensures var r := AddRouteSpec(fs, readOnly, m, table);
      KeepsExcept(fs, r, Patched) && r.Keys == fs.Keys
      && forall x :: x != RoutesPath ==> Untouched(fs, r, x)
  {
  }

  // ---------------------------------------------------------------------
  // Properties of handle.

  /** Either guard of handle stops the run before anything is written;
      each is reported exactly when it applies. */
  lemma RefusedRunChangesNothing(p: Progress, stubs: Stubs, tables: set<string>, readOnly: set<string>, o: Options, n: Names)
    ensures var r := HandleSpec(p, stubs, tables, readOnly, o, n);
      (r.outcome == MissingBaseFiles <==> !BaseFilesPresent(p.fs))
      && (r.outcome == NoOptions <==> BaseFilesPresent(p.fs) && NoOption(o))
      && (r.outcome in {MissingBaseFiles, NoOptions} ==> r.state == p)
  {
  }

  /** Frames compose. */
  lemma FrameChain(a: FileMap, b: FileMap, c: FileMap, added1: set<string>, added2: set<string>)
    requires KeepsExcept(a, b, Patched) && KeepsExcept(b, c, Patched)
    requires AddsOnly(a, b, added1) && AddsOnly(b, c, added2)
    ensures KeepsExcept(a, c, Patched) && AddsOnly(a, c, added1 + added2)
  {
  }

  /** The paths a run may create. */
  function Creatable(n: Names): set<string> {
    Paths(AllPlan(n, true)) + {ProviderPath}
  }

  lemma AllFrame(p: Progress, stubs: Stubs, tables: set<string>, readOnly: set<string>, o: Options, n: Names)
    ensures var r := GenerateAllSpec(p, stubs, tables, readOnly, n);
      KeepsExcept(p.fs, r.fs, Patched) && AddsOnly(p.fs, r.fs, Creatable(n))
  {
    var admitted := MigrationAdmitted(p.fs, tables, n.tableName);
    var plan := AllPlan(n, admitted);
    var q := Attempts(p, stubs, plan, Replacements(n));
    AttemptsFrame(p, stubs, plan, Replacements(n));
    PlansWithinAll(o, n, admitted);
    var fs1 := RegisterBindingSpec(q.fs, readOnly, n.modelName);
    BindingFrame(q.fs, readOnly, n.modelName);
    RouteFrame(fs1, readOnly, n.modelName, n.tableName);
    FrameChain(p.fs, q.fs, fs1, Paths(plan), {ProviderPath});
    FrameChain(p.fs, fs1, AddRouteSpec(fs1, readOnly, n.modelName, n.tableName), Paths(plan) + {ProviderPath}, {});
  }

  /** No patched file is a target of any attempt. */
  lemma CreatableApart(n: Names)
    ensures ProviderPath !in Paths(AllPlan(n, true))
    ensures ProvidersListPath !in Paths(AllPlan(n, true))
    ensures RoutesPath !in Paths(AllPlan(n, true))
  {
    PlannedApart(n, n.tableName);
  }

  /** The first half of generateSelectedFiles adds only planned files,
      sets $generated exactly when it added one, and leaves the provider
      and the providers list alone. */
  lemma SelectedFirstFacts(p: Progress, stubs: Stubs, readOnly: set<string>, o: Options, n: Names)
    ensures var b := SelectedFirst(p, stubs, readOnly, o, n);
      KeepsExcept(p.fs, b.fs, Patched) && AddsOnly(p.fs, b.fs, Paths(AllPlan(n, true)))
      && (b.generated <==> p.fs.Keys < b.fs.Keys)
      && Untouched(p.fs, b.fs, ProviderPath) && Untouched(p.fs, b.fs, ProvidersListPath)
  {
    var sel := SelectedArtifacts(o, n);
    var start := Progress(p.fs, false, p.complete);
    var q := Attempts(start, stubs, sel, Replacements(n));
    AttemptsFrame(start, stubs, sel, Replacements(n));
    PlansWithinAll(o, n, true);
    CreatableApart(n);
    RouteFrame(q.fs, readOnly, n.modelName, n.tableName);
    RoutesApart();
    FirstChain(p.fs, q.fs, if o.controller then AddRouteSpec(q.fs, readOnly, n.modelName, n.tableName) else q.fs,
               Paths(sel), Paths(AllPlan(n, true)));
  }

  /** Attempts followed by a rewrite of the routes file, composed. */
  lemma FirstChain(a: FileMap, q: FileMap, b: FileMap, added: set<string>, within: set<string>)
    requires Keeps(a, q) && AddsOnly(a, q, added) && added <= within
    requires ProviderPath !in within && ProvidersListPath !in within
    requires RoutesPath != ProviderPath && RoutesPath != ProvidersListPath
    requires KeepsExcept(q, b, Patched) && b.Keys == q.Keys && forall x :: x != RoutesPath ==> Untouched(q, b, x)
    ensures KeepsExcept(a, b, Patched) && AddsOnly(a, b, within) && (a.Keys < q.Keys <==> a.Keys < b.Keys)
    ensures Untouched(a, b, ProviderPath) && Untouched(a, b, ProvidersListPath)
  {
    assert Untouched(q, b, ProviderPath) && Untouched(q, b, ProvidersListPath);
  }

  /** The second half adds only planned files and the provider, reports
      a file added by either half, and when nothing was generated leaves
      the files exactly as it found them. */
  lemma SelectedSecondFacts(q: Progress, stubs: Stubs, tables: set<string>, readOnly: set<string>, o: Options, n: Names)
    ensures var r := SelectedSecond(q, stubs, tables, readOnly, o, n);
      KeepsExcept(q.fs, r.fs, Patched) && AddsOnly(q.fs, r.fs, Creatable(n))
      && (r.generated <==> q.generated || !AddsOnly(q.fs, r.fs, {ProviderPath}))
      && (!r.generated ==> r.fs == q.fs)
  {
    var admitted := MigrationAdmitted(q.fs, tables, n.tableName);
    var mig := SelectedMigration(o, n, admitted);
    var q2 := Attempts(q, stubs, mig, Replacements(n));
    AttemptsFrame(q, stubs, mig, Replacements(n));
    PlansWithinAll(o, n, admitted);
    CreatableApart(n);
    GrowthShows(q.fs, q2.fs, Paths(mig));
    if BindsAfterSelected(o, q2.generated) {
      BindingFrame(q2.fs, readOnly, n.modelName);
      NewFileSurvives(q.fs, q2.fs, RegisterBindingSpec(q2.fs, readOnly, n.modelName));
    } else if !q2.generated {
      assert q2.fs == q.fs;
    }
  }

  /** Growth by files other than the provider. */
  lemma GrowthShows(a: FileMap, b: FileMap, added: set<string>)
    requires Keeps(a, b) && AddsOnly(a, b, added) && ProviderPath !in added
    ensures a.Keys < b.Keys <==> !AddsOnly(a, b, {ProviderPath})
  {
  }

  lemma SelectedFrame(p: Progress, stubs: Stubs, tables: set<string>, readOnly: set<string>, o: Options, n: Names)
    ensures var r := GenerateSelectedSpec(p, stubs, tables, readOnly, o, n);
      KeepsExcept(p.fs, r.fs, Patched) && AddsOnly(p.fs, r.fs, Creatable(n))
  {
    var b := SelectedFirst(p, stubs, readOnly, o, n);
    SelectedFirstFacts(p, stubs, readOnly, o, n);
    SelectedSecondFacts(b, stubs, tables, readOnly, o, n);
  }

  /** A run never removes a file, changes no file other than the three it
      patches, and creates only the artifacts of the --all plan and the
      provider. */
  lemma RunFrame(p: Progress, stubs: Stubs, tables: set<string>, readOnly: set<string>, o: Options, n: Names)
    ensures var r := HandleSpec(p, stubs, tables, readOnly, o, n).state;
      KeepsExcept(p.fs, r.fs, Patched) && AddsOnly(p.fs, r.fs, Creatable(n))
  {
    if BaseFilesPresent(p.fs) && !NoOption(o) {
      if o.all {
        AllFrame(p, stubs, tables, readOnly, o, n);
      } else {
        SelectedFrame(p, stubs, tables, readOnly, o, n);
      }
    }
  }

  // ---------------------------------------------------------------------
  // The outcome message.

  /** A file added between a and b that is not the provider stays added
      through a patch step, and if none was added, only the provider can
      be new at the end. */
  lemma NewFileShows(a: FileMap, b: FileMap, r: FileMap, added: set<string>)
    requires Keeps(a, b) && AddsOnly(a, b, added) && ProviderPath !in added
    requires KeepsExcept(b, r, Patched) && AddsOnly(b, r, {ProviderPath})
    ensures a.Keys < b.Keys <==> !AddsOnly(a, r, {ProviderPath})
  {
    if a.Keys < b.Keys {
      var q :| q in b.Keys && q !in a.Keys;
      assert q in r && q != ProviderPath;
    }
  }

  /** The same for the two attempt phases of generateSelectedFiles with
      the route rebuild between them. */
  lemma NewFileShowsTwice(a: FileMap, b: FileMap, b1: FileMap, c: FileMap, added1: set<string>, added2: set<string>)
    requires Keeps(a, b) && AddsOnly(a, b, added1) && ProviderPath !in added1
    requires KeepsExcept(b, b1, Patched) && b1.Keys == b.Keys
    requires Keeps(b1, c) && AddsOnly(b1, c, added2) && ProviderPath !in added2
    ensures (a.Keys < b.Keys || b1.Keys < c.Keys) <==> (exists q :: q in c && q !in a && q != ProviderPath)
  {
    if a.Keys < b.Keys {
      var q :| q in b.Keys && q !in a.Keys;
      assert q in c && q != ProviderPath;
    } else if b1.Keys < c.Keys {
      var q :| q in c.Keys && q !in b1.Keys;
      assert q !in a && q != ProviderPath;
    }
  }

  /** A new file that is not the provider survives the provider patch. */
  lemma NewFileSurvives(a: FileMap, c: FileMap, r: FileMap)
    requires KeepsExcept(c, r, Patched) && AddsOnly(c, r, {ProviderPath})
    ensures (exists q :: q in c && q !in a && q != ProviderPath) <==> !AddsOnly(a, r, {ProviderPath})
  {
    if exists q :: q in c && q !in a && q != ProviderPath {
      var q :| q in c && q !in a && q != ProviderPath;
      assert q in r;
    }
  }

  /** Under --all, no new file besides the provider means nothing was
      generated. */
  lemma AllNothingNew(fs: FileMap, stubs: Stubs, tables: set<string>, readOnly: set<string>, o: Options, n: Names)
    ensures var r := GenerateAllSpec(Fresh(fs), stubs, tables, readOnly, n);
      !r.generated <==> AddsOnly(fs, r.fs, {ProviderPath})
  {
    var admitted := MigrationAdmitted(fs, tables, n.tableName);
    var plan := AllPlan(n, admitted);
    var q := Attempts(Fresh(fs), stubs, plan, Replacements(n));
    AttemptsFrame(Fresh(fs), stubs, plan, Replacements(n));
    PlansWithinAll(o, n, admitted);
    PlannedApart(n, n.tableName);
    var fs1 := RegisterBindingSpec(q.fs, readOnly, n.modelName);
    BindingFrame(q.fs, readOnly, n.modelName);
    RouteFrame(fs1, readOnly, n.modelName, n.tableName);
    FrameChain(q.fs, fs1, AddRouteSpec(fs1, readOnly, n.modelName, n.tableName), {ProviderPath}, {});
    NewFileShows(fs, q.fs, AddRouteSpec(fs1, readOnly, n.modelName, n.tableName), Paths(plan));
  }

  /** Without --all, the same: the provider is only patched after
      something was generated. */
  lemma SelectedNothingNew(fs: FileMap, stubs: Stubs, tables: set<string>, readOnly: set<string>, o: Options, n: Names)
    ensures var r := GenerateSelectedSpec(Fresh(fs), stubs, tables, readOnly, o, n);
      !r.generated <==> AddsOnly(fs, r.fs, {ProviderPath})
  {
    var b := SelectedFirst(Fresh(fs), stubs, readOnly, o, n);
    SelectedFirstFacts(Fresh(fs), stubs, readOnly, o, n);
    SelectedSecondFacts(b, stubs, tables, readOnly, o, n);
    CreatableApart(n);
    var r := SelectedSecond(b, stubs, tables, readOnly, o, n);
    QuietChain(fs, b.fs, r.fs, b.generated, r.generated, Paths(AllPlan(n, true)));
  }

  /** The two halves' reports, composed. */
  lemma QuietChain(a: FileMap, b: FileMap, r: FileMap, bgen: bool, rgen: bool, added: set<string>)
    requires KeepsExcept(a, b, Patched) && AddsOnly(a, b, added) && ProviderPath !in added
    requires bgen <==> a.Keys < b.Keys
    requires KeepsExcept(b, r, Patched) && (rgen <==> bgen || !AddsOnly(b, r, {ProviderPath}))
    ensures !rgen <==> AddsOnly(a, r, {ProviderPath})
  {
    if bgen {
      var x :| x in b.Keys && x !in a.Keys;
      assert x in r && x != ProviderPath;
    } else {
      assert a.Keys == b.Keys;
    }
  }

  /** "No new files were created" is printed exactly when the run created
      no file other than the provider (which --all writes every time). */
  lemma NothingNewIff(fs: FileMap, stubs: Stubs, tables: set<string>, readOnly: set<string>, o: Options, n: Names)
    requires BaseFilesPresent(fs) && !NoOption(o)
    ensures var r := HandleSpec(Fresh(fs), stubs, tables, readOnly, o, n);
      r.outcome == NothingNew <==> AddsOnly(fs, r.state.fs, {ProviderPath})
  {
    if o.all {
      AllNothingNew(fs, stubs, tables, readOnly, o, n);
    } else {
      SelectedNothingNew(fs, stubs, tables, readOnly, o, n);
    }
  }

  /** None of the eight fixed artifacts uses the migration stub. */
  lemma MainStubs(n: Names)
    ensures forall a :: a in MainArtifacts(n) ==> a.stub != MigrationStub
  {
  }

  /** The artifacts other than migrations of a plan made of the eight and
      migrations. */
  lemma NonMigrationPart(fs: FileMap, stubs: Stubs, main: seq<Artifact>, extra: seq<Artifact>, reps: seq<Replacement>)
    requires forall a :: a in main ==> a.stub != MigrationStub
    requires forall a :: a in extra ==> a.stub == MigrationStub
    ensures var plan := main + extra;
      (forall k :: 0 <= k < |plan| && plan[k].stub != MigrationStub ==> Writes(fs, stubs, plan[k], reps))
      <==> (forall a :: a in main ==> Writes(fs, stubs, a, reps))
  {
    var plan := main + extra;
    if forall k :: 0 <= k < |plan| && plan[k].stub != MigrationStub ==> Writes(fs, stubs, plan[k], reps) {
      forall a | a in main ensures Writes(fs, stubs, a, reps) {
        var k :| 0 <= k < |main| && main[k] == a;
        assert plan[k] == a;
      }
    }
  }

  /** "All ... successfully generated" is printed exactly for --all when
      each of the eight fixed artifacts could be written; whether the
      migration was written or skipped plays no part. */
  lemma AllGeneratedIff(fs: FileMap, stubs: Stubs, tables: set<string>, readOnly: set<string>, o: Options, n: Names)
    ensures HandleSpec(Fresh(fs), stubs, tables, readOnly, o, n).outcome == AllGenerated <==>
      BaseFilesPresent(fs) && o.all && forall a :: a in MainArtifacts(n) ==> Writes(fs, stubs, a, Replacements(n))
  {
    if BaseFilesPresent(fs) && o.all {
      var admitted := MigrationAdmitted(fs, tables, n.tableName);
      var plan := AllPlan(n, admitted);
      AllPlanDistinct(n, admitted);
      AttemptsComplete(Fresh(fs), stubs, plan, Replacements(n));
      MainStubs(n);
      NonMigrationPart(fs, stubs, MainArtifacts(n), if admitted then [MigrationArtifact(n)] else [], Replacements(n));
      assert plan[0].stub != MigrationStub;
    }
  }

  // ---------------------------------------------------------------------
  // What the options touch.

  /** --model alone writes at most the model file and leaves every other
      path as it was: no repository, no provider, no routes. */
  lemma ModelOnlyTouchesModel(p: Progress, stubs: Stubs, tables: set<string>, readOnly: set<string>, n: Names)
    ensures var r := HandleSpec(p, stubs, tables, readOnly, Options(false, true, false, false, false, false), n).state.fs;
      forall x :: x != ModelArtifact(n).path ==> Untouched(p.fs, r, x)
  {
    var o := Options(false, true, false, false, false, false);
    var start := Progress(p.fs, false, p.complete);
    var plan := [ModelArtifact(n)];
    assert SelectedArtifacts(o, n) == plan;
    AttemptsFrame(start, stubs, plan, Replacements(n));
    assert Paths(plan) == {ModelArtifact(n).path};
    var b := SelectedFirst(p, stubs, readOnly, o, n);
    assert SelectedMigration(o, n, MigrationAdmitted(b.fs, tables, n.tableName)) == [];
  }

  /** Without --all, a run that printed "No new files" left the provider
      and the providers list alone (unlike --all, which always patches). */
  lemma SelectedQuietRunKeepsProvider(p: Progress, stubs: Stubs, tables: set<string>, readOnly: set<string>, o: Options, n: Names)
    requires !o.all
    ensures var r := HandleSpec(p, stubs, tables, readOnly, o, n);
      r.outcome == NothingNew ==>
        Untouched(p.fs, r.state.fs, ProviderPath) && Untouched(p.fs, r.state.fs, ProvidersListPath)
  {
    var b := SelectedFirst(p, stubs, readOnly, o, n);
    SelectedFirstFacts(p, stubs, readOnly, o, n);
    SelectedSecondFacts(b, stubs, tables, readOnly, o, n);
  }

  /** The routes file is neither the provider nor the providers list. */
  lemma RoutesApart()
    ensures RoutesPath != ProviderPath && RoutesPath != ProvidersListPath
  {
    assert RoutesPath[4] == 'e' && ProviderPath[4] == 'P' && ProvidersListPath[4] == 's';
  }
  // ---------------------------------------------------------------------
  // The migration guard.

  /** Every file added between a and r that the guard's glob matches is
      the planned migration, and was added only if ok held. */
  predicate GuardedBy(a: FileMap, r: FileMap, n: Names, ok: bool) {
    forall x :: x in r && x !in a && IsMigrationFor(x, n.tableName) ==> x == MigrationArtifact(n).path && ok
  }

  lemma ProviderNotMigration(table: string)
    ensures !IsMigrationFor(ProviderPath, table)
  {
    assert ProviderPath[4] == 'P' && MigrationsDir[4] == 'b';
    assert ProviderPath[..|MigrationsDir|][4] != MigrationsDir[4];
  }

  /** The eight fixed artifacts are no migrations. */
  lemma MainNotMigrations(n: Names, table: string)
    ensures forall a :: a in MainArtifacts(n) ==> !IsMigrationFor(a.path, table)
  {
    MainUnderApp(n);
    forall a | a in MainArtifacts(n) ensures !IsMigrationFor(a.path, table) {
      UnderAppApart(a.path, table);
    }
  }

  /** In the --all plan only the migration matches the glob, and it is
      planned only when admitted. */
  lemma PlanGuard(n: Names, table: string, admitted: bool)
    ensures forall x :: x in Paths(AllPlan(n, admitted)) && IsMigrationFor(x, table) ==>
      x == MigrationArtifact(n).path && admitted
  {
    MainNotMigrations(n, table);
    if !admitted {
      assert AllPlan(n, admitted) == MainArtifacts(n);
    }
  }

  /** The attempts before the migration in generateSelectedFiles are no
      migrations. */
  lemma SelectedNotMigrations(o: Options, n: Names, table: string)
    ensures forall x :: x in Paths(SelectedArtifacts(o, n)) ==> !IsMigrationFor(x, table)
  {
    SelectedIsUnion(o, n, false);
    AllCoversSelected(o, n, false);
    MainNotMigrations(n, table);
    assert SelectedArtifacts(o, n) + SelectedMigration(o, n, false) == SelectedArtifacts(o, n);
    assert AllPlan(n, false) == MainArtifacts(n);
  }

  /** Adding files other than matching ones, then perhaps the provider. */
  lemma GuardChain(a: FileMap, r: FileMap, added: set<string>, n: Names, ok: bool)
    requires AddsOnly(a, r, added + {ProviderPath}) && !IsMigrationFor(ProviderPath, n.tableName)
    requires forall x :: x in added && IsMigrationFor(x, n.tableName) ==> x == MigrationArtifact(n).path && ok
    ensures GuardedBy(a, r, n, ok)
  {
  }

  /** generateAllFiles writes a migration only when the guard, evaluated
      on the files before the run, admits it. */
  lemma AllGuard(p: Progress, stubs: Stubs, tables: set<string>, readOnly: set<string>, n: Names)
    ensures var r := GenerateAllSpec(p, stubs, tables, readOnly, n);
      GuardedBy(p.fs, r.fs, n, MigrationAdmitted(p.fs, tables, n.tableName))
  {
    var admitted := MigrationAdmitted(p.fs, tables, n.tableName);
    var plan := AllPlan(n, admitted);
    var q := Attempts(p, stubs, plan, Replacements(n));
    AttemptsFrame(p, stubs, plan, Replacements(n));
    var fs1 := RegisterBindingSpec(q.fs, readOnly, n.modelName);
    BindingFrame(q.fs, readOnly, n.modelName);
    RouteFrame(fs1, readOnly, n.modelName, n.tableName);
    FrameChain(p.fs, q.fs, fs1, Paths(plan), {ProviderPath});
    FrameChain(p.fs, fs1, AddRouteSpec(fs1, readOnly, n.modelName, n.tableName), Paths(plan) + {ProviderPath}, {});
    PlanGuard(n, n.tableName, admitted);
    ProviderNotMigration(n.tableName);
    GuardChain(p.fs, AddRouteSpec(fs1, readOnly, n.modelName, n.tableName), Paths(plan), n, admitted);
  }

  /** The first half of generateSelectedFiles writes no migration. */
  lemma SelectedFirstGuard(p: Progress, stubs: Stubs, readOnly: set<string>, o: Options, n: Names)
    ensures var b := SelectedFirst(p, stubs, readOnly, o, n);
      GuardedBy(p.fs, b.fs, n, false) && p.fs.Keys <= b.fs.Keys
  {
    var sel := SelectedArtifacts(o, n);
    var start := Progress(p.fs, false, p.complete);
    var q := Attempts(start, stubs, sel, Replacements(n));
    AttemptsFrame(start, stubs, sel, Replacements(n));
    RouteFrame(q.fs, readOnly, n.modelName, n.tableName);
    SelectedNotMigrations(o, n, n.tableName);
  }

  /** The second half writes a migration only when the guard, evaluated
      on the files as they are by then, admits it. */
  lemma SelectedSecondGuard(q: Progress, stubs: Stubs, tables: set<string>, readOnly: set<string>, o: Options, n: Names)
    ensures var r := SelectedSecond(q, stubs, tables, readOnly, o, n);
      GuardedBy(q.fs, r.fs, n, MigrationAdmitted(q.fs, tables, n.tableName))
  {
    var admitted := MigrationAdmitted(q.fs, tables, n.tableName);
    var mig := SelectedMigration(o, n, admitted);
    var q2 := Attempts(q, stubs, mig, Replacements(n));
    AttemptsFrame(q, stubs, mig, Replacements(n));
    BindingFrame(q2.fs, readOnly, n.modelName);
    ProviderNotMigration(n.tableName);
    GuardChain(q.fs, SelectedSecond(q, stubs, tables, readOnly, o, n).fs, Paths(mig), n, admitted);
  }

  /** The guard only admits less once files are added. */
  lemma GuardCompose(a: FileMap, b: FileMap, r: FileMap, tables: set<string>, n: Names)
    requires GuardedBy(a, b, n, false) && a.Keys <= b.Keys
    requires GuardedBy(b, r, n, MigrationAdmitted(b, tables, n.tableName))
    ensures GuardedBy(a, r, n, MigrationAdmitted(a, tables, n.tableName))
  {
    if MigrationFileExists(a, n.tableName) {
      var x :| x in a && IsMigrationFor(x, n.tableName);
      assert x in b;
    }
  }

  /** A run writes a file matching *_create_<table>_table.php only when
      no such file existed before it and the table did not exist; the
      file is then the migration artifact. */
  lemma MigrationGuarded(p: Progress, stubs: Stubs, tables: set<string>, readOnly: set<string>, o: Options, n: Names)
    ensures var r := HandleSpec(p, stubs, tables, readOnly, o, n).state;
      GuardedBy(p.fs, r.fs, n, MigrationAdmitted(p.fs, tables, n.tableName))
  {
    if BaseFilesPresent(p.fs) && !NoOption(o) {
      if o.all {
        AllGuard(p, stubs, tables, readOnly, n);
      } else {
        var b := SelectedFirst(p, stubs, readOnly, o, n);
        SelectedFirstGuard(p, stubs, readOnly, o, n);
        SelectedSecondGuard(b, stubs, tables, readOnly, o, n);
        GuardCompose(p.fs, b.fs, SelectedSecond(b, stubs, tables, readOnly, o, n).fs, tables, n);
      }
    }
  }

  /** Repeated runs never add a second migration for the same table: once
      a run has added a matching file, the next run adds none. */
  lemma NoSecondMigration(p: Progress, stubs: Stubs, tables: set<string>, readOnly: set<string>,
                          o: Options, n: Names, o2: Options, n2: Names)
    requires n2.tableName == n.tableName
    ensures var r1 := HandleSpec(p, stubs, tables, readOnly, o, n).state;
      var r2 := HandleSpec(r1, stubs, tables, readOnly, o2, n2).state;
      (exists x :: x in r1.fs && x !in p.fs && IsMigrationFor(x, n.tableName)) ==>
        forall x :: x in r2.fs && x !in r1.fs ==> !IsMigrationFor(x, n.tableName)
  {
    var r1 := HandleSpec(p, stubs, tables, readOnly, o, n).state;
    MigrationGuarded(r1, stubs, tables, readOnly, o2, n2);
  }

  /** The migration a run writes is one the guard's glob finds on the next
      run (date('Y_m_d_His') yields digits and underscores). */
  lemma MigrationWrittenIsFound(fs: FileMap, tables: set<string>, n: Names)
    requires forall k :: 0 <= k < |n.timestamp| ==> IsDigit(n.timestamp[k]) || n.timestamp[k] == '_'
    requires '/' !in n.tableName
    requires MigrationArtifact(n).path in fs
    ensures !MigrationAdmitted(fs, tables, n.tableName)
  {
    MigrationPathMatchesGlob(n);
  }

  // ---------------------------------------------------------------------
  // --all patches every time.

  /** Attempts of artifacts outside the patched files leave those alone. */
  lemma AttemptsLeavePatched(p: Progress, stubs: Stubs, n: Names, admitted: bool)
    ensures var r := Attempts(p, stubs, AllPlan(n, admitted), Replacements(n)).fs;
      Untouched(p.fs, r, ProviderPath) && Untouched(p.fs, r, ProvidersListPath) && Untouched(p.fs, r, RoutesPath)
  {
    AttemptsFrame(p, stubs, AllPlan(n, admitted), Replacements(n));
    PlansWithinAll(Options(true, false, false, false, false, false), n, admitted);
    CreatableApart(n);
  }

  /** What the two patches leave, in terms of the files before any
      attempt that left the patched files alone. */
  lemma PatchesAfter(fs: FileMap, q: FileMap, readOnly: set<string>, m: string, t: string)
    requires PlainName(m)
    requires Untouched(fs, q, ProviderPath) && Untouched(fs, q, ProvidersListPath) && Untouched(fs, q, RoutesPath)
    ensures var r := AddRouteSpec(RegisterBindingSpec(q, readOnly, m), readOnly, m, t);
      var b := BindingCode(m);
      && ProviderPath in r
      && (Contains(r[ProviderPath], b) <==>
            ProviderPath !in fs || Contains(fs[ProviderPath], b) || FindRegister(fs[ProviderPath], 0).Some?)
      && (Writable(fs, readOnly, ProvidersListPath) ==>
            ProvidersListPath in r
            && (Contains(r[ProvidersListPath], ProviderEntry) <==>
                  Contains(fs[ProvidersListPath], ProviderEntry) || Contains(fs[ProvidersListPath], ReturnOpen)))
      && (Writable(fs, readOnly, RoutesPath) ==>
            RoutesPath in r && r[RoutesPath] == RebuildRoutes(fs[RoutesPath], m, t))
  {
    BindingRegistered(q, readOnly, m);
    var fs1 := RegisterBindingSpec(q, readOnly, m);
    RoutesApart();
    assert Untouched(q, fs1, RoutesPath);
    RouteFrame(fs1, readOnly, m, t);
  }

  /** Under --all the provider and the providers list are patched and the
      routes file rebuilt whether or not any file was generated: the
      outcome of the patches depends only on the files as they were. */
  lemma AllAlwaysPatches(p: Progress, stubs: Stubs, tables: set<string>, readOnly: set<string>, n: Names)
    requires PlainName(n.modelName)
    ensures var r := GenerateAllSpec(p, stubs, tables, readOnly, n).fs;
      var b := BindingCode(n.modelName);
      && ProviderPath in r
      && (Contains(r[ProviderPath], b) <==>
            ProviderPath !in p.fs || Contains(p.fs[ProviderPath], b) || FindRegister(p.fs[ProviderPath], 0).Some?)
      && (Writable(p.fs, readOnly, ProvidersListPath) ==>
            ProvidersListPath in r
            && (Contains(r[ProvidersListPath], ProviderEntry) <==>
                  Contains(p.fs[ProvidersListPath], ProviderEntry) || Contains(p.fs[ProvidersListPath], ReturnOpen)))
      && (Writable(p.fs, readOnly, RoutesPath) ==>
            RoutesPath in r && r[RoutesPath] == RebuildRoutes(p.fs[RoutesPath], n.modelName, n.tableName))
  {
    var admitted := MigrationAdmitted(p.fs, tables, n.tableName);
    var q := Attempts(p, stubs, AllPlan(n, admitted), Replacements(n));
    AttemptsLeavePatched(p, stubs, n, admitted);
    PatchesAfter(p.fs, q.fs, readOnly, n.modelName, n.tableName);
  }
}
