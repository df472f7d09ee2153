/** The make:repo command object: the file system it works on, the two
    progress flags of lines 28-29, and one method per method of
    src/Commands/MakeRepository.php, each proved to leave the state its
    specification function in Engine, Binding or Routes describes. */
module Command {
  import opened PhpText
  import opened Placeholders
  import opened Planner
  import opened Binding
  import opened Routes
  import opened Engine
  import opened RouteRerun

  class MakeRepository {
    /** The templates directory, the tables Schema::hasTable reports, the
        files is_writable() refuses, the options given and the names the
        inflector and the clock produced: fixed for a run. */
    const stubs: Stubs
    const tables: set<string>
    const readOnly: set<string>
    const options: Options
    const names: Names

    /** The application's files. */
    var fs: FileMap
    var filesGenerated: bool
    var allFilesGenerated: bool

    /** The files with the two flags. */
    function State(): Progress
      reads this
    {
      Progress(fs, filesGenerated, allFilesGenerated)
    }

    /** A new command over the given files; the flags start as the field
        initialisers of lines 28-29 set them. */
    constructor (files: FileMap, stubs: Stubs, tables: set<string>, readOnly: set<string>,
                 options: Options, names: Names)
      ensures State() == Fresh(files)
      ensures this.stubs == stubs && this.tables == tables && this.readOnly == readOnly
      ensures this.options == options && this.names == names
    {
      this.stubs := stubs;
      this.tables := tables;
      this.readOnly := readOnly;
      this.options := options;
      this.names := names;
      fs := files;
      filesGenerated := false;
      allFilesGenerated := true;
    }

    /** handle (lines 41-81): the two guards, each ending the run with
        `return false`; then generateAllFiles or generateSelectedFiles; then
        the message the two flags select. */
    method Handle() returns (outcome: Outcome)
      modifies this
      ensures Run(State(), outcome) == HandleSpec(old(State()), stubs, tables, readOnly, options, names)
    {
      var present := CheckRequiredFiles();
      if !present {
        return MissingBaseFiles;
      }
      if !options.all && !options.model && !options.repository && !options.service
         && !options.controller && !options.migration {
        return NoOptions;
      }
      if options.all {
        GenerateAllFiles();
      } else {
        GenerateSelectedFiles();
      }
      if filesGenerated {
        if options.all && allFilesGenerated {
          outcome := AllGenerated;
        } else {
          outcome := SomeGenerated;
        }
      } else {
        outcome := NothingNew;
      }
    }

    /** checkRequiredFiles (lines 83-93). */
    method CheckRequiredFiles() returns (ok: bool)
      ensures ok <==> InterfacePath in fs && BaseRepositoryPath in fs
    {
      ok := InterfacePath in fs && BaseRepositoryPath in fs;
    }

    /** generateFile (lines 245-278): the replacements are applied one
        after the other, in the order of the array. */
    method GenerateFile(stub: string, path: string, reps: seq<Replacement>) returns (ok: bool)
      modifies this
      ensures var g := GenerateSpec(old(fs), stubs, Artifact(stub, path), reps);
        fs == g.fs && ok == g.ok
      ensures filesGenerated == (old(filesGenerated) || ok) && allFilesGenerated == old(allFilesGenerated)
    {
      if stub !in stubs {
        return false;
      }
      if path in fs {
        return false;
      }
      var content := stubs[stub];
      var i := 0;
      while i < |reps|
        invariant 0 <= i <= |reps|
        invariant content == Substitute(stubs[stub], reps[..i])
      {
        assert reps[..i + 1][..i] == reps[..i];
        content := ReplaceAll(content, reps[i].search, reps[i].value);
        i := i + 1;
      }
      assert reps[..|reps|] == reps;
      if HasPlaceholder(content) {
        return false;
      }
      fs := fs[path := content];
      filesGenerated := true;
      return true;
    }

    /** generateAllFiles (lines 118-170): the migration guard first, then
        every entry of $files in order, then the provider and the routes
        file whatever the attempts did. */
    method GenerateAllFiles()
      modifies this
      ensures State() == GenerateAllSpec(old(State()), stubs, tables, readOnly, names)
    {
      ghost var start := State();
      var migrationGenerated := true;
      var admitted := !MigrationFileExists(fs, names.tableName) && names.tableName !in tables;
      if !admitted {
        migrationGenerated := false;
      }
      var files := AllPlan(names, admitted);
      AttemptAll(files, Replacements(names));
      // Lines 164-166 assign the value the flag already holds.
      if !migrationGenerated && allFilesGenerated {
        allFilesGenerated := true;
      }
      RegisterBinding();
      AddRouteResource();
    }

    /** The foreach of lines 152-161: every failure but the migration's
        clears allFilesGenerated. */
    method AttemptAll(files: seq<Artifact>, reps: seq<Replacement>)
      modifies this
      ensures State() == Attempts(old(State()), stubs, files, reps)
    {
      ghost var start := State();
      var i := 0;
      while i < |files|
        invariant 0 <= i <= |files|
        invariant State() == Attempts(start, stubs, files[..i], reps)
      {
        AttemptsSnoc(start, stubs, files[..i], files[i], reps);
        assert files[..i + 1] == files[..i] + [files[i]];
        var ok := GenerateFile(files[i].stub, files[i].path, reps);
        if !ok && files[i].stub != MigrationStub {
          allFilesGenerated := false;
        }
        i := i + 1;
      }
      assert files[..|files|] == files;
    }

    /** generateSelectedFiles (lines 172-243): the option blocks, then the
        migration behind its guard and the provider, and the local
        $generated stored in filesGenerated. */
    method GenerateSelectedFiles()
      modifies this
      ensures State() == GenerateSelectedSpec(old(State()), stubs, tables, readOnly, options, names)
    {
      ghost var q := SelectedFirst(State(), stubs, readOnly, options, names);
      var reps := Replacements(names);
      var generated := GenerateRequested(reps);
      generated := GenerateMigrationAndBind(reps, generated, q);
      filesGenerated := generated;
    }

    /** Lines 174-221: the generateFile calls each option asks for, and
        the route, added last in the controller block; returns the local
        $generated. */
    method GenerateRequested(reps: seq<Replacement>) returns (generated: bool)
      modifies this
      requires reps == Replacements(names)
      ensures var q := SelectedFirst(old(State()), stubs, readOnly, options, names);
        fs == q.fs && generated == q.generated
      ensures filesGenerated == (old(filesGenerated) || generated)
      ensures allFilesGenerated == old(allFilesGenerated)
    {
      generated := AttemptRequested(reps);
      if options.controller {
        AddRouteResource();
      }
    }

    /** The generateFile calls of lines 182-219, in call order. */
    method AttemptRequested(reps: seq<Replacement>) returns (generated: bool)
      modifies this
      ensures var q := Attempts(Progress(old(fs), false, old(allFilesGenerated)), stubs, SelectedArtifacts(options, names), reps);
        fs == q.fs && generated == q.generated
      ensures filesGenerated == (old(filesGenerated) || generated)
      ensures allFilesGenerated == old(allFilesGenerated)
    {
      var model, repository, service := ModelArtifact(names), RepositoryArtifact(names), ServiceArtifact(names);
      var resource, collection, controller :=
        ResourceArtifact(names), CollectionArtifact(names), ControllerArtifact(names);
      ghost var first := Progress(fs, false, allFilesGenerated);
      OptionBlocks(first, stubs, reps, options.model, options.repository,
                   options.service || options.controller, options.controller,
                   model, repository, service, resource, collection, controller);
      generated := false;
      ghost var cur := first;
      if options.model {
        generated := Attempt(model, reps, generated, cur);
        cur := Step(cur, stubs, model, reps);
      }
      if options.repository {
        generated := Attempt(repository, reps, generated, cur);
        cur := Step(cur, stubs, repository, reps);
      }
      if options.service || options.controller {
        generated := Attempt(repository, reps, generated, cur);
        cur := Step(cur, stubs, repository, reps);
        generated := Attempt(service, reps, generated, cur);
        cur := Step(cur, stubs, service, reps);
      }
      if options.controller {
        generated := AttemptControllerBlock(resource, collection, controller, reps, generated, cur, old(filesGenerated));
      }
    }

    /** The three generateFile calls of the controller block (lines
        211-219); filesGenerated keeps recording whether $generated is set. */
    method AttemptControllerBlock(resource: Artifact, collection: Artifact, controller: Artifact,
                                  reps: seq<Replacement>, generated: bool, ghost cur: Progress, ghost before: bool)
      returns (nowGenerated: bool)
      modifies this
      requires cur.fs == fs && cur.generated == generated
      requires filesGenerated == (before || generated)
      ensures var r := Step(Step(Step(cur, stubs, resource, reps), stubs, collection, reps), stubs, controller, reps);
        fs == r.fs && nowGenerated == r.generated
      ensures filesGenerated == (before || nowGenerated)
      ensures allFilesGenerated == old(allFilesGenerated)
    {
      ghost var c := cur;
      nowGenerated := Attempt(resource, reps, generated, c);
      c := Step(c, stubs, resource, reps);
      nowGenerated := Attempt(collection, reps, nowGenerated, c);
      c := Step(c, stubs, collection, reps);
      nowGenerated := Attempt(controller, reps, nowGenerated, c);
    }

    /** Lines 223-242: the migration behind the guard of lines 225-233 on
        the files as they are by then, and the provider when something was
        generated and one of the options of line 238 was given. */
    method GenerateMigrationAndBind(reps: seq<Replacement>, generated: bool, ghost q: Progress)
      returns (nowGenerated: bool)
      modifies this
      requires reps == Replacements(names)
      requires q.fs == fs && q.generated == generated
      ensures var r := SelectedSecond(q, stubs, tables, readOnly, options, names);
        fs == r.fs && nowGenerated == r.generated
      ensures filesGenerated == (old(filesGenerated) || (options.migration && MigrationAdmitted(q.fs, tables, names.tableName)
                                 && GenerateSpec(q.fs, stubs, MigrationArtifact(names), reps).ok))
      ensures allFilesGenerated == old(allFilesGenerated)
    {
      nowGenerated := generated;
      if options.migration {
        if MigrationFileExists(fs, names.tableName) {
        } else if names.tableName in tables {
        } else {
          nowGenerated := Attempt(MigrationArtifact(names), reps, nowGenerated, q);
          AttemptsBlock(q, stubs, MigrationArtifact(names), MigrationArtifact(names), MigrationArtifact(names), reps);
        }
      }
      if nowGenerated && (options.repository || options.service || options.controller || options.all) {
        RegisterBinding();
      }
    }

    /** `if ($this->generateFile(...)) { $generated = true; }`: one step of
        the attempts, followed through the ghost progress cur. */
    method Attempt(a: Artifact, reps: seq<Replacement>, generated: bool, ghost cur: Progress)
      returns (nowGenerated: bool)
      modifies this
      requires cur.fs == fs && cur.generated == generated
      ensures var r := Step(cur, stubs, a, reps); r.fs == fs && r.generated == nowGenerated
      ensures filesGenerated == (old(filesGenerated) || GenerateSpec(cur.fs, stubs, a, reps).ok)
      ensures allFilesGenerated == old(allFilesGenerated)
    {
      var ok := GenerateFile(a.stub, a.path, reps);
      nowGenerated := generated;
      if ok {
        nowGenerated := true;
      }
    }

    /** registerBinding (lines 280-338). */
    method RegisterBinding()
      modifies this
      ensures fs == RegisterBindingSpec(old(fs), readOnly, names.modelName)
      ensures filesGenerated == old(filesGenerated) && allFilesGenerated == old(allFilesGenerated)
    {
      var binding := BindingCode(names.modelName);
      var content;
      if ProviderPath !in fs {
        content := ProviderTemplate(binding);
      } else {
        content := fs[ProviderPath];
        if !Contains(content, binding) {
          content := SpliceBinding(content, binding);
        }
      }
      fs := fs[ProviderPath := content];
      if !Writable(fs, readOnly, ProvidersListPath) {
        return;
      }
      var list := fs[ProvidersListPath];
      if !Contains(list, ProviderEntry) {
        list := ReplaceAll(list, ReturnOpen, ReturnOpen + "\n    " + ProviderEntry + ",");
        fs := fs[ProvidersListPath := list];
      }
    }

    /** addRouteResource (lines 340-411). */
    method AddRouteResource()
      modifies this
      ensures fs == AddRouteSpec(old(fs), readOnly, names.modelName, names.tableName)
      ensures filesGenerated == old(filesGenerated) && allFilesGenerated == old(allFilesGenerated)
    {
      if !Writable(fs, readOnly, RoutesPath) {
        return;
      }
      // The default of line 358 is never taken: a writable file exists.
      var content := if RoutesPath in fs then fs[RoutesPath] else "<?php\n\n" + RouteImport + ";\n";
      content := StripOpenTags(content);
      content := StripCloseTag(content);
      content := Trim(content) + "\n";
      var lines := Split(content);
      var newContent := RebuildLines(lines, names.modelName, names.tableName);
      fs := fs[RoutesPath := Join(newContent) + "\n"];
    }
  }

  /** The foreach of lines 369-384: the other `use` lines and the
      `Route::` lines in their order, and whether the controller import
      was among the lines. */
  method ClassifyLines(lines: seq<string>, m: string)
    returns (useStatements: seq<string>, routeStatements: seq<string>, hasControllerUse: bool)
    ensures useStatements == OtherUses(lines, m) && routeStatements == RouteDecls(lines, m)
    ensures hasControllerUse <==> HasControllerUse(lines, m)
  {
    useStatements, routeStatements := [], [];
    var hasRouteUse := false;
    hasControllerUse := false;
    var i := 0;
    while i < |lines|
      invariant 0 <= i <= |lines|
      invariant useStatements == Kept(lines[..i], Kinds(lines[..i], m), OtherUse)
      invariant routeStatements == Kept(lines[..i], Kinds(lines[..i], m), RouteDecl)
      invariant hasControllerUse <==> Kept(lines[..i], Kinds(lines[..i], m), ControllerUse) != []
    {
      var line := lines[i];
      KeptStep(lines, i, m, OtherUse);
      KeptStep(lines, i, m, RouteDecl);
      KeptStep(lines, i, m, ControllerUse);
      var t := Trim(line);
      if t == "<?php" || t == "" || t == "0" {
      } else if IsUseStatement(t) {
        if t == RouteImport {
          hasRouteUse := true;
        } else if t == ControllerImport(m) {
          hasControllerUse := true;
        } else {
          useStatements := useStatements + [line];
        }
      } else if IsRouteStatement(t) {
        routeStatements := routeStatements + [line];
      }
      i := i + 1;
    }
    assert lines[..|lines|] == lines;
    ControllerUseKept(lines, m);
  }

  /** Lines 386-403: $newContent built by appends. */
  method RebuildLines(lines: seq<string>, m: string, table: string) returns (newContent: seq<string>)
    ensures newContent == RebuiltLines(lines, m, table)
  {
    var useStatements, routeStatements, hasControllerUse := ClassifyLines(lines, m);
    RebuiltLinesShape(lines, m, table, useStatements, routeStatements, hasControllerUse);
    newContent := ["<?php", ""];
    newContent := newContent + [RouteImport + ";"];
    ghost var opening := newContent;
    if !hasControllerUse {
      newContent := newContent + [ControllerImport(m) + ";"];
    } else {
      assert newContent + [] == newContent;
    }
    ghost var header := newContent;
    newContent := AppendAll(newContent, useStatements);
    newContent := newContent + [""];
    newContent := AppendAll(newContent, routeStatements);
    // trim($routeCode) is RouteLine (RouteLineIsTrimmedCode).
    var routeLine := RouteLine(m, table);
    if routeLine !in Trims(routeStatements) {
      newContent := newContent + [routeLine];
    } else {
      assert newContent + [] == newContent;
    }
  }

  /** A foreach that appends every element of xs to acc (lines 391-393
      and 395-397). */
  method AppendAll(acc: seq<string>, xs: seq<string>) returns (r: seq<string>)
    ensures r == acc + xs
  {
    r := acc;
    var j := 0;
    while j < |xs|
      invariant 0 <= j <= |xs|
      invariant r == acc + xs[..j]
    {
      assert xs[..j + 1] == xs[..j] + [xs[j]];
      r := r + [xs[j]];
      j := j + 1;
    }
    assert xs[..j] == xs;
  }
}
