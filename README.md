# make:repo generator engine, modelled in Dafny

This project models the core of the `make:repo` Artisan command of the
repository-pattern package (`src/Commands/MakeRepository.php`). For a model
name, the command does the following:

- It refuses to run unless the two base files exist and at least one option
  is given.
- It renders template stubs into new files. A file that already exists is
  never overwritten. A rendering in which a `{{…}}` placeholder survives on
  one line is not written.
- It decides which artifacts to attempt from the options.
- A migration is written only when no `*_create_<table>_table.php` file
  exists and the table does not exist either.
- It splices a container binding into `app/Providers/RepositoriesServiceProvider.php`.
- It adds the provider class to `bootstrap/providers.php`.
- It rebuilds `routes/api.php` around a `Route::resource` line.
- It keeps two progress flags and reports one of three messages.

The file system is a map from path to content. `is_writable` means the file
exists and is not in a given read-only set. `Schema::hasTable` is a given set
of tables. The inflected names and the timestamp are given as inputs.

Modules:

- `PhpText` models the string functions the command relies on: `trim`,
  `str_replace`, `explode`/`implode` and PCRE's `\s`. `trim` and `\s` use
  different character sets.
- `Placeholders` models the replacement loop and the `/\{\{.*?\}\}/`
  check.
- `Planner` models the paths, the options, the attempt plans and the
  migration glob.
- `Binding` models the provider splice. This includes PHP's expansion of
  `$n` and `\n` references inside the replacement string of
  `preg_replace`.
- `Routes` models the routes-file rebuild.
- `RouteRerun` states what a second run of the routes rebuild does.
- `Engine` gives the whole command as functions of the state before it,
  with the frame, guard and outcome lemmas.
- `Command` holds the class `MakeRepository`. It has the fields
  `filesGenerated` and `allFilesGenerated` and one method per method of
  the source. Each method is proved to leave the state that its
  specification function describes.

The model keeps the behaviour of the code as written:

- **Doubled semicolons.** Lines 387 and 389 append a second `;` to the two
  imports. On the next run the doubled controller import counts as an
  "other" `use` line, and a fresh one is added. So the rebuild is not
  idempotent (`RouteRerun.RerunChanges`), and only the resource route is
  never duplicated (`Routes.RouteNeverDuplicated`).
- **First line swallowed.** Line 359 strips all whitespace after `<?php`.
  The line after the tag is glued onto it, matches neither class and is
  dropped (`RouteRerun.OpenTagGlues`, `RouteRerun.GluedDropped`).
- **Existing controller import dropped.** A routes file that already holds
  the controller import with a single `;` loses it. Lines 373-377 only set
  `$hasControllerUse` and do not keep the line, and lines 388-390 then add
  nothing. The rebuilt file has no line that reads as that import, so the
  `XController::class` of the resource route is left unimported
  (`RouteRerun.ExistingControllerImportDropped`).
- **Unreachable default.** The missing-file default of line 358 is never
  taken, because line 349 already returns for a missing file.
- **No-op.** Lines 164-166 assign `allFilesGenerated` the value it already
  has.
- **Unconditional patching.** `--all` always patches the provider and the
  routes file (`Engine.AllAlwaysPatches`).
- **Global replace.** The provider-list `str_replace` of line 335 rewrites
  every `return [` (`Binding.AddProviderEntryEveryReturn`).

Where `tests/Feature/MakeRepositoryTest.php` disagrees with the command, the
model follows the command:

- `--controller` does create the repository (lines 196-200).
- `handle` returns `false`, not an exit code of 1.
- The test expects the setup command in quotes; line 89 prints it without
  quotes. Messages are outside the model anyway.

## Model

| member | source | states |
|---|---|---|
| Command.MakeRepository.constructor | src/Commands/MakeRepository.php:28-29 | a new command starts with filesGenerated false and allFilesGenerated true over the given files |
| Command.MakeRepository.Handle | src/Commands/MakeRepository.php:41-81 | the new state and the outcome are those of Engine.HandleSpec: missing base files or no option end the run unchanged, otherwise generateAllFiles or generateSelectedFiles runs and the flags choose the message |
| Command.MakeRepository.CheckRequiredFiles | src/Commands/MakeRepository.php:83-93 | true exactly when both the repository interface and the base repository exist |
| Command.MakeRepository.GenerateAllFiles | src/Commands/MakeRepository.php:118-170 | the state after --all is Engine.GenerateAllSpec: guard evaluated before any write, eight fixed attempts plus the admitted migration, then the provider and the routes file patched |
| Command.MakeRepository.AttemptAll | src/Commands/MakeRepository.php:152-161 | the foreach leaves the files and flags of Engine.Attempts: each failure except the migration's clears allFilesGenerated, each success sets filesGenerated |
| Command.MakeRepository.GenerateSelectedFiles | src/Commands/MakeRepository.php:172-243 | the state after a run without --all is Engine.GenerateSelectedSpec; allFilesGenerated is untouched and filesGenerated ends as the local $generated |
| Command.MakeRepository.GenerateRequested | src/Commands/MakeRepository.php:174-221 | files and $generated after the option blocks and the controller's route are those of Engine.SelectedFirst; filesGenerated is set exactly when it was already set or $generated is |
| Command.MakeRepository.AttemptRequested | src/Commands/MakeRepository.php:182-219 | the generateFile calls are the attempts of Planner.SelectedArtifacts in call order, the repository twice when --repository meets --service or --controller; filesGenerated ends set exactly when it was set before or one of these calls wrote a file |
| Command.MakeRepository.AttemptControllerBlock | src/Commands/MakeRepository.php:207-219 | the resource, collection and controller attempts advance the files by three Engine.Step, and filesGenerated keeps recording whether $generated is set |
| Command.MakeRepository.GenerateMigrationAndBind | src/Commands/MakeRepository.php:223-240 | the migration is attempted only when no matching file exists and the table is absent, judged on the files as they are then; the provider is patched only after a success with --repository, --service or --controller; filesGenerated ends set exactly when it was set before or the migration was written |
| Command.MakeRepository.Attempt | src/Commands/MakeRepository.php:183-186 | a successful generateFile sets the local flag; the files advance by one Engine.Step; filesGenerated ends set exactly when it was set before or this generateFile wrote the file |
| Command.MakeRepository.GenerateFile | src/Commands/MakeRepository.php:245-278 | the files and result are those of Engine.GenerateSpec, with the replacements applied in array order; filesGenerated is set only on a write |
| Command.MakeRepository.RegisterBinding | src/Commands/MakeRepository.php:280-338 | the files after it are Binding.RegisterBindingSpec of the files before; the flags do not change |
| Command.MakeRepository.AddRouteResource | src/Commands/MakeRepository.php:340-411 | the files after it are Routes.AddRouteSpec: an unwritable or missing routes file is left alone, otherwise it is normalised, reclassified and rebuilt |
| Command.ClassifyLines | src/Commands/MakeRepository.php:369-384 | the other use lines and the Route:: lines come out in their original order, and the controller flag is set exactly when some line trims to the controller import |
| Command.RebuildLines | src/Commands/MakeRepository.php:386-403 | $newContent is the opening tag, a blank line, the route import, the controller import only when no line already is that import (an existing one is dropped, not kept), the other uses, a blank line, the routes, and the resource route unless an existing route trims to it |
| Command.AppendAll | src/Commands/MakeRepository.php:391-397 | the foreach appends every element, in order, after what was there |
| PhpText.TrimLeftDropsOnlyTrimChars | src/Commands/MakeRepository.php:361 | ltrim keeps a suffix of the input, every character it drops is a trim character, and the suffix does not start with one |
| PhpText.TrimRightDropsOnlyTrimChars | src/Commands/MakeRepository.php:361 | rtrim keeps a prefix of the input, every character it drops is a trim character, and the prefix does not end with one |
| PhpText.ReplaceAllAbsent | src/Commands/MakeRepository.php:262 | str_replace leaves a subject without the search string unchanged |
| PhpText.ReplaceAllIntroduces | src/Commands/MakeRepository.php:335 | after a replacement of a present search string the replacement text occurs |
| PhpText.ReplaceAllLeading | src/Commands/MakeRepository.php:262 | an occurrence at the front is replaced and the scan continues after it |
| PhpText.SkipSpaces | src/Commands/MakeRepository.php:359 | \s* stops at the first non-space, having skipped only PCRE spaces |
| PhpText.Split | src/Commands/MakeRepository.php:363 | explode gives at least one piece, none with a newline, and implode gives the text back |
| PhpText.SplitJoin | src/Commands/MakeRepository.php:405 | exploding imploded newline-free lines gives the lines back |
| PhpText.JoinAppend | src/Commands/MakeRepository.php:405 | implode of two non-empty line lists joins their texts with one newline |
| Placeholders.CloseOnLine | src/Commands/MakeRepository.php:265 | true exactly when a "}}" follows before the next newline (the lazy .*?\}\}) |
| Placeholders.PlaceholderFrom | src/Commands/MakeRepository.php:265 | true exactly when a {{…}} match starts at or after the given index |
| Placeholders.HasPlaceholder | src/Commands/MakeRepository.php:265 | true exactly when some "{{" is followed by "}}" on the same line |
| Placeholders.NoBraceNoPlaceholder | src/Commands/MakeRepository.php:265 | text without "{" never fails the check |
| Placeholders.OtherKeySkip | src/Commands/MakeRepository.php:261-263 | replacing one brace key passes over another key that neither prefixes |
| Placeholders.SubstituteStep | src/Commands/MakeRepository.php:262 | each str_replace turns the tokens of that replacement into its value and leaves the later keys in place |
| Placeholders.SubstituteRenders | src/Commands/MakeRepository.php:261-263 | after the first m replacements a template reads as rendered up to m |
| Placeholders.RenderedIsBraceFree | src/Commands/MakeRepository.php:261-263 | a fully rendered template has no "{" |
| Placeholders.SubstituteCloses | src/Commands/MakeRepository.php:259-268 | a stub whose tokens are all replacement keys renders completely and passes the placeholder check |
| Planner.ReplacementsClose | src/Commands/MakeRepository.php:145-150 | the four keys are brace keys, none a prefix of another, so names without "{" close every token |
| Planner.KeysApart | src/Commands/MakeRepository.php:145-150 | no key of the replacements array is a prefix of another |
| Planner.SelectedIsUnion | src/Commands/MakeRepository.php:182-236 | the attempted artifacts are the union of what each given option asks for |
| Planner.AllCoversSelected | src/Commands/MakeRepository.php:120-143 | every artifact an option can ask for is in the --all plan |
| Planner.MigrationPathMatchesGlob | src/Commands/MakeRepository.php:134-142 | the path a migration is written to is matched by the glob of the guard |
| Planner.NotMigrationOutsideDir | src/Commands/MakeRepository.php:134 | no path outside database/ matches the migration glob |
| Binding.TemplateHoldsBinding | src/Commands/MakeRepository.php:292-312 | a provider created from the heredoc holds the binding text |
| Binding.HeadEnd | src/Commands/MakeRepository.php:317 | a match of public\s+function\s+register\s*\(\)\s*\{ ends just after a "{" |
| Binding.FirstClose | src/Commands/MakeRepository.php:317 | the lazy body stops at the first "}" after the head, or fails when there is none |
| Binding.FindRegister | src/Commands/MakeRepository.php:316-321 | the leftmost match with its head end and closing brace, or none when no position matches |
| Binding.ExpandSpliceTemplate | src/Commands/MakeRepository.php:318 | "$1$2\n<binding>\n$3" expands to the head, the body, the binding on its own line and the brace |
| Binding.BindingInert | src/Commands/MakeRepository.php:286-290 | for a model name without "\" or "$" that does not start with a digit, the binding text holds no replacement reference |
| Binding.SpliceBeforeBrace | src/Commands/MakeRepository.php:316-321 | the binding is inserted on its own line right before the "}" closing the first register() body, every other character kept |
| Binding.SpliceNoMatch | src/Commands/MakeRepository.php:316-321 | without a match preg_replace leaves the provider unchanged |
| Binding.SpliceHolds | src/Commands/MakeRepository.php:316-321 | after a matching splice the provider holds the binding |
| Binding.InjectHolds | src/Commands/MakeRepository.php:313-323 | an existing provider holds the binding afterwards exactly when it held it or register() matched |
| Binding.InjectIdempotent | src/Commands/MakeRepository.php:313-323 | patching an existing provider twice is patching it once |
| Binding.ProviderEntryAdded | src/Commands/MakeRepository.php:333-337 | the list holds the provider class afterwards exactly when it held it or had a "return [" |
| Binding.AddProviderEntryIdempotent | src/Commands/MakeRepository.php:333-337 | the provider-list insertion done twice is done once |
| Binding.AddProviderEntryEveryReturn | src/Commands/MakeRepository.php:335 | every "return [" gets the provider line after it, not only the first |
| Binding.ProviderFilesApart | src/Commands/MakeRepository.php:282-328 | the provider and the provider list are different files |
| Binding.PatchRegistered | src/Commands/MakeRepository.php:280-338 | for literal binding text the provider is always written, holds the binding exactly when it was created, held it or matched, and the list is patched only when writable |
| Binding.BindingRegistered | src/Commands/MakeRepository.php:280-338 | the same for the binding of a plain model name |
| Binding.PatchIdempotent | src/Commands/MakeRepository.php:280-338 | patching twice with literal binding text is patching once |
| Binding.RegisterBindingIdempotent | src/Commands/MakeRepository.php:280-338 | registerBinding run twice leaves the files as run once |
| Routes.RouteSegmentRule | src/Commands/MakeRepository.php:344-345 | for the model HR the route ignores the table; for any other model two routes agree exactly when the tables do |
| Routes.RouteLineIsTrimmedCode | src/Commands/MakeRepository.php:398-399 | the line searched for and appended is trim($routeCode) |
| Routes.Kinds | src/Commands/MakeRepository.php:369-384 | one classification per line, decided on the trimmed line |
| Routes.Kept | src/Commands/MakeRepository.php:379-382 | a kept list is no longer than the lines and holds only lines of the input |
| Routes.KeptHaveKind | src/Commands/MakeRepository.php:369-384 | every kept line has the kind it was kept for |
| Routes.KeptAppend | src/Commands/MakeRepository.php:369-384 | classification of concatenated line lists concatenates the kept lines |
| Routes.KeptStep | src/Commands/MakeRepository.php:369-384 | one more line appends that line to its class and to no other |
| Routes.Trims | src/Commands/MakeRepository.php:398 | array_map('trim') trims each line in place |
| Routes.RebuiltLinesShape | src/Commands/MakeRepository.php:386-403 | the rebuilt lines in the order of lines 386-403, from the classified pieces |
| Routes.RouteNeverDuplicated | src/Commands/MakeRepository.php:398-400 | the resource route occurs in the rebuilt file once if it was absent, and as often as before otherwise; it is never added twice |
| RouteRerun.OpenTagsAbsent | src/Commands/MakeRepository.php:359 | text without "<" passes the opening-tag replacement unchanged |
| RouteRerun.CloseTagAbsent | src/Commands/MakeRepository.php:360 | text without "?" passes the closing-tag replacement unchanged |
| RouteRerun.OpenTagGlues | src/Commands/MakeRepository.php:359 | the blank lines after "<?php" vanish and the next line is glued to the tag |
| RouteRerun.GluedDropped | src/Commands/MakeRepository.php:370-383 | a line glued to the tag is neither a use line nor a route and is dropped |
| RouteRerun.ControllerUseKept | src/Commands/MakeRepository.php:373-377 | the controller flag is set exactly when the lines classified as the controller import are not empty |
| RouteRerun.ExistingControllerImportDropped | src/Commands/MakeRepository.php:373-390 | when some line already is the controller import, no line of the rebuilt file reads as that import and the import itself is not in it |
| RouteRerun.ControllerImportIsControllerUse | src/Commands/MakeRepository.php:373-377 | the controller import with one ";" is recognised as the controller import |
| RouteRerun.RouteImportLineIsOtherUse | src/Commands/MakeRepository.php:373-379 | the Route import as written by line 387, with its doubled ";", is read back as an other use line |
| RouteRerun.DoubledImportIsOtherUse | src/Commands/MakeRepository.php:374-389 | the ";;" controller import written by line 389 is read back as an other use line |
| RouteRerun.RouteLineIsDecl | src/Commands/MakeRepository.php:381-382 | the appended route line is read back as a route |
| RouteRerun.NormalizeSteady | src/Commands/MakeRepository.php:359-361 | normalising a rebuilt file glues the route import to the tag and keeps the rest |
| RouteRerun.RestLines | src/Commands/MakeRepository.php:359-363 | the lines the next run classifies are the glued line, the rest and a final blank |
| RouteRerun.RebuildVia | src/Commands/MakeRepository.php:359-405 | the written text is the implode of the rebuilt lines plus a newline |
| RouteRerun.RouteInBlock | src/Commands/MakeRepository.php:398-399 | after the rebuild some route trims to the resource route |
| RouteRerun.FirstRun | src/Commands/MakeRepository.php:340-411 | a first rebuild writes the fixed head, the controller part, the other uses, a blank line and the route block, in a shape the next run reads back |
| RouteRerun.RerunSteady | src/Commands/MakeRepository.php:386-405 | a further run on a rebuilt file prepends one more ";;" controller import and keeps everything else |
| RouteRerun.SteadyStep | src/Commands/MakeRepository.php:386-405 | that shape survives each further run, so every run adds exactly one import line |
| RouteRerun.TwoRuns | src/Commands/MakeRepository.php:340-411 | the text after two runs, in terms of the original file |
| RouteRerun.RerunChanges | src/Commands/MakeRepository.php:387-389 | a second run always changes the file: the rebuild is not idempotent |
| Engine.GenerateSpec | src/Commands/MakeRepository.php:245-278 | writes exactly when the stub exists, the target does not and no placeholder survives; then only the target is added with the rendered stub; otherwise nothing changes |
| Engine.AttemptsFrame | src/Commands/MakeRepository.php:152-161 | attempts keep every existing file, add only planned paths, and report generated exactly when a file was added |
| Engine.AttemptsComplete | src/Commands/MakeRepository.php:152-161 | with distinct targets the completeness flag survives exactly when every non-migration attempt would write |
| Engine.AttemptsAppend | src/Commands/MakeRepository.php:182-236 | attempting one list after another is attempting their concatenation |
| Engine.OptionBlocks | src/Commands/MakeRepository.php:182-219 | the option blocks, each made or skipped, are the steps of the blocks made, in order |
| Engine.AllPlanDistinct | src/Commands/MakeRepository.php:120-142 | the --all plan never targets one path twice |
| Engine.PlannedApart | src/Commands/MakeRepository.php:120-142 | no planned file is one of the patched files, and only the migration matches the migration glob |
| Engine.BindingFrame | src/Commands/MakeRepository.php:280-338 | registerBinding changes only patched files and may create only the provider |
| Engine.RouteFrame | src/Commands/MakeRepository.php:340-411 | addRouteResource changes only routes/api.php and creates nothing |
| Engine.RefusedRunChangesNothing | src/Commands/MakeRepository.php:43-57 | missing base files or no option return early, exactly in those cases, with the state unchanged |
| Engine.AllFrame | src/Commands/MakeRepository.php:118-170 | --all changes only patched files and creates only planned files and the provider |
| Engine.SelectedFirstFacts | src/Commands/MakeRepository.php:174-221 | the option blocks leave provider and list alone and report generated exactly when a file was added |
| Engine.SelectedSecondFacts | src/Commands/MakeRepository.php:223-242 | the migration and binding part changes nothing unless something was generated |
| Engine.SelectedFrame | src/Commands/MakeRepository.php:172-243 | a run without --all changes only patched files and creates only planned files and the provider |
| Engine.RunFrame | src/Commands/MakeRepository.php:41-81 | no run touches a file other than the planned ones and the three patched files |
| Engine.AllNothingNew | src/Commands/MakeRepository.php:118-170 | --all reports nothing new exactly when at most the provider was created |
| Engine.SelectedNothingNew | src/Commands/MakeRepository.php:172-243 | a run without --all reports nothing new exactly when at most the provider was created |
| Engine.NothingNewIff | src/Commands/MakeRepository.php:72-80 | "No new files" is reported exactly when no file other than the provider was created |
| Engine.AllGeneratedIff | src/Commands/MakeRepository.php:72-80 | "All … successfully generated" exactly with --all and every non-migration artifact writable; a skipped migration never prevents it |
| Engine.ModelOnlyTouchesModel | src/Commands/MakeRepository.php:182-187 | --model alone changes no file other than the model |
| Engine.SelectedQuietRunKeepsProvider | src/Commands/MakeRepository.php:238-240 | without --all, a run that generated nothing leaves the provider and the list alone |
| Engine.PlanGuard | src/Commands/MakeRepository.php:131-143 | the only plan entry that matches the migration glob is the migration, and it is planned only when admitted |
| Engine.AllGuard | src/Commands/MakeRepository.php:131-161 | --all adds a matching migration file only when the guard admitted it |
| Engine.SelectedSecondGuard | src/Commands/MakeRepository.php:223-236 | --migration adds a matching file only when the guard admits it on the files of that moment |
| Engine.MigrationGuarded | src/Commands/MakeRepository.php:131-143 | any run adds a matching migration file only when, before the run, none existed and the table was absent |
| Engine.NoSecondMigration | src/Commands/MakeRepository.php:224-235 | after a run that added a migration for the table, the next run for the same table adds none |
| Engine.MigrationWrittenIsFound | src/Commands/MakeRepository.php:134-142 | a written migration blocks the guard from then on |
| Engine.AttemptsLeavePatched | src/Commands/MakeRepository.php:152-161 | the attempts of --all leave the provider, the list and the routes file alone |
| Engine.PatchesAfter | src/Commands/MakeRepository.php:168-169 | the two patches after untouched attempts leave the provider holding the binding exactly as registerBinding decides, the list patched when writable and the routes rebuilt when writable |
| Engine.AllAlwaysPatches | src/Commands/MakeRepository.php:168-169 | --all always patches provider, list and routes, whatever the attempts did |

## Left out

- Directory creation (createDirectories, lines 95-116, and lines 270-273): the file map has no directories.
- Console output (info, warn, error, line, comment) and Log::error: the outcome is a value, and the message texts are not modelled.
- The exception handler of lines 406-410: reads and writes in the model cannot fail.
- Command.MakeRepository.RegisterBinding: the provider is written (line 325) even when it is in the read-only set; in the application that put would throw, and nothing catches it, so the run would stop before the routes patch. The model lets the write succeed.
- $signature, option parsing, getStub and getDefaultNamespace: the options are a record and the framework plumbing is not modelled.
- The inflector (Str::studly, Str::snake, Str::plural, Str::lower), date() and Schema::hasTable: their results are inputs (names, timestamp, a set of tables).
- glob: modelled as a predicate over the file map. Glob metacharacters inside a table name are taken literally, and the order of the matches (used only in a message) is not modelled.
- Stub files: the template directory is a map from stub name to text, and the stub texts are not part of this model.
- File permissions: is_writable is "exists and not in the read-only set"; the result of the file writes is not checked, as in the source.
- The unused $hasRouteUse flag is set in ClassifyLines as in the source; nothing reads it.
- handle's return value: `false` on the two early returns and nothing otherwise; the model returns the outcome instead.
- Binding.BindingRegistered: stated only for model names without "\" or "$" that do not start with a digit; for other names the preg_replace expansion changes the binding text.
- Binding.RegisterBindingIdempotent: stated only for such plain model names, for the same reason.
- Engine.PatchesAfter: stated only for plain model names, for the same reason.
- Engine.AllAlwaysPatches: stated only for plain model names, for the same reason.
- RouteRerun.FirstRun: stated only for routes files whose kept lines hold no "<" or "?" and whose routes have no surrounding whitespace; other files can be changed further by lines 359-360.
- RouteRerun.TwoRuns: the same hypothesis as FirstRun.
- RouteRerun.RerunChanges: the same hypothesis as FirstRun.
- RouteRerun.SteadyStep: it gives the n-th run by hand from the two-run results; no single lemma states the n-run text.
- Engine.MigrationWrittenIsFound: assumes a timestamp of digits and "_" and a table name without "/", as date('Y_m_d_His') and the inflector produce.
- Engine.NoSecondMigration: stated for two runs with the same table name.
- Engine.AllNothingNew: in the "nothing new" case --all may still create the provider file, so the statement allows the provider to be added.
