# repo-maintenance checks, modelled in Dafny

ComPWA's `repo-maintenance` (`repoma`) is a set of pre-commit hooks that keep the developer files
of a repository in a standard form. This project models four parts of it and proves properties of
the model:

- **The executor** (`src/repoma/pre_commit_hooks/check_dev_files/_executor.py`). It runs check
  steps one after the other. A `PrecommitError` (the "file is not in standard form" signal) is caught,
  and its arguments are joined by newlines and appended to `error_messages`. Any other exception
  escapes. Module `Execution`: the class `Executor`, the spec functions `Messages`, `Run` and
  `Verdict`, and the driver ending `Conclude`.
- **The cSpell check** (`src/repoma/check_dev_files/cspell.py`). It handles the spell-checker
  configuration `.cspell.json`:
  - syncs it with the bundled template;
  - sorts its list sections case-insensitively;
  - checks the `.editorconfig` section;
  - adds the configuration to `.prettierignore`;
  - removes everything when the cSpell pre-commit hook is not configured.

  Module `CspellSections` holds the pure helpers (`__sort_section`, `__express_list_of_sections`).
  Module `Cspell` holds the steps and `main` (`Check`). Two steps have a bug (see Findings), so each
  comes in two forms, as written and as intended. `Check` takes a flag `asWritten` that chooses
  which form it runs.
- **The notebook cell writer** (`src/repoma/set_nb_cells.py`). It adds or updates an install cell
  and a configuration cell at the top of each Jupyter notebook. It also inserts an
  `autolink-concat` directive before the first Markdown cell, unless a Markdown comment opts out.
  Module `Notebook`: a `NotebookFile` class whose cells the methods rewrite in place, specified by
  the functions `UpdateOutcome`, `AutolinkOutcome` and `Processed`.
- **The setup.cfg check** (`src/repoma/check_dev_files/setup_cfg.py`). It checks the required
  options and forces the author data and the long description in `[metadata]`. Module `SetupCfg`:
  - a `Parser` class edited by `set`;
  - the loops of `_check_required_options` as methods proved against `MissingGroups` and `Summary`;
  - the driver `main`, specified by `Steps`.

Module `Text` models the parts of Python's `str` and `textwrap` that these use. Module `Errors`
holds `StepResult`: `Passed`, `Failed(args)` for a `PrecommitError`, and `Crashed(error)` for any
other exception.

Files are values. A missing file is `None`, a text file is its list of lines, `.cspell.json` is a
`Config`, a notebook is its list of cells, and `setup.cfg` is a `SetupConfig`. A step returns the
new value of what it writes together with how it ended.

## Model

| member | source | states |
|---|---|---|
| Text.LeTotal | src/repoma/check_dev_files/cspell.py:280-286 | Python's string order, which `sorted` uses on the lowercased keys, is total |
| Text.LeTransitive | src/repoma/check_dev_files/cspell.py:280-286 | the string order is transitive |
| Text.LeAntisymmetric | src/repoma/check_dev_files/cspell.py:280-286 | two strings each `<=` the other are equal |
| Text.JoinThenSeparator | src/repoma/check_dev_files/cspell.py:261-265 | `", ".join(parts)` followed by `","` and a space puts the separator after every part |
| Text.SplitLinesConcat | src/repoma/check_dev_files/setup_cfg.py:51-53 | the lines `textwrap.indent` works on, line ends kept, concatenate back to the text |
| Text.IndentEmptyPrefix | src/repoma/check_dev_files/setup_cfg.py:51-53 | `textwrap.indent` with an empty prefix returns the text unchanged |
| Text.Split | src/repoma/set_nb_cells.py:104 | `str.split(",")` always returns at least one piece |
| Text.SplitJoin | src/repoma/set_nb_cells.py:104 | joining the pieces of `s.split(c)` with `c` gives `s` back |
| Text.SplitPiecesFree | src/repoma/set_nb_cells.py:104 | no piece of `s.split(c)` contains `c` |
| Text.StripLeft | src/repoma/set_nb_cells.py:99-104 | `lstrip` returns a suffix that starts with a kept character, and every removed character is in the set |
| Text.StripRight | src/repoma/set_nb_cells.py:99-104 | `rstrip` returns a prefix that ends with a kept character, and every removed character is in the set |
| Text.StripUnchanged | src/repoma/set_nb_cells.py:99-104 | `strip` leaves unchanged a string that neither starts nor ends with a stripped character |
| Text.StripFraming | src/repoma/set_nb_cells.py:99 | stripping one framing newline from each end gives the framed text |
| Execution.Executor.constructor | src/repoma/pre_commit_hooks/check_dev_files/_executor.py:12 | a new executor has no messages and has run nothing |
| Execution.Executor.Call | src/repoma/pre_commit_hooks/check_dev_files/_executor.py:14-19 | a `PrecommitError` appends its arguments joined by newlines; any other outcome appends nothing; only a non-`PrecommitError` exception escapes; `Valid` (messages are those of the calls so far) is kept |
| Execution.MessagesAppend | src/repoma/pre_commit_hooks/check_dev_files/_executor.py:12-19 | collecting over two runs of steps is collecting over each, in order: the list is only appended to |
| Execution.MessagesCount | src/repoma/pre_commit_hooks/check_dev_files/_executor.py:14-19 | there is exactly one message per step that raised `PrecommitError` |
| Execution.MessagesEmpty | src/repoma/pre_commit_hooks/check_dev_files/_executor.py:14-19 | there are no messages exactly when no step raised `PrecommitError` |
| Execution.Run | src/repoma/check_dev_files/cspell.py:100-102 | calling steps in order runs them all when none escapes, and otherwise a prefix of them ending at the first that escapes |
| Execution.AllPassedVerdict | src/repoma/check_dev_files/cspell.py:61-62 | a run where every step passed raises nothing at the end of the driver |
| Execution.Conclude | src/repoma/check_dev_files/cspell.py:61-62 | the end of a driver raises what `Verdict` says: the escaped exception, else one merged `PrecommitError` when messages were collected, else nothing |
| CspellSections.KeyLeTotal | src/repoma/check_dev_files/cspell.py:286 | the `s.lower()` key order is total |
| CspellSections.KeyLeTransitive | src/repoma/check_dev_files/cspell.py:286 | the key order is transitive |
| CspellSections.Insert | src/repoma/check_dev_files/cspell.py:286 | inserting into a sorted section adds exactly that entry (as a multiset) |
| CspellSections.SortSection | src/repoma/check_dev_files/cspell.py:280-286 | `__sort_section` returns a permutation of its input |
| CspellSections.SortSectionSorted | src/repoma/check_dev_files/cspell.py:280-286 | the result of `__sort_section` is ordered by lowercase key |
| CspellSections.SortSectionStable | src/repoma/check_dev_files/cspell.py:280-286 | entries with equal lowercase keys keep their relative order, as Python's sort guarantees |
| CspellSections.SortSectionOfSorted | src/repoma/check_dev_files/cspell.py:280-286 | an already sorted section is returned as it is |
| CspellSections.SortSectionIdempotent | src/repoma/check_dev_files/cspell.py:280-286 | sorting twice is sorting once |
| CspellSections.SortSectionExample | src/repoma/check_dev_files/cspell.py:283-284 | the docstring example: the set `{"one", "Two"}` comes back as `["one", "Two"]` whichever order it is iterated in |
| CspellSections.ExpressList | src/repoma/check_dev_files/cspell.py:243-266 | empty gives `""`; one name gives `Section a`; two give `Sections a and b`; three or more give `Sections a, b, and c` |
| CspellSections.ExpressListShortExamples | src/repoma/check_dev_files/cspell.py:246-253 | the docstring examples with zero, one and two sections |
| CspellSections.ExpressListLongExample | src/repoma/check_dev_files/cspell.py:250-251 | the docstring example with three sections |
| Cspell.Config.Set | src/repoma/check_dev_files/cspell.py:139 | `config[k] = v` keeps an existing key in place, puts a new key last, and keeps the configuration well formed |
| Cspell.ExpectedContent | src/repoma/check_dev_files/cspell.py:222-240 | a missing section gets the template value; a section not in the template keeps its value; a template string is kept; a template list of strings comes back sorted and as a permutation; a template array with a non-string item raises `AttributeError` from the sort; any other template value raises `NotImplementedError`; it raises in exactly those cases |
| Cspell.FixedSectionsMember | src/repoma/check_dev_files/cspell.py:134-146 | a section is reported as fixed exactly when it is a template section that needs rewriting |
| Cspell.FixedSectionsEmpty | src/repoma/check_dev_files/cspell.py:134-147 | nothing is reported when no section needs rewriting |
| Cspell.AddedSectionsMember | src/repoma/check_dev_files/cspell.py:137-146 | the sections appended to the order are exactly the rewritten ones that were missing |
| Cspell.FirstCrash | src/repoma/check_dev_files/cspell.py:135-141 | the first template section whose expected content raises, or the end of the template when none does |
| Cspell.MergedAt | src/repoma/check_dev_files/cspell.py:135-146 | after the merge a section exists when it did or was rewritten; a rewritten section holds its new value and any other section its old one |
| Cspell.MergedOrder | src/repoma/check_dev_files/cspell.py:139-146 | the added sections go after the existing ones, in template order |
| Cspell.MergedValid | src/repoma/check_dev_files/cspell.py:135-146 | the merge keeps a configuration well formed |
| Cspell.FixDecision | src/repoma/check_dev_files/cspell.py:136-146 | for a section not reached yet, whether it raises, is rewritten and with what value can be read off the configuration built so far |
| Cspell.FixSection | src/repoma/check_dev_files/cspell.py:136-146 | one pass of the loop: it raises exactly when the section crashes, with the expected content's error; otherwise it rewrites exactly the sections that need it, with their new value |
| Cspell.FixConfigContent | src/repoma/check_dev_files/cspell.py:129-151 | a missing configuration is read as `{}`; the loop computes `Merged`; it raises the first exception of the expected contents before writing anything; otherwise it raises `PrecommitError` naming the rewritten sections in template order, exactly when there are any |
| Cspell.FixKeepsAccumulators | src/repoma/check_dev_files/cspell.py:136-140 | `words` and `ignoreWords` are created as `[]` when missing and never overwritten |
| Cspell.FixLeavesOtherSections | src/repoma/check_dev_files/cspell.py:135-146 | sections outside the template are not added, removed or changed, and the existing order is kept |
| Cspell.FixWritesIffRecorded | src/repoma/check_dev_files/cspell.py:143-151 | the configuration changes exactly when a fixed section is reported |
| Cspell.FixAppliedIsNoOp | src/repoma/check_dev_files/cspell.py:129-151 | a configuration that already holds the canonical template values is left as it is, and the step passes |
| Cspell.FixThenSortApplied | src/repoma/check_dev_files/cspell.py:55-56 | fixing and then sorting leaves every compared template section with its canonical template value |
| Cspell.UnsortedSections | src/repoma/check_dev_files/cspell.py:158-165 | a section is reported exactly when it is a list that `__sort_section` would reorder |
| Cspell.SortedLists | src/repoma/check_dev_files/cspell.py:158-165 | every visited list section is replaced by its sorted form; the order, the keys and all other values are kept |
| Cspell.FirstUnsortable | src/repoma/check_dev_files/cspell.py:158-161 | the first section holding an array with a non-string item, or the end when there is none |
| Cspell.FirstUnsortableIff | src/repoma/check_dev_files/cspell.py:158-161 | the whole order is gone through without meeting such an array exactly when the configuration has none |
| Cspell.SortConfigEntries | src/repoma/check_dev_files/cspell.py:154-170 | a configuration holding an array with a non-string item raises `AttributeError` for the first one, writing nothing; otherwise the loop computes `SortedLists` and raises `PrecommitError` naming the reordered sections exactly when there are any; a missing file raises `FileNotFoundError` |
| Cspell.SortWritesIffUnsorted | src/repoma/check_dev_files/cspell.py:162-170 | sorting changes the configuration exactly when some list section was unsorted |
| Cspell.SortedListsSorted | src/repoma/check_dev_files/cspell.py:158-165 | after sorting, every list section is sorted |
| Cspell.SortedListsOfSorted | src/repoma/check_dev_files/cspell.py:158-170 | a configuration whose lists are all sorted is left as it is, and the step passes |
| Cspell.SortConfigEntriesTwice | src/repoma/check_dev_files/cspell.py:154-170 | a second sorting pass writes nothing and passes |
| Cspell.SortKeepsStringLists | src/repoma/check_dev_files/cspell.py:158-165 | sorting never produces an array with a non-string item |
| Cspell.CheckEditorConfig | src/repoma/check_dev_files/cspell.py:173-199 | passes without `.editorconfig`; otherwise passes exactly when the cSpell section holds exactly `indent_size = 4`; otherwise fails with one of the two messages |
| Cspell.UpdatePrettierIgnoreAsWritten | src/repoma/check_dev_files/cspell.py:202-219 | as written: when the line is missing, the file ends up holding only that line |
| Cspell.UpdatePrettierIgnore | src/repoma/check_dev_files/cspell.py:202-219 | as intended: with the hook configured the file lists the cSpell configuration and keeps every line it had; the step raises exactly when the file changed |
| Cspell.UpdatePrettierIgnoreIdempotent | src/repoma/check_dev_files/cspell.py:209-216 | a second update passes and changes nothing |
| Cspell.PrettierIgnoreTruncates | src/repoma/check_dev_files/cspell.py:217-218 | an ignore file listing another path loses it as written and keeps it as intended |
| Cspell.IgnoreUpdate | src/repoma/check_dev_files/cspell.py:202-219 | with the hook configured, the ignore-file step as written and as intended both leave the file listing the configuration, raise only `PrecommitError`, and pass unchanged when the line is already there |
| Cspell.FirstIndex | src/repoma/check_dev_files/cspell.py:93 | the position of the first occurrence of the line |
| Cspell.RemoveFirst | src/repoma/check_dev_files/cspell.py:93 | `list.remove` drops the first occurrence of the line and keeps every other line in order, so exactly one occurrence is gone |
| Cspell.RemoveUndoesUpdate | src/repoma/check_dev_files/cspell.py:92-93 | removing the cSpell line undoes adding it to an ignore file that did not list it |
| Cspell.RemoveFilesAsWritten | src/repoma/check_dev_files/cspell.py:82-99 | as written: delete the configuration if it exists, else remove the first cSpell line from `.editorconfig`, keeping its other lines in order; the ignore file is never touched |
| Cspell.RemoveFiles | src/repoma/check_dev_files/cspell.py:82-99 | as intended: delete the configuration, else remove the first cSpell line from the ignore file, keeping its other lines in order; `.editorconfig` is never touched |
| Cspell.UpdateThenRemove | src/repoma/check_dev_files/cspell.py:88-99 | after the line was added to the ignore file, the as-written removal leaves it behind, and the intended one restores the file |
| Cspell.RunCleanup | src/repoma/check_dev_files/cspell.py:100-104 | the nested executor raises what `Verdict` says of the badge and extension steps it ran |
| Cspell.RemoveConfiguration | src/repoma/check_dev_files/cspell.py:82-104 | the file edits of the removal, as written or as intended, and the nested executor when there were none; the configuration is gone afterwards; the intended removal never touches `.editorconfig`, the as-written one never touches the ignore file |
| Cspell.FixThenSortConforms | src/repoma/check_dev_files/cspell.py:55-56 | with a supported template, fixing raises only `PrecommitError`, and fixing then sorting leaves a well-formed configuration holding the canonical template values with every list sorted |
| Cspell.ConformingIsSettled | src/repoma/check_dev_files/cspell.py:55-56 | a conforming configuration is neither fixed nor sorted |
| Cspell.FixAndSortOutcome | src/repoma/check_dev_files/cspell.py:55-56 | with a supported template, the fix raises only `PrecommitError`, and a fixed configuration without arrays of non-strings is settled once sorted |
| Cspell.SortStep | src/repoma/check_dev_files/cspell.py:56 | the sort step escapes exactly when the configuration holds an array with a non-string item; otherwise it leaves `SortedLists` and passes exactly when nothing was reordered |
| Cspell.FixAndSort | src/repoma/check_dev_files/cspell.py:55-56 | the sort runs exactly when nothing escaped from the fix; with a supported template, both pass through exactly when the fixed configuration holds no array with a non-string item, and then the result is settled; a settled file is left alone and both steps pass |
| Cspell.FinishWithHook | src/repoma/check_dev_files/cspell.py:57-60 | runs the editor, ignore-file, badge and extension steps up to the first escape; the ignore file ends up listing the configuration, whichever form of the step runs; a conforming workspace passes unchanged |
| Cspell.SyncWithHook | src/repoma/check_dev_files/cspell.py:55-60 | the six steps after the hook options, up to the first escape; when nothing escapes and the template is supported, the workspace conforms; a conforming workspace passes unchanged |
| Cspell.CheckWithHook | src/repoma/check_dev_files/cspell.py:54-60 | the seven steps with the hook, up to the first escape; when nothing escapes and the template is supported, the workspace conforms; a conforming workspace passes unchanged |
| Cspell.CheckWithoutHook | src/repoma/check_dev_files/cspell.py:51-52 | without the hook: one step that removes the configuration, with the edits of the removal, as written or as intended |
| Cspell.Check | src/repoma/check_dev_files/cspell.py:45-62 | `main`, with the ignore-file and removal steps as written or as intended: the repo URL step runs first; then the removal or the seven hook steps; the result is `Verdict` of the trace; a run where nothing escapes leaves a conforming workspace; a conforming workspace passes unchanged; `.editorconfig` is touched only by the as-written removal, and the ignore file is not touched by it |
| Notebook.InstallMetadataOverridesTags | src/repoma/set_nb_cells.py:52-56 | the install cell's metadata is the configuration cell's with only the tags replaced |
| Notebook.ConfigCellContent | src/repoma/set_nb_cells.py:113-122 | the configuration cell holds the `display` import exactly when the additional packages mention IPython, case-insensitively, with the framing newlines stripped |
| Notebook.PackageNames | src/repoma/set_nb_cells.py:104 | the input is cut at every comma into comma-free pieces that, joined with commas, give it back; there is one name per piece, that piece stripped of surrounding whitespace |
| Notebook.PackageNamesCommaFree | src/repoma/set_nb_cells.py:104 | no package name holds a comma |
| Notebook.InstallCellContent | src/repoma/set_nb_cells.py:98-105 | the install lines, then `[extras]` when extras are given, then the space-joined package names when packages are given |
| Notebook.FirstMarkdown | src/repoma/set_nb_cells.py:162-164 | the position of the first Markdown cell, or the end |
| Notebook.Updated | src/repoma/set_nb_cells.py:145-148 | a code cell at the position is replaced; any other cell gets the new cell inserted before it; the other cells stay in order |
| Notebook.UpdateOutcome | src/repoma/set_nb_cells.py:130-150 | nothing happens in a notebook that opts out; otherwise a position past the end raises `IndexError`, and any other position ends up holding the new code cell |
| Notebook.WithAutolink | src/repoma/set_nb_cells.py:157-173 | only the first Markdown cell matters: when it holds the directive nothing changes; otherwise the directive goes right before it and becomes the first Markdown cell |
| Notebook.WithAutolinkIdempotent | src/repoma/set_nb_cells.py:162-173 | inserting the directive a second time changes nothing |
| Notebook.AutolinkCellUnmarked | src/repoma/set_nb_cells.py:154-161 | the directive cell holds neither opt-out comment |
| Notebook.UpdatedKeepsMarker | src/repoma/set_nb_cells.py:145-148 | writing a code cell does not change whether the notebook opts out |
| Notebook.AutolinkKeepsMarker | src/repoma/set_nb_cells.py:153-173 | inserting the directive does not change whether the notebook opts out |
| Notebook.AutolinkKeepsCodePrefix | src/repoma/set_nb_cells.py:162-170 | a leading run of code cells stays in place |
| Notebook.AutolinkOutcomeIdempotent | src/repoma/set_nb_cells.py:153-173 | running `_insert_autolink_concat` twice is running it once |
| Notebook.ProcessedWithLayout | src/repoma/set_nb_cells.py:96-126 | a handled notebook that does not opt out starts with the install cell (when asked for), then the configuration cell (unless switched off) |
| Notebook.ProcessedLayout | src/repoma/set_nb_cells.py:96-126 | with the cells the command-line options produce: the install cell first when asked for, and the configuration cell (unless switched off) at position 1 when the install cell is added and at 0 otherwise |
| Notebook.ProcessedWithIdempotent | src/repoma/set_nb_cells.py:96-126 | handling a notebook a second time changes nothing |
| Notebook.ProcessedIdempotent | src/repoma/set_nb_cells.py:96-126 | the same for the cells that the command-line options produce |
| Notebook.NotebookFile.constructor | src/repoma/set_nb_cells.py:138 | reading a notebook gives its cells |
| Notebook.NotebookFile.Skip | src/repoma/set_nb_cells.py:176-186 | `_skip_notebook` is true exactly when a Markdown cell's lowercased source contains the statement |
| Notebook.NotebookFile.UpdateCell | src/repoma/set_nb_cells.py:130-150 | rewrites the cells in place as `UpdateOutcome` says |
| Notebook.NotebookFile.InsertAutolinkConcat | src/repoma/set_nb_cells.py:153-173 | rewrites the cells in place as `AutolinkOutcome` says |
| Notebook.NotebookFile.Process | src/repoma/set_nb_cells.py:97-126 | the loop body of `main` for one notebook rewrites the cells as `Processed` says |
| Notebook.NotebookFile.ProcessWith | src/repoma/set_nb_cells.py:97-126 | the `cell_id` counter puts the configuration cell after the install cell; the cells end up as `ProcessedWith` says |
| Notebook.StepFile | src/repoma/set_nb_cells.py:96-126 | one notebook is handled; no other notebook changes |
| Notebook.ProcessedFilesStopped | src/repoma/set_nb_cells.py:96-126 | once an exception has stopped the script, later file names change nothing |
| Notebook.ProcessedFilesUnnamed | src/repoma/set_nb_cells.py:96 | only the named notebooks are rewritten |
| Notebook.SetNbCells | src/repoma/set_nb_cells.py:59-127 | `main` handles the named notebooks in order and stops at the first exception, as `ProcessedFiles` says |
| Notebook.HandleFile | src/repoma/set_nb_cells.py:96-126 | one iteration of `main`'s loop is `StepFile` |
| SetupCfg.SetOption | src/repoma/check_dev_files/setup_cfg.py:60-62 | `set` on a missing named section raises `NoSectionError`, exactly then; otherwise the option is present afterwards and no option is lost |
| SetupCfg.Parser.constructor | src/repoma/check_dev_files/setup_cfg.py:58-59 | `copy_config` gives a parser holding the same options |
| SetupCfg.Parser.Set | src/repoma/check_dev_files/setup_cfg.py:60-62 | `set` changes the parser as `SetOption` says, and leaves it as it was when it raises |
| SetupCfg.AssignOverrides | src/repoma/check_dev_files/setup_cfg.py:60-62 | assigning pairs in turn overrides the old options by the final value of each, and keeps the rest |
| SetupCfg.SetAllInSection | src/repoma/check_dev_files/setup_cfg.py:60-62 | setting options of an existing named section assigns them there and touches nothing else |
| SetupCfg.SetAllNoSection | src/repoma/check_dev_files/setup_cfg.py:60-62 | without the section, the first `set` raises `NoSectionError` |
| SetupCfg.MergeInto | src/repoma/check_dev_files/setup_cfg.py:60-62 | the metadata section shows the new values over its old options; the defaults and the section names are kept |
| SetupCfg.MergeShows | src/repoma/check_dev_files/setup_cfg.py:60-62 | after the merge, the section shows the merged values |
| SetupCfg.MergeView | src/repoma/check_dev_files/setup_cfg.py:63 | the `!=` comparison sees a change exactly when the section did not already show the values |
| SetupCfg.UpdateIsEdit | src/repoma/check_dev_files/setup_cfg.py:57-65 | copy, set and compare: `NoSectionError` without `[metadata]`; a pass when the values are already shown; otherwise the values are merged in and the step fails |
| SetupCfg.EditHolds | src/repoma/check_dev_files/setup_cfg.py:57-65 | after an update that did not crash, the section shows the final values |
| SetupCfg.UpdateIdempotent | src/repoma/check_dev_files/setup_cfg.py:57-78 | a second update passes and writes nothing |
| SetupCfg.AuthorPairsFinal | src/repoma/check_dev_files/setup_cfg.py:60-62 | the author update leaves the author name and the administrators' address, not the intermediate email |
| SetupCfg.LongDescriptionPairsFinal | src/repoma/check_dev_files/setup_cfg.py:72-73 | the long description points at the README, as Markdown |
| SetupCfg.AssignAuthor | src/repoma/check_dev_files/setup_cfg.py:60-62 | the three assignments, one after the other |
| SetupCfg.AssignLongDescription | src/repoma/check_dev_files/setup_cfg.py:72-73 | the two assignments, one after the other |
| SetupCfg.UpdateAuthorData | src/repoma/check_dev_files/setup_cfg.py:57-65 | `_update_author_data` behaves as `Edit` with the author pairs |
| SetupCfg.FixLongDescription | src/repoma/check_dev_files/setup_cfg.py:68-78 | passes without a README; otherwise behaves as `Edit` with the long-description pairs |
| SetupCfg.RequiredSectionsDistinct | src/repoma/check_dev_files/setup_cfg.py:29-37 | no section appears twice in the required list |
| SetupCfg.MissingInMember | src/repoma/check_dev_files/setup_cfg.py:40-43 | an option is reported missing exactly when it is listed and `has_option` is false |
| SetupCfg.MissingGroupsShape | src/repoma/check_dev_files/setup_cfg.py:38-43 | every group is a listed section with a non-empty list of its missing options |
| SetupCfg.MissingGroupsEmpty | src/repoma/check_dev_files/setup_cfg.py:38-44 | there is no group exactly when every required option is present |
| SetupCfg.DictAppendNew | src/repoma/check_dev_files/setup_cfg.py:43 | appending under a new key of the `defaultdict` adds an item at the end |
| SetupCfg.DictAppendLast | src/repoma/check_dev_files/setup_cfg.py:43 | appending under the last key extends that item |
| SetupCfg.RequiredOptionsPass | src/repoma/check_dev_files/setup_cfg.py:27-54 | the check passes exactly when every required option is present, in its section or among the defaults, and it never crashes |
| SetupCfg.RequiredNeverCrashes | src/repoma/check_dev_files/setup_cfg.py:44-54 | the check passes exactly when there is no group, and never crashes |
| SetupCfg.CollectSection | src/repoma/check_dev_files/setup_cfg.py:40-43 | the inner loop appends one group, holding the section's missing options, and only when there are some |
| SetupCfg.CollectMissing | src/repoma/check_dev_files/setup_cfg.py:38-43 | the loops build `missing_options` as `MissingGroups` |
| SetupCfg.WriteSection | src/repoma/check_dev_files/setup_cfg.py:47-50 | one section of the summary: header, option lines, ellipsis |
| SetupCfg.WriteSummary | src/repoma/check_dev_files/setup_cfg.py:45-50 | the summary is a newline followed by each group's section |
| SetupCfg.CheckRequiredOptions | src/repoma/check_dev_files/setup_cfg.py:27-54 | `_check_required_options` ends as `RequiredOptionsResult` says |
| SetupCfg.PairsDisjoint | src/repoma/check_dev_files/setup_cfg.py:60-73 | the author options and the long-description options are different options |
| SetupCfg.MissingInIgnoresMerge | src/repoma/check_dev_files/setup_cfg.py:40-43 | merging options not in a required list into `[metadata]` does not change what is missing from it |
| SetupCfg.MissingGroupsIgnoreMerge | src/repoma/check_dev_files/setup_cfg.py:38-43 | the same for the whole required list |
| SetupCfg.RequiredUntouched | src/repoma/check_dev_files/setup_cfg.py:27-78 | neither update changes the outcome of the required-options check |
| SetupCfg.RequiredNotUpdated | src/repoma/check_dev_files/setup_cfg.py:29-37 | neither update sets a required option |
| SetupCfg.EditKeepsShowing | src/repoma/check_dev_files/setup_cfg.py:68-78 | the long-description update keeps other shown values, such as the author data |
| SetupCfg.StepsHalted | src/repoma/check_dev_files/setup_cfg.py:15-24 | only the last step of a run can escape |
| SetupCfg.StepsCrash | src/repoma/check_dev_files/setup_cfg.py:15-24 | a run stops early with `NoSectionError` exactly when a metadata step runs without `[metadata]`; otherwise every step runs |
| SetupCfg.StepsConform | src/repoma/check_dev_files/setup_cfg.py:15-24 | after a run where nothing escaped, `[metadata]` shows every value the run sets |
| SetupCfg.StepsSettled | src/repoma/check_dev_files/setup_cfg.py:15-24 | on a conforming configuration, every step after the required-options check passes and nothing is written |
| SetupCfg.StepsKeepRequired | src/repoma/check_dev_files/setup_cfg.py:15-24 | a run does not change the outcome of the required-options check |
| SetupCfg.StepsIdempotent | src/repoma/check_dev_files/setup_cfg.py:15-24 | running the checks again after a run where nothing escaped writes nothing, and every update passes |
| SetupCfg.RunEdits | src/repoma/check_dev_files/setup_cfg.py:20-22 | the author update unless ignored, then the long-description fix on what it left, unless the author update escaped |
| SetupCfg.CheckSetupCfg | src/repoma/check_dev_files/setup_cfg.py:15-24 | `main`: nothing without `setup.cfg`; otherwise the run is `Steps`, and the result is `Verdict` of the trace |

## Left out

- Reading and writing files is left out. Files are values, and the exists-checks (`setup.cfg`, `README.md`, `.editorconfig`, `.prettierignore`, `.cspell.json`) are `Option` values or booleans. JSON, YAML and INI formatting on write (`__write_config`, `write_formatted_setup_cfg`) is not modelled.
- JSON parsing is left out. A configuration is a `Config`, which keeps its keys in insertion order. A JSON decoding error is not modelled.
- The bundled cSpell template (`cspell.py:41-42`) is the `template` parameter. Its path is not modelled.
- `Cspell.ExpectedContent`: only `extend=False` is modelled, because no caller passes `extend=True` (`cspell.py:232-236`).
- `ConfigParser` reading `.editorconfig` with a `[global]` header in front (`cspell.py:176-182`) is the `parseIni` parameter. `items(section)` is taken to return the section's own options, and `DEFAULT` values are not mixed in.
- `SetupCfg.SetupConfig` holds option names as `optionxform` stores them, already lowercased. Interpolation is not modelled.
- Steps whose code is not part of this model are `StepResult` parameters (`OtherSteps`): `_update_cspell_repo_url`, `_check_check_hook_options`, `add_badge`, `remove_badge`, `add_vscode_extension_recommendation` and `remove_vscode_extension_recommendation`. What they write is left out.
- `PrecommitConfig.find_repo`, which decides whether the cSpell hook is configured, is the `repoPresent` parameter. The model assumes the repo URL step does not change that decision within one run.
- `rename_file("cspell.json", ...)` (`cspell.py:46`) is left out. It only renames a legacy file.
- `merge_messages` is not part of `_executor.py`. The drivers call it on `repoma.utilities.executor.Executor`, which is not part of this model, so it is the `merge` parameter. The executor follows `_executor.py`.
- Exception messages other than `PrecommitError` texts (`FileNotFoundError`, `IndexError`, `NoSectionError`, `NotImplementedError`) are stated in the model's own words.
- `Text.Lower` lowercases ASCII letters only, because Unicode case mapping is out of scope. `str.strip()` strips ASCII whitespace only.
- `nbformat` reading, validation and writing are left out. A notebook is its list of cells. Cell ids (`del new_cell["id"]`), outputs and execution counts are left out. Cell metadata is a small JSON value type.
- The package name read from `setup.cfg` when the script is imported (`set_nb_cells.py:30-31`) is the `name` parameter.
- `argparse` is left out. The options are the `Options` datatype. `--no-autolink-concat` is parsed but never used by `main`, so it has no effect in the model either.
- `Notebook.InstallCellContent`: its `ensures` covers package names that do not end with a newline. For other names `strip("\n")` would also eat into the name, and the contract says nothing about them.
- `_update_cspell_repo_url` runs through the executor like every other step (`cspell.py:48`), so its `PrecommitError` is collected and merged with the others, and any other exception it raises ends `main`.
- A JSON array holding an item that is not a string is a `MixedList`. It keeps only the class of the first such item and the array's text: enough for the `AttributeError` that sorting raises (`cspell.py:286`) and for comparing the array with another value. Its items are not modelled one by one.
- Concurrency, and more than one run interleaving on the same files, are out of scope.

## Findings

| source | as written | input that shows it | evidently intended | confidence | as-written member | corrected member |
|---|---|---|---|---|---|---|
| src/repoma/check_dev_files/cspell.py:217-218 | an existing `.prettierignore` without the cSpell line is opened with `"w+"`, which truncates it, so every other line is lost | `.prettierignore` holding `docs/_build` ends up holding only `.cspell.json` | append the line and keep the rest of the file | not executed | Cspell.UpdatePrettierIgnoreAsWritten, Cspell.PrettierIgnoreTruncates | Cspell.UpdatePrettierIgnore |
| src/repoma/check_dev_files/cspell.py:88-99 | `_remove_configuration` looks for the `.cspell.json` line in `.editorconfig` (reading it into a variable named after the ignore file) and removes it from there | with the hook removed, a `.prettierignore` still listing `.cspell.json` keeps it, while `.editorconfig` loses a line | remove the line from `.prettierignore`, where `_update_prettier_ignore` adds it | not executed | Cspell.RemoveFilesAsWritten, Cspell.UpdateThenRemove | Cspell.RemoveFiles |

`Cspell.Check` with `asWritten` set is `main` as written. Every property in its contract holds of both
forms, except one. Only the intended removal is guaranteed to leave `.editorconfig` unchanged.
