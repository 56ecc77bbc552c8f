# Takuto: a Dafny model of its algorithms, formats and protocols

Takuto runs configurable "flows" of coding-agent steps. This project models the parts of it
that carry real logic, and proves what they promise for all inputs, all runs and all
interleavings:

- the line diff shown for a changed file (`LineDiff`);
- the dependency graph between flows: two independent searches for cycles, the edits of the
  flow list, the editor's checks and the server's, and the gate that lets a flow start once its
  dependencies are completed (`Graphs`, `CycleCheck`, `TopoSort`, `Flows`, `FlowEdits`,
  `FlowSave`, `FlowsTab`, `RunGate`);
- the writing of `config.toml` under crashes and competing writers (`ConfigProtocol`,
  `ConfigLoss`, `ConfigWriter`);
- text formats: the TOML reader against a printer (`Toml`, `TomlPrint`, `TomlDoc`,
  `TomlPaths`, `TomlTree`),
  the sectioned report (`FlowReport`), skill arguments and frontmatter (`SkillArgs`,
  `Frontmatter`), slugs (`Slugs`), over a small string library (`Text`);
- protocols in time: session lifetime (`Sessions`), the token cache and the token file
  (`TokenCache`), and the collecting of a child process's output (`ProcessPump`).

Code that changes state step by step is written as methods and classes, each proved equal to a
function or to a step of a state machine; the promises are lemmas about those. Values are
mathematical: `string` is a sequence of characters and `int` is unbounded unless a module says
otherwise. `dafny verify dfyconfig.toml` checks the whole project.

## What the code does not keep

Some promises hold only under a condition. The code is modelled as it is; each condition is
proved to be exactly the one needed, or a family of inputs is given for which the promise fails.

- A session rejected as idle can be let in again: a validation waits for its SELECT and then for an
  UPDATE whose only condition is the id, so an extension decided on before the rejection may be
  written after it (`Sessions.LateExtensionRevives`). `Sessions.RejectedForeverIff` says exactly when
  a rejection is final; without another open validation of the session it is
  (`Sessions.QuietRejectionIsForever`), and so is the cap for everyone who comes later
  (`Sessions.CapIsFinal`). For the same reason a session used at t may go idle before t + 86100,
  exactly when an extension decided on before t - 300 is still to be written (`Sessions.IdleWindow`).
- Session rows from before the migration that added their creation time
  (crates/takuto-core/migrations/20260102000001_login_attempts_and_session_columns.sql) are let in
  and extended while their own expiry lasts, and never fall under the absolute cap, although the
  migration's comment says they are rejected and deleted on next use
  (`Sessions.BackfilledRowIsLetIn`, `Sessions.KeptAliveToTheCap`).
- The editor lets a save through that the server refuses in two ways. A draft may depend on a sibling
  that was deleted or renamed while the editor was open, which the search skips as unknown
  (`FlowSave.LostSiblingIsUnknown`, `FlowSave.DeletedSiblingIsMissed`). And a save that renames a flow and makes it depend on a flow
  that needs it passes the cycle check, which looks at the graph before the rename
  (`FlowSave.RenamingSaveCanCloseCycle`). `FlowSave.SaveAcceptableIff` gives the exact condition.
- Opening a flow in the editor and saving it unchanged changes it when an argument has a comma in it or
  blanks around it, or a name has blanks around it (`FlowSave.EditorRoundTripIff`).
- The in-place fallback of a config write loses both the old and the new text exactly when the backup
  does not come to hold the old text, the rewrite is cut short by an error and the temporary file is
  then removed (`ConfigWriter.CallLosesIff`). The message logged for a failed backup says the
  configuration is still valid on disk; that holds until the file is truncated. Over
  whole runs, the text committed last stays in `config.toml` or in the backup exactly when no step
  truncates a whole file that is not backed up or copies a torn file over the backup
  (`ConfigLoss.KeptThroughoutIff`). If renames are refused as busy and every other system call
  succeeds, that is exactly when no call backs up a torn file (`ConfigLoss.CrashesLoseIff`): one crash
  in a rewrite loses nothing, but the next call in place does, and three crashes can leave all three
  files empty (`ConfigProtocol.CrashesLoseEverything`).
- For arguments without a dollar, `$k` in a skill's text gives the k-th argument exactly when k is a
  single digit, or by coincidence: `$10` is read as `$1` and a zero (`SkillArgs.PositionReachedIff`).
  And replacing one argument after the other differs from a simultaneous substitution exactly when a
  dollar left in the text comes to stand before the number of a later argument
  (`SkillArgs.RoundsAreOnePassIff`). An argument that is itself a reference to a later one is replaced
  again, and can reach past the ninth (`SkillArgs.ReferenceInArgument`).
- What is collected of stderr depends on timing exactly when a line follows a read error, since
  the main loop reads past an error and the final drain stops at it
  (`ProcessPump.StderrIndependentIff`).
- A quoted TOML key with a dot or an equals sign in it is read as if its quotes were not there,
  although the reader's comment says quoted segments are unquoted (`TomlTree.QuotedKeySurvivesIff`).

## Model

| member | source | states |
|---|---|---|
| `LineDiff.DiffLines` | ui/src/components/DiffView.tsx:12-47 | the table and the walk back from its corner produce the script of the recursive definition, for any two texts |
| `LineDiff.FillRow` | ui/src/components/DiffView.tsx:21-28 | the inner loop makes a row of the table agree with the recurrence and leaves the other rows alone |
| `LineDiff.FillTable` | ui/src/components/DiffView.tsx:18-28 | every cell is the value of the recurrence for its two prefixes |
| `LineDiff.LcsIsLongest` | ui/src/components/DiffView.tsx:18-28 | the corner value is the length of a longest common subsequence: the kept lines are one of that length, and no common subsequence is longer |
| `LineDiff.DiffTransforms` | ui/src/components/DiffView.tsx:30-47 | the script read without insertions is the old text, read without deletions the new one, and it keeps exactly as many lines as the corner says |
| `LineDiff.DiffIsMinimal` | ui/src/components/DiffView.tsx:12-47 | no edit script between the two texts has fewer deletions plus insertions |
| `LineDiff.ScriptDeletesFirst` | ui/src/components/DiffView.tsx:32-45 | within a block of changes all deletions stand before all insertions |
| `LineDiff.DiffIsAhead` | ui/src/components/DiffView.tsx:32-46 | of all minimal scripts it is the one that, read from the end, keeps a line wherever any of them does and otherwise inserts wherever any does |
| `LineDiff.BuildPanes` | ui/src/components/DiffView.tsx:54-73 | the panes read as the old and the new text, their unhighlighted lines are the same sequence, and as long as any common subsequence |
| `Graphs.OrderedIsAcyclic` | ui/src/components/workflowDefState.ts:13-44 | a listing of all nodes with dependencies first rules out cycles |
| `Graphs.AcyclicHasOrder` | ui/src/components/workflowDefState.ts:13-44 | a graph without cycles has a listing with dependencies first |
| `Graphs.NewEdgesCloseIff` | ui/src/components/FlowEditor.tsx:146-156 | adding edges into one node of an acyclic graph makes a cycle exactly when that node already reaches the start of one of them |
| `CycleCheck.Detector.Visit` | ui/src/components/FlowEditor.tsx:42-59 | a visit keeps the three colours coherent with the search path and the finished order, and either finishes its node or finds a name on a cycle |
| `CycleCheck.DetectCycle` | ui/src/components/FlowEditor.tsx:35-67 | nothing is found exactly when the graph on known names is acyclic; what is found lies on a cycle unless a flow has an empty name |
| `CycleCheck.EmptyNameGoesUnnoticed` | ui/src/components/FlowEditor.tsx:35-67 | why `DetectCycle` speaks of non-empty names only: a flow named "" that depends on itself gives an empty answer, which reads as none; no caller passes such a graph |
| `TopoSort.Sorter.Visit` | ui/src/components/workflowDefState.ts:22-36 | a visit keeps the visited, visiting and sorted collections consistent, lists every known dependency before its dependant, and flags a cycle only when there is one |
| `TopoSort.VisitAll` | ui/src/components/workflowDefState.ts:14-38 | for distinct files the cycle flag is set exactly when the known graph has a cycle, so it agrees with `DetectCycle` on the same graph; without a cycle the visits list a permutation in dependency order |
| `TopoSort.TopoSort` | ui/src/components/workflowDefState.ts:13-44 | for distinct files the result is a permutation, dependencies come first exactly when the graph is acyclic, the name order is taken on a cycle, and an ordered list is returned unchanged |
| `Flows.EdgesAreNeeds` | crates/takuto-core/src/db/user_work_item_flows.rs:243-297 | with distinct slugs, the edges of the graph the search sees are exactly the known dependencies of the flows |
| `Flows.NamesDiffer` | crates/takuto-core/src/db/user_work_item_flows.rs:163-241 | distinct slugs make the names distinct too |
| `Flows.NoEmptyName` | crates/takuto-core/src/db/user_work_item_flows.rs:163-241 | no list with distinct non-empty slugs has an empty flow name, so the search is exact on it |
| `Flows.CheckSteps` | crates/takuto-core/src/db/user_work_item_flows.rs:196-223 | the checks of one flow's steps pass exactly the well-formed ones, and the complaint is true of the first step at fault |
| `Flows.CheckEachFlow` | crates/takuto-core/src/db/user_work_item_flows.rs:163-225 | the loop over the flows passes exactly the lists with distinct non-empty slugs and well-formed steps, and its complaint is the first true one of the first flow at fault |
| `Flows.CheckDependencies` | crates/takuto-core/src/db/user_work_item_flows.rs:226-241 | the dependency loop passes exactly the lists all of whose dependencies are known, and complains of the first that is not |
| `Flows.ValidateUserFlows` | crates/takuto-core/src/db/user_work_item_flows.rs:163-297 | the server accepts exactly the acceptable lists: at most 20 flows, distinct slugs, good steps, known dependencies, no cycle; the rejection is true, and the first in the order of the checks |
| `Flows.GuardNul` | crates/takuto-core/src/db/user_work_item_flows.rs:402-438 | the guard before storing passes exactly the lists without a NUL character in any name, dependency, step or skill |
| `FlowEdits.MoveKeepsTheRest` | ui/src/components/FlowsTab.tsx:209-230 | a drop moves one item to the adjusted place and keeps the others in their order |
| `FlowEdits.MoveIsPermutation` | ui/src/components/FlowsTab.tsx:209-230 | every item of the reordered list is named by its old position, and the positions of the move back are the inverse map |
| `FlowEdits.SkippedDrops` | ui/src/components/FlowsTab.tsx:209-222 | the drops that are skipped are exactly the ones whose splice would change nothing |
| `FlowEdits.SelectionStaysAcceptable` | ui/src/api/flows.ts:101-107 | keeping some flows in any order, without the references to the others, stays acceptable |
| `FlowEdits.DeleteStaysAcceptable` | ui/src/components/FlowsTab.tsx:175-191 | deleting a flow and the references to it is always accepted |
| `FlowEdits.DeleteKeepsTheRest` | ui/src/api/flows.ts:101-107 | deleting takes out the flow and leaves every other as it was, without the references to it |
| `FlowEdits.WithoutDropsOne` | ui/src/api/flows.ts:101-107 | dropping references keeps the others in their order |
| `FlowEdits.MoveStaysAcceptable` | ui/src/components/FlowsTab.tsx:209-230 | a reorder is always accepted |
| `FlowEdits.RenameAcceptableIffFresh` | ui/src/components/FlowsTab.tsx:164-173 | an inline rename with its propagation is accepted exactly when the new slug is non-empty and free |
| `FlowEdits.RenameKeepsTheRest` | ui/src/api/flows.ts:81-99 | propagation changes nothing but the name and the references to it |
| `FlowEdits.RenameNulFreeIff` | ui/src/api/flows.ts:81-99 | a rename with its propagation keeps a list free of NUL exactly when the new name is |
| `FlowSave.ArgsSurviveEditing` | ui/src/components/FlowEditor.tsx:69-74 | saved arguments survive being shown and saved again exactly when each is non-empty, trimmed and without a comma |
| `FlowSave.ArgsArePieces` | ui/src/components/FlowEditor.tsx:69-74 | whatever is typed, the arguments are the pieces between the commas, trimmed, the blank ones left out |
| `FlowSave.SavedSkills` | ui/src/components/FlowEditor.tsx:186-197 | a save stores exactly the skills with a name, in order, each with its trimmed name and its arguments |
| `FlowSave.EditorRoundTripIff` | ui/src/components/FlowEditor.tsx:94-197 | opening a flow and saving it unchanged stores the same flow exactly when it has a step, its name and its skills' names are trimmed, these are non-empty, and every argument is plain |
| `FlowSave.StepsValidIff` | ui/src/components/FlowEditor.tsx:158-165 | the form takes the steps exactly when what it would store is well-formed and no arguments are lost with a nameless skill |
| `FlowSave.NameIsFree` | ui/src/components/FlowEditor.tsx:127-140 | the name check passes exactly when the draft's slug is non-empty and differs from all others |
| `FlowSave.ComputeCanSave` | ui/src/components/FlowEditor.tsx:124-167 | the save button is enabled exactly when name, steps and the inspected graph are in order |
| `FlowSave.SaveAcceptableIff` | ui/src/components/FlowEditor.tsx:146-167 | a save behind an enabled button is accepted by the server exactly when the list has room, every dependency of the draft still names a sibling, and, in the graph the editor inspected, the draft reaches no flow whose reference the rename repoints to it |
| `FlowSave.PlainSaveIsAccepted` | ui/src/components/FlowEditor.tsx:221-237 | a save that renames nothing another flow depends on is accepted exactly when its siblings still stand |
| `FlowSave.DeletedSiblingIsMissed` | ui/src/components/FlowsTab.tsx:175-191 | with the editor open on a new flow or on an earlier card, delete any sibling the draft depends on: the editor's checks still pass, and the server refuses the save |
| `FlowSave.LostSiblingIsUnknown` | ui/src/components/FlowEditor.tsx:42-59 | a permitted draft with a dependency that names no sibling always submits an unknown dependency |
| `FlowSave.SaveNulFreeIff` | ui/src/components/FlowEditor.tsx:221-237 | the submitted list is free of NUL exactly when the draft is |
| `FlowSave.RenamingSaveCanCloseCycle` | ui/src/components/FlowEditor.tsx:221-237 | for any three names with different slugs there is a permitted save whose result has a cycle |
| `FlowSave.RenamingSaveExample` | ui/src/components/FlowEditor.tsx:221-237 | such names and steps exist |
| `FlowsTab.Server.Put` | crates/takuto-web/src/routes/me_flows.rs:125-160 | the list is stored exactly when it is acceptable, free of NUL and the database takes it; otherwise the stored one stays, and the refusal names a reason exactly for an unacceptable list |
| `FlowsTab.Tab.SubmitList` | ui/src/components/FlowsTab.tsx:120-140 | the shown list is the new one on success and the previous one on any failure, it could be stored either way, and it matches the server unless a response was lost |
| `FlowsTab.Tab.HandleInlineRename` | ui/src/components/FlowsTab.tsx:164-173 | it succeeds exactly when delivered with a fresh slug and no NUL |
| `FlowsTab.Tab.HandleDelete` | ui/src/components/FlowsTab.tsx:175-191 | it succeeds whenever delivered |
| `FlowsTab.Tab.HandleDrop` | ui/src/components/FlowsTab.tsx:209-230 | it succeeds whenever delivered, and sends nothing for the two positions next to the dragged card |
| `FlowsTab.Tab.HandleSave` | ui/src/components/FlowEditor.tsx:221-240 | behind an enabled button a save succeeds exactly when delivered with its siblings standing, no cycle closed in the sense of `SaveAcceptableIff`, and no NUL |
| `FlowsTab.EditStorableIff` | ui/src/components/FlowsTab.tsx:164-230 | of every edit the user interface allows, the server stores exactly the safe ones |
| `FlowsTab.HistoriesStayAcceptable` | ui/src/components/FlowsTab.tsx:164-230 | after every history of edits the user interface allows, refused ones rolled back, names are unique, dependencies known and the graph acyclic |
| `RunGate.ButtonShows` | ui/src/components/WorkflowDefButtons.tsx:62-144 | what each button tells: the state of the flow, whether a dependency is missing, and whether starting is blocked |
| `RunGate.ClickableIff` | ui/src/components/WorkflowDefButtons.tsx:62-144 | a flow can be clicked exactly when nothing blocks starting, its request is not under way, and it failed or is idle with every dependency completed |
| `RunGate.StartsAreClicks` | ui/src/components/WorkflowDefButtons.tsx:62-144 | at every point of every run, a flow that starts running was clicked while nothing blocked starting, it was not loading, and it had failed or its dependencies had completed |
| `RunGate.RunsStayGated` | ui/src/components/WorkflowDefButtons.tsx:62-144 | over every sequence of clicks, answers, blocks and endings, a flow that is not idle has all its dependencies completed |
| `RunGate.StepStaysGated` | ui/src/components/WorkflowDefButtons.tsx:62-144 | one event keeps the gate and never undoes a completion |
| `RunGate.FirstUnfinishedIsClickable` | ui/src/components/workflowDefState.ts:46-68 | in dependency order the first flow not completed can be started or retried unless it is running, loading or blocked |
| `RunGate.CompletionOrder` | ui/src/components/workflowDefState.ts:51-54 | the order in which a run completes flows has dependencies first |
| `RunGate.RunInOrder` | ui/src/components/WorkflowDefButtons.tsx:62-144 | starting the flows one by one in dependency order completes them all |
| `RunGate.CompletableIff` | ui/src/components/workflowDefState.ts:46-54 | all flows can be completed exactly when every dependency is known and the graph is acyclic |
| `ConfigProtocol.RunsKeepInv` | crates/takuto-core/src/config_writer.rs:123-203 | the invariant tying lock, disk and writers holds after every interleaving of any number of calls, with crashes anywhere |
| `ConfigProtocol.CrashSafety` | crates/takuto-core/src/config_writer.rs:123-203 | at every step of every call, in every interleaving, one of the three files holds the complete old or new text, except exactly after a cleanup that followed a failed backup and a broken-off rewrite |
| `ConfigProtocol.BothCanBeLost` | crates/takuto-core/src/config_writer.rs:220-240 | for any two non-empty texts a run reaches that exception |
| `ConfigProtocol.CrashesLoseEverything` | crates/takuto-core/src/config_writer.rs:155-181 | for any texts there is a run of three crashes, no system call failing but the renames refused as busy, after which all three files are empty, so that the text there at the start is gone and no other was ever committed |
| `ConfigLoss.KeptThroughoutIff` | crates/takuto-core/src/config_writer.rs:155-240 | over every run, with any calls, failures and crashes, the text committed last is kept in `config.toml` or the backup exactly when no step truncates a whole file without its backup or copies a torn file over the backup |
| `ConfigLoss.CrashesLoseIff` | crates/takuto-core/src/config_writer.rs:155-240 | without failing calls, for non-empty texts, it is kept exactly when no call starts to back up a torn file |
| `ConfigLoss.WorkLosesIff` | crates/takuto-core/src/config_writer.rs:220-240 | the exact steps of a call that lose it |
| `ConfigProtocol.RenamePathIsAtomic` | crates/takuto-core/src/config_writer.rs:158-187 | without the fallback `config.toml` is always old or new, and old after a failure |
| `ConfigProtocol.SuccessIsOnDisk` | crates/takuto-core/src/config_writer.rs:189-203 | a call about to report success has its whole text in `config.toml` |
| `ConfigProtocol.OnlyHolderWrites` | crates/takuto-core/src/config_writer.rs:130-201 | only the lock holder changes files, and the write time moves only for a text that is on disk |
| `ConfigProtocol.FallsBackIff` | crates/takuto-core/src/config_writer.rs:123-205 | a call writes in place exactly when its rename finds the file busy |
| `ConfigProtocol.AnswersAreTrue` | crates/takuto-core/src/config_writer.rs:123-205 | in every run, a text that does not validate never takes the lock, changes a file or succeeds, and a success means the text has been whole in the file |
| `ConfigProtocol.LastCommitWins` | crates/takuto-core/src/config_writer.rs:130-201 | with nobody holding the lock and no rewrite broken off, `config.toml` is the text of the last commit, in every interleaving |
| `ConfigProtocol.FallbackFlagIsExact` | crates/takuto-core/src/config_writer.rs:178-180 | the fallback flag is set exactly when some call since the start has succeeded in place |
| `ConfigProtocol.HolderComesNearer` | crates/takuto-core/src/config_writer.rs:156-201 | every step of the holder brings it nearer to releasing the lock, and the last one releases it, on every exit path |
| `ConfigProtocol.OthersCannotDelay` | crates/takuto-core/src/config_writer.rs:140-153 | the other calls never set the holder back |
| `ConfigWriter.DriveIsARun` | crates/takuto-core/src/config_writer.rs:123-203 | driving a call to its end by given outcomes is a run of the state machine beside any other calls, and the write time ends as moved exactly on success |
| `ConfigWriter.CallIsARun` | crates/takuto-core/src/config_writer.rs:123-203 | a whole call, from any state in which nobody holds the lock, is a run of the state machine, so the lemmas above apply to it |
| `ConfigWriter.CallLosesIff` | crates/takuto-core/src/config_writer.rs:155-240 | crashed at any step or carried to its end, a call can lose both texts exactly under the stated outcomes of its system calls |
| `ConfigWriter.EndLossIff` | crates/takuto-core/src/config_writer.rs:155-240 | a call carried to its end has lost both texts exactly under those outcomes |
| `ConfigWriter.ConfigWriter.WriteTmp` | crates/takuto-core/src/config_writer.rs:156-161 | the temporary file after a write that completes, breaks off or cannot open |
| `ConfigWriter.ConfigWriter.WriteInPlaceWithBackup` | crates/takuto-core/src/config_writer.rs:220-240 | the backup copy is best-effort; success means the whole text was written and synced |
| `ConfigWriter.ConfigWriter.FallBack` | crates/takuto-core/src/config_writer.rs:166-180 | the fallback leaves the disk the machine leaves, and the flag is latched exactly on success |
| `ConfigWriter.ConfigWriter.Replace` | crates/takuto-core/src/config_writer.rs:163-187 | rename, fallback and refusal leave the disk and the verdict the machine leaves |
| `ConfigWriter.ConfigWriter.WriteConfig` | crates/takuto-core/src/config_writer.rs:123-203 | the method refines the machine: same files, same verdict, lock free, write time moved exactly on success, an invalid config touches nothing |
| `Text.SpacesAre` | e2e/src/api/toml.ts:42 | what trimming takes off: blank, tab, line feed, vertical tab, form feed and carriage return |
| `Toml.StripComment` | e2e/src/api/toml.ts:21-38 | the loop cuts at the first `#` outside strings |
| `Toml.BracketDepth` | e2e/src/api/toml.ts:109-129 | the loop counts brackets outside strings |
| `Toml.SplitTopLevel` | e2e/src/api/toml.ts:70-106 | the loop yields the items of the recursive splitter |
| `Toml.GatherArray` | e2e/src/api/toml.ts:183-186 | the inner loop takes in lines until the brackets balance |
| `Toml.ApplyLine` | e2e/src/api/toml.ts:171-196 | a non-empty line is taken as a header, an assignment with the lines its value needs, or nothing, as the recursive reader takes it |
| `Toml.ParseToml` | e2e/src/api/toml.ts:161-198 | the two nested loops over lines compute the recursive reader |
| `TomlPrint.StringIsLevel` | e2e/src/api/toml.ts:21-38 | whatever a string holds, the scanners pass over it unchanged |
| `TomlPrint.ShowIsLevel` | e2e/src/api/toml.ts:70-129 | a printed value never shows a comment or a top-level comma and closes every bracket it opens |
| `TomlPrint.ItemsOfBody` | e2e/src/api/toml.ts:70-106 | splitting a printed array body gives the printed items, with or without a trailing comma |
| `TomlPrint.ParseShow` | e2e/src/api/toml.ts:41-67 | reading the text of any printable value gives the value back, nested arrays included |
| `TomlDoc.GatherItems` | e2e/src/api/toml.ts:183-186 | gathering consumes the lines of all items of a tall array, nested tall arrays, comments and blank lines included, and stops behind none |
| `TomlDoc.SplitShown` | e2e/src/api/toml.ts:148-158 | a printed dotted path splits into its names, whatever space stands around the dots |
| `TomlDoc.ReadPrinted` | e2e/src/api/toml.ts:161-198 | reading printed lines executes the statements one by one |
| `TomlDoc.ParsePrinted` | e2e/src/api/toml.ts:161-198 | reading a printed document of headers, assignments, comments and stray lines, in any spacing, executes exactly its headers and assignments, in order |
| `TomlPaths.GraftShape` | e2e/src/api/toml.ts:132-145 | putting a table at a path changes what is there, makes everything above it a table, and changes nothing else |
| `TomlPaths.OpenShape` | e2e/src/api/toml.ts:173-177 | a header makes its path and all above it tables and leaves every other path as it was |
| `TomlPaths.AssignShape` | e2e/src/api/toml.ts:187-196 | an assignment puts its value at its path under the open section, makes all above it tables, clears what was below, and leaves every other path as it was |
| `TomlPaths.PathsRoundTrip` | e2e/src/api/toml.ts:161-198 | reading a printed document gives every path the value, table or nothing that the last statement to touch it says |
| `TomlTree.AnyLayout` | e2e/src/api/toml.ts:161-198 | whatever the order of the statements, with headers left out or repeated and keys dotted from any section above, a document that says what a tree has, and all of it, is read back as that tree |
| `TomlTree.TreeRoundTrip` | e2e/src/api/toml.ts:161-198 | a document of nested tables, each section with or without a header of its own, is read back exactly: every key, every value and nothing else |
| `TomlTree.OneTable` | e2e/src/api/toml.ts:10-14 | that determines the table uniquely |
| `TomlTree.QuotedKeySurvivesIff` | e2e/src/api/toml.ts:148-158 | a quoted key on the left of an assignment names its own text exactly when that has no dot and no equals sign |
| `Slugs.Slugify` | ui/src/api/flows.ts:53-69 | the loop computes the slug: the lower-case words joined by dashes, cut to 64 and trimmed |
| `Slugs.EmittedIsDashed` | ui/src/api/flows.ts:53-66 | what the loop emits is the dashed words with at most one stray dash on either side |
| `Slugs.SlugSpelled` | ui/src/api/flows.ts:53-69 | however the words of a name are capitalized and whatever separates and surrounds them, the slug is the words in lower case, joined by dashes and cut at 64 |
| `Slugs.SlugIsNormal` | ui/src/api/flows.ts:53-69 | a slug is lower-case alphanumerics with single inner dashes, at most 64 characters, and empty exactly for names without a letter or digit |
| `Slugs.SlugFixedPoints` | crates/takuto-core/src/db/user_work_item_flows.rs:74-94 | slugs are exactly the texts that slugging leaves alone, so it is idempotent |
| `Slugs.FlowSlugKeepsSlugs` | crates/takuto-core/src/agent_prompt.rs:16-26 | the report's slug function leaves every stored slug unchanged |
| `Slugs.FlowSlugSpelled` | crates/takuto-core/src/agent_prompt.rs:16-26 | the report's slug has each letter and digit, in lower case, where the name has it and a dash everywhere else |
| `Slugs.FlowSlugSeparates` | crates/takuto-core/src/agent_prompt.rs:16-26 | names the report's slug function confuses have the same stored slug, so distinct stored flows keep distinct report slugs |
| `FlowReport.MarkersDiffer` | crates/takuto-core/src/agent_prompt.rs:29-31 | two slugs never share a marker, not even when one begins the other |
| `FlowReport.CutRendered` | crates/takuto-core/src/agent_prompt.rs:43-57 | stripping a slug removes its section and disturbs no other |
| `FlowReport.CutReport` | crates/takuto-core/src/agent_prompt.rs:43-57 | the same with text in front that belongs to no section |
| `FlowReport.RunUpserts` | crates/takuto-core/src/workflow/engine/step_runner.rs:324-345 | one run of a flow replaces its section and moves it to the end |
| `FlowReport.FirstRunAppends` | crates/takuto-core/src/agent_prompt.rs:29-36 | the first run of a flow appends its marker, heading and body behind the trimmed report and one empty line, to the character |
| `FlowReport.ReportHistory` | crates/takuto-core/src/agent_prompt.rs:12-57 | after any sequence of runs the report is, to the character, the first text and one section per flow with its latest body, in the order of the latest runs |
| `FlowReport.FlowsKeepApart` | crates/takuto-core/src/workflow/engine/step_runner.rs:324-345 | runs of two flows with different stored slugs never write to the same section |
| `FlowReport.LatestAreSurvivors` | crates/takuto-core/src/workflow/engine/step_runner.rs:324-345 | replacing and moving to the end keeps exactly the last run of each flow |
| `SkillArgs.SubstituteSkillArgs` | crates/takuto-core/src/skill_resolve.rs:51-58 | for arguments without a dollar the loop of replacements gives the simultaneous substitution exactly when nothing clashes |
| `SkillArgs.RoundsAreOnePassIff` | crates/takuto-core/src/skill_resolve.rs:51-58 | the same for every number of rounds: the two agree exactly when no dollar that stays comes to stand before the number of a later argument |
| `SkillArgs.SingleDollarsNeverClash` | crates/takuto-core/src/skill_resolve.rs:51-58 | a text without two dollars in a row has no clash, whatever the arguments |
| `SkillArgs.RoundsAreOnePass` | crates/takuto-core/src/skill_resolve.rs:51-58 | so on such texts sequential and simultaneous substitution agree |
| `SkillArgs.DollarBeforeReference` | crates/takuto-core/src/skill_resolve.rs:51-58 | a dollar right before a reference does clash when the argument put there starts with a later number |
| `SkillArgs.PositionGives` | crates/takuto-core/src/skill_resolve.rs:46-58 | `$k` gives the argument of its first digit followed by its other digits, for every position |
| `SkillArgs.PositionReachedIff` | crates/takuto-core/src/skill_resolve.rs:46-58 | `$k` gives the k-th argument exactly for single digits, coincidence aside |
| `SkillArgs.OnlyNineCount` | crates/takuto-core/src/skill_resolve.rs:54-56 | where nothing clashes and no argument has a dollar, the rounds past the ninth change nothing |
| `SkillArgs.TextIsFilled` | crates/takuto-core/src/skill_resolve.rs:51-58 | a text of dollar-free pieces and references comes out with each reference filled in and nothing else changed |
| `SkillArgs.JoinedWithBlanks` | crates/takuto-core/src/skill_resolve.rs:52 | `$ARGUMENTS` stands for all arguments in order with one blank between them |
| `SkillArgs.ReferenceInArgument` | crates/takuto-core/src/skill_resolve.rs:51-58 | an argument that is itself a reference to a later argument is replaced again, past the ninth too |
| `Frontmatter.FrontmatterIsStripped` | crates/takuto-core/src/skill_resolve.rs:33-45 | a fenced block without a closing fence inside, and the empty lines behind it, are removed and the text is returned |
| `Frontmatter.UnfencedIsKept` | crates/takuto-core/src/skill_resolve.rs:33-45 | without an opening or a closing fence the content is unchanged |
| `Sessions.Store.CreateDbSession` | crates/takuto-web/src/auth.rs:158-200 | a new row is idle-limited from now, unless its id is taken |
| `Sessions.Store.ValidateDbSession` | crates/takuto-web/src/auth.rs:208-280 | a request on its own: cap, idleness and throttled extension, with either statement failing: the answer and the whole new table |
| `Sessions.Store.ValidateNoExtend` | crates/takuto-web/src/auth.rs:285-319 | the read-only check gives the same answer as the extending one on every table and changes nothing |
| `Sessions.Store.DeleteDbSession` | crates/takuto-web/src/auth.rs:322-338 | the row is gone, and the answer says whether there was one |
| `Sessions.LoneCall` | crates/takuto-web/src/auth.rs:208-319 | a validation that meets no other, in figures: past thirty days from creation the row goes, from its expiry on it is refused, and otherwise its user is answered and a row last seen over 300 seconds ago is extended by a day |
| `Sessions.LoneLogin` | crates/takuto-web/src/auth.rs:158-200 | a login that meets no other inserts its row, unless the id is taken |
| `Sessions.OnlyItsUser` | crates/takuto-web/src/auth.rs:208-319 | over every interleaving, a session only ever answers the user it was created for |
| `Sessions.RejectedForeverIff` | crates/takuto-web/src/auth.rs:208-319 | over all interleavings, a session can still be let in exactly when an expiry it has, or would get from an extension still to be written, lies after the clock reading of an open or coming request, the cap permitting; otherwise its rejection is for ever |
| `Sessions.QuietRejectionIsForever` | crates/takuto-web/src/auth.rs:208-319 | with no other validation of it open, a rejected session is rejected for ever, whichever statements fail |
| `Sessions.CapIsFinal` | crates/takuto-web/src/auth.rs:238-250 | a missing row, or one past its cap, lets in nobody who reads the clock from then on, whatever is still open |
| `Sessions.LogoutIsFinal` | crates/takuto-web/src/auth.rs:322-338 | once deleted, a session lets in nobody, not even a request already under way to read it |
| `Sessions.LateExtensionRevives` | crates/takuto-web/src/auth.rs:258-278 | for every live row due for an extension, and any later time at which it is idle but within its cap and a day of now, there is a run in which it is rejected then and let in again |
| `Sessions.IdleWindow` | crates/takuto-web/src/auth.rs:71-78 | over all interleavings after a use at t, a session passes the idle check at every time before t + 86100 exactly when no extension decided on before t - 300 is still to be written |
| `Sessions.IdleWindowEnds` | crates/takuto-web/src/auth.rs:71-78 | over all interleavings after its last use at t, none later being recorded, open or to come, it fails the check at every time from t + 86400 on |
| `Sessions.StepKeepsAlive` | crates/takuto-web/src/auth.rs:208-338 | one step of any request keeps a promptly extended session seen within 300 seconds of its latest use, or past its cap |
| `Sessions.KeptAliveToTheCap` | crates/takuto-web/src/auth.rs:71-78 | used at gaps under 86100 seconds, extensions written within 300, a session is accepted exactly up to creation + 2592000, over every interleaving; without a creation time, always |
| `Sessions.CreatedIsAlive` | crates/takuto-web/src/auth.rs:158-200 | a session just created is one the previous row speaks of, in every reachable state |
| `Sessions.UncappedStays` | crates/takuto-web/src/auth.rs:238-250 | no validation ever deletes a row without a positive creation time |
| `Sessions.BackfilledRowIsLetIn` | crates/takuto-web/src/auth.rs:238-278 | a row backfilled by the migration is let in and extended exactly while its own expiry lasts, and never deleted |
| `TokenCache.StepKeepsInv` | crates/takuto-core/src/github_app.rs:211-238 | every step of every caller keeps the lock discipline, the cache history and the freshness of answers |
| `TokenCache.OneFetchInFlight` | crates/takuto-core/src/github_app.rs:222-231 | in every interleaving at most one fetch is in flight |
| `TokenCache.CachedAnswersAreFresh` | crates/takuto-core/src/github_app.rs:213-229 | a token returned without a fetch had more than five minutes left when checked |
| `TokenCache.OnlySuccessChangesCache` | crates/takuto-core/src/github_app.rs:231-235 | a failed or cancelled fetch leaves the cache as it was |
| `TokenCache.FetchIsStored` | crates/takuto-core/src/github_app.rs:231-236 | until the next fetch succeeds, the cache holds what the last one brought |
| `TokenCache.FetchIsShared` | crates/takuto-core/src/github_app.rs:211-238 | a fetched token goes to the caller that fetched it and to every caller answered before the next fetch succeeds |
| `TokenCache.LoneCaller` | crates/takuto-core/src/github_app.rs:211-238 | a call that meets no other takes the interleaved machine to the same cache and answer, with the locks free |
| `TokenCache.FetchesAreSpaced` | crates/takuto-core/src/github_app.rs:222-231 | a fetch begins only when the token stored last has five minutes or less left |
| `TokenCache.NoDeadlock` | crates/takuto-core/src/github_app.rs:211-238 | while a call is open some caller can act, cancellations included |
| `TokenCache.Manager.GetInstallationToken` | crates/takuto-core/src/github_app.rs:211-238 | for a caller on its own: the fresh token, or the fetched one, and the cache accordingly |
| `TokenCache.AnswersAreFresh` | crates/takuto-core/src/github_app.rs:211-238 | if fetches bring tokens with more than five minutes of life, every caller in every interleaving is handed a token, cached or fetched, with more than five minutes left |
| `TokenCache.TokenFile.Write` | crates/takuto-core/src/github_app.rs:507-521 | the file holds the new token exactly when the rename went through, and the old one otherwise |
| `TokenCache.TokenFile.FileLoop` | crates/takuto-core/src/github_app.rs:467-505 | a refresh that is answered and renames leaves its answer in the file, any other leaves the file alone |
| `TokenCache.TokenFileFreshness` | crates/takuto-core/src/github_app.rs:467-505 | with the loop as one caller among any number, the token in the file is expired for less than the refreshes around it took, plus one poll interval for each failure between them |
| `ProcessPump.ProcessHandle.WaitWithStreamingUntil` | crates/takuto-core/src/process.rs:274-404 | the answer for every schedule: cancelled, failed, still waiting, or the exit code with the collected lines of stdout and of stderr, each joined; and the fields end as the machine says |
| `ProcessPump.ProcessHandle.DrainStderr` | crates/takuto-core/src/process.rs:388-395 | the drain stores and streams stderr up to the next read error |
| `ProcessPump.ProcessHandle.WaitWithOutput` | crates/takuto-core/src/process.rs:189-258 | the same answer without early completion: an exit brings the lines of the child's stdout up to a read error, joined, and its stderr likewise |
| `ProcessPump.LoopEnds` | crates/takuto-core/src/process.rs:211-244 | how the loop ends depends only on how often stdout is read before a cancellation |
| `ProcessPump.StreamedLines` | crates/takuto-core/src/process.rs:274-404 | what is stored of either stream, drain and grace period included, from counting the reads of the schedule |
| `ProcessPump.StdoutIsCaptured` | crates/takuto-core/src/process.rs:189-258 | stdout is captured whole up to a read error under every schedule that comes to its end |
| `ProcessPump.StderrIsCaptured` | crates/takuto-core/src/process.rs:189-258 | stderr is its lines up to where the loop got, which the reads before the end of stdout tell, and from there up to the next error |
| `ProcessPump.StderrIndependentIff` | crates/takuto-core/src/process.rs:189-258 | what is captured of stderr is the same under all schedules exactly when no line follows a read error |
| `ProcessPump.WholeOutput` | crates/takuto-core/src/process.rs:260-404 | without read errors every schedule captures both streams whole |
| `ProcessPump.StreamedIsStored` | crates/takuto-core/src/process.rs:274-404 | at every point the lines streamed per channel are the lines stored |
| `ProcessPump.EarlyCompletion` | crates/takuto-core/src/process.rs:274-404 | a wait completes early exactly when it reads stdout as far as a matching line, and then stores a prefix of the child's lines with that line in it |

## Left out

- `TomlPaths.GraftShape`: tables are values here, so `tableAt` is a function on them and not a walk that creates objects in place; the `current` table is its path, which is exact because assignments go only below it and never detach it.
- `Toml.ParseToml`: numbers other than plain integers up to 2^53 in size stay a bare word (`Word`), JavaScript's `Number` not being modelled; keys that JavaScript objects inherit, such as `__proto__`, are treated like any other.
- `TomlTree.TreeRoundTrip`: escapes, strings over several lines, inline tables and arrays of tables, which the reader does not know, are not printed.
- `TopoSort.TopoSort`: the permutation and order are claimed for distinct file names only, which the server provides; `localeCompare` is an arbitrary ranking of names.
- `Flows.ValidateUserFlows`: the server's own cycle search is stated by `DetectCycle`, whose editor version has the same colours and differs only in returning at once; the JSON encoding is not modelled.
- `RunGate.StartsAreClicks`: an accepted click shows its flow as running at once; a screen behind the server's state and the server's own check of dependencies (crates/takuto-core/src/workflow/engine/definitions.rs) are not modelled.
- `FlowsTab.Tab.constructor`: the list loaded from the server is assumed storable; the reseed route stores the configured defaults without validating them, and no step of a history is a reseed.
- `Slugs.Slugify`: characters are code points and only ASCII letters and digits count, as in both sources; the lower-casing of other letters never reaches a slug.
- `FlowReport.ReportHistory`: the agents' body is any text without a marker prefix; file errors, which the engine ignores, are not modelled.
- `SkillArgs.SubstituteSkillArgs`: reading the skill file from the search paths and joining several skills.
- `ConfigWriter.ConfigWriter.WriteConfig`: the class is one call that meets no other; competing calls are in `ConfigProtocol`. Creating the directory and opening the lock file are one outcome together with taking the lock, and the clock and all outcomes are parameters.
- `ConfigLoss.CrashesLoseIff`: for non-empty texts, as the serializer writes them; a start from an empty file is covered by `KeptThroughoutIff`.
- `ConfigProtocol.CrashSafety`: a crash is the end of the process; what a power failure leaves of unsynced data is not modelled.
- `Sessions.Store.ValidateDbSession`: the class is one request that meets no other; interleaved requests, each statement a step of its own, are the state machine of the same module. Dates are integers in place of their sortable strings (section 5.1 of RFC 3339), and saturation at the ends of the integer range is left out.
- `Sessions.IdleWindow`: the states are those reached from a positive clock and a table of nothing but backfilled rows, an empty one included; rows rewritten by the database importer are not modelled.
- `TokenCache.TokenFile.FileLoop`: the answers are those of the shared cache (`AnsweredIn`), cancellation is the end of the plan, and the fetch itself (signing, the request) is a parameter.
- `TokenCache.TokenFileFreshness`: assumes fetched tokens live more than five minutes past the end of their fetch, and a refresh starting one poll interval after the last was done.
- `ProcessPump.ProcessHandle.WaitWithStreamingUntil`: the order in which the runtime polls and what waiting for the child brings are parameters; signals, process groups and the timeouts' own clocks are not modelled, and a schedule that stops early stands for a child still running.
- Whitespace is ASCII whitespace; the further Unicode characters that `trim` removes in JavaScript and Rust are not modelled.
- The search for cycles among file-based workflow definitions (`definitions.rs`), a third depth-first search.
- React rendering, translations, HTTP routing, the database adapter, JWT signing and password hashing have no property of their own here.
- `resolve_cookie_secure` and the cookie parsing in `auth.rs` are single branches and would only add easy members.
