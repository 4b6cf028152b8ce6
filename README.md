# Notebook state core, modelled in Dafny

The notebook keeps one JSON **document**. The document has a schema version,
a list of **workspaces**, and the ids of the active workspace and the active
agenda. Each workspace holds **agendas**. Each agenda holds:

- notes and folders, which form a tree through `parentId`;
- Kanban tasks and columns;
- a list of finalized tasks and a recycle bin of deleted tasks;
- journals of entries;
- code snippets;
- a map of metrics.

This project models the three layers that make up the core:

- **Persistence** (`src/lib/persistence.js`). The deep validator repairs or
  rejects a parsed document on load and on import. It sanitises strings,
  drops entities without a valid id, and adds the default `todo`, `doing`
  and `done` columns. It also migrates the legacy `journal` array, keeps
  only the allowed metrics, and resets active ids that point at nothing.
  `getInitialState` gives the empty document.
- **The store** (`src/lib/store.js`). A singleton object holds the state,
  its listeners and an initialised flag. `update` runs a mutator on a copy
  of the state. It merges the mutator's returned object over the copy, or
  adopts the copy when nothing is returned. Then it saves and notifies every
  listener.
- **The actions** (`src/lib/actions/*.js`). These are the mutators for
  workspaces, agendas, tasks, notes, journals, snippets and metrics.

## How the model is organised

- `wrappers.dfy`, `json.dfy`, `seqs.dfy`, `text.dfy`: Option, the JSON value
  type with JavaScript truthiness, sequence helpers, and JavaScript `trim`
  with `sanitizeString`.
- `schema.dfy`: the document's entities as datatypes, and `getInitialState`.
- `validate.dfy`: the validators as functions. `validate_loops.dfy`: the
  validators' `forEach` loops as methods, each proved equal to its function.
  `validate_props.dfy`: lemmas about what validation guarantees.
- `store.dfy`: the store as a class. A mutator is a function from the
  document to a `Step`, which holds the draft it leaves and the object it
  returns, if any. `Commit` is the merge rule of `update`. Saving and
  notifying are recorded in ghost logs (`saved`, `delivered`), and each
  listener is an opaque id.
- `edit.dfy`: the two mapping shapes every action uses, and lemmas for each:
  - the workspace-level shape, which maps the active workspace;
  - the agenda-level shape, which maps the matching agendas of the active
    workspace and stamps `modifiedAt`.

  It also covers the in-place shape of the task lifecycle actions: find the
  agenda, mutate it, return the whole state.
- One file per action module: `workspaces.dfy`, `agendas.dfy`, `tasks.dfy`,
  `notes.dfy`, `journal.dfy`, `snippets.dfy`, `metrics.dfy`. Each action has
  two parts:
  - a function on one agenda or workspace, with lemmas stating what it does;
  - a document-level function that is the mutator handed to `store.update`.
    Its contract relates the committed document to the agenda-level
    function through `MapsFocus`, `MapsActive` or `EditsFocusInPlace`.

Where the documentation and the code differ, the model follows the code:

- The legacy `journal` array is migrated only when `journals` is not an
  array at all. An empty `journals` array blocks the migration
  (`src/lib/persistence.js:268-285`).
- The validator does not check that the note parent links are acyclic. A
  stored cycle therefore survives loading. `moveItem`'s ancestor walk then
  never ends for a folder moved under that cycle. The model returns `None`
  for that case (`NoteActions.ParentCycleHangs`).

## Model

| member | source | states |
|---|---|---|
| Text.TrimStart | src/lib/persistence.js:30-34 | the result is a suffix of the input; everything removed is whitespace and the result does not start with whitespace |
| Text.TrimEnd | src/lib/persistence.js:30-34 | the result is a prefix of the input; everything removed is whitespace and the result does not end with whitespace |
| Text.TrimmedSlice | src/lib/persistence.js:30-34 | dropping leading, then trailing whitespace leaves a slice of the input with only whitespace around it and none at its ends |
| Text.Trim | src/lib/persistence.js:30-34 | `trim` is the infix between the leading and trailing whitespace, with no whitespace at either end |
| Text.TrimTrimmed | src/lib/persistence.js:30-34 | trimming a string with no surrounding whitespace changes nothing |
| Text.SanitizeString | src/lib/persistence.js:30-34 | a non-string gives `""`; a string gives a prefix of its trimmed form, cut to `maxLength` characters |
| Text.SanitizeNotIdempotent | src/lib/persistence.js:30-34 | cutting after trimming can leave trailing whitespace, so sanitising twice can differ from sanitising once |
| Text.SanitizeFixed | src/lib/persistence.js:30-34 | a trimmed string within the cap is returned unchanged |
| Json.OrElse | src/lib/persistence.js:48 | `v \|\| d` is truthy or is the default |
| Json.NullOrString | src/lib/persistence.js:19 | `isNullOrString(v) ? v : null` keeps exactly the strings, and a kept string is the input's own text |
| Validate.DateOr | src/lib/persistence.js:51-52 | a parseable date string is kept; anything else becomes the current time |
| Validate.OneOf | src/lib/persistence.js:79-81 | the value is kept when it is one of the allowed strings, else the fallback; either way the result is allowed |
| Validate.ValidateNote | src/lib/persistence.js:39-61 | a note is kept exactly when it is an object with a valid id; its kind is `folder` exactly when `type` is `folder`, and only then it has no content; title and content are capped at 500 and 100000 |
| Validate.DueDate | src/lib/persistence.js:80 | a due date is kept exactly when it is a string that is empty or parses as a date |
| Validate.NullOrNumber | src/lib/persistence.js:85-86 | `finalizedAt` and `deletedAt` are kept exactly when they are numbers |
| Validate.BoolOrFalse | src/lib/persistence.js:83-84 | a flag is true exactly when the input is the boolean `true` |
| Validate.ValidateTask | src/lib/persistence.js:66-95 | a task is kept exactly when it is an object with a valid id. Priority and column are always allowed values, and allowed input values are kept. The flags are true only for `true`. Title and description are capped |
| Validate.ValidateJournalEntry | src/lib/persistence.js:100-111 | an entry is kept exactly when it is an object with a valid id; its text is capped at 50000 |
| Validate.TagOf | src/lib/persistence.js:156-162 | a tag is kept exactly when it is a string of 1 to 49 characters |
| Validate.CodeOf | src/lib/persistence.js:146 | snippet code is a prefix of the input, at most 100000 characters and never trimmed; a non-string gives `""` |
| Validate.TaskIdOf | src/lib/persistence.js:181-186 | a column's task id is kept exactly when it is a valid id |
| Validate.AsciiUpper | src/lib/persistence.js:263 | upper-casing keeps the length |
| Validate.AsciiUpperChars | src/lib/persistence.js:263 | each lower-case ASCII letter becomes its capital and every other character is kept |
| Validate.DefaultColumnTitles | src/lib/persistence.js:260-263 | the default columns are titled `TODO`, `DOING` and `DONE` |
| Validate.LoadState | src/lib/persistence.js:440-459 | the loaded document is the validated one when storage holds JSON that passes the checks; otherwise there is no document |
| Validate.ParseImportData | src/lib/persistence.js:482-498 | unparseable text fails as not JSON; a failed check fails as an invalid backup, naming the reason; otherwise the result is exactly the validated document, of the current schema version |
| ValidateLoops.CollectValid | src/lib/persistence.js:237-242 | the `forEach`-and-push loop keeps, in order, the accepted results of the validator |
| ValidateLoops.ValidateJournal | src/lib/persistence.js:116-135 | the loop computes the validated journal; a journal is kept exactly when it is an object with a valid id |
| ValidateLoops.ValidateSnippet | src/lib/persistence.js:140-165 | the loop computes the validated snippet; a snippet is kept exactly when it is an object with a valid id |
| ValidateLoops.ValidateColumn | src/lib/persistence.js:170-188 | the loop computes the validated column; a column is kept exactly when it is an object with a valid id |
| ValidateLoops.ValidateMetrics | src/lib/persistence.js:193-206 | the loop over the allowed keys computes the validated metrics |
| ValidateLoops.EnsureDefaultColumns | src/lib/persistence.js:259-265 | the default-columns loop computes the columns with the missing defaults appended |
| ValidateLoops.ValidateColumns | src/lib/persistence.js:252-258 | the column loop keeps, in order, the valid columns of the input |
| ValidateLoops.ValidateJournals | src/lib/persistence.js:267-285 | the journal loop, with the legacy migration, computes the validated journals |
| ValidateLoops.ValidateSnippets | src/lib/persistence.js:287-293 | the snippet loop keeps, in order, the valid snippets of the input |
| ValidateLoops.ValidateAgenda | src/lib/persistence.js:211-310 | the method computes the validated agenda; an agenda is kept exactly when it is an object with a valid id |
| ValidateLoops.ValidateWorkspace | src/lib/persistence.js:315-342 | the method computes the validated workspace; a workspace is kept exactly when it is an object with a valid id |
| ValidateLoops.DeepValidateState | src/lib/persistence.js:349-413 | the method computes the validation result; it is invalid exactly when a fatal check fails, and a valid result has the current schema version |
| ValidateProps.AddDefaultsSpec | src/lib/persistence.js:259-265 | the input columns stay as a prefix and every listed id ends up present; only fresh empty columns for missing ids are appended |
| ValidateProps.DefaultColumnsAdded | src/lib/persistence.js:259-265 | the default-columns loop keeps the given columns as a prefix, makes `todo`, `doing` and `done` present, and appends at most three empty columns for ids that were missing |
| ValidateProps.AgendaDefaultColumns | src/lib/persistence.js:252-265 | every validated agenda has `todo`, `doing` and `done`; the columns that were kept come first, followed by at most three empty default columns |
| ValidateProps.ColumnTaskIds | src/lib/persistence.js:170-188 | an id is in a validated column exactly when it is a valid id present among the input's task ids |
| ValidateProps.LegacyJournalMigrated | src/lib/persistence.js:267-285 | without a `journals` array, a legacy `journal` array becomes the one journal `default` ("Main Journal") holding the valid legacy entries |
| ValidateProps.AgendaNeverLegacy | src/lib/persistence.js:211-310 | every validated agenda has a journals list and no legacy `journal` key |
| ValidateProps.MetricsAllowListed | src/lib/persistence.js:193-206 | validated metrics hold only the allowed keys, each a non-negative integer; an allowed key survives exactly when its input is a number |
| ValidateProps.ActiveIdsRepaired | src/lib/persistence.js:385-405 | an active workspace id that names nothing is nulled with the agenda id; an active agenda id missing from its workspace is nulled; afterwards every truthy active id exists |
| ValidateProps.DocumentOutcome | src/lib/persistence.js:349-413 | a document is rejected exactly for a non-object, a wrong schema version or a non-array `workspaces`; otherwise it is version 1, holds the valid workspaces in order, and has repaired active ids |
| ValidateProps.GhostWorkspaceReset | src/lib/persistence.js:385-393 | a document whose active workspace does not exist loads with both active ids null |
| Schema.InitialState | src/lib/persistence.js:503-510 | the initial document has the current schema version, no workspaces, and nothing selected |
| StoreModel.Merge | src/lib/store.js:79-80 | each key the mutator returned overrides the draft's, and every other key is the draft's |
| StoreModel.Commit | src/lib/store.js:74-84 | a returned object is merged over the draft; returning nothing adopts the draft |
| StoreModel.CommitKeepsDraft | src/lib/store.js:74-84 | returning nothing, `{}` or the whole draft all commit the draft unchanged |
| StoreModel.MergeOverrides | src/lib/store.js:79-80 | returning only `activeAgendaId` changes only that key |
| StoreModel.Broadcast | src/lib/store.js:61-63 | one delivery of the current state to each listener, in subscription order |
| StoreModel.Store.constructor | src/lib/store.js:8-12 | the store starts uninitialised, with the initial document and no listeners |
| StoreModel.Store.Init | src/lib/store.js:17-30 | runs once. It installs the loaded document, or installs the initial one and records it as saved when nothing loads. Every listener is delivered the installed state, in order |
| StoreModel.Store.GetState | src/lib/store.js:39-41 | returns the current state |
| StoreModel.Store.Subscribe | src/lib/store.js:48-52 | the listener is added once and is delivered the current state immediately |
| StoreModel.Store.Unsubscribe | src/lib/store.js:53-55 | exactly that listener is removed and the others keep their order |
| StoreModel.Store.Notify | src/lib/store.js:61-63 | the current state is delivered to every listener in order, and nothing else changes |
| StoreModel.Store.Update | src/lib/store.js:70-87 | the new state is the mutator's step committed over the old state. The save log gains exactly that state, and every listener is delivered it, in order. The two logs are separate, so the order of save and delivery is not stated |
| Edit.Focus | src/lib/actions/tasks.js:187-190 | the agenda an in-place action reaches carries the requested id |
| Edit.FocusFound | src/lib/actions/tasks.js:187-190 | the agenda reached belongs to a workspace with the active id, and one is reached whenever the first such workspace holds an agenda with the id |
| Edit.InActiveAgendaEffect | src/lib/actions/snippets.js:10-36 | the agenda-level shape changes nothing without a truthy active id. Otherwise only agendas with the id in the active workspace change, and the first of them becomes the edit of the old one. Every active workspace has its matching agendas edited and `modifiedAt` stamped; the other workspaces are unchanged |
| Edit.InActiveWorkspaceEffect | src/lib/actions/agendas.js:55-73 | the workspace-level shape maps exactly the active workspaces and keeps the selection |
| Edit.InPlaceEffect | src/lib/actions/tasks.js:185-213 | the in-place shape changes only the focused agenda, replacing it with the edit and stamping its workspace; a missing workspace, agenda or task changes nothing |
| WorkspaceActions.CreateWorkspace | src/lib/actions/workspaces.js:19-47 | a missing or blank name issues no update. Otherwise the new empty workspace goes last with the trimmed name. It becomes active unless the active id is already truthy |
| WorkspaceActions.RenameIn | src/lib/actions/workspaces.js:58-63 | every workspace with the id takes the new name and stamp; the others are unchanged |
| WorkspaceActions.RenameWorkspace | src/lib/actions/workspaces.js:54-66 | a missing or blank name issues no update; otherwise the workspaces with the id are renamed to the trimmed name, active or not |
| WorkspaceActions.DeleteWorkspace | src/lib/actions/workspaces.js:72-83 | workspaces with the id go and the others stay, each once and in their original order; the active workspace is cleared only if it was the deleted one, and the active agenda is always cleared |
| WorkspaceActions.SelectWorkspace | src/lib/actions/workspaces.js:89-98 | an existing id or null becomes active and clears the active agenda; an unknown id changes nothing |
| WorkspaceActions.CreateKeepsSelection | src/lib/actions/workspaces.js:19-47 | creating keeps the active workspace id null or naming an existing workspace |
| WorkspaceActions.RenameKeepsSelection | src/lib/actions/workspaces.js:54-66 | renaming keeps the active workspace id null or naming an existing workspace |
| WorkspaceActions.DeleteKeepsSelection | src/lib/actions/workspaces.js:72-83 | deleting keeps the active workspace id null or naming an existing workspace |
| WorkspaceActions.SelectKeepsSelection | src/lib/actions/workspaces.js:89-98 | selecting keeps the active workspace id null or naming an existing workspace |
| WorkspaceActions.AgendaEditsKeepSelection | src/lib/actions/snippets.js:14-35 | agenda-level actions keep every workspace id, so they keep the selection valid |
| AgendaActions.NewAgenda | src/lib/actions/agendas.js:23-34 | a new agenda has the `todo`, `doing` and `done` columns, all empty, and no notes, tasks, snippets, journals or metrics |
| AgendaActions.CreateAgenda | src/lib/actions/agendas.js:16-49 | a missing or blank name issues no update; otherwise the new agenda, with the trimmed name, is appended to the active workspace |
| AgendaActions.RemoveAgenda | src/lib/actions/agendas.js:62-66 | agendas with the id go, the others stay, each once and in their original order, and the workspace is stamped |
| AgendaActions.DeleteAgenda | src/lib/actions/agendas.js:55-73 | the active workspace loses the agendas with the id, and nothing else changes |
| AgendaActions.CreateThenDeleteAgenda | src/lib/actions/agendas.js:16-73 | creating an agenda under a fresh id and deleting it gives back the agendas |
| AgendaActions.RenameIn | src/lib/actions/agendas.js:89-95 | every agenda with the id takes the new name and the others are unchanged |
| AgendaActions.RenameAgenda | src/lib/actions/agendas.js:80-102 | a missing or blank name issues no update; otherwise the active workspace's agendas with the id take the trimmed name |
| AgendaActions.AcceptedNameTrimmed | src/lib/actions/agendas.js:81-91 | a name the guard accepts is stored non-empty and already trimmed |
| AgendaActions.SelectAgenda | src/lib/actions/agendas.js:108-112 | the id becomes the active agenda as given, without any check |
| TaskActions.Without | src/lib/actions/tasks.js:99 | filtering an id out of a column removes exactly that id and keeps the other ids in their order |
| TaskActions.ClearFirst | src/lib/actions/tasks.js:200-203 | the first column with the given id loses the task id (and only that id); every other column is unchanged |
| TaskActions.NewTask | src/lib/actions/tasks.js:28-36 | a new task is in the backlog, neither finalized nor deleted. Description and priority take their `\|\|` defaults. A due date is set only when truthy |
| TaskActions.WithBacklog | src/lib/actions/tasks.js:41-44 | a `backlog` column exists afterwards, put first only when none existed |
| TaskActions.AddTaskSpec | src/lib/actions/tasks.js:38-57 | the new task ends the task list. Each backlog column (the one created if none existed) becomes its old ids followed by the new id; the other columns and fields stay |
| TaskActions.CreateTask | src/lib/actions/tasks.js:17-67 | a falsy or blank title issues no update; otherwise the task, with the trimmed title, is added to the focused agenda |
| TaskActions.InsertIndex | src/lib/actions/tasks.js:114-116 | `splice` inserts at `newIndex` when it lies in range, else at the end |
| TaskActions.Retarget | src/lib/actions/tasks.js:105-106 | the task with the id takes the target column, and no task is added or removed |
| TaskActions.RemoveFromColumns | src/lib/actions/tasks.js:95-102 | the id leaves the source columns and the other columns are unchanged |
| TaskActions.InsertIntoTarget | src/lib/actions/tasks.js:108-118 | the id is inserted at the requested position in the first target column; with no target column nothing changes |
| TaskActions.MoveTaskTasks | src/lib/actions/tasks.js:76-130 | an unknown task changes nothing. A known task keeps the ids and their order; every other task is unchanged, and every task with the id becomes a copy of the first one, naming the target column |
| TaskActions.ClearThenInsert | src/lib/actions/tasks.js:95-118 | clearing the source columns and then inserting into the first target column removes the id from a source that is not the target, and leaves other columns' ids alone. The target's ids become its old ids, less the id when the target is also the source, with the id spliced in at the requested position or at the end |
| TaskActions.MoveTaskColumns | src/lib/actions/tasks.js:89-118 | the id leaves its source column. The target's ids become its old ids, less the id when the target is also the source, with the id spliced in at the requested position or at the end. Columns that are neither keep their ids |
| TaskActions.MoveTask | src/lib/actions/tasks.js:76-130 | the mutator applies the move to the focused agenda |
| TaskActions.DeleteTaskSpec | src/lib/actions/tasks.js:132-156 | no task and no column keeps the id. Every other task stays, in order, and no task is added. Every column keeps its id, its title and its other ids, in order, and gains none |
| TaskActions.DeleteTask | src/lib/actions/tasks.js:132-156 | the mutator applies the deletion to the focused agenda |
| TaskActions.ApplyTaskUpdateSpec | src/lib/actions/tasks.js:169 | in each of the eleven task fields, the update's value wins when it carries one and the old value is kept when it does not; an empty update changes nothing, and applying it twice is applying it once |
| TaskActions.UpdateTaskIn | src/lib/actions/tasks.js:167-173 | every task with the id is merged with the update and the others are unchanged |
| TaskActions.UpdateTask | src/lib/actions/tasks.js:158-183 | the mutator applies the update to the focused agenda |
| TaskActions.TaskIdsRemoveAt | src/lib/actions/tasks.js:192-197 | removing a task removes exactly its id from the multiset of ids |
| TaskActions.TaskIdsAppendOne | src/lib/actions/tasks.js:205-208 | appending a task adds exactly its id to the multiset of ids |
| TaskActions.FinalizeConserves | src/lib/actions/tasks.js:185-213 | finalizing moves a task between lists and creates or loses no id |
| TaskActions.RecycleConserves | src/lib/actions/tasks.js:215-247 | recycling moves a task into the bin and creates or loses no id |
| TaskActions.RestoreConserves | src/lib/actions/tasks.js:249-287 | restoring moves a task out of the bin and creates or loses no id |
| TaskActions.FinalizeTaskSpec | src/lib/actions/tasks.js:185-213 | finalizing fails exactly for a task not on the board. Otherwise the first such task moves to the end of the finalized list, stamped. Its id leaves the first column named by its column id, and nothing else changes |
| TaskActions.RecycleTaskSpec | src/lib/actions/tasks.js:215-247 | recycling fails exactly for a task on neither the board nor the finalized list. A board task is taken first: it leaves the board and its first column, and is appended to the bin, stamped. Otherwise the first finalized task moves to the bin, stamped, and the columns are untouched. Nothing else changes |
| TaskActions.RestoreTaskSpec | src/lib/actions/tasks.js:249-287 | restoring fails exactly for a task not in the bin. Otherwise the first such task leaves the bin and ends the board, in the backlog with both stamps cleared. Its id ends the first backlog column if one exists; the other columns and fields are unchanged |
| TaskActions.RecycleThenRestore | src/lib/actions/tasks.js:215-287 | recycling then restoring a board task puts it back at the end of the board, in the backlog and unstamped; the bin is as it was |
| TaskActions.PermanentDeleteSpec | src/lib/actions/tasks.js:289-302 | the bin loses every task with the id, keeps the others in their order, and gains none; the board and the finalized list are untouched |
| TaskActions.FinalizeTask | src/lib/actions/tasks.js:185-213 | the mutator finalizes the task in place in the focused agenda |
| TaskActions.RecycleTask | src/lib/actions/tasks.js:215-247 | the mutator recycles the task in place in the focused agenda |
| TaskActions.RestoreTask | src/lib/actions/tasks.js:249-287 | the mutator restores the task in place in the focused agenda |
| TaskActions.PermanentDeleteTask | src/lib/actions/tasks.js:289-302 | the mutator empties the bin of the task in the focused agenda |
| NoteActions.AddNote | src/lib/actions/notes.js:37-40 | the item is appended and nothing else changes |
| NoteActions.NewNote | src/lib/actions/notes.js:28-36 | a note takes the default title and content when they are omitted, the custom id when it is truthy, and the creation time |
| NoteActions.NewFolder | src/lib/actions/notes.js:62-69 | a folder takes the name as title, has no content, and gets the fresh id |
| NoteActions.CreateNote | src/lib/actions/notes.js:19-51 | the mutator appends the note to the focused agenda |
| NoteActions.CreateFolder | src/lib/actions/notes.js:53-83 | the mutator appends the folder to the focused agenda |
| NoteActions.UpdateNoteIn | src/lib/actions/notes.js:93-104 | every note with the id is merged with the update and stamped; the others are unchanged |
| NoteActions.ApplyNoteUpdateSpec | src/lib/actions/notes.js:96-100 | in each of the six updatable note fields, the update's value wins when it carries one and the old value is kept when it does not; `modifiedAt` is always the current time, so an empty update only restamps the note; applying it twice is applying it once |
| NoteActions.UpdateNote | src/lib/actions/notes.js:85-114 | the mutator applies the update to the focused agenda |
| NoteActions.ClosureSpec | src/lib/actions/notes.js:130-144 | the subtree contains the item and holds every child of each of its members |
| NoteActions.ClosureLeast | src/lib/actions/notes.js:130-144 | the subtree is the least set with those properties |
| NoteActions.CollectSubtree | src/lib/actions/notes.js:130-144 | the `while (changed)` loop computes exactly the subtree |
| NoteActions.DeleteItemSpec | src/lib/actions/notes.js:119-155 | the item and all its descendants go, and no remaining note has a deleted parent; every note outside the subtree stays, in its original order, and no note is added; the subtree is the least closed set holding the item |
| NoteActions.DeleteItem | src/lib/actions/notes.js:119-166 | the mutator, which `deleteNote` reuses, deletes the subtree in the focused agenda |
| NoteActions.CycleCheckMeaning | src/lib/actions/notes.js:182-189 | the bounded check says the walk met the item, reached the root, or was still going at the cut-off |
| NoteActions.LoopsForever | src/lib/actions/notes.js:182-189 | a walk still going after one step more than there are notes goes on for ever |
| NoteActions.StopDecides | src/lib/actions/notes.js:182-189 | where the walk stops decides the check: stopping on the item blocks the move, and stopping on a falsy parent clears it |
| NoteActions.WalksIntoItem | src/lib/actions/notes.js:182-189 | the `while (current)` loop reports a cycle exactly when the bounded check says the move is blocked |
| NoteActions.Reparent | src/lib/actions/notes.js:192-195 | the note with the id takes the new parent and is stamped, and the other notes are unchanged |
| NoteActions.MoveItemSpec | src/lib/actions/notes.js:176-198 | a folder is refused exactly when walking up from the new parent meets it; plain notes are always moved |
| NoteActions.FolderMoveAcyclic | src/lib/actions/notes.js:181-190 | a folder move the check accepts does not make the folder its own ancestor |
| NoteActions.FolderUnderChildRefused | src/lib/actions/notes.js:181-190 | moving a folder under its own child changes nothing |
| NoteActions.ParentCycleHangs | src/lib/actions/notes.js:184-188 | with two notes that are each other's parent, moving a folder under them never finishes |
| NoteActions.MoveItem | src/lib/actions/notes.js:168-205 | the mutator issues no update exactly when the walk never ends; otherwise it applies the move to the focused agenda |
| JournalActions.StartingJournals | src/lib/actions/journal.js:19-21 | the action starts from the existing journals (even an empty list), else from the migrated legacy entries, else from nothing |
| JournalActions.SeededJournals | src/lib/actions/journal.js:19-24 | an empty starting list is seeded with an empty `default` journal |
| JournalActions.TargetIndex | src/lib/actions/journal.js:27-31 | the entry goes to the first journal with the requested id when there is one, else to the first journal |
| JournalActions.AddEntrySpec | src/lib/actions/journal.js:33-48 | the entry becomes the newest in its target journal; the other journals are as seeded and the legacy key is dropped |
| JournalActions.AddEntry | src/lib/actions/journal.js:8-58 | a missing or blank text issues no update; otherwise the trimmed entry is added to the focused agenda |
| JournalActions.DeleteEntrySpec | src/lib/actions/journal.js:60-93 | journals keep their ids and names. Untargeted journals keep their entries. A targeted journal's entries become `WithoutEntry` of its old ones: exactly the entries whose id differs, still newest first |
| JournalActions.AddThenDeleteEntry | src/lib/actions/journal.js:8-93 | adding an entry under a fresh id and deleting it again gives back the seeded journals |
| JournalActions.DeleteEntry | src/lib/actions/journal.js:60-93 | the mutator deletes the entry in the focused agenda |
| JournalActions.CreateJournalIn | src/lib/actions/journal.js:95-129 | a new empty journal is appended to the seeded journals and the legacy key is dropped |
| JournalActions.LegacyEntriesKept | src/lib/actions/journal.js:95-194 | legacy entries survive every journal action in the migrated `default` journal, unless that journal is deleted |
| JournalActions.RenameDeleteJournalSpec | src/lib/actions/journal.js:131-194 | renaming renames exactly the journals with the id and keeps the entries; deleting drops those journals and keeps the others, in their original order |
| JournalActions.CreateJournal | src/lib/actions/journal.js:95-129 | the mutator creates the journal in the focused agenda |
| JournalActions.RenameJournal | src/lib/actions/journal.js:131-164 | the mutator renames the journal in the focused agenda |
| JournalActions.DeleteJournal | src/lib/actions/journal.js:166-194 | the mutator deletes the journal in the focused agenda |
| JournalActions.WithoutEntry | src/lib/actions/journal.js:78 | the entries whose id differs, each once and in their original newest-first order |
| JournalActions.DeleteJournalIn | src/lib/actions/journal.js:174-184 | the journals with the id go and the others stay in their order; the legacy key is dropped and nothing else changes |
| SnippetActions.NewSnippet | src/lib/actions/snippets.js:18-26 | a new snippet takes its `\|\|` defaults ("Untitled Snippet", `text`) and keeps any tags array |
| SnippetActions.AddSnippetIn | src/lib/actions/snippets.js:27 | the snippet goes first, so the list reads newest first |
| SnippetActions.DeleteSnippetIn | src/lib/actions/snippets.js:47 | snippets with the id go and the others stay, in their original order; no snippet is added and nothing else in the agenda changes |
| Seqs.FilterKeeps | src/lib/actions/snippets.js:47 | `filter` keeps exactly the elements that pass the test, each at its own position relative to the others: there is an increasing map from result positions to the input positions that pass |
| SnippetActions.CreateThenDeleteSnippet | src/lib/actions/snippets.js:8-57 | creating a snippet under a fresh id and deleting it gives back the agenda |
| SnippetActions.ApplySnippetUpdateSpec | src/lib/actions/snippets.js:68 | in each of the seven snippet fields, the update's value wins when it carries one and the old value is kept when it does not; an empty update changes nothing, and applying it twice is applying it once |
| SnippetActions.UpdateSnippetIn | src/lib/actions/snippets.js:67-71 | every snippet with the id is merged with the update and the others are unchanged |
| SnippetActions.CreateSnippet | src/lib/actions/snippets.js:8-37 | the mutator adds the snippet to the focused agenda |
| SnippetActions.DeleteSnippet | src/lib/actions/snippets.js:39-57 | the mutator deletes the snippet in the focused agenda |
| SnippetActions.UpdateSnippet | src/lib/actions/snippets.js:59-81 | the mutator updates the snippet in the focused agenda |
| MetricsActions.UpdateMetricIn | src/lib/actions/metrics.js:13-15 | the key reads back the value, every other key is unchanged, and no other field changes |
| MetricsActions.IncrementSpec | src/lib/actions/metrics.js:36-39 | an increment adds one to the key's count; an absent or non-numeric value becomes 1, and the other keys stay |
| MetricsActions.IncrementTimesSpec | src/lib/actions/metrics.js:36-39 | n increments add n to the count |
| MetricsActions.UpdateThenIncrement | src/lib/actions/metrics.js:4-49 | setting a number and incrementing it gives that number plus one |
| MetricsActions.UpdateMetric | src/lib/actions/metrics.js:4-25 | the mutator sets the metric in the focused agenda |
| MetricsActions.IncrementMetric | src/lib/actions/metrics.js:27-49 | the mutator increments the metric in the focused agenda |

## Left out

- Strings are sequences of characters. JavaScript counts UTF-16 code units
  for lengths and `slice`, so strings outside the Basic Multilingual Plane
  are not modelled.
- Numbers are integers. Floating point, `NaN`, and `Math.floor` on
  fractions are not modelled, so clamping metrics reduces to `max(0, n)`.
- I/O and the outside world are parameters:
  - `localStorage` reads are the `Stored` value, and `JSON.parse` failure is
    `None`;
  - writes are the ghost `saved` log, and a failing write or a full quota
    is not modelled;
  - `exportData` (a browser download) is not part of this model.
- The clock and ids are parameters. `new Date().toISOString()` and
  `Date.now()` are a `Time` value, and `generateId` is a fresh id passed in.
  Freshness is assumed only where a lemma's `requires` states it.
- Listeners are opaque ids, and a delivery is recorded rather than run. A
  listener that throws, or that subscribes during a notification, is not
  modelled. The `Set` of listeners is a duplicate-free sequence in insertion
  order.
- Fields an entity may lack are modelled as empty or false:
  - missing collections on an agenda (`notes`, `tasks`, `snippets` and the
    like) are `[]`;
  - missing task flags are `false`.
  Only `journals` and the legacy `journal` keep the difference between
  absent and empty.
- Default parameters (`title = 'Untitled Note'`, `journalId = null`) are
  `Option` arguments. An explicit `null` passed to a parameter with a
  default is not modelled.
- `moveTask`'s `newIndex` is an integer; `undefined` or a fraction is not
  modelled.
- `structuredClone` is implicit: documents are values, so aliasing between
  the draft and the old state cannot arise.
- TaskActions.FinalizeTask, TaskActions.RecycleTask, TaskActions.RestoreTask
  and TaskActions.PermanentDeleteTask: `finalizeTask`, `recycleTask`,
  `restoreTask` and `permanentDeleteTask` edit the cloned draft in place,
  with `splice`, `push`, field assignment and `delete`, and return it. The
  model renders each as a value update that builds the edited agenda whole.
  The order of the in-place steps, and aliasing between objects inside the
  draft, are not captured.
- Update patches (`updateTask`, `updateNote`, `updateSnippet`) carry the
  entity's own fields only. Arbitrary extra keys spread into an entity are
  not modelled.
- Metric keys are plain map keys. The `__proto__` key's special behaviour
  in a JavaScript object is not modelled.
- The diagnostic messages the validator collects and logs are not
  modelled. Only the three reasons a document is rejected are kept.
- NoteActions.MoveItem: when the ancestor walk never ends, the source never
  returns. The model returns `None` for that case instead of diverging.
