/** The persisted document: workspaces holding agendas holding notes, tasks,
    Kanban columns, journals, snippets, archived tasks and metrics. Fields that
    the actions may fill with any string (a task's priority, a note's type)
    are strings here; the validator is what confines them to their allowed
    values. */
module Schema {
  import opened Wrappers
  import opened Json

  const SchemaVersion: int := 1

  /** A note or a folder; `kind` is the source's `type` field. Folders carry no content. */
  datatype Note = Note(
    id: string,
    kind: string,
    title: string,
    content: Option<string>,
    parentId: Option<string>,
    createdAt: string,
    modifiedAt: string)

  datatype Task = Task(
    id: string,
    title: string,
    description: string,
    priority: string,
    dueDate: Option<string>,
    columnId: string,
    createdAt: string,
    isFinalized: bool,
    isDeleted: bool,
    finalizedAt: Option<int>,
    deletedAt: Option<int>)

  /** A Kanban lane: its id and the ordered ids of the tasks in it. */
  datatype Column = Column(id: string, title: string, taskIds: seq<string>)

  datatype JournalEntry = JournalEntry(id: string, text: string, createdAt: string)

  datatype Journal = Journal(id: string, name: string, entries: seq<JournalEntry>)

  datatype Snippet = Snippet(
    id: string,
    title: string,
    code: string,
    language: string,
    description: string,
    tags: seq<string>,
    createdAt: string)

  /** An agenda. `journals` is optional because an agenda built by
      `createAgenda` has none until a journal action runs; `legacyJournal` is
      the deprecated bare `journal` array of entries. Metric values are kept as
      JSON because `updateMetric` stores whatever it is given. */
  datatype Agenda = Agenda(
    id: string,
    name: string,
    createdAt: string,
    notes: seq<Note>,
    tasks: seq<Task>,
    columns: seq<Column>,
    journals: Option<seq<Journal>>,
    legacyJournal: Option<seq<JournalEntry>>,
    snippets: seq<Snippet>,
    finalizedTasks: seq<Task>,
    deletedTasks: seq<Task>,
    metrics: map<string, Json>)

  datatype Workspace = Workspace(
    id: string,
    name: string,
    createdAt: string,
    modifiedAt: string,
    agendas: seq<Agenda>)

  datatype Document = Document(
    schemaVersion: int,
    workspaces: seq<Workspace>,
    activeWorkspaceId: Option<string>,
    activeAgendaId: Option<string>)

  /** `getInitialState`: the current schema version, no workspaces, nothing selected. */
  function InitialState(): (d: Document)
    ensures d.schemaVersion == SchemaVersion && d.workspaces == []
    ensures d.activeWorkspaceId.None? && d.activeAgendaId.None?
  {
    Document(SchemaVersion, [], None, None)
  }

  /** The ids of a sequence of tasks, in order. */
  function TaskIds(ts: seq<Task>): seq<string> {
    seq(|ts|, i requires 0 <= i < |ts| => ts[i].id)
  }

  /** Whether some column of the sequence has the given id. */
  predicate HasColumn(cols: seq<Column>, id: string) {
    exists i :: 0 <= i < |cols| && cols[i].id == id
  }
}
