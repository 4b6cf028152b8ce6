/** The deep validator of `src/lib/persistence.js`, as functions: each entity
    validator repairs every field and rejects only an entity without a valid
    id; collection fields keep the accepted elements in input order; agendas
    get the default Kanban columns and have their legacy journal migrated; the
    document's active ids are repaired last. */
module Validate {
  import opened Wrappers
  import opened Json
  import opened Text
  import opened Seqs
  import opened Schema

  /** What the validator reads from outside: the current time as an ISO
      string, used for every unparseable date, and whether `Date.parse`
      accepts a string. */
  datatype Env = Env(now: string, isDate: string -> bool)

  /** `isValidDate`. */
  predicate IsValidDate(env: Env, v: Option<Json>) {
    IsStr(v) && env.isDate(v.value.s)
  }

  /** `isValidDate(v) ? v : new Date().toISOString()`. */
  function DateOr(env: Env, v: Option<Json>): (r: string)
    ensures IsValidDate(env, v) ==> r == v.value.s
    ensures !IsValidDate(env, v) ==> r == env.now
  {
    if IsValidDate(env, v) then v.value.s else env.now
  }

  const Priorities: seq<string> := ["low", "medium", "high"]
  const TaskColumns: seq<string> := ["backlog", "todo", "doing", "done"]
  const DefaultColumnIds: seq<string> := ["todo", "doing", "done"]
  const MetricKeys: seq<string> := ["focusDays", "incidentsResolved", "deepWorkDays"]

  /** `allowed.includes(v) ? v : fallback` for a list of strings. */
  function OneOf(v: Option<Json>, allowed: seq<string>, fallback: string): (r: string)
    requires fallback in allowed
    ensures r in allowed
    ensures r == (if IsStr(v) && v.value.s in allowed then v.value.s else fallback)
  {
    if IsStr(v) && v.value.s in allowed then v.value.s else fallback
  }

  /** The id of an entity that has a valid one. */
  function IdOf(j: Json): string
    requires IsValidId(Get(j, "id"))
  {
    Get(j, "id").value.s
  }

  /** `validateNote`. */
  function ValidateNote(j: Json, env: Env): (r: Option<Note>)
    ensures r.Some? <==> IsObject(j) && IsValidId(Get(j, "id"))
    ensures r.Some? ==> r.value.id == IdOf(j)
    ensures r.Some? ==> r.value.kind in {"note", "folder"}
    ensures r.Some? ==> (r.value.kind == "folder" <==> Get(j, "type") == Some(JStr("folder")))
    ensures r.Some? ==> (r.value.content.None? <==> r.value.kind == "folder")
    ensures r.Some? ==> |r.value.title| <= 500
    ensures r.Some? && r.value.content.Some? ==> |r.value.content.value| <= 100000
    ensures r.Some? ==> (r.value.parentId.Some? <==> IsStr(Get(j, "parentId")))
  {
    if !IsObject(j) || !IsValidId(Get(j, "id")) then None
    else
      var folder := Get(j, "type") == Some(JStr("folder"));
      Some(Note(
        id := IdOf(j),
        kind := if folder then "folder" else "note",
        title := SanitizeString(OrElse(Get(j, "title"), JStr("")), 500),
        content := if folder then None else Some(SanitizeString(OrElse(Get(j, "content"), JStr("")), 100000)),
        parentId := NullOrString(Get(j, "parentId")),
        createdAt := DateOr(env, Get(j, "createdAt")),
        modifiedAt := DateOr(env, Get(j, "modifiedAt"))))
  }

  /** The due date rule: `null`, an empty string or a parseable date is kept,
      anything else becomes `null`. */
  function DueDate(env: Env, v: Option<Json>): (r: Option<string>)
    ensures r.Some? <==> IsStr(v) && (v.value.s == "" || env.isDate(v.value.s))
    ensures r.Some? ==> r.value == v.value.s
  {
    if IsStr(v) && (v.value.s == "" || env.isDate(v.value.s)) then Some(v.value.s) else None
  }

  /** `isNullOrNumber(v) ? v : null`. */
  function NullOrNumber(v: Option<Json>): (r: Option<int>)
    ensures r.Some? <==> IsNum(v)
  {
    if IsNum(v) then Some(v.value.n) else None
  }

  /** `isBoolean(v) ? v : false`. */
  function BoolOrFalse(v: Option<Json>): (r: bool)
    ensures r <==> IsBool(v) && v.value.b
  {
    IsBool(v) && v.value.b
  }

  /** `validateTask`. */
  function ValidateTask(j: Json, env: Env): (r: Option<Task>)
    ensures r.Some? <==> IsObject(j) && IsValidId(Get(j, "id"))
    ensures r.Some? ==> r.value.id == IdOf(j)
    ensures r.Some? ==> r.value.priority in Priorities && r.value.columnId in TaskColumns
    ensures r.Some? ==> (r.value.priority == "medium" || Get(j, "priority") == Some(JStr(r.value.priority)))
    ensures r.Some? && IsStr(Get(j, "priority")) && Get(j, "priority").value.s in Priorities
            ==> r.value.priority == Get(j, "priority").value.s
    ensures r.Some? ==> (r.value.columnId == "backlog" || Get(j, "columnId") == Some(JStr(r.value.columnId)))
    ensures r.Some? && IsStr(Get(j, "columnId")) && Get(j, "columnId").value.s in TaskColumns
            ==> r.value.columnId == Get(j, "columnId").value.s
    ensures r.Some? ==> (r.value.isFinalized <==> Get(j, "isFinalized") == Some(JBool(true)))
    ensures r.Some? ==> (r.value.isDeleted <==> Get(j, "isDeleted") == Some(JBool(true)))
    ensures r.Some? ==> |r.value.title| <= 500 && |r.value.description| <= 10000
  {
    if !IsObject(j) || !IsValidId(Get(j, "id")) then None
    else
      Some(Task(
        id := IdOf(j),
        title := SanitizeString(OrElse(Get(j, "title"), JStr("")), 500),
        description := SanitizeString(OrElse(Get(j, "description"), JStr("")), 10000),
        priority := OneOf(Get(j, "priority"), Priorities, "medium"),
        dueDate := DueDate(env, Get(j, "dueDate")),
        columnId := OneOf(Get(j, "columnId"), TaskColumns, "backlog"),
        createdAt := DateOr(env, Get(j, "createdAt")),
        isFinalized := BoolOrFalse(Get(j, "isFinalized")),
        isDeleted := BoolOrFalse(Get(j, "isDeleted")),
        finalizedAt := NullOrNumber(Get(j, "finalizedAt")),
        deletedAt := NullOrNumber(Get(j, "deletedAt"))))
  }

  /** `validateJournalEntry`. */
  function ValidateJournalEntry(j: Json, env: Env): (r: Option<JournalEntry>)
    ensures r.Some? <==> IsObject(j) && IsValidId(Get(j, "id"))
    ensures r.Some? ==> r.value.id == IdOf(j) && |r.value.text| <= 50000
  {
    if !IsObject(j) || !IsValidId(Get(j, "id")) then None
    else
      Some(JournalEntry(
        id := IdOf(j),
        text := SanitizeString(OrElse(Get(j, "text"), JStr("")), 50000),
        createdAt := DateOr(env, Get(j, "createdAt"))))
  }

  /** The accepted entries of a JSON array of journal entries. */
  function ValidEntries(items: seq<Json>, env: Env): seq<JournalEntry> {
    KeepSome(items, e => ValidateJournalEntry(e, env))
  }

  /** `validateJournal`. */
  function ValidatedJournal(j: Json, env: Env): Option<Journal> {
    if !IsObject(j) || !IsValidId(Get(j, "id")) then None
    else
      Some(Journal(
        id := IdOf(j),
        name := SanitizeString(OrElse(Get(j, "name"), JStr("Journal")), 200),
        entries := ValidEntries(Items(Get(j, "entries")), env)))
  }

  /** A tag is kept, trimmed, when it is a string of 1 to 49 characters. */
  function TagOf(t: Json): (r: Option<string>)
    ensures r.Some? <==> t.JStr? && 0 < |t.s| < 50
    ensures r.Some? ==> |r.value| < 50
  {
    if t.JStr? && 0 < |t.s| < 50 then Some(SanitizeString(t, 50)) else None
  }

  /** `snippet.code`, which is cut but never trimmed. */
  function CodeOf(v: Option<Json>): (r: string)
    ensures IsStr(v) ==> r <= v.value.s && |r| == Min(100000, |v.value.s|)
    ensures !IsStr(v) ==> r == ""
  {
    if IsStr(v) then v.value.s[..Min(100000, |v.value.s|)] else ""
  }

  /** `validateSnippet`. */
  function ValidatedSnippet(j: Json, env: Env): Option<Snippet> {
    if !IsObject(j) || !IsValidId(Get(j, "id")) then None
    else
      Some(Snippet(
        id := IdOf(j),
        title := SanitizeString(OrElse(Get(j, "title"), JStr("")), 500),
        code := CodeOf(Get(j, "code")),
        language := SanitizeString(OrElse(Get(j, "language"), JStr("text")), 50),
        description := SanitizeString(OrElse(Get(j, "description"), JStr("")), 2000),
        tags := KeepSome(Items(Get(j, "tags")), TagOf),
        createdAt := DateOr(env, Get(j, "createdAt"))))
  }

  /** A column's task id is kept when it is a valid id. */
  function TaskIdOf(v: Json): (r: Option<string>)
    ensures r.Some? <==> IsValidId(Some(v))
    ensures r.Some? ==> r.value == v.s
  {
    if IsValidId(Some(v)) then Some(v.s) else None
  }

  /** `validateColumn`. */
  function ValidatedColumn(j: Json, env: Env): Option<Column> {
    if !IsObject(j) || !IsValidId(Get(j, "id")) then None
    else
      Some(Column(
        id := IdOf(j),
        title := SanitizeString(OrElse(Get(j, "title"), JStr("")), 100),
        taskIds := KeepSome(Items(Get(j, "taskIds")), TaskIdOf)))
  }

  function Max0(n: int): nat {
    if n < 0 then 0 else n
  }

  /** `validateMetrics`: the allowed keys whose values are numbers, clamped at zero. */
  function ValidatedMetrics(v: Option<Json>): map<string, Json> {
    if !(v.Some? && IsObject(v.value)) then map[]
    else map k | k in MetricKeys && IsNum(Get(v.value, k)) :: JNum(Max0(Get(v.value, k).value.n))
  }

  /** `colId.toUpperCase()` for the ASCII ids of the default columns. */
  function AsciiUpper(s: string): (r: string)
    ensures |r| == |s|
  {
    if |s| == 0 then []
    else [if 'a' <= s[0] <= 'z' then (s[0] as int - 32) as char else s[0]] + AsciiUpper(s[1..])
  }

  /** Each lower-case ASCII letter is replaced by its capital; every other
      character is kept. */
  lemma {:induction false} AsciiUpperChars(s: string)
    ensures forall i :: 0 <= i < |s| ==>
      AsciiUpper(s)[i] == if 'a' <= s[i] <= 'z' then (s[i] as int - 32) as char else s[i]
  {
    if |s| > 0 {
      AsciiUpperChars(s[1..]);
      assert forall i :: 1 <= i < |s| ==> AsciiUpper(s)[i] == AsciiUpper(s[1..])[i - 1];
    }
  }

  /** The titles of the default columns are their ids in capitals. */
  lemma DefaultColumnTitles()
    ensures AsciiUpper("todo") == "TODO"
    ensures AsciiUpper("doing") == "DOING"
    ensures AsciiUpper("done") == "DONE"
  {
  }

  /** The column the validator appends for a missing default id. */
  function DefaultColumn(id: string): Column {
    Column(id, AsciiUpper(id), [])
  }

  /** The default-columns loop: for each id in turn, append a fresh empty
      column unless one with that id is already there. */
  function AddDefaults(cols: seq<Column>, ids: seq<string>): seq<Column>
    decreases |ids|
  {
    if |ids| == 0 then cols
    else AddDefaults(if HasColumn(cols, ids[0]) then cols else cols + [DefaultColumn(ids[0])], ids[1..])
  }

  /** The journals of a validated agenda: a `journals` array is validated; when
      there is none, a legacy `journal` array becomes the single journal
      `default` named "Main Journal"; otherwise there are none. */
  function ValidatedJournals(j: Json, env: Env): seq<Journal> {
    if IsArr(Get(j, "journals")) then KeepSome(Items(Get(j, "journals")), x => ValidatedJournal(x, env))
    else if IsArr(Get(j, "journal")) then [Journal("default", "Main Journal", ValidEntries(Items(Get(j, "journal")), env))]
    else []
  }

  /** `validateAgenda`. */
  function ValidatedAgenda(j: Json, env: Env): Option<Agenda> {
    if !IsObject(j) || !IsValidId(Get(j, "id")) then None
    else
      Some(Agenda(
        id := IdOf(j),
        name := SanitizeString(OrElse(Get(j, "name"), JStr("Untitled Agenda")), 200),
        createdAt := DateOr(env, Get(j, "createdAt")),
        notes := KeepSome(Items(Get(j, "notes")), x => ValidateNote(x, env)),
        tasks := KeepSome(Items(Get(j, "tasks")), x => ValidateTask(x, env)),
        columns := AddDefaults(KeepSome(Items(Get(j, "columns")), x => ValidatedColumn(x, env)), DefaultColumnIds),
        journals := Some(ValidatedJournals(j, env)),
        legacyJournal := None,
        snippets := KeepSome(Items(Get(j, "snippets")), x => ValidatedSnippet(x, env)),
        finalizedTasks := KeepSome(Items(Get(j, "finalizedTasks")), x => ValidateTask(x, env)),
        deletedTasks := KeepSome(Items(Get(j, "deletedTasks")), x => ValidateTask(x, env)),
        metrics := ValidatedMetrics(Get(j, "metrics"))))
  }

  /** `validateWorkspace`. */
  function ValidatedWorkspace(j: Json, env: Env): Option<Workspace> {
    if !IsObject(j) || !IsValidId(Get(j, "id")) then None
    else
      Some(Workspace(
        id := IdOf(j),
        name := SanitizeString(OrElse(Get(j, "name"), JStr("Untitled Workspace")), 200),
        createdAt := DateOr(env, Get(j, "createdAt")),
        modifiedAt := DateOr(env, Get(j, "modifiedAt")),
        agendas := KeepSome(Items(Get(j, "agendas")), x => ValidatedAgenda(x, env))))
  }

  /** Why a document is refused as a whole. */
  datatype Problem = NotAnObject | VersionMismatch | WorkspacesNotArray

  datatype Validation = Valid(doc: Document) | Invalid(problem: Problem)

  /** The three checks that reject a document outright, in the source's order.
      An array passes the first (`typeof [] === 'object'`) and fails the second. */
  function Precheck(j: Json): Option<Problem> {
    if !(j.JObj? || j.JArr?) then Some(NotAnObject)
    else if Get(j, "schemaVersion") != Some(JNum(SchemaVersion)) then Some(VersionMismatch)
    else if !IsArr(Get(j, "workspaces")) then Some(WorkspacesNotArray)
    else None
  }

  /** The first workspace with the given id (`workspaces.find`). */
  function FindWorkspace(wss: seq<Workspace>, id: string): Option<Workspace> {
    Find(wss, (w: Workspace) => w.id == id)
  }

  /** Whether an agenda with the given id is in the agendas. */
  function HasAgenda(ags: seq<Agenda>, id: string): bool {
    Find(ags, (a: Agenda) => a.id == id).Some?
  }

  /** The active ids after the two repairs: a truthy `activeWorkspaceId` that
      names no workspace clears both ids; then a truthy `activeAgendaId` that
      names no agenda of the active workspace clears itself. */
  function RepairActive(wss: seq<Workspace>, aw: Option<string>, aa: Option<string>): (Option<string>, Option<string>) {
    var (aw1, aa1) := if TruthyStr(aw) && FindWorkspace(wss, aw.value).None? then (None, None) else (aw, aa);
    if TruthyStr(aa1) && TruthyStr(aw1) then
      match FindWorkspace(wss, aw1.value)
      case Some(ws) => if HasAgenda(ws.agendas, aa1.value) then (aw1, aa1) else (aw1, None)
      case None => (aw1, aa1)
    else (aw1, aa1)
  }

  /** `deepValidateState`. */
  function DeepValidated(j: Json, env: Env): Validation {
    match Precheck(j)
    case Some(p) => Invalid(p)
    case None =>
      var wss := KeepSome(Items(Get(j, "workspaces")), x => ValidatedWorkspace(x, env));
      var (aw, aa) := RepairActive(wss, NullOrString(Get(j, "activeWorkspaceId")), NullOrString(Get(j, "activeAgendaId")));
      Valid(Document(SchemaVersion, wss, aw, aa))
  }

  /** What the storage slot holds: nothing (missing or empty text), text that
      is not JSON, or a parsed value. */
  datatype Stored = Absent | Unparsable | Parsed(value: Json)

  /** `loadState`: the validated document, or nothing when storage is empty,
      unparsable or fails validation. */
  function LoadState(stored: Stored, env: Env): (r: Option<Document>)
    ensures stored.Parsed? && DeepValidated(stored.value, env).Valid? ==> r == Some(DeepValidated(stored.value, env).doc)
    ensures !(stored.Parsed? && DeepValidated(stored.value, env).Valid?) ==> r.None?
  {
    match stored
    case Parsed(v) => (match DeepValidated(v, env) case Valid(d) => Some(d) case Invalid(_) => None)
    case _ => None
  }

  datatype ImportError = NotJson | InvalidBackup(problem: Problem)

  datatype Result<T> = Ok(value: T) | Err(error: ImportError)

  /** `parseImportData` from the parse result on (`None` is a parse failure). */
  function ParseImportData(parsed: Option<Json>, env: Env): (r: Result<Document>)
    ensures parsed.None? ==> r == Err(NotJson)
    ensures parsed.Some? && Precheck(parsed.value).Some? ==> r == Err(InvalidBackup(Precheck(parsed.value).value))
    ensures parsed.Some? && Precheck(parsed.value).None? ==> r.Ok? && r.value.schemaVersion == SchemaVersion
    ensures parsed.Some? && DeepValidated(parsed.value, env).Valid? ==> r == Ok(DeepValidated(parsed.value, env).doc)
  {
    match parsed
    case None => Err(NotJson)
    case Some(v) =>
      match DeepValidated(v, env)
      case Valid(d) => Ok(d)
      case Invalid(p) => Err(InvalidBackup(p))
  }
}
