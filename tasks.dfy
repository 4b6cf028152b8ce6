/** The Kanban task actions of `src/lib/actions/tasks.js`. Each action is split
    into the edit it makes to one agenda (`…In`) and the document-level
    mutator handed to `store.update`.

    A task lives in one of three lists: `tasks` (on the board),
    `finalizedTasks` and `deletedTasks` (the recycle bin). Finalizing,
    recycling and restoring move a task between these lists without creating
    or losing one. */
module TaskActions {
  import opened Wrappers
  import opened Seqs
  import opened Text
  import opened Schema
  import opened StoreModel
  import opened Edit

  /** The fields of `taskData` that `createTask` reads. */
  datatype TaskData = TaskData(
    title: Option<string>,
    description: Option<string>,
    priority: Option<string>,
    dueDate: Option<string>)

  /** The fields an `updateTask` call may set, each merged over the task when present. */
  datatype TaskUpdate = TaskUpdate(
    id: Option<string>,
    title: Option<string>,
    description: Option<string>,
    priority: Option<string>,
    dueDate: Option<Option<string>>,
    columnId: Option<string>,
    createdAt: Option<string>,
    isFinalized: Option<bool>,
    isDeleted: Option<bool>,
    finalizedAt: Option<Option<int>>,
    deletedAt: Option<Option<int>>)

  /** The ids held by the three task lists of an agenda, with multiplicity. */
  ghost function Holdings(a: Agenda): multiset<string> {
    multiset(TaskIds(a.tasks)) + multiset(TaskIds(a.finalizedTasks)) + multiset(TaskIds(a.deletedTasks))
  }

  /** `ids.filter(id => id !== taskId)`. */
  function Without(ids: seq<string>, taskId: string): (r: seq<string>)
    ensures taskId !in r
    ensures forall x :: x in ids && x != taskId ==> x in r
    ensures forall x :: x in r ==> x in ids
    ensures KeptInOrder(r, ids, (x: string) => x != taskId)
  {
    var keep := (x: string) => x != taskId;
    FilterKeeps(ids, keep);
    Filter(ids, keep)
  }

  /** Removes the task from the first column with the given id, if any: that
      column loses the id and every other column stays as it was. */
  function ClearFirst(cols: seq<Column>, colId: string, taskId: string): (r: seq<Column>)
    ensures |r| == |cols|
    ensures forall k :: 0 <= k < |cols| ==>
      if cols[k].id == colId && (forall j :: 0 <= j < k ==> cols[j].id != colId)
      then r[k] == cols[k].(taskIds := Without(cols[k].taskIds, taskId))
      else r[k] == cols[k]
  {
    match FindIndex(cols, (c: Column) => c.id == colId)
    case None => cols
    case Some(k) => cols[k := cols[k].(taskIds := Without(cols[k].taskIds, taskId))]
  }

  // ----- createTask -----

  /** The task `createTask` builds: `||`-defaults for description, priority and
      due date, column `backlog`, and no flags or archive timestamps. */
  function NewTask(title: string, data: TaskData, id: string, iso: string): (t: Task)
    ensures t.id == id && t.title == title && t.columnId == "backlog" && t.createdAt == iso
    ensures t.description == (if TruthyStr(data.description) then data.description.value else "")
    ensures t.priority == (if TruthyStr(data.priority) then data.priority.value else "medium")
    ensures t.dueDate.Some? <==> TruthyStr(data.dueDate)
    ensures t.dueDate.Some? ==> t.dueDate == data.dueDate
    ensures !t.isFinalized && !t.isDeleted && t.finalizedAt.None? && t.deletedAt.None?
  {
    Task(id, title, StrOr(data.description, ""), StrOr(data.priority, "medium"),
      if TruthyStr(data.dueDate) then data.dueDate else None,
      "backlog", iso, false, false, None, None)
  }

  /** The columns with a `backlog` column put first when none exists. */
  function WithBacklog(cols: seq<Column>): (r: seq<Column>)
    ensures HasColumn(r, "backlog")
    ensures HasColumn(cols, "backlog") ==> r == cols
    ensures !HasColumn(cols, "backlog") ==> r == [Column("backlog", "Backlog", [])] + cols
  {
    if HasColumn(cols, "backlog") then cols
    else
      var r := [Column("backlog", "Backlog", [])] + cols;
      assert r[0].id == "backlog";
      r
  }

  /** `columns.map(col => col.id === 'backlog' ? append id : col)`. */
  function AppendToBacklog(cols: seq<Column>, id: string): seq<Column> {
    seq(|cols|, k requires 0 <= k < |cols| =>
      if cols[k].id == "backlog" then cols[k].(taskIds := cols[k].taskIds + [id]) else cols[k])
  }

  /** What `createTask` does to the agenda. */
  function AddTask(a: Agenda, t: Task): Agenda {
    a.(tasks := a.tasks + [t], columns := AppendToBacklog(WithBacklog(a.columns), t.id))
  }

  /** The new task ends the task list. Some backlog column exists and every
      backlog column ends with the new id. The other columns and every other
      field stay as they were. */
  lemma AddTaskSpec(a: Agenda, t: Task)
    ensures var r := AddTask(a, t);
      && r.tasks == a.tasks + [t]
      && r.(tasks := a.tasks, columns := a.columns) == a
      && HasColumn(r.columns, "backlog")
      && |r.columns| == |a.columns| + (if HasColumn(a.columns, "backlog") then 0 else 1)
      && |r.columns| == |WithBacklog(a.columns)|
      && (forall k :: 0 <= k < |r.columns| && r.columns[k].id == "backlog" ==>
            && r.columns[k].taskIds == WithBacklog(a.columns)[k].taskIds + [t.id]
            && r.columns[k].taskIds[|r.columns[k].taskIds| - 1] == t.id)
      && (forall k :: 0 <= k < |r.columns| && r.columns[k].id != "backlog" ==> r.columns[k] == WithBacklog(a.columns)[k])
      && (forall c :: c in a.columns && c.id != "backlog" ==> c in r.columns)
  {
    var w := WithBacklog(a.columns);
    var r := AddTask(a, t);
    assert r.columns == AppendToBacklog(w, t.id);
    forall c | c in a.columns && c.id != "backlog"
      ensures c in r.columns
    {
      var k :| 0 <= k < |a.columns| && a.columns[k] == c;
      var k' := if HasColumn(a.columns, "backlog") then k else k + 1;
      assert w[k'] == c;
      assert r.columns[k'] == c;
    }
    var k0 :| 0 <= k0 < |w| && w[k0].id == "backlog";
    assert r.columns[k0].id == "backlog";
  }

  /** `createTask`: a falsy or blank title issues no update. Otherwise it is
      the mapping action that adds the task, titled with the trimmed title. */
  function CreateTask(d: Document, agendaId: string, data: TaskData, id: string, t: Time): (r: Option<Step>)
    ensures r.None? <==> Refuses(data.title)
    ensures r.Some? ==> MapsFocus(d, Commit(r.value), agendaId,
      a => AddTask(a, NewTask(Trim(data.title.value), data, id, t.iso)))
  {
    if Refuses(data.title) then None
    else
      var f := (a: Agenda) => AddTask(a, NewTask(Trim(data.title.value), data, id, t.iso));
      InActiveAgendaEffect(d, agendaId, f, t.iso);
      Some(InActiveAgenda(d, agendaId, f, t.iso))
  }

  // ----- moveTask -----

  /** The position `splice` inserts at: `newIndex` when it lies in `0..len`, else the end. */
  function InsertIndex(newIndex: int, len: nat): (r: nat)
    ensures r <= len
    ensures 0 <= newIndex <= len ==> r == newIndex
    ensures !(0 <= newIndex <= len) ==> r == len
  {
    if 0 <= newIndex <= len then newIndex else len
  }

  /** The column a task is taken out of: its own, or `backlog` when that is empty. */
  function SourceColumn(t: Task): string {
    if t.columnId != "" then t.columnId else "backlog"
  }

  /** `tasks.map(t => t.id === taskId ? moved : t)`. */
  function Retarget(ts: seq<Task>, taskId: string, moved: Task): (r: seq<Task>)
    requires moved.id == taskId
    ensures |r| == |ts| && TaskIds(r) == TaskIds(ts)
    ensures forall i :: 0 <= i < |ts| ==> r[i] == if ts[i].id == taskId then moved else ts[i]
  {
    var r := seq(|ts|, i requires 0 <= i < |ts| => if ts[i].id == taskId then moved else ts[i]);
    assert TaskIds(r) == TaskIds(ts);
    r
  }

  /** Removes the id from every column with the given column id. */
  function RemoveFromColumns(cols: seq<Column>, from: string, taskId: string): (r: seq<Column>)
    ensures |r| == |cols|
    ensures forall k :: 0 <= k < |cols| ==>
      && r[k].id == cols[k].id && r[k].title == cols[k].title
      && r[k].taskIds == if cols[k].id == from then Without(cols[k].taskIds, taskId) else cols[k].taskIds
  {
    seq(|cols|, k requires 0 <= k < |cols| =>
      if cols[k].id == from then cols[k].(taskIds := Without(cols[k].taskIds, taskId)) else cols[k])
  }

  /** Inserts the id into the first column with the target id, at the
      requested position or at the end. */
  function InsertIntoTarget(cols: seq<Column>, target: string, taskId: string, newIndex: int): (r: seq<Column>)
    ensures |r| == |cols| && forall k :: 0 <= k < |cols| ==> r[k].id == cols[k].id
    ensures FindIndex(cols, (c: Column) => c.id == target).None? ==> r == cols
    ensures FindIndex(cols, (c: Column) => c.id == target).Some? ==>
      var k := FindIndex(cols, (c: Column) => c.id == target).value;
      && r[k].taskIds == InsertAt(cols[k].taskIds, InsertIndex(newIndex, |cols[k].taskIds|), taskId)
      && r[k].title == cols[k].title
      && forall j :: 0 <= j < |cols| && j != k ==> r[j] == cols[j]
  {
    match FindIndex(cols, (c: Column) => c.id == target)
    case None => cols
    case Some(k) =>
      var ids := cols[k].taskIds;
      cols[k := cols[k].(taskIds := InsertAt(ids, InsertIndex(newIndex, |ids|), taskId))]
  }

  /** What `moveTask` does to the agenda. An unknown task changes nothing.
      Otherwise: it ensures a backlog column, removes the id from every column
      named by the task's own column, and gives every task with the id a copy
      of the first one with the target column. Then it inserts the id into
      the first target column, if there is one. */
  function MoveTaskIn(a: Agenda, taskId: string, target: string, newIndex: int): Agenda {
    match Find(a.tasks, (t: Task) => t.id == taskId)
    case None => a
    case Some(task) =>
      var cleared := RemoveFromColumns(WithBacklog(a.columns), SourceColumn(task), taskId);
      a.(tasks := Retarget(a.tasks, taskId, task.(columnId := target)),
         columns := InsertIntoTarget(cleared, target, taskId, newIndex))
  }

  /** An unknown task changes nothing. A known task keeps the task ids and
      their order; every other task is unchanged, and every task with the id
      becomes a copy of the first one naming the target column. */
  lemma MoveTaskTasks(a: Agenda, taskId: string, target: string, newIndex: int)
    ensures var r := MoveTaskIn(a, taskId, target, newIndex);
      && (taskId !in TaskIds(a.tasks) ==> r == a)
      && (taskId in TaskIds(a.tasks) ==>
            && r.(tasks := a.tasks, columns := a.columns) == a
            && TaskIds(r.tasks) == TaskIds(a.tasks)
            && (forall i :: 0 <= i < |r.tasks| && r.tasks[i].id == taskId ==> r.tasks[i].columnId == target)
            && var first := Find(a.tasks, (t: Task) => t.id == taskId).value;
               forall i :: 0 <= i < |a.tasks| ==>
                 r.tasks[i] == if a.tasks[i].id == taskId then first.(columnId := target) else a.tasks[i])
  {
    if taskId !in TaskIds(a.tasks) {
      forall i | 0 <= i < |a.tasks|
        ensures a.tasks[i].id != taskId
      {
        assert TaskIds(a.tasks)[i] == a.tasks[i].id;
      }
    } else {
      var task := Find(a.tasks, (t: Task) => t.id == taskId).value;
      assert task.id == taskId;
    }
  }

  /** For a known task the column ids become the backlog-completed ones. The
      first target column is its old ids, less the task's id when it is also
      the source, with the id inserted at the requested position, or at its
      end. The source column, if it is not the target, no longer holds the id.
      Columns that are neither keep their task ids. */
  lemma MoveTaskColumns(a: Agenda, taskId: string, target: string, newIndex: int)
    requires taskId in TaskIds(a.tasks)
    ensures var r := MoveTaskIn(a, taskId, target, newIndex);
      var cols := WithBacklog(a.columns);
      var from := SourceColumn(Find(a.tasks, (t: Task) => t.id == taskId).value);
      && |r.columns| == |cols|
      && (forall k :: 0 <= k < |cols| ==> r.columns[k].id == cols[k].id)
      && (forall k :: 0 <= k < |cols| && cols[k].id != from && cols[k].id != target ==> r.columns[k].taskIds == cols[k].taskIds)
      && (forall k :: 0 <= k < |cols| && cols[k].id == from && from != target ==> taskId !in r.columns[k].taskIds)
      && (HasColumn(cols, target) ==>
            var k := FindIndex(cols, (c: Column) => c.id == target).value;
            var ids := r.columns[k].taskIds;
            var before := if from == target then Without(cols[k].taskIds, taskId) else cols[k].taskIds;
            && ids == InsertAt(before, InsertIndex(newIndex, |before|), taskId)
            && |ids| > 0 && ids[InsertIndex(newIndex, |ids| - 1)] == taskId)
  {
    assert exists i :: 0 <= i < |a.tasks| && a.tasks[i].id == taskId by {
      var i :| 0 <= i < |a.tasks| && TaskIds(a.tasks)[i] == taskId;
      assert a.tasks[i].id == taskId;
    }
    var task := Find(a.tasks, (t: Task) => t.id == taskId).value;
    var cols := WithBacklog(a.columns);
    assert MoveTaskIn(a, taskId, target, newIndex).columns
      == InsertIntoTarget(RemoveFromColumns(cols, SourceColumn(task), taskId), target, taskId, newIndex);
    ClearThenInsert(cols, SourceColumn(task), target, taskId, newIndex);
  }

  /** The column half of `moveTask`: clearing the source columns, then
      inserting into the first target column. */
  lemma ClearThenInsert(cols: seq<Column>, from: string, target: string, taskId: string, newIndex: int)
    ensures var r := InsertIntoTarget(RemoveFromColumns(cols, from, taskId), target, taskId, newIndex);
      && |r| == |cols|
      && (forall k :: 0 <= k < |cols| ==> r[k].id == cols[k].id)
      && (forall k :: 0 <= k < |cols| && cols[k].id != from && cols[k].id != target ==> r[k].taskIds == cols[k].taskIds)
      && (forall k :: 0 <= k < |cols| && cols[k].id == from && from != target ==> taskId !in r[k].taskIds)
      && (HasColumn(cols, target) ==>
            var k := FindIndex(cols, (c: Column) => c.id == target).value;
            var ids := r[k].taskIds;
            var before := if from == target then Without(cols[k].taskIds, taskId) else cols[k].taskIds;
            && ids == InsertAt(before, InsertIndex(newIndex, |before|), taskId)
            && |ids| > 0 && ids[InsertIndex(newIndex, |ids| - 1)] == taskId)
  {
    var isTarget := (c: Column) => c.id == target;
    var cleared := RemoveFromColumns(cols, from, taskId);
    var r := InsertIntoTarget(cleared, target, taskId, newIndex);
    FindIndexSame(cleared, isTarget, cols, isTarget);
    match FindIndex(cols, isTarget)
    case None =>
      assert r == cleared;
    case Some(k) =>
      assert forall j :: 0 <= j < |cols| && j != k ==> r[j] == cleared[j];
      assert forall j :: 0 <= j < |cols| && cols[j].id != target ==> j != k;
  }

  /** `moveTask` as handed to `store.update`. */
  function MoveTask(d: Document, agendaId: string, taskId: string, target: string, newIndex: int, t: Time): (r: Step)
    ensures MapsFocus(d, Commit(r), agendaId, a => MoveTaskIn(a, taskId, target, newIndex))
  {
    var f := (a: Agenda) => MoveTaskIn(a, taskId, target, newIndex);
    InActiveAgendaEffect(d, agendaId, f, t.iso);
    InActiveAgenda(d, agendaId, f, t.iso)
  }

  // ----- deleteTask -----

  /** What `deleteTask` does to the agenda: drops every task with the id and
      the id from every column. */
  function DeleteTaskIn(a: Agenda, taskId: string): Agenda {
    a.(tasks := Filter(a.tasks, (t: Task) => t.id != taskId),
       columns := seq(|a.columns|, k requires 0 <= k < |a.columns| =>
         a.columns[k].(taskIds := Without(a.columns[k].taskIds, taskId))))
  }

  /** No task and no column is left holding the id. Every other task stays
      on the board, and every column keeps its id, its title and the other
      ids, each in its original order, and gains none. */
  lemma DeleteTaskSpec(a: Agenda, taskId: string)
    ensures var r := DeleteTaskIn(a, taskId);
      && r.(tasks := a.tasks, columns := a.columns) == a
      && taskId !in TaskIds(r.tasks)
      && (forall t :: t in a.tasks && t.id != taskId ==> t in r.tasks)
      && (forall t :: t in r.tasks ==> t in a.tasks)
      && KeptInOrder(r.tasks, a.tasks, (t: Task) => t.id != taskId)
      && |r.columns| == |a.columns|
      && forall k :: 0 <= k < |a.columns| ==>
           && r.columns[k].id == a.columns[k].id && r.columns[k].title == a.columns[k].title
           && taskId !in r.columns[k].taskIds
           && (forall x :: x in a.columns[k].taskIds && x != taskId ==> x in r.columns[k].taskIds)
           && (forall x :: x in r.columns[k].taskIds ==> x in a.columns[k].taskIds)
           && KeptInOrder(r.columns[k].taskIds, a.columns[k].taskIds, (x: string) => x != taskId)
  {
    var r := DeleteTaskIn(a, taskId);
    assert KeptInOrder(r.tasks, a.tasks, (t: Task) => t.id != taskId) by {
      FilterInOrder(a.tasks, (t: Task) => t.id != taskId);
    }
    forall t | t in a.tasks && t.id != taskId
      ensures t in r.tasks
    {
      var i :| 0 <= i < |a.tasks| && a.tasks[i] == t;
    }
    forall t | t in r.tasks
      ensures t in a.tasks
    {
      var i :| 0 <= i < |r.tasks| && r.tasks[i] == t;
    }
  }

  /** `deleteTask` as handed to `store.update`. */
  function DeleteTask(d: Document, agendaId: string, taskId: string, t: Time): (r: Step)
    ensures MapsFocus(d, Commit(r), agendaId, a => DeleteTaskIn(a, taskId))
  {
    var f := (a: Agenda) => DeleteTaskIn(a, taskId);
    InActiveAgendaEffect(d, agendaId, f, t.iso);
    InActiveAgenda(d, agendaId, f, t.iso)
  }

  // ----- updateTask -----

  /** `{ ...t, ...updates }`. */
  function ApplyTaskUpdate(t: Task, u: TaskUpdate): Task {
    Task(u.id.GetOr(t.id), u.title.GetOr(t.title), u.description.GetOr(t.description),
      u.priority.GetOr(t.priority), u.dueDate.GetOr(t.dueDate), u.columnId.GetOr(t.columnId),
      u.createdAt.GetOr(t.createdAt), u.isFinalized.GetOr(t.isFinalized), u.isDeleted.GetOr(t.isDeleted),
      u.finalizedAt.GetOr(t.finalizedAt), u.deletedAt.GetOr(t.deletedAt))
  }

  const NoTaskUpdate := TaskUpdate(None, None, None, None, None, None, None, None, None, None, None)

  /** Spreading is a merge: in every field the update's value wins when it
      carries one and the old value is kept otherwise, so the empty update
      changes nothing and merging the same update twice is merging it once. */
  lemma ApplyTaskUpdateSpec(t: Task, u: TaskUpdate)
    ensures var m := ApplyTaskUpdate(t, u);
      && Spreads(u.id, t.id, m.id)
      && Spreads(u.title, t.title, m.title)
      && Spreads(u.description, t.description, m.description)
      && Spreads(u.priority, t.priority, m.priority)
      && Spreads(u.dueDate, t.dueDate, m.dueDate)
      && Spreads(u.columnId, t.columnId, m.columnId)
      && Spreads(u.createdAt, t.createdAt, m.createdAt)
      && Spreads(u.isFinalized, t.isFinalized, m.isFinalized)
      && Spreads(u.isDeleted, t.isDeleted, m.isDeleted)
      && Spreads(u.finalizedAt, t.finalizedAt, m.finalizedAt)
      && Spreads(u.deletedAt, t.deletedAt, m.deletedAt)
    ensures ApplyTaskUpdate(t, NoTaskUpdate) == t
    ensures ApplyTaskUpdate(ApplyTaskUpdate(t, u), u) == ApplyTaskUpdate(t, u)
  {
    var m := ApplyTaskUpdate(t, u);
    assert ApplyTaskUpdate(m, u) == m by { }
    assert ApplyTaskUpdate(t, NoTaskUpdate) == t by { }
  }

  /** What `updateTask` does to the agenda: every task with the id is merged
      with the update; columns are not touched. */
  function UpdateTaskIn(a: Agenda, taskId: string, u: TaskUpdate): (r: Agenda)
    ensures r.(tasks := a.tasks) == a && |r.tasks| == |a.tasks|
    ensures forall i :: 0 <= i < |a.tasks| && a.tasks[i].id != taskId ==> r.tasks[i] == a.tasks[i]
    ensures forall i :: 0 <= i < |a.tasks| && a.tasks[i].id == taskId ==> r.tasks[i] == ApplyTaskUpdate(a.tasks[i], u)
  {
    a.(tasks := seq(|a.tasks|, i requires 0 <= i < |a.tasks| =>
      if a.tasks[i].id == taskId then ApplyTaskUpdate(a.tasks[i], u) else a.tasks[i]))
  }

  /** `updateTask` as handed to `store.update`. */
  function UpdateTask(d: Document, agendaId: string, taskId: string, u: TaskUpdate, t: Time): (r: Step)
    ensures MapsFocus(d, Commit(r), agendaId, a => UpdateTaskIn(a, taskId, u))
  {
    var f := (a: Agenda) => UpdateTaskIn(a, taskId, u);
    InActiveAgendaEffect(d, agendaId, f, t.iso);
    InActiveAgenda(d, agendaId, f, t.iso)
  }

  // ----- finalizeTask, recycleTask, restoreTask, permanentDeleteTask -----

  function FirstTask(ts: seq<Task>, taskId: string): Option<nat> {
    FindIndex(ts, (t: Task) => t.id == taskId)
  }

  /** What `finalizeTask` does to the agenda. An unknown task makes the action
      return early. Otherwise the first task with the id leaves the board and
      is appended to `finalizedTasks`, stamped with the clock. Its id leaves
      the first column named by its column id. `isFinalized` is not set. */
  function FinalizeTaskIn(a: Agenda, taskId: string, millis: int): Option<Agenda> {
    match FirstTask(a.tasks, taskId)
    case None => None
    case Some(i) =>
      var task := a.tasks[i];
      Some(a.(tasks := RemoveAt(a.tasks, i),
              columns := ClearFirst(a.columns, task.columnId, taskId),
              finalizedTasks := a.finalizedTasks + [task.(finalizedAt := Some(millis))]))
  }

  /** What `recycleTask` does to the agenda. It takes the first task with the
      id from the board, or else from `finalizedTasks`; if neither holds one,
      the action returns early. The task is appended to `deletedTasks`,
      stamped with the clock. A task taken from the board also leaves the first
      column named by its column id. `isDeleted` is not set. */
  function RecycleTaskIn(a: Agenda, taskId: string, millis: int): Option<Agenda> {
    match FirstTask(a.tasks, taskId)
    case Some(i) =>
      var task := a.tasks[i];
      Some(a.(tasks := RemoveAt(a.tasks, i),
              columns := ClearFirst(a.columns, task.columnId, taskId),
              deletedTasks := a.deletedTasks + [task.(deletedAt := Some(millis))]))
    case None =>
      match FirstTask(a.finalizedTasks, taskId)
      case None => None
      case Some(i) =>
        var task := a.finalizedTasks[i];
        Some(a.(finalizedTasks := RemoveAt(a.finalizedTasks, i),
                deletedTasks := a.deletedTasks + [task.(deletedAt := Some(millis))]))
  }

  /** The task as `restoreTask` puts it back: in the backlog, with neither
      archive timestamp. */
  function Restored(t: Task): Task {
    t.(columnId := "backlog", deletedAt := None, finalizedAt := None)
  }

  /** What `restoreTask` does to the agenda. A task missing from the recycle
      bin makes the action return early. Otherwise the first such task leaves
      the bin and is appended to the board, restored. Its id is appended to
      the first backlog column, if one exists. */
  function RestoreTaskIn(a: Agenda, taskId: string): Option<Agenda> {
    match FirstTask(a.deletedTasks, taskId)
    case None => None
    case Some(i) =>
      var task := Restored(a.deletedTasks[i]);
      var columns :=
        match FindIndex(a.columns, (c: Column) => c.id == "backlog")
        case None => a.columns
        case Some(k) => a.columns[k := a.columns[k].(taskIds := a.columns[k].taskIds + [task.id])];
      Some(a.(deletedTasks := RemoveAt(a.deletedTasks, i), tasks := a.tasks + [task], columns := columns))
  }

  /** What `permanentDeleteTask` does to the agenda: every task with the id
      leaves the recycle bin. It never returns early once the agenda is found. */
  function PermanentDeleteTaskIn(a: Agenda, taskId: string): Option<Agenda> {
    Some(a.(deletedTasks := Filter(a.deletedTasks, (t: Task) => t.id != taskId)))
  }

  lemma TaskIdsRemoveAt(ts: seq<Task>, i: nat)
    requires i < |ts|
    ensures multiset(TaskIds(RemoveAt(ts, i))) + multiset{ts[i].id} == multiset(TaskIds(ts))
  {
    var xs := TaskIds(ts);
    assert TaskIds(RemoveAt(ts, i)) == xs[..i] + xs[i + 1..];
    assert xs == xs[..i] + [xs[i]] + xs[i + 1..];
  }

  lemma TaskIdsAppendOne(ts: seq<Task>, t: Task)
    ensures multiset(TaskIds(ts + [t])) == multiset(TaskIds(ts)) + multiset{t.id}
  {
    assert TaskIds(ts + [t]) == TaskIds(ts) + [t.id];
  }

  /** Finalizing moves a task from the board to the finalized list: no id is
      created or lost. */
  lemma FinalizeConserves(a: Agenda, taskId: string, millis: int)
    requires FinalizeTaskIn(a, taskId, millis).Some?
    ensures Holdings(FinalizeTaskIn(a, taskId, millis).value) == Holdings(a)
  {
    var i := FirstTask(a.tasks, taskId).value;
    TaskIdsRemoveAt(a.tasks, i);
    TaskIdsAppendOne(a.finalizedTasks, a.tasks[i].(finalizedAt := Some(millis)));
  }

  /** Recycling moves a task from the board or the finalized list to the bin:
      no id is created or lost. */
  lemma RecycleConserves(a: Agenda, taskId: string, millis: int)
    requires RecycleTaskIn(a, taskId, millis).Some?
    ensures Holdings(RecycleTaskIn(a, taskId, millis).value) == Holdings(a)
  {
    match FirstTask(a.tasks, taskId)
    case Some(i) =>
      TaskIdsRemoveAt(a.tasks, i);
      TaskIdsAppendOne(a.deletedTasks, a.tasks[i].(deletedAt := Some(millis)));
    case None =>
      var i := FirstTask(a.finalizedTasks, taskId).value;
      TaskIdsRemoveAt(a.finalizedTasks, i);
      TaskIdsAppendOne(a.deletedTasks, a.finalizedTasks[i].(deletedAt := Some(millis)));
  }

  /** Restoring moves a task from the bin to the board: no id is created or lost. */
  lemma RestoreConserves(a: Agenda, taskId: string)
    requires RestoreTaskIn(a, taskId).Some?
    ensures Holdings(RestoreTaskIn(a, taskId).value) == Holdings(a)
  {
    var i := FirstTask(a.deletedTasks, taskId).value;
    TaskIdsRemoveAt(a.deletedTasks, i);
    TaskIdsAppendOne(a.tasks, Restored(a.deletedTasks[i]));
  }

  /** A task id is found exactly when some task in the list carries it. */
  lemma FirstTaskFound(ts: seq<Task>, taskId: string)
    ensures FirstTask(ts, taskId).Some? <==> taskId in TaskIds(ts)
  {
    match FirstTask(ts, taskId)
    case Some(i) =>
      assert TaskIds(ts)[i] == taskId;
    case None =>
  }

  /** Finalizing a task that is on the board: the first such task leaves the
      board and is now the last finalized one, stamped; its id leaves the
      first column named by its column id; nothing else changes. */
  lemma FinalizeTaskSpec(a: Agenda, taskId: string, millis: int)
    ensures FinalizeTaskIn(a, taskId, millis).None? <==> taskId !in TaskIds(a.tasks)
    ensures FinalizeTaskIn(a, taskId, millis).Some? ==>
      var r := FinalizeTaskIn(a, taskId, millis).value;
      var i := FirstTask(a.tasks, taskId).value;
      && r.tasks == a.tasks[..i] + a.tasks[i + 1..]
      && r.finalizedTasks == a.finalizedTasks + [a.tasks[i].(finalizedAt := Some(millis))]
      && r.finalizedTasks[|r.finalizedTasks| - 1].id == taskId
      && r.columns == ClearFirst(a.columns, a.tasks[i].columnId, taskId)
      && r.(tasks := a.tasks, columns := a.columns, finalizedTasks := a.finalizedTasks) == a
  {
    FirstTaskFound(a.tasks, taskId);
  }

  /** Recycling: a task on neither the board nor the finalized list makes the
      action return early. A board task is taken first: it leaves the board
      and its first column, and is appended to the bin, stamped. Otherwise
      the first finalized task with the id moves to the bin, stamped, and the
      columns are untouched. Nothing else changes. */
  lemma RecycleTaskSpec(a: Agenda, taskId: string, millis: int)
    ensures RecycleTaskIn(a, taskId, millis).None? <==>
      taskId !in TaskIds(a.tasks) && taskId !in TaskIds(a.finalizedTasks)
    ensures taskId in TaskIds(a.tasks) ==>
      var r := RecycleTaskIn(a, taskId, millis).value;
      var i := FirstTask(a.tasks, taskId).value;
      && r.tasks == a.tasks[..i] + a.tasks[i + 1..]
      && r.columns == ClearFirst(a.columns, a.tasks[i].columnId, taskId)
      && r.deletedTasks == a.deletedTasks + [a.tasks[i].(deletedAt := Some(millis))]
      && r.(tasks := a.tasks, columns := a.columns, deletedTasks := a.deletedTasks) == a
    ensures taskId !in TaskIds(a.tasks) && taskId in TaskIds(a.finalizedTasks) ==>
      var r := RecycleTaskIn(a, taskId, millis).value;
      var i := FirstTask(a.finalizedTasks, taskId).value;
      && r.finalizedTasks == a.finalizedTasks[..i] + a.finalizedTasks[i + 1..]
      && r.deletedTasks == a.deletedTasks + [a.finalizedTasks[i].(deletedAt := Some(millis))]
      && r.(finalizedTasks := a.finalizedTasks, deletedTasks := a.deletedTasks) == a
  {
    FirstTaskFound(a.tasks, taskId);
    FirstTaskFound(a.finalizedTasks, taskId);
  }

  /** Restoring: a task missing from the bin makes the action return early.
      Otherwise the first binned task with the id leaves the bin and ends the
      board, in the backlog and with neither stamp. Its id ends the first
      backlog column if there is one; every other column is untouched, and
      so is everything else. */
  lemma RestoreTaskSpec(a: Agenda, taskId: string)
    ensures RestoreTaskIn(a, taskId).None? <==> taskId !in TaskIds(a.deletedTasks)
    ensures RestoreTaskIn(a, taskId).Some? ==>
      var r := RestoreTaskIn(a, taskId).value;
      var i := FirstTask(a.deletedTasks, taskId).value;
      var t := r.tasks[|r.tasks| - 1];
      && r.deletedTasks == a.deletedTasks[..i] + a.deletedTasks[i + 1..]
      && r.tasks == a.tasks + [Restored(a.deletedTasks[i])]
      && t.id == taskId && t.columnId == "backlog" && t.deletedAt.None? && t.finalizedAt.None?
      && t.(columnId := a.deletedTasks[i].columnId, deletedAt := a.deletedTasks[i].deletedAt,
            finalizedAt := a.deletedTasks[i].finalizedAt) == a.deletedTasks[i]
      && |r.columns| == |a.columns|
      && (forall k :: 0 <= k < |a.columns| ==>
            if a.columns[k].id == "backlog" && (forall j :: 0 <= j < k ==> a.columns[j].id != "backlog")
            then r.columns[k] == a.columns[k].(taskIds := a.columns[k].taskIds + [taskId])
            else r.columns[k] == a.columns[k])
      && r.(tasks := a.tasks, columns := a.columns, deletedTasks := a.deletedTasks) == a
  {
    FirstTaskFound(a.deletedTasks, taskId);
  }

  /** Recycling then restoring a board task with an id not yet in the bin puts
      back the task as it was, only moved to the backlog and to the end of
      the board. The bin is as it was. */
  lemma RecycleThenRestore(a: Agenda, taskId: string, millis: int)
    requires taskId in TaskIds(a.tasks) && taskId !in TaskIds(a.deletedTasks)
    ensures RecycleTaskIn(a, taskId, millis).Some?
    ensures var r := RecycleTaskIn(a, taskId, millis).value;
      var i := FirstTask(a.tasks, taskId).value;
      && RestoreTaskIn(r, taskId).Some?
      && RestoreTaskIn(r, taskId).value.tasks == a.tasks[..i] + a.tasks[i + 1..] + [Restored(a.tasks[i])]
      && RestoreTaskIn(r, taskId).value.deletedTasks == a.deletedTasks
  {
    var j :| 0 <= j < |a.tasks| && TaskIds(a.tasks)[j] == taskId;
    assert a.tasks[j].id == taskId;
    var i := FirstTask(a.tasks, taskId).value;
    var r := RecycleTaskIn(a, taskId, millis).value;
    var n := |a.deletedTasks|;
    assert r.deletedTasks == a.deletedTasks + [a.tasks[i].(deletedAt := Some(millis))];
    forall k | 0 <= k < n
      ensures r.deletedTasks[k].id != taskId
    {
      assert TaskIds(a.deletedTasks)[k] == a.deletedTasks[k].id;
    }
    FindIndexIs(r.deletedTasks, (t: Task) => t.id == taskId, n);
    assert RemoveAt(r.deletedTasks, n) == a.deletedTasks;
    assert Restored(r.deletedTasks[n]) == Restored(a.tasks[i]);
  }

  /** Permanent deletion empties the bin of the id and keeps every other
      binned task, in order, and nothing else; the board and the finalized
      list are untouched. */
  lemma PermanentDeleteSpec(a: Agenda, taskId: string)
    ensures var r := PermanentDeleteTaskIn(a, taskId).value;
      && r.(deletedTasks := a.deletedTasks) == a
      && taskId !in TaskIds(r.deletedTasks)
      && (forall t :: t in a.deletedTasks && t.id != taskId ==> t in r.deletedTasks)
      && (forall t :: t in r.deletedTasks ==> t in a.deletedTasks)
      && KeptInOrder(r.deletedTasks, a.deletedTasks, (t: Task) => t.id != taskId)
  {
    var r := PermanentDeleteTaskIn(a, taskId).value;
    assert KeptInOrder(r.deletedTasks, a.deletedTasks, (t: Task) => t.id != taskId) by {
      FilterInOrder(a.deletedTasks, (t: Task) => t.id != taskId);
    }
    forall t | t in a.deletedTasks && t.id != taskId
      ensures t in r.deletedTasks
    {
      var i :| 0 <= i < |a.deletedTasks| && a.deletedTasks[i] == t;
    }
  }

  /** `finalizeTask` as handed to `store.update`. */
  function FinalizeTask(d: Document, agendaId: string, taskId: string, t: Time): (r: Step)
    ensures EditsFocusInPlace(d, Commit(r), agendaId, a => FinalizeTaskIn(a, taskId, t.millis), t.iso)
  {
    var g := (a: Agenda) => FinalizeTaskIn(a, taskId, t.millis);
    InPlaceEffect(d, agendaId, g, t.iso);
    InPlace(d, agendaId, g, t.iso)
  }

  /** `recycleTask` as handed to `store.update`. */
  function RecycleTask(d: Document, agendaId: string, taskId: string, t: Time): (r: Step)
    ensures EditsFocusInPlace(d, Commit(r), agendaId, a => RecycleTaskIn(a, taskId, t.millis), t.iso)
  {
    var g := (a: Agenda) => RecycleTaskIn(a, taskId, t.millis);
    InPlaceEffect(d, agendaId, g, t.iso);
    InPlace(d, agendaId, g, t.iso)
  }

  /** `restoreTask` as handed to `store.update`. */
  function RestoreTask(d: Document, agendaId: string, taskId: string, t: Time): (r: Step)
    ensures EditsFocusInPlace(d, Commit(r), agendaId, a => RestoreTaskIn(a, taskId), t.iso)
  {
    var g := (a: Agenda) => RestoreTaskIn(a, taskId);
    InPlaceEffect(d, agendaId, g, t.iso);
    InPlace(d, agendaId, g, t.iso)
  }

  /** `permanentDeleteTask` as handed to `store.update`. */
  function PermanentDeleteTask(d: Document, agendaId: string, taskId: string, t: Time): (r: Step)
    ensures EditsFocusInPlace(d, Commit(r), agendaId, a => PermanentDeleteTaskIn(a, taskId), t.iso)
  {
    var g := (a: Agenda) => PermanentDeleteTaskIn(a, taskId);
    InPlaceEffect(d, agendaId, g, t.iso);
    InPlace(d, agendaId, g, t.iso)
  }
}
