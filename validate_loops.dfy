/** The validator's loops as the source writes them: each `validate*` fills
    its output arrays with `forEach` and `push`, and `deepValidateState`
    reassigns the active ids. Each method is proved to compute the
    corresponding function of `Validate`. */
module ValidateLoops {
  import opened Wrappers
  import opened Json
  import opened Text
  import opened Seqs
  import opened Schema
  import opened Validate

  /** `xs.forEach(x => { const y = f(x); if (y) out.push(y); })`. */
  method CollectValid<A, B>(xs: seq<A>, f: A -> Option<B>) returns (out: seq<B>)
    ensures out == KeepSome(xs, f)
  {
    out := [];
    var i := 0;
    while i < |xs|
      invariant 0 <= i <= |xs|
      invariant out == KeepSome(xs[..i], f)
    {
      KeepSomeStep(xs, i, f);
      var y := f(xs[i]);
      if y.Some? {
        out := out + [y.value];
      }
      i := i + 1;
    }
    assert xs[..|xs|] == xs;
  }

  /** `validateJournal`. */
  method ValidateJournal(j: Json, env: Env) returns (r: Option<Journal>)
    ensures r == ValidatedJournal(j, env)
    ensures r.Some? <==> IsObject(j) && IsValidId(Get(j, "id"))
  {
    if !IsObject(j) || !IsValidId(Get(j, "id")) {
      return None;
    }
    var entries := CollectValid(Items(Get(j, "entries")), e => ValidateJournalEntry(e, env));
    r := Some(Journal(IdOf(j), SanitizeString(OrElse(Get(j, "name"), JStr("Journal")), 200), entries));
  }

  /** `validateSnippet`. */
  method ValidateSnippet(j: Json, env: Env) returns (r: Option<Snippet>)
    ensures r == ValidatedSnippet(j, env)
    ensures r.Some? <==> IsObject(j) && IsValidId(Get(j, "id"))
  {
    if !IsObject(j) || !IsValidId(Get(j, "id")) {
      return None;
    }
    var tags := CollectValid(Items(Get(j, "tags")), TagOf);
    r := Some(Snippet(
      IdOf(j),
      SanitizeString(OrElse(Get(j, "title"), JStr("")), 500),
      CodeOf(Get(j, "code")),
      SanitizeString(OrElse(Get(j, "language"), JStr("text")), 50),
      SanitizeString(OrElse(Get(j, "description"), JStr("")), 2000),
      tags,
      DateOr(env, Get(j, "createdAt"))));
  }

  /** `validateColumn`. */
  method ValidateColumn(j: Json, env: Env) returns (r: Option<Column>)
    ensures r == ValidatedColumn(j, env)
    ensures r.Some? <==> IsObject(j) && IsValidId(Get(j, "id"))
  {
    if !IsObject(j) || !IsValidId(Get(j, "id")) {
      return None;
    }
    var ids := CollectValid(Items(Get(j, "taskIds")), TaskIdOf);
    r := Some(Column(IdOf(j), SanitizeString(OrElse(Get(j, "title"), JStr("")), 100), ids));
  }

  /** `validateMetrics`: one pass over the allowed keys. */
  method ValidateMetrics(v: Option<Json>) returns (m: map<string, Json>)
    ensures m == ValidatedMetrics(v)
  {
    if !(v.Some? && IsObject(v.value)) {
      return map[];
    }
    m := map[];
    for i := 0 to |MetricKeys|
      invariant m == map k | k in MetricKeys[..i] && IsNum(Get(v.value, k)) :: JNum(Max0(Get(v.value, k).value.n))
    {
      var key := MetricKeys[i];
      assert MetricKeys[..i + 1] == MetricKeys[..i] + [key];
      if IsNum(Get(v.value, key)) {
        m := m[key := JNum(Max0(Get(v.value, key).value.n))];
      }
    }
    assert MetricKeys[..|MetricKeys|] == MetricKeys;
  }

  /** The default-columns loop of `validateAgenda`. */
  method EnsureDefaultColumns(cols: seq<Column>) returns (r: seq<Column>)
    ensures r == AddDefaults(cols, DefaultColumnIds)
  {
    r := cols;
    for i := 0 to |DefaultColumnIds|
      invariant AddDefaults(r, DefaultColumnIds[i..]) == AddDefaults(cols, DefaultColumnIds)
    {
      var colId := DefaultColumnIds[i];
      assert DefaultColumnIds[i..][1..] == DefaultColumnIds[i + 1..];
      if Find(r, (c: Column) => c.id == colId).None? {
        r := r + [DefaultColumn(colId)];
      }
    }
  }

  /** The column loop of `validateAgenda`, which runs only for a non-empty array. */
  method ValidateColumns(raw: seq<Json>, env: Env) returns (columns: seq<Column>)
    ensures columns == KeepSome(raw, x => ValidatedColumn(x, env))
  {
    columns := [];
    if |raw| > 0 {
      for i := 0 to |raw|
        invariant columns == KeepSome(raw[..i], x => ValidatedColumn(x, env))
      {
        KeepSomeStep(raw, i, x => ValidatedColumn(x, env));
        var c := ValidateColumn(raw[i], env);
        if c.Some? {
          columns := columns + [c.value];
        }
      }
      assert raw[..|raw|] == raw;
    }
  }

  /** The journal part of `validateAgenda`, with the legacy migration. */
  method ValidateJournals(j: Json, env: Env) returns (journals: seq<Journal>)
    ensures journals == ValidatedJournals(j, env)
  {
    journals := [];
    if IsArr(Get(j, "journals")) {
      var raw := Items(Get(j, "journals"));
      for i := 0 to |raw|
        invariant journals == KeepSome(raw[..i], x => ValidatedJournal(x, env))
      {
        KeepSomeStep(raw, i, x => ValidatedJournal(x, env));
        var jr := ValidateJournal(raw[i], env);
        if jr.Some? {
          journals := journals + [jr.value];
        }
      }
      assert raw[..|raw|] == raw;
    } else if IsArr(Get(j, "journal")) {
      var entries := CollectValid(Items(Get(j, "journal")), e => ValidateJournalEntry(e, env));
      journals := journals + [Journal("default", "Main Journal", entries)];
    }
  }

  /** The snippet loop of `validateAgenda`. */
  method ValidateSnippets(raw: seq<Json>, env: Env) returns (snippets: seq<Snippet>)
    ensures snippets == KeepSome(raw, x => ValidatedSnippet(x, env))
  {
    snippets := [];
    for i := 0 to |raw|
      invariant snippets == KeepSome(raw[..i], x => ValidatedSnippet(x, env))
    {
      KeepSomeStep(raw, i, x => ValidatedSnippet(x, env));
      var sn := ValidateSnippet(raw[i], env);
      if sn.Some? {
        snippets := snippets + [sn.value];
      }
    }
    assert raw[..|raw|] == raw;
  }

  /** `validateAgenda`. */
  method ValidateAgenda(j: Json, env: Env) returns (r: Option<Agenda>)
    ensures r == ValidatedAgenda(j, env)
    ensures r.Some? <==> IsObject(j) && IsValidId(Get(j, "id"))
  {
    var metrics := ValidateMetrics(Get(j, "metrics"));
    if !IsObject(j) || !IsValidId(Get(j, "id")) {
      return None;
    }
    var notes := CollectValid(Items(Get(j, "notes")), x => ValidateNote(x, env));
    var tasks := CollectValid(Items(Get(j, "tasks")), x => ValidateTask(x, env));
    var columns := ValidateColumns(Items(Get(j, "columns")), env);
    columns := EnsureDefaultColumns(columns);
    var journals := ValidateJournals(j, env);
    var snippets := ValidateSnippets(Items(Get(j, "snippets")), env);
    var finalized := CollectValid(Items(Get(j, "finalizedTasks")), x => ValidateTask(x, env));
    var deleted := CollectValid(Items(Get(j, "deletedTasks")), x => ValidateTask(x, env));
    r := Some(Agenda(
      IdOf(j),
      SanitizeString(OrElse(Get(j, "name"), JStr("Untitled Agenda")), 200),
      DateOr(env, Get(j, "createdAt")),
      notes, tasks, columns, Some(journals), None, snippets, finalized, deleted, metrics));
  }

  /** `validateWorkspace`. */
  method ValidateWorkspace(j: Json, env: Env) returns (r: Option<Workspace>)
    ensures r == ValidatedWorkspace(j, env)
    ensures r.Some? <==> IsObject(j) && IsValidId(Get(j, "id"))
  {
    if !IsObject(j) || !IsValidId(Get(j, "id")) {
      return None;
    }
    var agendas := CollectValid(Items(Get(j, "agendas")), x => ValidatedAgenda(x, env));
    r := Some(Workspace(
      IdOf(j),
      SanitizeString(OrElse(Get(j, "name"), JStr("Untitled Workspace")), 200),
      DateOr(env, Get(j, "createdAt")),
      DateOr(env, Get(j, "modifiedAt")),
      agendas));
  }

  /** `deepValidateState`: the three fatal checks, the workspace loop, then the
      two reassignments of the active ids. */
  method DeepValidateState(j: Json, env: Env) returns (r: Validation)
    ensures r == DeepValidated(j, env)
    ensures r.Invalid? <==> Precheck(j).Some?
    ensures r.Valid? ==> r.doc.schemaVersion == SchemaVersion
  {
    var pre := Precheck(j);
    if pre.Some? {
      return Invalid(pre.value);
    }
    var workspaces: seq<Workspace> := [];
    var raw := Items(Get(j, "workspaces"));
    for i := 0 to |raw|
      invariant workspaces == KeepSome(raw[..i], x => ValidatedWorkspace(x, env))
    {
      KeepSomeStep(raw, i, x => ValidatedWorkspace(x, env));
      var ws := ValidateWorkspace(raw[i], env);
      if ws.Some? {
        workspaces := workspaces + [ws.value];
      }
    }
    assert raw[..|raw|] == raw;

    var activeWorkspaceId := NullOrString(Get(j, "activeWorkspaceId"));
    var activeAgendaId := NullOrString(Get(j, "activeAgendaId"));
    if TruthyStr(activeWorkspaceId) {
      if FindWorkspace(workspaces, activeWorkspaceId.value).None? {
        activeWorkspaceId := None;
        activeAgendaId := None;
      }
    }
    if TruthyStr(activeAgendaId) && TruthyStr(activeWorkspaceId) {
      var ws := FindWorkspace(workspaces, activeWorkspaceId.value);
      if ws.Some? && !HasAgenda(ws.value.agendas, activeAgendaId.value) {
        activeAgendaId := None;
      }
    }
    r := Valid(Document(SchemaVersion, workspaces, activeWorkspaceId, activeAgendaId));
  }
}
