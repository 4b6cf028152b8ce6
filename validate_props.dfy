/** Properties of the validator: default Kanban columns, column task ids,
    legacy journal migration, the metric allow-list, and the repair of the
    document's active ids. */
module ValidateProps {
  import opened Wrappers
  import opened Json
  import opened Text
  import opened Seqs
  import opened Schema
  import opened Validate

  /** The default-columns loop keeps the input columns as a prefix, makes every
      listed id present, and appends only fresh empty columns for ids that
      were missing. */
  lemma {:induction false} AddDefaultsSpec(cols: seq<Column>, ids: seq<string>)
    ensures cols <= AddDefaults(cols, ids)
    ensures forall id :: id in ids ==> HasColumn(AddDefaults(cols, ids), id)
    ensures forall i :: |cols| <= i < |AddDefaults(cols, ids)| ==>
      var c := AddDefaults(cols, ids)[i];
      c == DefaultColumn(c.id) && c.id in ids && !HasColumn(cols, c.id)
    ensures |AddDefaults(cols, ids)| <= |cols| + |ids|
    decreases |ids|
  {
    if |ids| > 0 {
      var next := if HasColumn(cols, ids[0]) then cols else cols + [DefaultColumn(ids[0])];
      AddDefaultsSpec(next, ids[1..]);
      var r := AddDefaults(cols, ids);
      assert r == AddDefaults(next, ids[1..]);
      assert HasColumn(next, ids[0]) by {
        if !HasColumn(cols, ids[0]) {
          assert next[|cols|].id == ids[0];
        }
      }
      forall id | id in ids
        ensures HasColumn(r, id)
      {
        if id == ids[0] {
          var k :| 0 <= k < |next| && next[k].id == id;
          assert r[k] == next[k];
        } else {
          assert id in ids[1..];
        }
      }
      forall i | |cols| <= i < |r|
        ensures r[i] == DefaultColumn(r[i].id) && r[i].id in ids && !HasColumn(cols, r[i].id)
      {
        if i < |next| {
          assert next != cols && r[i] == next[i] == DefaultColumn(ids[0]);
        } else {
          assert r[i].id in ids[1..];
          assert forall k :: 0 <= k < |cols| ==> next[k] == cols[k];
        }
      }
    }
  }

  /** Every validated agenda has the columns `todo`, `doing` and `done`; the
      valid input columns come first, in order, and what follows them are
      default columns with no tasks, for ids the input lacked. */
  lemma AgendaDefaultColumns(j: Json, env: Env)
    requires ValidatedAgenda(j, env).Some?
    ensures var a := ValidatedAgenda(j, env).value;
      var kept := KeepSome(Items(Get(j, "columns")), x => ValidatedColumn(x, env));
      && HasColumn(a.columns, "todo") && HasColumn(a.columns, "doing") && HasColumn(a.columns, "done")
      && kept <= a.columns
      && |a.columns| <= |kept| + 3
      && (forall i :: |kept| <= i < |a.columns| ==>
            a.columns[i].taskIds == [] && a.columns[i].id in DefaultColumnIds && !HasColumn(kept, a.columns[i].id))
  {
    var kept := KeepSome(Items(Get(j, "columns")), x => ValidatedColumn(x, env));
    assert ValidatedAgenda(j, env).value.columns == AddDefaults(kept, DefaultColumnIds);
    DefaultColumnsAdded(kept);
  }

  /** The default-columns loop on the ids `todo`, `doing`, `done`. */
  lemma DefaultColumnsAdded(kept: seq<Column>)
    ensures var cols := AddDefaults(kept, DefaultColumnIds);
      && HasColumn(cols, "todo") && HasColumn(cols, "doing") && HasColumn(cols, "done")
      && kept <= cols
      && |cols| <= |kept| + 3
      && (forall i :: |kept| <= i < |cols| ==>
            cols[i].taskIds == [] && cols[i].id in DefaultColumnIds && !HasColumn(kept, cols[i].id))
  {
    AddDefaultsSpec(kept, DefaultColumnIds);
    assert DefaultColumnIds[0] == "todo" && DefaultColumnIds[1] == "doing" && DefaultColumnIds[2] == "done";
  }

  /** A validated column holds exactly the valid ids among its input task ids. */
  lemma ColumnTaskIds(j: Json, env: Env, id: string)
    requires ValidatedColumn(j, env).Some?
    ensures id in ValidatedColumn(j, env).value.taskIds <==> 0 < |id| < 100 && JStr(id) in Items(Get(j, "taskIds"))
  {
    var items := Items(Get(j, "taskIds"));
    KeepSomeMember(items, TaskIdOf, id);
    if 0 < |id| < 100 && JStr(id) in items {
      var i :| 0 <= i < |items| && items[i] == JStr(id);
      assert TaskIdOf(items[i]) == Some(id);
    }
  }

  /** Legacy migration: with no `journals` array but a legacy `journal` array,
      the agenda gets exactly one journal, `default` named "Main Journal",
      holding the valid legacy entries in order; a validated agenda never
      keeps the legacy key. */
  lemma LegacyJournalMigrated(j: Json, env: Env)
    requires ValidatedAgenda(j, env).Some?
    requires !IsArr(Get(j, "journals")) && IsArr(Get(j, "journal"))
    ensures var a := ValidatedAgenda(j, env).value;
      && a.journals.Some? && |a.journals.value| == 1
      && a.journals.value[0].id == "default" && a.journals.value[0].name == "Main Journal"
      && a.journals.value[0].entries == KeepSome(Items(Get(j, "journal")), e => ValidateJournalEntry(e, env))
      && a.legacyJournal.None?
  {
  }

  /** Every validated agenda carries a `journals` list and no legacy `journal`. */
  lemma AgendaNeverLegacy(j: Json, env: Env)
    requires ValidatedAgenda(j, env).Some?
    ensures ValidatedAgenda(j, env).value.journals.Some?
    ensures ValidatedAgenda(j, env).value.legacyJournal.None?
  {
  }

  /** Validated metrics hold only the three allowed keys, each a non-negative
      integer; an allowed key survives exactly when its input is a number. */
  lemma MetricsAllowListed(v: Option<Json>)
    ensures forall k :: k in ValidatedMetrics(v) ==>
      k in MetricKeys && ValidatedMetrics(v)[k].JNum? && ValidatedMetrics(v)[k].n >= 0
    ensures forall k :: k in MetricKeys ==>
      (k in ValidatedMetrics(v) <==> v.Some? && IsObject(v.value) && IsNum(Get(v.value, k)))
  {
  }

  /** The repair of the active ids: a truthy workspace id naming no workspace
      clears both ids; a truthy agenda id naming no agenda of the active
      workspace clears only itself; otherwise both ids are kept. Afterwards
      every truthy active id refers to something that exists. */
  lemma ActiveIdsRepaired(wss: seq<Workspace>, aw: Option<string>, aa: Option<string>)
    ensures var (aw', aa') := RepairActive(wss, aw, aa);
      && (TruthyStr(aw) && FindWorkspace(wss, aw.value).None? ==> aw' == None && aa' == None)
      && (TruthyStr(aw) && FindWorkspace(wss, aw.value).Some? ==>
            aw' == aw
            && (TruthyStr(aa) && !HasAgenda(FindWorkspace(wss, aw.value).value.agendas, aa.value) ==> aa' == None)
            && (!TruthyStr(aa) || HasAgenda(FindWorkspace(wss, aw.value).value.agendas, aa.value) ==> aa' == aa))
      && (!TruthyStr(aw) ==> aw' == aw && aa' == aa)
      && (TruthyStr(aw') ==> FindWorkspace(wss, aw'.value).Some?)
      && (TruthyStr(aw') && TruthyStr(aa') ==> HasAgenda(FindWorkspace(wss, aw'.value).value.agendas, aa'.value))
  {
  }

  /** Document level: a non-object, a wrong schema version or a non-array
      `workspaces` is refused; anything else is accepted, at the current
      schema version, with its active ids repaired. */
  lemma DocumentOutcome(j: Json, env: Env)
    ensures DeepValidated(j, env).Invalid? <==>
      !(j.JObj? || j.JArr?) || Get(j, "schemaVersion") != Some(JNum(1)) || !IsArr(Get(j, "workspaces"))
    ensures DeepValidated(j, env).Valid? ==>
      var d := DeepValidated(j, env).doc;
      && d.schemaVersion == 1
      && d.workspaces == KeepSome(Items(Get(j, "workspaces")), x => ValidatedWorkspace(x, env))
      && (d.activeWorkspaceId, d.activeAgendaId)
         == RepairActive(d.workspaces, NullOrString(Get(j, "activeWorkspaceId")), NullOrString(Get(j, "activeAgendaId")))
  {
  }

  /** The scenario of a dangling active workspace: `activeWorkspaceId: "ghost"`
      with no such workspace nulls both active ids. */
  lemma GhostWorkspaceReset(env: Env, agendaId: Json)
    ensures var j := JObj(map["schemaVersion" := JNum(1), "workspaces" := JArr([]),
                              "activeWorkspaceId" := JStr("ghost"), "activeAgendaId" := agendaId]);
      DeepValidated(j, env) == Valid(Document(1, [], None, None))
  {
  }
}
