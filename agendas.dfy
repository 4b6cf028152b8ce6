/** The agenda actions of `src/lib/actions/agendas.js`: they edit the agenda
    list of the active workspace, or the agenda selection. */
module AgendaActions {
  import opened Wrappers
  import opened Seqs
  import opened Text
  import opened Schema
  import opened StoreModel
  import opened Edit

  /** The agenda `createAgenda` builds: the three default Kanban columns and
      empty collections; the source sets no journals, snippets, archives or
      metrics, which the model writes as absent or empty. */
  function NewAgenda(id: string, name: string, iso: string): (a: Agenda)
    ensures a.id == id && a.name == name && a.createdAt == iso
    ensures a.notes == [] && a.tasks == [] && a.snippets == [] && a.finalizedTasks == [] && a.deletedTasks == []
    ensures a.journals.None? && a.legacyJournal.None? && a.metrics == map[]
    ensures |a.columns| == 3 && a.columns[0].id == "todo" && a.columns[1].id == "doing" && a.columns[2].id == "done"
    ensures forall c :: c in a.columns ==> c.taskIds == []
  {
    Agenda(id, name, iso, [], [],
      [Column("todo", "To Do", []), Column("doing", "In Progress", []), Column("done", "Done", [])],
      None, None, [], [], [], map[])
  }

  /** What `createAgenda` does to an active workspace. */
  function AddAgenda(ws: Workspace, a: Agenda, iso: string): Workspace {
    ws.(agendas := ws.agendas + [a], modifiedAt := iso)
  }

  /** `createAgenda`: a missing or blank name issues no update; otherwise every
      active workspace gains the new agenda, named with the trimmed name, last. */
  function CreateAgenda(d: Document, name: Option<string>, freshId: string, t: Time): (r: Option<Step>)
    ensures r.None? <==> Refuses(name)
    ensures r.Some? ==> MapsActive(d, Commit(r.value), ws => AddAgenda(ws, NewAgenda(freshId, Trim(name.value), t.iso), t.iso))
  {
    if Refuses(name) then None
    else
      var g := (ws: Workspace) => AddAgenda(ws, NewAgenda(freshId, Trim(name.value), t.iso), t.iso);
      InActiveWorkspaceEffect(d, g);
      Some(InActiveWorkspace(d, g))
  }

  /** What `deleteAgenda` does to an active workspace: the agendas with the
      id go, the others stay in their order, and the workspace is stamped. */
  function RemoveAgenda(ws: Workspace, agendaId: string, iso: string): (r: Workspace)
    ensures r.(agendas := ws.agendas, modifiedAt := ws.modifiedAt) == ws && r.modifiedAt == iso
    ensures forall a :: a in r.agendas ==> a in ws.agendas && a.id != agendaId
    ensures forall a :: a in ws.agendas && a.id != agendaId ==> a in r.agendas
    ensures KeptInOrder(r.agendas, ws.agendas, (a: Agenda) => a.id != agendaId)
  {
    var keep := (a: Agenda) => a.id != agendaId;
    FilterKeeps(ws.agendas, keep);
    ws.(agendas := Filter(ws.agendas, keep), modifiedAt := iso)
  }

  /** `deleteAgenda` as handed to `store.update`. */
  function DeleteAgenda(d: Document, agendaId: string, t: Time): (r: Step)
    ensures MapsActive(d, Commit(r), ws => RemoveAgenda(ws, agendaId, t.iso))
  {
    var g := (ws: Workspace) => RemoveAgenda(ws, agendaId, t.iso);
    InActiveWorkspaceEffect(d, g);
    InActiveWorkspace(d, g)
  }

  /** Creating an agenda under an id the workspace does not use, then deleting
      it, gives back the workspace's agendas. */
  lemma CreateThenDeleteAgenda(ws: Workspace, freshId: string, name: string, iso: string, iso2: string)
    requires forall a :: a in ws.agendas ==> a.id != freshId
    ensures RemoveAgenda(AddAgenda(ws, NewAgenda(freshId, name, iso), iso), freshId, iso2).agendas == ws.agendas
  {
    var p := (a: Agenda) => a.id != freshId;
    FilterAppend(ws.agendas, [NewAgenda(freshId, name, iso)], p);
    FilterAll(ws.agendas, p);
    assert Filter([NewAgenda(freshId, name, iso)], p) == Filter([NewAgenda(freshId, name, iso)][1..], p);
  }

  /** What `renameAgenda` does to an active workspace. */
  function RenameIn(ws: Workspace, agendaId: string, name: string, iso: string): (r: Workspace)
    ensures r.(agendas := ws.agendas, modifiedAt := ws.modifiedAt) == ws && r.modifiedAt == iso
    ensures |r.agendas| == |ws.agendas|
    ensures forall i :: 0 <= i < |ws.agendas| ==>
      r.agendas[i] == if ws.agendas[i].id == agendaId then ws.agendas[i].(name := name) else ws.agendas[i]
  {
    ws.(agendas := seq(|ws.agendas|, i requires 0 <= i < |ws.agendas| =>
          if ws.agendas[i].id == agendaId then ws.agendas[i].(name := name) else ws.agendas[i]),
        modifiedAt := iso)
  }

  /** `renameAgenda`: a missing or blank name issues no update; otherwise
      every agenda with the id in an active workspace takes the trimmed name. */
  function RenameAgenda(d: Document, agendaId: string, newName: Option<string>, t: Time): (r: Option<Step>)
    ensures r.None? <==> Refuses(newName)
    ensures r.Some? ==> MapsActive(d, Commit(r.value), ws => RenameIn(ws, agendaId, Trim(newName.value), t.iso))
  {
    if Refuses(newName) then None
    else
      var g := (ws: Workspace) => RenameIn(ws, agendaId, Trim(newName.value), t.iso);
      InActiveWorkspaceEffect(d, g);
      Some(InActiveWorkspace(d, g))
  }

  /** A name accepted by the guard is stored trimmed and non-empty. */
  lemma AcceptedNameTrimmed(name: Option<string>)
    requires !Refuses(name)
    ensures Trim(name.value) != "" && Trim(Trim(name.value)) == Trim(name.value)
  {
    TrimTrimmed(Trim(name.value));
  }

  /** `selectAgenda`: the id is taken as it is, with no check that it exists. */
  function SelectAgenda(d: Document, id: Option<string>): (r: Step)
    ensures Commit(r) == d.(activeAgendaId := id)
  {
    Step(d, Some(EmptyPatch.(activeAgendaId := Some(id))))
  }
}
