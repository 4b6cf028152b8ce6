/** The workspace actions of `src/lib/actions/workspaces.js`. Unlike the
    other actions they do not depend on an active workspace. Between them they
    keep the selection pointing at an existing workspace, or at nothing. */
module WorkspaceActions {
  import opened Wrappers
  import opened Seqs
  import opened Text
  import opened Schema
  import opened StoreModel
  import opened Edit

  /** The active id is null or names an existing workspace. */
  predicate SelectionExists(d: Document) {
    d.activeWorkspaceId.None? || exists i :: 0 <= i < |d.workspaces| && Some(d.workspaces[i].id) == d.activeWorkspaceId
  }

  /** The workspace `createWorkspace` builds: empty, named, stamped. */
  function NewWorkspace(id: string, name: string, iso: string): Workspace {
    Workspace(id, name, iso, iso, [])
  }

  /** `createWorkspace`: a missing or blank name issues no update. Otherwise
      the new workspace goes last, and it becomes active unless the active id
      is already truthy. */
  function CreateWorkspace(d: Document, name: Option<string>, freshId: string, t: Time): (r: Option<Step>)
    ensures r.None? <==> Refuses(name)
    ensures r.Some? ==> var e := Commit(r.value);
      && e.workspaces == d.workspaces + [NewWorkspace(freshId, Trim(name.value), t.iso)]
      && e.activeWorkspaceId == (if TruthyStr(d.activeWorkspaceId) then d.activeWorkspaceId else Some(freshId))
      && e.activeAgendaId == d.activeAgendaId && e.schemaVersion == d.schemaVersion
  {
    if Refuses(name) then None
    else
      var ws := NewWorkspace(freshId, Trim(name.value), t.iso);
      var active := if TruthyStr(d.activeWorkspaceId) then d.activeWorkspaceId else Some(freshId);
      Some(Step(d, Some(EmptyPatch.(workspaces := Some(d.workspaces + [ws]), activeWorkspaceId := Some(active)))))
  }

  /** What `renameWorkspace` does to the workspace list. */
  function RenameIn(wss: seq<Workspace>, id: string, name: string, iso: string): (r: seq<Workspace>)
    ensures |r| == |wss|
    ensures forall i :: 0 <= i < |wss| ==>
      r[i] == if wss[i].id == id then wss[i].(name := name, modifiedAt := iso) else wss[i]
  {
    seq(|wss|, i requires 0 <= i < |wss| => if wss[i].id == id then wss[i].(name := name, modifiedAt := iso) else wss[i])
  }

  /** `renameWorkspace`: a missing or blank name issues no update. Otherwise
      every workspace with the id, active or not, takes the trimmed name. */
  function RenameWorkspace(d: Document, id: string, newName: Option<string>, t: Time): (r: Option<Step>)
    ensures r.None? <==> Refuses(newName)
    ensures r.Some? ==> Commit(r.value) == d.(workspaces := RenameIn(d.workspaces, id, Trim(newName.value), t.iso))
  {
    if Refuses(newName) then None
    else Some(Step(d, Some(EmptyPatch.(workspaces := Some(RenameIn(d.workspaces, id, Trim(newName.value), t.iso))))))
  }

  /** `deleteWorkspace`: drops every workspace with the id and keeps the
      others in their order. It clears the
      active workspace if that was the one, and always clears the active agenda. */
  function DeleteWorkspace(d: Document, id: string): (r: Step)
    ensures var e := Commit(r);
      && e.schemaVersion == d.schemaVersion && e.activeAgendaId.None?
      && e.activeWorkspaceId == (if d.activeWorkspaceId == Some(id) then None else d.activeWorkspaceId)
      && (forall w :: w in e.workspaces ==> w in d.workspaces && w.id != id)
      && (forall w :: w in d.workspaces && w.id != id ==> w in e.workspaces)
      && KeptInOrder(e.workspaces, d.workspaces, (w: Workspace) => w.id != id)
  {
    var keep := (w: Workspace) => w.id != id;
    FilterKeeps(d.workspaces, keep);
    var wss := Filter(d.workspaces, keep);
    var active := if d.activeWorkspaceId == Some(id) then None else d.activeWorkspaceId;
    Step(d, Some(Patch(None, Some(wss), Some(active), Some(None))))
  }

  /** `selectWorkspace`: an existing id, or null, becomes active and clears
      the active agenda; any other id changes nothing. */
  function SelectWorkspace(d: Document, id: Option<string>): (r: Step)
    ensures var e := Commit(r);
      var known := exists i :: 0 <= i < |d.workspaces| && Some(d.workspaces[i].id) == id;
      && (known || id.None? ==> e == d.(activeWorkspaceId := id, activeAgendaId := None))
      && (!(known || id.None?) ==> e == d)
  {
    var found := Find(d.workspaces, (w: Workspace) => Some(w.id) == id);
    if found.Some? || id.None? then Step(d, Some(EmptyPatch.(activeWorkspaceId := Some(id), activeAgendaId := Some(None))))
    else Step(d, Some(EmptyPatch))
  }

  /** Creating a workspace keeps the selection pointing at an existing
      workspace or at nothing; it may select the new workspace. */
  lemma CreateKeepsSelection(d: Document, name: Option<string>, freshId: string, t: Time)
    requires SelectionExists(d)
    ensures CreateWorkspace(d, name, freshId, t).Some? ==> SelectionExists(Commit(CreateWorkspace(d, name, freshId, t).value))
  {
    if CreateWorkspace(d, name, freshId, t).Some? {
      var e := Commit(CreateWorkspace(d, name, freshId, t).value);
      if TruthyStr(d.activeWorkspaceId) {
        var i :| 0 <= i < |d.workspaces| && Some(d.workspaces[i].id) == d.activeWorkspaceId;
        assert e.workspaces[i] == d.workspaces[i];
      } else {
        assert e.workspaces[|d.workspaces|].id == freshId;
      }
    }
  }

  /** Renaming keeps every workspace id, so it keeps the selection valid. */
  lemma RenameKeepsSelection(d: Document, id: string, name: Option<string>, t: Time)
    requires SelectionExists(d)
    ensures RenameWorkspace(d, id, name, t).Some? ==> SelectionExists(Commit(RenameWorkspace(d, id, name, t).value))
  {
    if RenameWorkspace(d, id, name, t).Some? && d.activeWorkspaceId.Some? {
      var e := Commit(RenameWorkspace(d, id, name, t).value);
      var i :| 0 <= i < |d.workspaces| && Some(d.workspaces[i].id) == d.activeWorkspaceId;
      assert e.workspaces[i].id == d.workspaces[i].id;
    }
  }

  /** Deleting clears a selection it would leave dangling. */
  lemma DeleteKeepsSelection(d: Document, id: string)
    requires SelectionExists(d)
    ensures SelectionExists(Commit(DeleteWorkspace(d, id)))
  {
    var e := Commit(DeleteWorkspace(d, id));
    SurvivorSelected(d.workspaces, e.workspaces, id, e.activeWorkspaceId);
  }

  /** An id other than the deleted one that named a workspace still names a
      survivor. */
  lemma SurvivorSelected(before: seq<Workspace>, after: seq<Workspace>, id: string, sel: Option<string>)
    requires forall w :: w in before && w.id != id ==> w in after
    requires sel.None? || (sel != Some(id) && exists i :: 0 <= i < |before| && Some(before[i].id) == sel)
    ensures sel.None? || exists k :: 0 <= k < |after| && Some(after[k].id) == sel
  {
    if sel.Some? {
      var i :| 0 <= i < |before| && Some(before[i].id) == sel;
      assert before[i] in after;
      var k :| 0 <= k < |after| && after[k] == before[i];
    }
  }

  /** Selecting refuses unknown ids, so the selection stays valid. */
  lemma SelectKeepsSelection(d: Document, sel: Option<string>)
    requires SelectionExists(d)
    ensures SelectionExists(Commit(SelectWorkspace(d, sel)))
  {
  }

  /** Actions that edit agendas keep every workspace id, so they keep the
      selection valid too. */
  lemma AgendaEditsKeepSelection(d: Document, e: Document, agendaId: string)
    requires OnlyAgendaEdited(d, e, agendaId)
    ensures SelectionExists(e) <==> SelectionExists(d)
  {
    assert forall i :: 0 <= i < |d.workspaces| ==> e.workspaces[i].id == d.workspaces[i].id by {
      forall i | 0 <= i < |d.workspaces|
        ensures e.workspaces[i].id == d.workspaces[i].id
      {
        assert WorkspaceFrame(d.workspaces[i], e.workspaces[i], d.activeWorkspaceId, agendaId);
      }
    }
  }
}
