/** The two shapes every action in `src/lib/actions/` takes inside
    `store.update`.

    The mapping shape returns nothing when no workspace is active, and otherwise
    returns `{ workspaces }`. In that result every workspace whose id is the
    active id is rebuilt with `modifiedAt` stamped, and every agenda whose id
    matches is passed through the action's own edit.

    The in-place shape finds the first active workspace and its first matching
    agenda. It returns nothing if either is missing. Otherwise it edits the
    draft in place and returns the whole draft.

    `Focus` names the agenda both shapes edit. The lemmas here show what the
    two shapes do to the focused agenda and what they leave alone. */
module Edit {
  import opened Wrappers
  import opened Seqs
  import opened Schema
  import opened StoreModel

  /** The clock as an action reads it: `new Date().toISOString()` and `Date.now()`. */
  datatype Time = Time(iso: string, millis: int)

  /** `agendas.map(a => a.id === agendaId ? f(a) : a)`. */
  function MapAgendas(agendas: seq<Agenda>, agendaId: string, f: Agenda -> Agenda): seq<Agenda> {
    seq(|agendas|, i requires 0 <= i < |agendas| =>
      if agendas[i].id == agendaId then f(agendas[i]) else agendas[i])
  }

  /** `workspaces.map(ws => ws.id === wsId ? g(ws) : ws)`. */
  function MapWorkspaces(wss: seq<Workspace>, wsId: string, g: Workspace -> Workspace): seq<Workspace> {
    seq(|wss|, i requires 0 <= i < |wss| => if wss[i].id == wsId then g(wss[i]) else wss[i])
  }

  /** The workspace-level mapping shape. */
  function InActiveWorkspace(d: Document, g: Workspace -> Workspace): Step {
    if !TruthyStr(d.activeWorkspaceId) then NoChange(d)
    else Step(d, Some(EmptyPatch.(workspaces := Some(MapWorkspaces(d.workspaces, d.activeWorkspaceId.value, g)))))
  }

  /** What the agenda-level mapping shape does to one active workspace. */
  function InAgenda(agendaId: string, f: Agenda -> Agenda, iso: string): Workspace -> Workspace {
    (ws: Workspace) => ws.(agendas := MapAgendas(ws.agendas, agendaId, f), modifiedAt := iso)
  }

  /** The agenda-level mapping shape. */
  function InActiveAgenda(d: Document, agendaId: string, f: Agenda -> Agenda, iso: string): Step {
    InActiveWorkspace(d, InAgenda(agendaId, f, iso))
  }

  /** `state.workspaces.findIndex(w => w.id === state.activeWorkspaceId)`. */
  function ActiveIndex(d: Document): Option<nat> {
    FindIndex(d.workspaces, (w: Workspace) => Some(w.id) == d.activeWorkspaceId)
  }

  /** `ws.agendas.findIndex(a => a.id === agendaId)`. */
  function AgendaIndex(ws: Workspace, agendaId: string): Option<nat> {
    FindIndex(ws.agendas, (a: Agenda) => a.id == agendaId)
  }

  /** The agenda an action on `agendaId` reaches first: the first agenda with
      that id in the first active workspace. */
  function Focus(d: Document, agendaId: string): (r: Option<Agenda>)
    ensures r.Some? ==> r.value.id == agendaId
  {
    match ActiveIndex(d)
    case None => None
    case Some(wi) =>
      match AgendaIndex(d.workspaces[wi], agendaId)
      case None => None
      case Some(ai) => Some(d.workspaces[wi].agendas[ai])
  }

  /** An agenda edit that never changes the agenda's id. */
  ghost predicate KeepsId(f: Agenda -> Agenda) {
    forall a: Agenda :: f(a).id == a.id
  }

  /** An in-place agenda edit that never changes the agenda's id. */
  ghost predicate KeepsIdIfAny(g: Agenda -> Option<Agenda>) {
    forall a: Agenda :: g(a).Some? ==> g(a).value.id == a.id
  }

  /** The focused agenda is an agenda of a workspace with the active id, and
      there is one whenever the first such workspace holds the agenda id. */
  lemma FocusFound(d: Document, agendaId: string)
    ensures Focus(d, agendaId).Some? ==>
      exists w :: w in d.workspaces && Some(w.id) == d.activeWorkspaceId && Focus(d, agendaId).value in w.agendas
    ensures ActiveIndex(d).Some? && (exists a :: a in d.workspaces[ActiveIndex(d).value].agendas && a.id == agendaId) ==>
      Focus(d, agendaId).Some?
  {
    if Focus(d, agendaId).Some? {
      var w := d.workspaces[ActiveIndex(d).value];
      assert Focus(d, agendaId).value == w.agendas[AgendaIndex(w, agendaId).value];
    }
  }

  /** The focused agenda after an edit: the edit applied to the focused agenda
      before it. */
  function FocusAfter(before: Option<Agenda>, f: Agenda -> Agenda): Option<Agenda> {
    match before
    case None => None
    case Some(a) => Some(f(a))
  }

  /** What an agenda-level action leaves alone. It keeps the selection, the
      schema version and the workspace list's length. It does not change
      inactive workspaces. In an active workspace it does not change the id,
      name, creation time or agenda count, nor any agenda with another id. */
  predicate OnlyAgendaEdited(d: Document, e: Document, agendaId: string) {
    && e.schemaVersion == d.schemaVersion
    && e.activeWorkspaceId == d.activeWorkspaceId
    && e.activeAgendaId == d.activeAgendaId
    && |e.workspaces| == |d.workspaces|
    && forall i :: 0 <= i < |d.workspaces| ==> WorkspaceFrame(d.workspaces[i], e.workspaces[i], d.activeWorkspaceId, agendaId)
  }

  predicate WorkspaceFrame(w: Workspace, v: Workspace, active: Option<string>, agendaId: string) {
    if Some(w.id) != active then v == w
    else
      && v.id == w.id && v.name == w.name && v.createdAt == w.createdAt
      && |v.agendas| == |w.agendas|
      && forall j :: 0 <= j < |w.agendas| ==>
           v.agendas[j].id == w.agendas[j].id && (w.agendas[j].id != agendaId ==> v.agendas[j] == w.agendas[j])
  }

  /** The first matches agree on two sequences that agree pointwise on the predicate. */
  lemma {:induction false} FindIndexSame<A, B>(xs: seq<A>, p: A -> bool, ys: seq<B>, q: B -> bool)
    requires |xs| == |ys| && forall i :: 0 <= i < |xs| ==> p(xs[i]) == q(ys[i])
    ensures FindIndex(xs, p) == FindIndex(ys, q)
  {
    if |xs| > 0 && !p(xs[0]) {
      FindIndexSame(xs[1..], p, ys[1..], q);
    }
  }

  /** The outcome of an agenda-level mapping action with edit f. Without an
      active workspace the document is unchanged. Otherwise only the frame's
      agendas change, and the focused agenda is f of the one before. */
  ghost predicate MapsFocus(d: Document, e: Document, agendaId: string, f: Agenda -> Agenda) {
    && OnlyAgendaEdited(d, e, agendaId)
    && (!TruthyStr(d.activeWorkspaceId) ==> e == d)
    && (TruthyStr(d.activeWorkspaceId) ==> Focus(e, agendaId) == FocusAfter(Focus(d, agendaId), f))
  }

  lemma InActiveAgendaEffect(d: Document, agendaId: string, f: Agenda -> Agenda, iso: string)
    requires KeepsId(f)
    ensures MapsFocus(d, Commit(InActiveAgenda(d, agendaId, f, iso)), agendaId, f)
    ensures MapsActive(d, Commit(InActiveAgenda(d, agendaId, f, iso)), InAgenda(agendaId, f, iso))
  {
    InActiveWorkspaceEffect(d, InAgenda(agendaId, f, iso));
    var e := Commit(InActiveAgenda(d, agendaId, f, iso));
    if TruthyStr(d.activeWorkspaceId) {
      var g := InAgenda(agendaId, f, iso);
      assert e.workspaces == MapWorkspaces(d.workspaces, d.activeWorkspaceId.value, g);
      forall i | 0 <= i < |d.workspaces|
        ensures WorkspaceFrame(d.workspaces[i], e.workspaces[i], d.activeWorkspaceId, agendaId)
      {
        var w := d.workspaces[i];
        if Some(w.id) == d.activeWorkspaceId {
          assert e.workspaces[i].agendas == MapAgendas(w.agendas, agendaId, f);
        }
      }
      FindIndexSame(d.workspaces, (w: Workspace) => Some(w.id) == d.activeWorkspaceId,
                    e.workspaces, (w: Workspace) => Some(w.id) == e.activeWorkspaceId);
      if ActiveIndex(d).Some? {
        var wi := ActiveIndex(d).value;
        FindIndexSame(d.workspaces[wi].agendas, (a: Agenda) => a.id == agendaId,
                      e.workspaces[wi].agendas, (a: Agenda) => a.id == agendaId);
      }
    }
  }

  /** A workspace the mapping reaches: the active id is truthy and names it. */
  predicate IsActive(d: Document, ws: Workspace) {
    TruthyStr(d.activeWorkspaceId) && Some(ws.id) == d.activeWorkspaceId
  }

  /** The outcome of a workspace-level mapping action with edit g: active
      workspaces go through g, everything else is kept. */
  ghost predicate MapsActive(d: Document, e: Document, g: Workspace -> Workspace) {
    && e.schemaVersion == d.schemaVersion
    && e.activeWorkspaceId == d.activeWorkspaceId && e.activeAgendaId == d.activeAgendaId
    && |e.workspaces| == |d.workspaces|
    && forall i :: 0 <= i < |d.workspaces| ==>
         e.workspaces[i] == if IsActive(d, d.workspaces[i]) then g(d.workspaces[i]) else d.workspaces[i]
  }

  lemma InActiveWorkspaceEffect(d: Document, g: Workspace -> Workspace)
    ensures MapsActive(d, Commit(InActiveWorkspace(d, g)), g)
  {
  }

  /** The in-place shape: the edit g runs on the focused agenda. g returns
      nothing when the action returns early. */
  function InPlace(d: Document, agendaId: string, g: Agenda -> Option<Agenda>, iso: string): Step {
    match ActiveIndex(d)
    case None => NoChange(d)
    case Some(wi) =>
      var ws := d.workspaces[wi];
      match AgendaIndex(ws, agendaId)
      case None => NoChange(d)
      case Some(ai) =>
        match g(ws.agendas[ai])
        case None => NoChange(d)
        case Some(a) =>
          var draft := d.(workspaces := d.workspaces[wi := ws.(agendas := ws.agendas[ai := a], modifiedAt := iso)]);
          Step(draft, Some(Whole(draft)))
  }

  /** The outcome of an in-place action with edit g. Nothing changes unless
      the focused agenda exists and g accepts it. Otherwise the focused agenda
      becomes g's result, its workspace is stamped, and every other workspace
      and agenda is untouched, including later ones that share the ids. */
  ghost predicate EditsFocusInPlace(d: Document, e: Document, agendaId: string, g: Agenda -> Option<Agenda>, iso: string) {
    && (Focus(d, agendaId).None? || g(Focus(d, agendaId).value).None? ==> e == d)
    && (Focus(d, agendaId).Some? && g(Focus(d, agendaId).value).Some? ==>
          && OnlyAgendaEdited(d, e, agendaId)
          && Focus(e, agendaId) == g(Focus(d, agendaId).value)
          && var wi := ActiveIndex(d).value;
             var ai := AgendaIndex(d.workspaces[wi], agendaId).value;
             && e.workspaces[wi].modifiedAt == iso
             && (forall i :: 0 <= i < |d.workspaces| && i != wi ==> e.workspaces[i] == d.workspaces[i])
             && (forall j :: 0 <= j < |d.workspaces[wi].agendas| && j != ai ==>
                   e.workspaces[wi].agendas[j] == d.workspaces[wi].agendas[j]))
  }

  lemma InPlaceEffect(d: Document, agendaId: string, g: Agenda -> Option<Agenda>, iso: string)
    requires KeepsIdIfAny(g)
    ensures EditsFocusInPlace(d, Commit(InPlace(d, agendaId, g, iso)), agendaId, g, iso)
  {
    var e := Commit(InPlace(d, agendaId, g, iso));
    if Focus(d, agendaId).Some? && g(Focus(d, agendaId).value).Some? {
      var wi := ActiveIndex(d).value;
      var ai := AgendaIndex(d.workspaces[wi], agendaId).value;
      var a := g(d.workspaces[wi].agendas[ai]).value;
      assert e.workspaces == d.workspaces[wi := d.workspaces[wi].(agendas := d.workspaces[wi].agendas[ai := a], modifiedAt := iso)];
      assert ActiveIndex(e) == Some(wi) by {
        FindIndexSame(d.workspaces, (w: Workspace) => Some(w.id) == d.activeWorkspaceId,
                      e.workspaces, (w: Workspace) => Some(w.id) == e.activeWorkspaceId);
      }
      assert AgendaIndex(e.workspaces[wi], agendaId) == Some(ai) by {
        FindIndexSame(d.workspaces[wi].agendas, (x: Agenda) => x.id == agendaId,
                      e.workspaces[wi].agendas, (x: Agenda) => x.id == agendaId);
      }
      assert Focus(e, agendaId) == Some(a);
    }
  }
}
