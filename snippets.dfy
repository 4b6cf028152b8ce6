/** The code-snippet actions of `src/lib/actions/snippets.js`. New snippets
    go first, so the list reads newest first. */
module SnippetActions {
  import opened Wrappers
  import opened Seqs
  import opened Schema
  import opened StoreModel
  import opened Edit

  /** The fields of `data` that `createSnippet` reads. */
  datatype SnippetData = SnippetData(
    title: Option<string>,
    code: Option<string>,
    language: Option<string>,
    description: Option<string>,
    tags: Option<seq<string>>)

  /** The fields an `updateSnippet` call may set. */
  datatype SnippetUpdate = SnippetUpdate(
    id: Option<string>,
    title: Option<string>,
    code: Option<string>,
    language: Option<string>,
    description: Option<string>,
    tags: Option<seq<string>>,
    createdAt: Option<string>)

  /** The snippet `createSnippet` builds, with `||`-defaults. Any array of
      tags, even an empty one, is truthy and kept. */
  function NewSnippet(data: SnippetData, id: string, iso: string): (s: Snippet)
    ensures s.id == id && s.createdAt == iso
    ensures s.title == (if TruthyStr(data.title) then data.title.value else "Untitled Snippet")
    ensures s.code == (if TruthyStr(data.code) then data.code.value else "")
    ensures s.language == (if TruthyStr(data.language) then data.language.value else "text")
    ensures s.description == (if TruthyStr(data.description) then data.description.value else "")
    ensures s.tags == (if data.tags.Some? then data.tags.value else [])
  {
    Snippet(id, StrOr(data.title, "Untitled Snippet"), StrOr(data.code, ""), StrOr(data.language, "text"),
      StrOr(data.description, ""), data.tags.GetOr([]), iso)
  }

  /** What `createSnippet` does to the agenda: the snippet goes first. */
  function AddSnippetIn(a: Agenda, s: Snippet): (r: Agenda)
    ensures r.snippets == [s] + a.snippets && r.(snippets := a.snippets) == a
  {
    a.(snippets := [s] + a.snippets)
  }

  /** What `deleteSnippet` does to the agenda: every snippet with the id goes. */
  function DeleteSnippetIn(a: Agenda, snippetId: string): (r: Agenda)
    ensures r.(snippets := a.snippets) == a
    ensures forall s :: s in r.snippets ==> s in a.snippets && s.id != snippetId
    ensures forall s :: s in a.snippets && s.id != snippetId ==> s in r.snippets
    ensures KeptInOrder(r.snippets, a.snippets, (s: Snippet) => s.id != snippetId)
  {
    var keep := (s: Snippet) => s.id != snippetId;
    FilterKeeps(a.snippets, keep);
    a.(snippets := Filter(a.snippets, keep))
  }

  /** Creating a snippet under an id no snippet uses, then deleting it, gives
      back the snippet list. */
  lemma CreateThenDeleteSnippet(a: Agenda, s: Snippet)
    requires forall x :: x in a.snippets ==> x.id != s.id
    ensures DeleteSnippetIn(AddSnippetIn(a, s), s.id) == a
  {
    var p := (x: Snippet) => x.id != s.id;
    FilterAll(a.snippets, p);
    assert ([s] + a.snippets)[1..] == a.snippets;
  }

  /** `{ ...s, ...updates }`. */
  function ApplySnippetUpdate(s: Snippet, u: SnippetUpdate): Snippet {
    Snippet(u.id.GetOr(s.id), u.title.GetOr(s.title), u.code.GetOr(s.code), u.language.GetOr(s.language),
      u.description.GetOr(s.description), u.tags.GetOr(s.tags), u.createdAt.GetOr(s.createdAt))
  }

  /** In every field the update's value wins when it carries one and the old
      value is kept otherwise; merging the same update twice is merging it
      once. */
  lemma ApplySnippetUpdateSpec(s: Snippet, u: SnippetUpdate)
    ensures var m := ApplySnippetUpdate(s, u);
      && Spreads(u.id, s.id, m.id)
      && Spreads(u.title, s.title, m.title)
      && Spreads(u.code, s.code, m.code)
      && Spreads(u.language, s.language, m.language)
      && Spreads(u.description, s.description, m.description)
      && Spreads(u.tags, s.tags, m.tags)
      && Spreads(u.createdAt, s.createdAt, m.createdAt)
      && (u == SnippetUpdate(None, None, None, None, None, None, None) ==> m == s)
      && ApplySnippetUpdate(m, u) == m
  {
  }

  /** What `updateSnippet` does to the agenda: every snippet with the id is
      merged with the update. */
  function UpdateSnippetIn(a: Agenda, snippetId: string, u: SnippetUpdate): (r: Agenda)
    ensures r.(snippets := a.snippets) == a && |r.snippets| == |a.snippets|
    ensures forall i :: 0 <= i < |a.snippets| ==>
      r.snippets[i] == if a.snippets[i].id == snippetId then ApplySnippetUpdate(a.snippets[i], u) else a.snippets[i]
  {
    a.(snippets := seq(|a.snippets|, i requires 0 <= i < |a.snippets| =>
      if a.snippets[i].id == snippetId then ApplySnippetUpdate(a.snippets[i], u) else a.snippets[i]))
  }

  /** `createSnippet` as handed to `store.update`. */
  function CreateSnippet(d: Document, agendaId: string, data: SnippetData, freshId: string, t: Time): (r: Step)
    ensures MapsFocus(d, Commit(r), agendaId, a => AddSnippetIn(a, NewSnippet(data, freshId, t.iso)))
  {
    var f := (a: Agenda) => AddSnippetIn(a, NewSnippet(data, freshId, t.iso));
    InActiveAgendaEffect(d, agendaId, f, t.iso);
    InActiveAgenda(d, agendaId, f, t.iso)
  }

  /** `deleteSnippet` as handed to `store.update`. */
  function DeleteSnippet(d: Document, agendaId: string, snippetId: string, t: Time): (r: Step)
    ensures MapsFocus(d, Commit(r), agendaId, a => DeleteSnippetIn(a, snippetId))
  {
    var f := (a: Agenda) => DeleteSnippetIn(a, snippetId);
    InActiveAgendaEffect(d, agendaId, f, t.iso);
    InActiveAgenda(d, agendaId, f, t.iso)
  }

  /** `updateSnippet` as handed to `store.update`. */
  function UpdateSnippet(d: Document, agendaId: string, snippetId: string, u: SnippetUpdate, t: Time): (r: Step)
    ensures MapsFocus(d, Commit(r), agendaId, a => UpdateSnippetIn(a, snippetId, u))
  {
    var f := (a: Agenda) => UpdateSnippetIn(a, snippetId, u);
    InActiveAgendaEffect(d, agendaId, f, t.iso);
    InActiveAgenda(d, agendaId, f, t.iso)
  }
}
