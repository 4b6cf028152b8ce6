/** The journal actions of `src/lib/actions/journal.js`. An agenda holds a
    list of named journals, each a list of entries, newest first. An agenda
    may still carry the deprecated bare entry list (`journal`). Every action
    first migrates that list into a journal with id `default`. Every action
    also drops the deprecated key. */
module JournalActions {
  import opened Wrappers
  import opened Seqs
  import opened Text
  import opened Schema
  import opened StoreModel
  import opened Edit

  /** The journal list an action starts from. An existing list (even an empty
      one) is used as it is. Otherwise legacy entries are wrapped into a
      `default` journal of the given name. Failing both, the list is empty. */
  function StartingJournals(a: Agenda, name: string): (r: seq<Journal>)
    ensures a.journals.Some? ==> r == a.journals.value
    ensures a.journals.None? && a.legacyJournal.Some? ==> r == [Journal("default", name, a.legacyJournal.value)]
    ensures a.journals.None? && a.legacyJournal.None? ==> r == []
  {
    if a.journals.Some? then a.journals.value
    else if a.legacyJournal.Some? then [Journal("default", name, a.legacyJournal.value)]
    else []
  }

  /** The starting list, seeded with an empty `default` journal when empty. */
  function SeededJournals(a: Agenda, name: string): (r: seq<Journal>)
    ensures |r| > 0
    ensures |StartingJournals(a, name)| > 0 ==> r == StartingJournals(a, name)
    ensures |StartingJournals(a, name)| == 0 ==> r == [Journal("default", name, [])]
  {
    var js := StartingJournals(a, name);
    if |js| == 0 then [Journal("default", name, [])] else js
  }

  // ----- addEntry -----

  /** The journal `addEntry` writes to: the first with the requested id when
      one is given and found, else the first journal. */
  function TargetIndex(js: seq<Journal>, journalId: Option<string>): (k: nat)
    requires |js| > 0
    ensures k < |js|
    ensures TruthyStr(journalId) && HasJournal(js, journalId.value) ==>
      js[k].id == journalId.value && forall i :: 0 <= i < k ==> js[i].id != journalId.value
    ensures !(TruthyStr(journalId) && HasJournal(js, journalId.value)) ==> k == 0
  {
    if !TruthyStr(journalId) then 0
    else
      match FindIndex(js, (j: Journal) => j.id == journalId.value)
      case None => 0
      case Some(k) => k
  }

  predicate HasJournal(js: seq<Journal>, id: string) {
    exists i :: 0 <= i < |js| && js[i].id == id
  }

  /** What `addEntry` does to the agenda: the entry goes first in the target
      journal of the seeded list. */
  function AddEntryIn(a: Agenda, entry: JournalEntry, journalId: Option<string>): Agenda {
    var js := SeededJournals(a, "Main Journal");
    var k := TargetIndex(js, journalId);
    a.(journals := Some(js[k := js[k].(entries := [entry] + js[k].entries)]), legacyJournal := None)
  }

  /** The entry is the newest of its target journal, which keeps its other
      entries. Every other journal is as seeded. */
  lemma AddEntrySpec(a: Agenda, entry: JournalEntry, journalId: Option<string>)
    ensures var r := AddEntryIn(a, entry, journalId);
      var js := SeededJournals(a, "Main Journal");
      var k := TargetIndex(js, journalId);
      && r.(journals := a.journals, legacyJournal := a.legacyJournal) == a
      && r.journals.Some? && r.legacyJournal.None? && |r.journals.value| == |js|
      && r.journals.value[k].id == js[k].id && r.journals.value[k].name == js[k].name
      && r.journals.value[k].entries[0] == entry && r.journals.value[k].entries[1..] == js[k].entries
      && forall i :: 0 <= i < |js| && i != k ==> r.journals.value[i] == js[i]
  {
  }

  /** `addEntry` as handed to `store.update`. A missing or blank text issues
      no update; otherwise the entry carries the trimmed text. */
  function AddEntry(d: Document, agendaId: string, text: Option<string>, journalId: Option<string>,
                    entryId: string, t: Time): (r: Option<Step>)
    ensures r.None? <==> Refuses(text)
    ensures r.Some? ==> MapsFocus(d, Commit(r.value), agendaId,
      a => AddEntryIn(a, JournalEntry(entryId, Trim(text.value), t.iso), journalId))
  {
    if Refuses(text) then None
    else
      var f := (a: Agenda) => AddEntryIn(a, JournalEntry(entryId, Trim(text.value), t.iso), journalId);
      InActiveAgendaEffect(d, agendaId, f, t.iso);
      Some(InActiveAgenda(d, agendaId, f, t.iso))
  }

  // ----- deleteEntry -----

  /** `entries.filter(e => e.id !== entryId)`: the other entries, still
      newest first. */
  function WithoutEntry(es: seq<JournalEntry>, entryId: string): (r: seq<JournalEntry>)
    ensures KeptInOrder(r, es, (e: JournalEntry) => e.id != entryId)
  {
    var keep := (e: JournalEntry) => e.id != entryId;
    FilterKeeps(es, keep);
    Filter(es, keep)
  }

  /** What `deleteEntry` does to the agenda. It removes the entry from every
      journal with the given id, or from every journal when no id is given.
      An empty list is not seeded. */
  function DeleteEntryIn(a: Agenda, entryId: string, journalId: Option<string>): Agenda {
    var js := StartingJournals(a, "Main Journal");
    a.(journals := Some(seq(|js|, i requires 0 <= i < |js| =>
         if TruthyStr(journalId) && js[i].id != journalId.value then js[i]
         else js[i].(entries := WithoutEntry(js[i].entries, entryId)))),
       legacyJournal := None)
  }

  /** The journals keep their ids and names, untargeted journals keep their
      entries, and no targeted journal holds the entry any more. A targeted
      journal's entries are `WithoutEntry` of its old ones, so the others
      stay, newest first. */
  lemma DeleteEntrySpec(a: Agenda, entryId: string, journalId: Option<string>)
    ensures var r := DeleteEntryIn(a, entryId, journalId);
      var js := StartingJournals(a, "Main Journal");
      && r.(journals := a.journals, legacyJournal := a.legacyJournal) == a
      && r.journals.Some? && r.legacyJournal.None? && |r.journals.value| == |js|
      && forall i :: 0 <= i < |js| ==>
           var j := r.journals.value[i];
           && j.id == js[i].id && j.name == js[i].name
           && (TruthyStr(journalId) && js[i].id != journalId.value ==> j == js[i])
           && (!TruthyStr(journalId) || js[i].id == journalId.value ==>
                 && j.entries == WithoutEntry(js[i].entries, entryId)
                 && (forall e :: e in j.entries ==> e in js[i].entries && e.id != entryId)
                 && (forall e :: e in js[i].entries && e.id != entryId ==> e in j.entries))
  {
  }

  /** Adding an entry under a fresh id and deleting it again leaves the
      seeded journals as they were. This holds when no journal id is given
      or the given one exists. Under an unknown journal id, `addEntry`
      writes to the first journal, and `deleteEntry` with the same id never
      looks there. */
  lemma AddThenDeleteEntry(a: Agenda, entry: JournalEntry, journalId: Option<string>)
    requires forall j, e :: j in SeededJournals(a, "Main Journal") && e in j.entries ==> e.id != entry.id
    requires TruthyStr(journalId) ==> HasJournal(SeededJournals(a, "Main Journal"), journalId.value)
    ensures DeleteEntryIn(AddEntryIn(a, entry, journalId), entry.id, journalId).journals
      == Some(SeededJournals(a, "Main Journal"))
  {
    var js := SeededJournals(a, "Main Journal");
    var k := TargetIndex(js, journalId);
    var added := js[k := js[k].(entries := [entry] + js[k].entries)];
    var b := AddEntryIn(a, entry, journalId);
    assert b.journals == Some(added);
    var r := DeleteEntryIn(b, entry.id, journalId).journals.value;
    assert |r| == |js|;
    forall i | 0 <= i < |js|
      ensures r[i] == js[i]
    {
      if !TruthyStr(journalId) || added[i].id == journalId.value {
        assert r[i] == added[i].(entries := WithoutEntry(added[i].entries, entry.id));
        assert forall e :: e in js[i].entries ==> e.id != entry.id by {
          assert js[i] in js;
        }
        FreshEntryDeleted(js[i], added[i], entry);
      }
    }
    assert r == js;
  }

  /** Deleting a fresh entry from a journal, with or without that entry
      prepended, gives back the journal. */
  lemma FreshEntryDeleted(j0: Journal, j1: Journal, entry: JournalEntry)
    requires forall e :: e in j0.entries ==> e.id != entry.id
    requires j1 == j0 || j1 == j0.(entries := [entry] + j0.entries)
    ensures j1.(entries := WithoutEntry(j1.entries, entry.id)) == j0
  {
    FreshEntryGone(j0.entries, entry);
  }

  lemma FreshEntryGone(es: seq<JournalEntry>, entry: JournalEntry)
    requires forall e :: e in es ==> e.id != entry.id
    ensures WithoutEntry(es, entry.id) == es
    ensures WithoutEntry([entry] + es, entry.id) == es
  {
    FilterAll(es, (e: JournalEntry) => e.id != entry.id);
    assert ([entry] + es)[1..] == es;
  }

  /** `deleteEntry` as handed to `store.update`. */
  function DeleteEntry(d: Document, agendaId: string, entryId: string, journalId: Option<string>, t: Time): (r: Step)
    ensures MapsFocus(d, Commit(r), agendaId, a => DeleteEntryIn(a, entryId, journalId))
  {
    var f := (a: Agenda) => DeleteEntryIn(a, entryId, journalId);
    InActiveAgendaEffect(d, agendaId, f, t.iso);
    InActiveAgenda(d, agendaId, f, t.iso)
  }

  // ----- createJournal, renameJournal, deleteJournal -----

  /** What `createJournal` does to the agenda: an empty journal goes last. */
  function CreateJournalIn(a: Agenda, name: string, freshId: string): (r: Agenda)
    ensures r.journals == Some(SeededJournals(a, "Journal Principal") + [Journal(freshId, name, [])])
    ensures r.legacyJournal.None? && r.(journals := a.journals, legacyJournal := a.legacyJournal) == a
  {
    a.(journals := Some(SeededJournals(a, "Journal Principal") + [Journal(freshId, name, [])]), legacyJournal := None)
  }

  /** What `renameJournal` does to the agenda: every journal with the id
      takes the new name. */
  function RenameJournalIn(a: Agenda, journalId: string, newName: string): Agenda {
    var js := SeededJournals(a, "Journal Principal");
    a.(journals := Some(seq(|js|, i requires 0 <= i < |js| =>
         if js[i].id == journalId then js[i].(name := newName) else js[i])),
       legacyJournal := None)
  }

  /** What `deleteJournal` does to the agenda: every journal with the id
      goes, and the others stay in their order. */
  function DeleteJournalIn(a: Agenda, journalId: string): (r: Agenda)
    ensures r.(journals := a.journals, legacyJournal := a.legacyJournal) == a
    ensures r.journals.Some? && r.legacyJournal.None?
    ensures KeptInOrder(r.journals.value, StartingJournals(a, "Journal Principal"), (j: Journal) => j.id != journalId)
  {
    var keep := (j: Journal) => j.id != journalId;
    FilterKeeps(StartingJournals(a, "Journal Principal"), keep);
    a.(journals := Some(Filter(StartingJournals(a, "Journal Principal"), keep)),
       legacyJournal := None)
  }

  /** Legacy entries survive every journal action: migrated into the
      `default` journal, which keeps them unless that journal itself is
      deleted. After any journal action the deprecated key is gone. */
  lemma LegacyEntriesKept(a: Agenda, name: string, freshId: string, journalId: string, newName: string)
    requires a.journals.None? && a.legacyJournal.Some?
    ensures var legacy := Journal("default", "Journal Principal", a.legacyJournal.value);
      && CreateJournalIn(a, name, freshId).journals == Some([legacy, Journal(freshId, name, [])])
      && RenameJournalIn(a, journalId, newName).journals.value[0] ==
           (if journalId == "default" then legacy.(name := newName) else legacy)
      && DeleteJournalIn(a, journalId).journals == Some(if journalId == "default" then [] else [legacy])
      && CreateJournalIn(a, name, freshId).legacyJournal.None?
      && RenameJournalIn(a, journalId, newName).legacyJournal.None?
      && DeleteJournalIn(a, journalId).legacyJournal.None?
  {
    var legacy := Journal("default", "Journal Principal", a.legacyJournal.value);
    assert StartingJournals(a, "Journal Principal") == [legacy];
    assert SeededJournals(a, "Journal Principal") == [legacy];
    assert [legacy] + [Journal(freshId, name, [])] == [legacy, Journal(freshId, name, [])];
    assert Filter([legacy][1..], (j: Journal) => j.id != journalId) == [];
    var kept := Filter([legacy], (j: Journal) => j.id != journalId);
    assert kept == (if legacy.id != journalId then [legacy] else []) + Filter([legacy][1..], (j: Journal) => j.id != journalId);
    if journalId == "default" {
      assert kept == [];
    } else {
      assert kept == [legacy];
    }
    assert DeleteJournalIn(a, journalId).journals == Some(kept);
  }

  /** Renaming keeps the journals, their ids and their entries, and renames
      exactly the journals with the id. Deleting leaves no journal with the
      id and keeps every other one, in order. */
  lemma RenameDeleteJournalSpec(a: Agenda, journalId: string, newName: string)
    ensures var js := SeededJournals(a, "Journal Principal");
      var r := RenameJournalIn(a, journalId, newName).journals.value;
      && |r| == |js|
      && forall i :: 0 <= i < |js| ==>
           r[i].id == js[i].id && r[i].entries == js[i].entries
           && r[i].name == (if js[i].id == journalId then newName else js[i].name)
    ensures var js := StartingJournals(a, "Journal Principal");
      var r := DeleteJournalIn(a, journalId).journals.value;
      && (forall j :: j in r ==> j in js && j.id != journalId)
      && (forall j :: j in js && j.id != journalId ==> j in r)
      && KeptInOrder(r, js, (j: Journal) => j.id != journalId)
  {
    var js := StartingJournals(a, "Journal Principal");
    var r := DeleteJournalIn(a, journalId).journals.value;
    forall j | j in js && j.id != journalId
      ensures j in r
    {
      var i :| 0 <= i < |js| && js[i] == j;
    }
    forall j | j in r
      ensures j in js && j.id != journalId
    {
      var i :| 0 <= i < |r| && r[i] == j;
    }
  }

  /** `createJournal` as handed to `store.update`. */
  function CreateJournal(d: Document, agendaId: string, name: string, freshId: string, t: Time): (r: Step)
    ensures MapsFocus(d, Commit(r), agendaId, a => CreateJournalIn(a, name, freshId))
  {
    var f := (a: Agenda) => CreateJournalIn(a, name, freshId);
    InActiveAgendaEffect(d, agendaId, f, t.iso);
    InActiveAgenda(d, agendaId, f, t.iso)
  }

  /** `renameJournal` as handed to `store.update`. */
  function RenameJournal(d: Document, agendaId: string, journalId: string, newName: string, t: Time): (r: Step)
    ensures MapsFocus(d, Commit(r), agendaId, a => RenameJournalIn(a, journalId, newName))
  {
    var f := (a: Agenda) => RenameJournalIn(a, journalId, newName);
    InActiveAgendaEffect(d, agendaId, f, t.iso);
    InActiveAgenda(d, agendaId, f, t.iso)
  }

  /** `deleteJournal` as handed to `store.update`. */
  function DeleteJournal(d: Document, agendaId: string, journalId: string, t: Time): (r: Step)
    ensures MapsFocus(d, Commit(r), agendaId, a => DeleteJournalIn(a, journalId))
  {
    var f := (a: Agenda) => DeleteJournalIn(a, journalId);
    InActiveAgendaEffect(d, agendaId, f, t.iso);
    InActiveAgenda(d, agendaId, f, t.iso)
  }
}
