/** The note-tree actions of `src/lib/actions/notes.js`. Notes and folders
    share one flat list per agenda; `parentId` links an item to its folder.
    Deleting an item deletes its whole subtree. Moving a folder is refused
    when the new parent lies inside it. */
module NoteActions {
  import opened Wrappers
  import opened Seqs
  import opened Schema
  import opened StoreModel
  import opened Edit

  // ----- createNote, createFolder -----

  /** What both create actions do to the agenda: append the item. */
  function AddNote(a: Agenda, n: Note): (r: Agenda)
    ensures r.notes == a.notes + [n] && r.(notes := a.notes) == a
  {
    a.(notes := a.notes + [n])
  }

  /** The note `createNote` builds. Omitted arguments take the parameter
      defaults (title `Untitled Note`, content empty). The id is the custom id
      when that is truthy, else a fresh one. */
  function NewNote(title: Option<string>, content: Option<string>, customId: Option<string>,
                   parentId: Option<string>, freshId: string, iso: string): (n: Note)
    ensures n.kind == "note" && n.content.Some? && n.parentId == parentId
    ensures n.id == (if TruthyStr(customId) then customId.value else freshId)
    ensures n.title == title.GetOr("Untitled Note") && n.content.value == content.GetOr("")
    ensures n.createdAt == iso && n.modifiedAt == iso
  {
    Note(StrOr(customId, freshId), "note", title.GetOr("Untitled Note"), Some(content.GetOr("")), parentId, iso, iso)
  }

  /** The folder `createFolder` builds: the name as title and no content. */
  function NewFolder(name: string, parentId: Option<string>, freshId: string, iso: string): (n: Note)
    ensures n.kind == "folder" && n.content.None? && n.title == name && n.parentId == parentId
    ensures n.id == freshId && n.createdAt == iso && n.modifiedAt == iso
  {
    Note(freshId, "folder", name, None, parentId, iso, iso)
  }

  /** `createNote` as handed to `store.update`. */
  function CreateNote(d: Document, agendaId: string, title: Option<string>, content: Option<string>,
                      customId: Option<string>, parentId: Option<string>, freshId: string, t: Time): (r: Step)
    ensures MapsFocus(d, Commit(r), agendaId, a => AddNote(a, NewNote(title, content, customId, parentId, freshId, t.iso)))
  {
    var f := (a: Agenda) => AddNote(a, NewNote(title, content, customId, parentId, freshId, t.iso));
    InActiveAgendaEffect(d, agendaId, f, t.iso);
    InActiveAgenda(d, agendaId, f, t.iso)
  }

  /** `createFolder` as handed to `store.update`. */
  function CreateFolder(d: Document, agendaId: string, name: string, parentId: Option<string>,
                        freshId: string, t: Time): (r: Step)
    ensures MapsFocus(d, Commit(r), agendaId, a => AddNote(a, NewFolder(name, parentId, freshId, t.iso)))
  {
    var f := (a: Agenda) => AddNote(a, NewFolder(name, parentId, freshId, t.iso));
    InActiveAgendaEffect(d, agendaId, f, t.iso);
    InActiveAgenda(d, agendaId, f, t.iso)
  }

  // ----- updateNote -----

  /** The fields an `updateNote` call may set. */
  datatype NoteUpdate = NoteUpdate(
    id: Option<string>,
    kind: Option<string>,
    title: Option<string>,
    content: Option<Option<string>>,
    parentId: Option<Option<string>>,
    createdAt: Option<string>)

  /** `{ ...note, ...updates, modifiedAt: now }`. */
  function ApplyNoteUpdate(n: Note, u: NoteUpdate, iso: string): Note {
    Note(u.id.GetOr(n.id), u.kind.GetOr(n.kind), u.title.GetOr(n.title), u.content.GetOr(n.content),
      u.parentId.GetOr(n.parentId), u.createdAt.GetOr(n.createdAt), iso)
  }

  /** What `updateNote` does to the agenda: every note with the id is merged
      with the update and stamped; the other notes are untouched. */
  function UpdateNoteIn(a: Agenda, noteId: string, u: NoteUpdate, iso: string): (r: Agenda)
    ensures r.(notes := a.notes) == a && |r.notes| == |a.notes|
    ensures forall i :: 0 <= i < |a.notes| && a.notes[i].id != noteId ==> r.notes[i] == a.notes[i]
    ensures forall i :: 0 <= i < |a.notes| && a.notes[i].id == noteId ==>
      r.notes[i] == ApplyNoteUpdate(a.notes[i], u, iso)
  {
    a.(notes := seq(|a.notes|, i requires 0 <= i < |a.notes| =>
      if a.notes[i].id == noteId then ApplyNoteUpdate(a.notes[i], u, iso) else a.notes[i]))
  }

  /** In every field the update's value wins when it carries one and the old
      value is kept otherwise, and the note is always stamped, even by an
      empty update. */
  lemma ApplyNoteUpdateSpec(n: Note, u: NoteUpdate, iso: string)
    ensures var m := ApplyNoteUpdate(n, u, iso);
      && m.modifiedAt == iso
      && Spreads(u.id, n.id, m.id)
      && Spreads(u.kind, n.kind, m.kind)
      && Spreads(u.title, n.title, m.title)
      && Spreads(u.content, n.content, m.content)
      && Spreads(u.parentId, n.parentId, m.parentId)
      && Spreads(u.createdAt, n.createdAt, m.createdAt)
      && (u == NoteUpdate(None, None, None, None, None, None) ==> m == n.(modifiedAt := iso))
      && ApplyNoteUpdate(m, u, iso) == m
  {
  }

  /** `updateNote` as handed to `store.update`. */
  function UpdateNote(d: Document, agendaId: string, noteId: string, u: NoteUpdate, t: Time): (r: Step)
    ensures MapsFocus(d, Commit(r), agendaId, a => UpdateNoteIn(a, noteId, u, t.iso))
  {
    var f := (a: Agenda) => UpdateNoteIn(a, noteId, u, t.iso);
    InActiveAgendaEffect(d, agendaId, f, t.iso);
    InActiveAgenda(d, agendaId, f, t.iso)
  }

  // ----- deleteItem, deleteNote -----

  /** The ids of the notes in the list. */
  function NoteIdSet(notes: seq<Note>): set<string> {
    set i | 0 <= i < |notes| :: notes[i].id
  }

  /** The ids of the notes whose parent is truthy and in s. */
  function Children(notes: seq<Note>, s: set<string>): set<string> {
    set i | 0 <= i < |notes| && TruthyStr(notes[i].parentId) && notes[i].parentId.value in s :: notes[i].id
  }

  /** A set of ids that holds the children of each of its members. */
  predicate Closed(notes: seq<Note>, s: set<string>) {
    Children(notes, s) <= s
  }

  /** Removing a larger part of L leaves less of L. */
  lemma DiffShrinks(l: set<string>, a: set<string>, b: set<string>, x: string)
    requires a <= b && x in b && x !in a && x in l
    ensures |l - b| < |l - a|
  {
    assert l - a == (l - b) + ((l - a) * b);
    assert (l - b) * ((l - a) * b) == {};
    assert x in (l - a) * b;
  }

  /** The subtree `deleteItem` removes: s grown by children until nothing
      changes. */
  function Closure(notes: seq<Note>, s: set<string>): set<string>
    decreases |NoteIdSet(notes) - s|
  {
    var next := s + Children(notes, s);
    if next == s then s
    else
      var x :| x in next && x !in s;
      DiffShrinks(NoteIdSet(notes), s, next, x);
      Closure(notes, next)
  }

  lemma {:induction false} ClosureSpec(notes: seq<Note>, s: set<string>)
    ensures s <= Closure(notes, s)
    ensures Closed(notes, Closure(notes, s))
    decreases |NoteIdSet(notes) - s|
  {
    var next := s + Children(notes, s);
    if next != s {
      var x :| x in next && x !in s;
      DiffShrinks(NoteIdSet(notes), s, next, x);
      ClosureSpec(notes, next);
    }
  }

  /** The closure is the least closed set holding the seed. */
  lemma {:induction false} ClosureLeast(notes: seq<Note>, s: set<string>, t: set<string>)
    requires s <= t && Closed(notes, t)
    ensures Closure(notes, s) <= t
    decreases |NoteIdSet(notes) - s|
  {
    var next := s + Children(notes, s);
    if next != s {
      var x :| x in next && x !in s;
      DiffShrinks(NoteIdSet(notes), s, next, x);
      forall y | y in Children(notes, s)
        ensures y in t
      {
        var i :| 0 <= i < |notes| && TruthyStr(notes[i].parentId) && notes[i].parentId.value in s && notes[i].id == y;
        assert y in Children(notes, t);
      }
      ClosureLeast(notes, next, t);
    }
  }

  /** The `while (changed)` loop of `deleteItem`. Each pass walks the notes in
      order and adds a note whose parent is truthy and already collected; ids
      added earlier in a pass count later in the same pass. */
  method CollectSubtree(notes: seq<Note>, itemId: string) returns (toDelete: set<string>)
    ensures toDelete == Closure(notes, {itemId})
  {
    ghost var l := Closure(notes, {itemId});
    ClosureSpec(notes, {itemId});
    toDelete := {itemId};
    var changed := true;
    while changed
      invariant {itemId} <= toDelete <= l
      invariant !changed ==> Closed(notes, toDelete)
      decreases |l - toDelete| + (if changed then 1 else 0)
    {
      changed := false;
      ghost var before := toDelete;
      ghost var added: string := "";
      for i := 0 to |notes|
        invariant before <= toDelete <= l
        invariant !changed ==> toDelete == before
        invariant changed ==> added in toDelete && added !in before && added in l
        invariant !changed ==> forall j :: 0 <= j < i && TruthyStr(notes[j].parentId) && notes[j].parentId.value in toDelete ==> notes[j].id in toDelete
      {
        var n := notes[i];
        if TruthyStr(n.parentId) && n.parentId.value in toDelete && n.id !in toDelete {
          assert n.id in Children(notes, l);
          toDelete := toDelete + {n.id};
          added := n.id;
          changed := true;
        }
      }
      if changed {
        DiffShrinks(l, before, toDelete, added);
      } else {
        forall y | y in Children(notes, toDelete)
          ensures y in toDelete
        {
          var j :| 0 <= j < |notes| && TruthyStr(notes[j].parentId) && notes[j].parentId.value in toDelete && notes[j].id == y;
        }
      }
    }
    ClosureLeast(notes, {itemId}, toDelete);
  }

  /** What `deleteItem` does to the agenda: keeps the notes outside the subtree. */
  function DeleteItemIn(a: Agenda, itemId: string): Agenda {
    var gone := Closure(a.notes, {itemId});
    a.(notes := Filter(a.notes, (n: Note) => n.id !in gone))
  }

  /** The item is gone, and so is every note whose parent is truthy and gone:
      no remaining note has a parent among the deleted ones. Every note
      outside the subtree stays, in its original order, and the subtree is the least set of ids with
      these properties. */
  lemma DeleteItemSpec(a: Agenda, itemId: string)
    ensures var r := DeleteItemIn(a, itemId);
      var gone := Closure(a.notes, {itemId});
      && r.(notes := a.notes) == a
      && itemId in gone && itemId !in NoteIdSet(r.notes)
      && (forall n :: n in r.notes ==> n in a.notes && n.id !in gone)
      && (forall n :: n in r.notes && TruthyStr(n.parentId) ==> n.parentId.value !in gone)
      && (forall n :: n in a.notes && n.id !in gone ==> n in r.notes)
      && KeptInOrder(r.notes, a.notes, (n: Note) => n.id !in gone)
      && (forall t :: itemId in t && Closed(a.notes, t) ==> gone <= t)
  {
    var gone := Closure(a.notes, {itemId});
    var r := DeleteItemIn(a, itemId);
    assert KeptInOrder(r.notes, a.notes, (n: Note) => n.id !in gone) by {
      FilterInOrder(a.notes, (n: Note) => n.id !in gone);
    }
    ClosureSpec(a.notes, {itemId});
    forall n | n in r.notes && TruthyStr(n.parentId)
      ensures n.parentId.value !in gone
    {
      var i :| 0 <= i < |a.notes| && a.notes[i] == n;
    }
    forall n | n in a.notes && n.id !in gone
      ensures n in r.notes
    {
      var i :| 0 <= i < |a.notes| && a.notes[i] == n;
    }
    forall t | itemId in t && Closed(a.notes, t)
      ensures gone <= t
    {
      ClosureLeast(a.notes, {itemId}, t);
    }
  }

  /** `deleteItem` as handed to `store.update`; `deleteNote` is the same call. */
  function DeleteItem(d: Document, agendaId: string, itemId: string, t: Time): (r: Step)
    ensures MapsFocus(d, Commit(r), agendaId, a => DeleteItemIn(a, itemId))
  {
    var f := (a: Agenda) => DeleteItemIn(a, itemId);
    InActiveAgendaEffect(d, agendaId, f, t.iso);
    InActiveAgenda(d, agendaId, f, t.iso)
  }

  // ----- moveItem -----

  /** One step of the walk up the tree. It gives the parent of the first note
      with the current id, or null when the current id is falsy or names no
      note. */
  function Next(notes: seq<Note>, cur: Option<string>): Option<string> {
    if !TruthyStr(cur) then None
    else
      match Find(notes, (n: Note) => n.id == cur.value)
      case None => None
      case Some(p) => p.parentId
  }

  /** The value `current` holds after k steps from `start`. */
  function Walk(notes: seq<Note>, start: Option<string>, k: nat): Option<string>
    decreases k
  {
    if k == 0 then start else Walk(notes, Next(notes, start), k - 1)
  }

  /** The cycle-check loop goes on past step k: `current` is truthy and is
      not the item. */
  predicate Continues(notes: seq<Note>, start: Option<string>, itemId: string, k: nat) {
    TruthyStr(Walk(notes, start, k)) && Walk(notes, start, k) != Some(itemId)
  }

  /** How the cycle check ends: it meets the item, it reaches a falsy parent,
      or it was cut off while still going. */
  datatype Verdict = Blocked | Clear | Loops

  /** The cycle check of `moveItem`, cut off after `fuel` steps. */
  function CycleCheck(notes: seq<Note>, cur: Option<string>, itemId: string, fuel: nat): Verdict
    decreases fuel
  {
    if !TruthyStr(cur) then Clear
    else if cur.value == itemId then Blocked
    else if fuel == 0 then Loops
    else CycleCheck(notes, Next(notes, cur), itemId, fuel - 1)
  }

  lemma {:induction false} WalkNext(notes: seq<Note>, start: Option<string>, k: nat)
    ensures Walk(notes, start, k + 1) == Next(notes, Walk(notes, start, k))
    decreases k
  {
    if k > 0 {
      WalkNext(notes, Next(notes, start), k - 1);
    }
  }

  /** A walk that goes on at its start and then for m steps from the next
      id goes on for its first m + 1 steps. */
  lemma LiftContinues(notes: seq<Note>, start: Option<string>, itemId: string, m: nat)
    requires Continues(notes, start, itemId, 0)
    requires forall j :: 0 <= j < m ==> Continues(notes, Next(notes, start), itemId, j)
    ensures forall j :: 0 <= j < m + 1 ==> Continues(notes, start, itemId, j)
  {
    forall j | 0 < j < m + 1
      ensures Continues(notes, start, itemId, j)
    {
      assert Continues(notes, Next(notes, start), itemId, j - 1);
    }
  }

  /** The cut-off check, step by step. It says `Loops` exactly when the loop
      goes on through every step up to the cut-off. It says `Blocked` or
      `Clear` when the loop stops within the cut-off, meeting the item or a
      falsy parent. */
  lemma {:induction false} CycleCheckMeaning(notes: seq<Note>, start: Option<string>, itemId: string, fuel: nat)
    ensures CycleCheck(notes, start, itemId, fuel) == Loops <==>
      forall j :: 0 <= j <= fuel ==> Continues(notes, start, itemId, j)
    ensures CycleCheck(notes, start, itemId, fuel) == Blocked ==>
      exists m :: 0 <= m <= fuel && TruthyStr(Walk(notes, start, m)) && Walk(notes, start, m) == Some(itemId)
        && forall j :: 0 <= j < m ==> Continues(notes, start, itemId, j)
    ensures CycleCheck(notes, start, itemId, fuel) == Clear ==>
      exists m :: 0 <= m <= fuel && !TruthyStr(Walk(notes, start, m))
        && forall j :: 0 <= j < m ==> Continues(notes, start, itemId, j)
    decreases fuel
  {
    if !TruthyStr(start) || start.value == itemId {
      assert Walk(notes, start, 0) == start;
      assert !Continues(notes, start, itemId, 0);
    } else if fuel > 0 {
      var next := Next(notes, start);
      CycleCheckMeaning(notes, next, itemId, fuel - 1);
      assert Continues(notes, start, itemId, 0);
      if CycleCheck(notes, start, itemId, fuel) == Loops {
        LiftContinues(notes, start, itemId, fuel);
      } else {
        var j :| 0 <= j <= fuel - 1 && !Continues(notes, next, itemId, j);
        assert !Continues(notes, start, itemId, j + 1);
        if CycleCheck(notes, start, itemId, fuel) == Blocked {
          var m :| 0 <= m <= fuel - 1 && TruthyStr(Walk(notes, next, m)) && Walk(notes, next, m) == Some(itemId)
            && forall j :: 0 <= j < m ==> Continues(notes, next, itemId, j);
          assert Walk(notes, start, m + 1) == Walk(notes, next, m);
          LiftContinues(notes, start, itemId, m);
        } else {
          var m :| 0 <= m <= fuel - 1 && !TruthyStr(Walk(notes, next, m))
            && forall j :: 0 <= j < m ==> Continues(notes, next, itemId, j);
          assert Walk(notes, start, m + 1) == Walk(notes, next, m);
          LiftContinues(notes, start, itemId, m);
        }
      }
    } else {
      assert Walk(notes, start, 0) == start;
    }
  }

  lemma {:induction false} NoteIdSetSize(notes: seq<Note>)
    ensures |NoteIdSet(notes)| <= |notes|
  {
    if |notes| > 0 {
      var init := notes[..|notes| - 1];
      NoteIdSetSize(init);
      assert NoteIdSet(notes) == NoteIdSet(init) + {notes[|notes| - 1].id} by {
        forall x | x in NoteIdSet(notes)
          ensures x in NoteIdSet(init) + {notes[|notes| - 1].id}
        {
          var i :| 0 <= i < |notes| && notes[i].id == x;
          if i < |notes| - 1 {
            assert init[i].id == x;
          }
        }
      }
    }
  }

  /** More values than room for them forces a repeat. */
  lemma {:induction false} Pigeonhole(xs: seq<string>, u: set<string>)
    requires forall i :: 0 <= i < |xs| ==> xs[i] in u
    requires |xs| > |u|
    ensures exists i, j :: 0 <= i < j < |xs| && xs[i] == xs[j]
  {
    if xs[0] in xs[1..] {
      var j :| 0 <= j < |xs[1..]| && xs[1..][j] == xs[0];
      assert xs[0] == xs[j + 1];
    } else {
      var rest := xs[1..];
      forall i | 0 <= i < |rest|
        ensures rest[i] in u - {xs[0]}
      {
        assert rest[i] == xs[i + 1];
      }
      Pigeonhole(rest, u - {xs[0]});
      var i, j :| 0 <= i < j < |rest| && rest[i] == rest[j];
      assert xs[i + 1] == xs[j + 1];
    }
  }

  /** Two equal points of the walk repeat in step. */
  lemma {:induction false} WalkPeriodic(notes: seq<Note>, start: Option<string>, i: nat, j: nat, m: nat)
    requires Walk(notes, start, i) == Walk(notes, start, j)
    ensures Walk(notes, start, i + m) == Walk(notes, start, j + m)
    decreases m
  {
    if m > 0 {
      WalkPeriodic(notes, start, i, j, m - 1);
      WalkNext(notes, start, i + m - 1);
      WalkNext(notes, start, j + m - 1);
    }
  }

  lemma {:induction false} ContinuesForever(notes: seq<Note>, start: Option<string>, itemId: string, i: nat, j: nat, k: nat)
    requires i < j && Walk(notes, start, i) == Walk(notes, start, j)
    requires forall m :: 0 <= m <= j ==> Continues(notes, start, itemId, m)
    ensures Continues(notes, start, itemId, k)
    decreases k
  {
    if k > j {
      WalkPeriodic(notes, start, i, j, k - j);
      assert Walk(notes, start, k) == Walk(notes, start, i + (k - j));
      ContinuesForever(notes, start, itemId, i, j, i + (k - j));
    }
  }

  /** A cut-off after one more step than there are notes is never premature:
      a check still going then goes on forever, because the walk has
      revisited an id and cycles without meeting the item. */
  lemma LoopsForever(notes: seq<Note>, start: Option<string>, itemId: string)
    requires CycleCheck(notes, start, itemId, |notes| + 1) == Loops
    ensures forall k: nat :: Continues(notes, start, itemId, k)
  {
    var n := |notes|;
    CycleCheckMeaning(notes, start, itemId, n + 1);
    var xs := seq(n + 1, j requires 0 <= j <= n => Walk(notes, start, j).GetOr(""));
    forall j | 0 <= j < |xs|
      ensures xs[j] in NoteIdSet(notes)
    {
      assert Continues(notes, start, itemId, j) && Continues(notes, start, itemId, j + 1);
      WalkNext(notes, start, j);
      var p :| 0 <= p < |notes| && notes[p].id == xs[j];
    }
    NoteIdSetSize(notes);
    Pigeonhole(xs, NoteIdSet(notes));
    var i, j :| 0 <= i < j < |xs| && xs[i] == xs[j];
    assert Continues(notes, start, itemId, i) && Continues(notes, start, itemId, j);
    forall k: nat
      ensures Continues(notes, start, itemId, k)
    {
      ContinuesForever(notes, start, itemId, i, j, k);
    }
  }

  /** Where the loop stops decides the check: it is blocked when it stops on
      a truthy value, that is on the item. */
  lemma StopDecides(notes: seq<Note>, start: Option<string>, itemId: string, i: nat)
    requires forall j :: 0 <= j < i ==> Continues(notes, start, itemId, j)
    requires !Continues(notes, start, itemId, i)
    ensures CycleCheck(notes, start, itemId, |notes| + 1) == if TruthyStr(Walk(notes, start, i)) then Blocked else Clear
  {
    var n := |notes|;
    CycleCheckMeaning(notes, start, itemId, n + 1);
    match CycleCheck(notes, start, itemId, n + 1)
    case Loops =>
      LoopsForever(notes, start, itemId);
      assert false;
    case Blocked =>
      var m :| 0 <= m <= n + 1 && TruthyStr(Walk(notes, start, m)) && Walk(notes, start, m) == Some(itemId)
        && forall j :: 0 <= j < m ==> Continues(notes, start, itemId, j);
      assert !Continues(notes, start, itemId, m);
      assert m == i;
    case Clear =>
      var m :| 0 <= m <= n + 1 && !TruthyStr(Walk(notes, start, m))
        && forall j :: 0 <= j < m ==> Continues(notes, start, itemId, j);
      assert !Continues(notes, start, itemId, m);
      assert m == i;
  }

  /** The `while (current)` loop of `moveItem`. It walks up from the new
      parent and reports whether it meets the item. It is called only where
      the loop ends, which `LoopsForever` shows a cut-off check can decide. */
  method WalksIntoItem(notes: seq<Note>, newParentId: Option<string>, itemId: string) returns (blocked: bool)
    requires exists k: nat :: !Continues(notes, newParentId, itemId, k)
    ensures blocked <==> CycleCheck(notes, newParentId, itemId, |notes| + 1) == Blocked
  {
    ghost var stop: nat :| !Continues(notes, newParentId, itemId, stop);
    var current := newParentId;
    ghost var i: nat := 0;
    while TruthyStr(current)
      invariant current == Walk(notes, newParentId, i)
      invariant forall j :: 0 <= j < i ==> Continues(notes, newParentId, itemId, j)
      invariant i <= stop
      decreases stop - i
    {
      if current.value == itemId {
        StopDecides(notes, newParentId, itemId, i);
        return true;
      }
      var p := Find(notes, (n: Note) => n.id == current.value);
      current := if p.Some? then p.value.parentId else None;
      WalkNext(notes, newParentId, i);
      i := i + 1;
    }
    StopDecides(notes, newParentId, itemId, i);
    blocked := false;
  }

  /** `notes.map(n => n.id === itemId ? { ...n, parentId, modifiedAt } : n)`. */
  function Reparent(notes: seq<Note>, itemId: string, newParentId: Option<string>, iso: string): (r: seq<Note>)
    ensures |r| == |notes|
    ensures forall i :: 0 <= i < |notes| ==>
      r[i] == if notes[i].id == itemId then notes[i].(parentId := newParentId, modifiedAt := iso) else notes[i]
  {
    seq(|notes|, i requires 0 <= i < |notes| =>
      if notes[i].id == itemId then notes[i].(parentId := newParentId, modifiedAt := iso) else notes[i])
  }

  /** `moveItem` on a folder whose check never ends: the mutator never returns. */
  predicate Hangs(a: Agenda, itemId: string, newParentId: Option<string>) {
    match Find(a.notes, (n: Note) => n.id == itemId)
    case None => false
    case Some(item) => item.kind == "folder" && CycleCheck(a.notes, newParentId, itemId, |a.notes| + 1) == Loops
  }

  /** What `moveItem` does to the agenda. An unknown item and a folder moved
      into its own subtree change nothing; otherwise every note with the id
      gets the new parent and is stamped. (When the agenda `Hangs` the result
      is never produced.) */
  function MoveItemIn(a: Agenda, itemId: string, newParentId: Option<string>, iso: string): Agenda {
    match Find(a.notes, (n: Note) => n.id == itemId)
    case None => a
    case Some(item) =>
      if item.kind == "folder" && CycleCheck(a.notes, newParentId, itemId, |a.notes| + 1) == Blocked then a
      else a.(notes := Reparent(a.notes, itemId, newParentId, iso))
  }

  /** A folder is refused exactly when walking up from the new parent meets
      the folder before reaching the root. A plain note is always moved. */
  lemma MoveItemSpec(a: Agenda, itemId: string, newParentId: Option<string>, iso: string)
    requires Find(a.notes, (n: Note) => n.id == itemId).Some?
    requires !Hangs(a, itemId, newParentId)
    ensures var item := Find(a.notes, (n: Note) => n.id == itemId).value;
      var refused := item.kind == "folder" &&
        exists m: nat :: TruthyStr(Walk(a.notes, newParentId, m)) && Walk(a.notes, newParentId, m) == Some(itemId)
          && forall j :: 0 <= j < m ==> Continues(a.notes, newParentId, itemId, j);
      && (refused ==> MoveItemIn(a, itemId, newParentId, iso) == a)
      && (!refused ==> MoveItemIn(a, itemId, newParentId, iso) == a.(notes := Reparent(a.notes, itemId, newParentId, iso)))
  {
    var item := Find(a.notes, (n: Note) => n.id == itemId).value;
    var notes := a.notes;
    CycleCheckMeaning(notes, newParentId, itemId, |notes| + 1);
    if item.kind == "folder" && CycleCheck(notes, newParentId, itemId, |notes| + 1) == Clear {
      var m :| 0 <= m <= |notes| + 1 && !TruthyStr(Walk(notes, newParentId, m))
        && forall j :: 0 <= j < m ==> Continues(notes, newParentId, itemId, j);
      forall m': nat | TruthyStr(Walk(notes, newParentId, m')) && Walk(notes, newParentId, m') == Some(itemId)
        ensures !forall j :: 0 <= j < m' ==> Continues(notes, newParentId, itemId, j)
      {
        assert !Continues(notes, newParentId, itemId, m');
        if m < m' {
          assert !Continues(notes, newParentId, itemId, m);
        }
      }
    }
  }

  /** Away from the item, a step of the walk is the same before and after the move. */
  lemma NextAfterMove(notes: seq<Note>, itemId: string, newParentId: Option<string>, iso: string, x: string)
    requires x != itemId
    ensures Next(Reparent(notes, itemId, newParentId, iso), Some(x)) == Next(notes, Some(x))
  {
    var moved := Reparent(notes, itemId, newParentId, iso);
    FindIndexSame(moved, (n: Note) => n.id == x, notes, (n: Note) => n.id == x);
  }

  /** A folder move the check accepts does not make the folder its own
      ancestor. Walking up from the moved folder reaches the root without
      passing through the folder again. */
  lemma FolderMoveAcyclic(a: Agenda, itemId: string, newParentId: Option<string>, iso: string)
    requires Find(a.notes, (n: Note) => n.id == itemId).Some?
    requires CycleCheck(a.notes, newParentId, itemId, |a.notes| + 1) == Clear
    ensures var moved := Reparent(a.notes, itemId, newParentId, iso);
      exists m :: m >= 1 && !TruthyStr(Walk(moved, Some(itemId), m))
        && forall j :: 1 <= j < m ==> Walk(moved, Some(itemId), j) != Some(itemId)
  {
    var notes := a.notes;
    var moved := Reparent(notes, itemId, newParentId, iso);
    if itemId == "" {
      assert Walk(moved, Some(itemId), 1) == Walk(moved, None, 0);
      return;
    }
    CycleCheckMeaning(notes, newParentId, itemId, |notes| + 1);
    var m0 :| 0 <= m0 <= |notes| + 1 && !TruthyStr(Walk(notes, newParentId, m0))
      && forall j :: 0 <= j < m0 ==> Continues(notes, newParentId, itemId, j);
    FindIndexSame(moved, (n: Note) => n.id == itemId, notes, (n: Note) => n.id == itemId);
    assert Next(moved, Some(itemId)) == newParentId;
    forall j | 0 <= j <= m0
      ensures Walk(moved, Some(itemId), j + 1) == Walk(notes, newParentId, j)
    {
      WalkAgree(notes, itemId, newParentId, iso, m0, j);
    }
    assert !TruthyStr(Walk(moved, Some(itemId), m0 + 1));
    forall j | 1 <= j < m0 + 1
      ensures Walk(moved, Some(itemId), j) != Some(itemId)
    {
      assert Continues(notes, newParentId, itemId, j - 1);
    }
  }

  /** Two note lists whose `Next` agree along the walk over the first give
      the same walk. */
  lemma {:induction false} WalkSame(n1: seq<Note>, n2: seq<Note>, start: Option<string>, j: nat)
    requires forall k :: 0 <= k < j ==> Next(n2, Walk(n1, start, k)) == Next(n1, Walk(n1, start, k))
    ensures Walk(n2, start, j) == Walk(n1, start, j)
    decreases j
  {
    if j > 0 {
      var next := Next(n1, start);
      assert Walk(n1, start, 0) == start;
      forall k | 0 <= k < j - 1
        ensures Next(n2, Walk(n1, next, k)) == Next(n1, Walk(n1, next, k))
      {
        assert Walk(n1, start, k + 1) == Walk(n1, next, k);
      }
      WalkSame(n1, n2, next, j - 1);
    }
  }

  lemma WalkAgree(notes: seq<Note>, itemId: string, newParentId: Option<string>, iso: string, m0: nat, j: nat)
    requires j <= m0 && forall k :: 0 <= k < m0 ==> Continues(notes, newParentId, itemId, k)
    ensures Walk(Reparent(notes, itemId, newParentId, iso), newParentId, j) == Walk(notes, newParentId, j)
  {
    var moved := Reparent(notes, itemId, newParentId, iso);
    forall k | 0 <= k < j
      ensures Next(moved, Walk(notes, newParentId, k)) == Next(notes, Walk(notes, newParentId, k))
    {
      assert Continues(notes, newParentId, itemId, k);
      NextAfterMove(notes, itemId, newParentId, iso, Walk(notes, newParentId, k).value);
    }
    WalkSame(notes, moved, newParentId, j);
  }

  /** Moving a folder under its own child is refused and changes nothing. */
  lemma FolderUnderChildRefused(iso: string, t: string)
    ensures var f1 := Note("f1", "folder", "F1", None, None, t, t);
      var f2 := Note("f2", "folder", "F2", None, Some("f1"), t, t);
      var a := Agenda("ag", "A", t, [f1, f2], [], [], None, None, [], [], [], map[]);
      MoveItemIn(a, "f1", Some("f2"), iso) == a
  {
    var f1 := Note("f1", "folder", "F1", None, None, t, t);
    var f2 := Note("f2", "folder", "F2", None, Some("f1"), t, t);
    FindIndexIs([f1, f2], (n: Note) => n.id == "f1", 0);
    FindIndexIs([f1, f2], (n: Note) => n.id == "f2", 1);
    assert Next([f1, f2], Some("f2")) == Some("f1");
    assert CycleCheck([f1, f2], Some("f1"), "f1", 2) == Blocked;
  }

  /** The load-time validator does not reject parent cycles. Two notes that
      are each other's parent make the check of any folder moved under
      either of them go round for ever. */
  lemma ParentCycleHangs(t: string)
    ensures var x := Note("x", "note", "X", Some(""), Some("y"), t, t);
      var y := Note("y", "note", "Y", Some(""), Some("x"), t, t);
      var f := Note("f", "folder", "F", None, None, t, t);
      Hangs(Agenda("ag", "A", t, [x, y, f], [], [], None, None, [], [], [], map[]), "f", Some("x"))
  {
    var x := Note("x", "note", "X", Some(""), Some("y"), t, t);
    var y := Note("y", "note", "Y", Some(""), Some("x"), t, t);
    var f := Note("f", "folder", "F", None, None, t, t);
    var notes := [x, y, f];
    FindIndexIs(notes, (n: Note) => n.id == "x", 0);
    FindIndexIs(notes, (n: Note) => n.id == "y", 1);
    FindIndexIs(notes, (n: Note) => n.id == "f", 2);
    assert Next(notes, Some("x")) == Some("y");
    assert Next(notes, Some("y")) == Some("x");
    assert CycleCheck(notes, Some("x"), "f", 0) == Loops;
    assert CycleCheck(notes, Some("y"), "f", 1) == Loops;
    assert CycleCheck(notes, Some("x"), "f", 2) == Loops;
    assert CycleCheck(notes, Some("y"), "f", 3) == Loops;
  }

  /** Whether some agenda the mapping visits `Hangs`; `moveItem` then never
      returns, so the update neither saves nor notifies. */
  predicate HangsIn(d: Document, agendaId: string, itemId: string, newParentId: Option<string>) {
    && TruthyStr(d.activeWorkspaceId)
    && exists i, j :: 0 <= i < |d.workspaces| && d.workspaces[i].id == d.activeWorkspaceId.value
         && 0 <= j < |d.workspaces[i].agendas| && d.workspaces[i].agendas[j].id == agendaId
         && Hangs(d.workspaces[i].agendas[j], itemId, newParentId)
  }

  /** `moveItem` as handed to `store.update`; `None` when it never returns. */
  function MoveItem(d: Document, agendaId: string, itemId: string, newParentId: Option<string>, t: Time): (r: Option<Step>)
    ensures r.None? <==> HangsIn(d, agendaId, itemId, newParentId)
    ensures r.Some? ==> MapsFocus(d, Commit(r.value), agendaId, a => MoveItemIn(a, itemId, newParentId, t.iso))
  {
    if HangsIn(d, agendaId, itemId, newParentId) then None
    else
      var f := (a: Agenda) => MoveItemIn(a, itemId, newParentId, t.iso);
      InActiveAgendaEffect(d, agendaId, f, t.iso);
      Some(InActiveAgenda(d, agendaId, f, t.iso))
  }
}
