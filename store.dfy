/** The transactional store of `src/lib/store.js`: one live document, a set of
    listeners, and a one-shot `init`. Every `update` copies the state, runs the
    mutator on the copy, merges what it returns, saves, and notifies. Storage
    and listener calls are recorded in two ghost logs. */
module StoreModel {
  import opened Wrappers
  import opened Seqs
  import opened Schema
  import opened Validate

  /** The object a mutator returns: each key it sets overrides the draft's. */
  datatype Patch = Patch(
    schemaVersion: Option<int>,
    workspaces: Option<seq<Workspace>>,
    activeWorkspaceId: Option<Option<string>>,
    activeAgendaId: Option<Option<string>>)

  /** `{}`. */
  const EmptyPatch: Patch := Patch(None, None, None, None)

  /** The whole document returned as the patch (`return state`). */
  function Whole(d: Document): Patch {
    Patch(Some(d.schemaVersion), Some(d.workspaces), Some(d.activeWorkspaceId), Some(d.activeAgendaId))
  }

  /** `{ ...draft, ...result }`: returned keys win, the others come from the draft. */
  function Merge(d: Document, p: Patch): (r: Document)
    ensures r.schemaVersion == p.schemaVersion.GetOr(d.schemaVersion)
    ensures r.workspaces == p.workspaces.GetOr(d.workspaces)
    ensures r.activeWorkspaceId == p.activeWorkspaceId.GetOr(d.activeWorkspaceId)
    ensures r.activeAgendaId == p.activeAgendaId.GetOr(d.activeAgendaId)
  {
    Document(
      p.schemaVersion.GetOr(d.schemaVersion),
      p.workspaces.GetOr(d.workspaces),
      p.activeWorkspaceId.GetOr(d.activeWorkspaceId),
      p.activeAgendaId.GetOr(d.activeAgendaId))
  }

  /** What a mutator leaves behind: the draft as it mutated it, and the object
      it returned, if any. */
  datatype Step = Step(draft: Document, returned: Option<Patch>)

  /** A mutator that returned without touching its draft. */
  function NoChange(d: Document): Step {
    Step(d, None)
  }

  /** The merge rule of `update`: a returned object is merged over the draft;
      otherwise the draft is adopted as it is. */
  function Commit(step: Step): (r: Document)
    ensures step.returned.None? ==> r == step.draft
    ensures step.returned.Some? ==> r == Merge(step.draft, step.returned.value)
  {
    match step.returned
    case None => step.draft
    case Some(p) => Merge(step.draft, p)
  }

  /** Returning `{}`, returning nothing, or returning the draft itself all
      leave the draft as the next state. */
  lemma CommitKeepsDraft(d: Document)
    ensures Commit(NoChange(d)) == d
    ensures Commit(Step(d, Some(EmptyPatch))) == d
    ensures Commit(Step(d, Some(Whole(d)))) == d
  {
  }

  /** Returned keys override the draft and the other keys are the draft's:
      a draft with `activeWorkspaceId` a and `activeAgendaId` b, merged with a
      patch setting only `activeAgendaId` to c, has a and c. */
  lemma MergeOverrides(d: Document, c: Option<string>)
    ensures Merge(d, EmptyPatch.(activeAgendaId := Some(c))) == d.(activeAgendaId := c)
  {
  }

  /** A listener is an opaque observer; calling it is recorded as a delivery. */
  type ListenerId = nat

  datatype Delivery = Delivery(listener: ListenerId, state: Document)

  /** One delivery of the state to every listener, in subscription order. */
  function Broadcast(ls: seq<ListenerId>, s: Document): (r: seq<Delivery>)
    ensures |r| == |ls| && forall i :: 0 <= i < |ls| ==> r[i] == Delivery(ls[i], s)
  {
    seq(|ls|, i requires 0 <= i < |ls| => Delivery(ls[i], s))
  }

  predicate NoDuplicates(ls: seq<ListenerId>) {
    forall i, j :: 0 <= i < j < |ls| ==> ls[i] != ls[j]
  }

  class Store {
    var state: Document
    /** The listener `Set`, in insertion order (the order `forEach` visits). */
    var listeners: seq<ListenerId>
    var initialized: bool
    /** Every document written to storage, oldest first. */
    ghost var saved: seq<Document>
    /** Every listener call, oldest first. */
    ghost var delivered: seq<Delivery>

    ghost predicate Valid()
      reads this
    {
      NoDuplicates(listeners)
    }

    constructor ()
      ensures Valid()
      ensures state == InitialState() && listeners == [] && !initialized
      ensures saved == [] && delivered == []
    {
      state := InitialState();
      listeners := [];
      initialized := false;
      saved := [];
      delivered := [];
    }

    /** `init`: a no-op after the first call. The first call adopts the loaded
        document, or installs and saves the initial one, then notifies. */
    method Init(stored: Stored, env: Env)
      requires Valid()
      modifies this
      ensures Valid() && initialized && listeners == old(listeners)
      ensures old(initialized) ==>
        state == old(state) && saved == old(saved) && delivered == old(delivered)
      ensures !old(initialized) && LoadState(stored, env).Some? ==>
        state == LoadState(stored, env).value && saved == old(saved)
      ensures !old(initialized) && LoadState(stored, env).None? ==>
        state == InitialState() && saved == old(saved) + [InitialState()]
      ensures !old(initialized) ==> delivered == old(delivered) + Broadcast(listeners, state)
    {
      if initialized {
        return;
      }
      var loaded := LoadState(stored, env);
      if loaded.Some? {
        state := loaded.value;
      } else {
        state := InitialState();
        saved := saved + [state];
      }
      initialized := true;
      Notify();
    }

    /** `getState`: the live snapshot. */
    method GetState() returns (s: Document)
      ensures s == state
    {
      s := state;
    }

    /** `subscribe`: registers the listener (a no-op if it is already there)
        and calls it once with the current state. */
    method Subscribe(l: ListenerId)
      requires Valid()
      modifies this
      ensures Valid()
      ensures listeners == if l in old(listeners) then old(listeners) else old(listeners) + [l]
      ensures delivered == old(delivered) + [Delivery(l, state)]
      ensures state == old(state) && saved == old(saved) && initialized == old(initialized)
    {
      if l !in listeners {
        listeners := listeners + [l];
      }
      delivered := delivered + [Delivery(l, state)];
    }

    /** The function `subscribe` returns: removes that listener and no other. */
    method Unsubscribe(l: ListenerId)
      requires Valid()
      modifies this
      ensures Valid()
      ensures listeners == Filter(old(listeners), x => x != l)
      ensures l !in listeners && forall x :: x in old(listeners) && x != l ==> x in listeners
      ensures state == old(state) && saved == old(saved) && delivered == old(delivered)
      ensures initialized == old(initialized)
    {
      FilterSubsequence(listeners, x => x != l);
      listeners := Filter(listeners, x => x != l);
    }

    /** `notify`: calls every listener with the current state, in order. */
    method Notify()
      requires Valid()
      modifies this`delivered
      ensures delivered == old(delivered) + Broadcast(listeners, state)
    {
      for i := 0 to |listeners|
        invariant delivered == old(delivered) + Broadcast(listeners[..i], state)
      {
        assert Broadcast(listeners[..i + 1], state) == Broadcast(listeners[..i], state) + [Delivery(listeners[i], state)];
        delivered := delivered + [Delivery(listeners[i], state)];
      }
      assert listeners[..|listeners|] == listeners;
    }

    /** `update`: the mutator runs on a copy of the state; its result is
        committed by the merge rule, saved, and sent to every listener. A
        mutator that changes nothing still causes a save and a notification. */
    method Update(mutate: Document -> Step)
      requires Valid()
      modifies this
      ensures Valid()
      ensures state == Commit(mutate(old(state)))
      ensures saved == old(saved) + [state]
      ensures delivered == old(delivered) + Broadcast(listeners, state)
      ensures listeners == old(listeners) && initialized == old(initialized)
    {
      var draft := state;
      var step := mutate(draft);
      state := Commit(step);
      saved := saved + [state];
      Notify();
    }
  }
}
