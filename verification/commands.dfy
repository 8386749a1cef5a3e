/**
 * The view model's commands: adding, removing and editing plans.
 * A plan argument is named by its identity; a command on a plan that is no
 * longer in the list changes only that detached object, so the store stays as it was.
 */
module Commands {
  import opened Wrappers
  import opened Seqs
  import opened Text
  import opened Plans
  import opened Views

  /** `add`: the trimmed input, if any is left, becomes a new plan at the end of
      the list under an identity never handed out before, and the input box is cleared;
      white-space-only input changes nothing, not even the input box. */
  function Add(s: Store): (r: Store)
    ensures Trim(s.current) != [] ==>
              && |r.plans| == |s.plans| + 1
              && r.plans[..|s.plans|] == s.plans
              && r.plans[|s.plans|].title == Trim(s.current)
              && !r.plans[|s.plans|].completed
              && !r.plans[|s.plans|].editing
              && r.plans[|s.plans|].previousTitle.None?
              && r.plans[|s.plans|].id == s.nextId
              && r.nextId == s.nextId + 1
              && (Valid(s) ==> forall i :: 0 <= i < |s.plans| ==> s.plans[i].id != r.plans[|s.plans|].id)
              && r.current == []
              && r.showMode == s.showMode
    ensures Trim(s.current) == [] ==> r == s
    ensures Valid(s) ==> Valid(r)
  {
    var title := Trim(s.current);
    if title != [] then
      var p := NewPlan(s.nextId, title);
      var ps := s.plans + [p];
      assert ps[..|s.plans|] == s.plans;
      s.(plans := ps, current := [], nextId := s.nextId + 1)
    else
      s
  }

  /** `remove`: every plan with the given identity leaves the list; the rest stay,
      in order. A plan that is not there is a no-op. */
  function Remove(s: Store, id: nat): (r: Store)
    ensures forall p :: p in r.plans <==> p in s.plans && p.id != id
    ensures IsSubseq(r.plans, s.plans)
    ensures IndexOf(s.plans, id).None? ==> r == s
    ensures r.current == s.current && r.showMode == s.showMode && r.nextId == s.nextId
    ensures Valid(s) ==> Valid(r)
  {
    var keep := (p: Plan) => p.id != id;
    FilterIsSubseq(keep, s.plans);
    assert IndexOf(s.plans, id).None? ==> Filter(keep, s.plans) == s.plans by {
      if IndexOf(s.plans, id).None? { FilterKeepsAll(keep, s.plans); }
    }
    var ps := Filter(keep, s.plans);
    assert Valid(s) ==> UniqueIds(ps) by {
      if Valid(s) { SubseqUniqueIds(ps, s.plans); }
    }
    assert forall i :: 0 <= i < |ps| ==> ps[i] in ps;
    s.(plans := ps)
  }

  /** With identities unique, removing a listed plan cuts exactly its slot out of
      the list. */
  lemma RemoveCutsOne(s: Store, id: nat, k: nat)
    requires Valid(s)
    requires k < |s.plans| && s.plans[k].id == id
    ensures Remove(s, id).plans == s.plans[..k] + s.plans[k + 1..]
  {
    var keep := (p: Plan) => p.id != id;
    var ps := s.plans;
    assert ps == ps[..k] + ([ps[k]] + ps[k + 1..]);
    FilterConcat(keep, ps[..k], [ps[k]] + ps[k + 1..]);
    FilterConcat(keep, [ps[k]], ps[k + 1..]);
    FilterKeepsAll(keep, ps[..k]);
    FilterKeepsAll(keep, ps[k + 1..]);
  }

  /** `removeCompleted`: exactly the plans not yet completed remain, in order. */
  function RemoveCompleted(s: Store): (r: Store)
    ensures forall p :: p in r.plans <==> p in s.plans && !p.completed
    ensures IsSubseq(r.plans, s.plans)
    ensures |r.plans| == RemainingCount(s.plans)
    ensures CompletedCount(r.plans) == 0
    ensures r.current == s.current && r.showMode == s.showMode && r.nextId == s.nextId
    ensures Valid(s) ==> Valid(r)
  {
    var ps := ActivePlans(s.plans);
    assert forall i :: 0 <= i < |ps| ==> ps[i] in ps;
    assert Valid(s) ==> UniqueIds(ps) by {
      if Valid(s) { SubseqUniqueIds(ps, s.plans); }
    }
    s.(plans := ps)
  }

  /** Clearing completed plans a second time changes nothing. */
  lemma RemoveCompletedIdempotent(s: Store)
    ensures RemoveCompleted(RemoveCompleted(s)) == RemoveCompleted(s)
  {
    var r := RemoveCompleted(s);
    assert forall i :: 0 <= i < |r.plans| ==> IsActive(r.plans[i]) by {
      assert forall i :: 0 <= i < |r.plans| ==> r.plans[i] in r.plans;
    }
    FilterKeepsAll(IsActive, r.plans);
  }

  /** `editPlan`: the plan enters edit mode and remembers its current title as the
      one to fall back to; no other plan changes. */
  function EditPlan(s: Store, id: nat): (r: Store)
    ensures IndexOf(s.plans, id).None? ==> r == s
    ensures IndexOf(s.plans, id).Some? ==>
              var k := IndexOf(s.plans, id).value;
              && |r.plans| == |s.plans|
              && r.plans[k].editing
              && r.plans[k].previousTitle == Some(s.plans[k].title)
              && r.plans[k] == s.plans[k].(editing := r.plans[k].editing,
                                           previousTitle := r.plans[k].previousTitle)
              && (forall i :: 0 <= i < |s.plans| && i != k ==> r.plans[i] == s.plans[i])
    ensures r.current == s.current && r.showMode == s.showMode && r.nextId == s.nextId
    ensures Valid(s) ==> Valid(r)
  {
    match IndexOf(s.plans, id)
    case None => s
    case Some(k) =>
      var p := s.plans[k];
      s.(plans := s.plans[k := p.(editing := true, previousTitle := Some(p.title))])
  }

  /** The edit box writing `t` into a plan's title (a two-way binding of the page). */
  function SetTitle(s: Store, id: nat, t: string): (r: Store)
    ensures IndexOf(s.plans, id).None? ==> r == s
    ensures IndexOf(s.plans, id).Some? ==>
              var k := IndexOf(s.plans, id).value;
              && |r.plans| == |s.plans|
              && r.plans[k] == s.plans[k].(title := t)
              && (forall i :: 0 <= i < |s.plans| && i != k ==> r.plans[i] == s.plans[i])
    ensures r.current == s.current && r.showMode == s.showMode && r.nextId == s.nextId
    ensures Valid(s) ==> Valid(r)
  {
    match IndexOf(s.plans, id)
    case None => s
    case Some(k) => s.(plans := s.plans[k := s.plans[k].(title := t)])
  }

  /** A series of title writes into the same plan, oldest first. */
  function SetTitles(s: Store, id: nat, ts: seq<string>): Store
    decreases |ts|
  {
    if |ts| == 0 then s else SetTitles(SetTitle(s, id, ts[0]), id, ts[1..])
  }

  /** Title writes touch the title of one plan and nothing else: not its place,
      not its edit state, not the other plans. */
  lemma {:induction false} SetTitlesTouchOnlyTitle(s: Store, id: nat, ts: seq<string>, k: nat)
    requires k < |s.plans| && IndexOf(s.plans, id) == Some(k)
    ensures var r := SetTitles(s, id, ts);
            && |r.plans| == |s.plans|
            && IndexOf(r.plans, id) == Some(k)
            && r.plans[k] == s.plans[k].(title := r.plans[k].title)
            && (forall i :: 0 <= i < |s.plans| && i != k ==> r.plans[i] == s.plans[i])
            && r.current == s.current && r.showMode == s.showMode && r.nextId == s.nextId
    decreases |ts|
  {
    if |ts| > 0 {
      var s1 := SetTitle(s, id, ts[0]);
      IndexOfStable(s.plans, s1.plans, id, k);
      SetTitlesTouchOnlyTitle(s1, id, ts[1..], k);
    }
  }

  /** Changing a plan's fields other than its identity does not move it. */
  lemma {:induction false} IndexOfStable(ps: seq<Plan>, qs: seq<Plan>, id: nat, k: nat)
    requires IndexOf(ps, id) == Some(k)
    requires |qs| == |ps| && qs[k].id == id
    requires forall i :: 0 <= i < |ps| && i != k ==> qs[i] == ps[i]
    ensures IndexOf(qs, id) == Some(k)
    decreases k
  {
    if k > 0 {
      assert ps[0].id != id && qs[0] == ps[0];
      assert IndexOf(ps[1..], id) == Some(k - 1);
      forall i | 0 <= i < |ps| - 1 && i != k - 1 ensures qs[1..][i] == ps[1..][i] {
        assert qs[i + 1] == ps[i + 1];
      }
      IndexOfStable(ps[1..], qs[1..], id, k - 1);
    }
  }

  /** `saveEditing`: the plan leaves edit mode and its title is replaced by its
      trimmed form; if nothing is left of the title, the plan is removed instead.
      What that means for the list is stated by the lemmas below. */
  function SaveEditing(s: Store, id: nat): (r: Store)
    ensures IndexOf(s.plans, id).None? ==> r == s
    ensures r.current == s.current && r.showMode == s.showMode && r.nextId == s.nextId
    ensures Valid(s) ==> Valid(r)
  {
    match IndexOf(s.plans, id)
    case None => s
    case Some(k) =>
      var p := s.plans[k];
      var title := Trim(p.title);
      var saved := s.(plans := s.plans[k := p.(editing := false, title := title)]);
      if title == [] then Remove(saved, id) else saved
  }

  /** Saving a plan whose title has text in it keeps the plan in its place, out of
      edit mode and with the title trimmed; a title that was already trimmed is
      kept as it is. No other plan changes. */
  lemma SaveEditingCommits(s: Store, id: nat, k: nat)
    requires IndexOf(s.plans, id) == Some(k)
    requires Trim(s.plans[k].title) != []
    ensures var r := SaveEditing(s, id);
            && |r.plans| == |s.plans|
            && !r.plans[k].editing
            && r.plans[k].title == Trim(s.plans[k].title)
            && r.plans[k] == s.plans[k].(editing := false, title := r.plans[k].title)
            && (forall i :: 0 <= i < |s.plans| && i != k ==> r.plans[i] == s.plans[i])
            && (IsTrimmed(s.plans[k].title) ==> r.plans[k] == s.plans[k].(editing := false))
            && r.plans[k].id == id
  {
    if IsTrimmed(s.plans[k].title) {
      TrimOfTrimmed(s.plans[k].title);
    }
  }

  /** Saving a plan whose title is only white space removes it: the other plans
      stay, in order, and no plan with its identity is left. */
  lemma SaveEditingRemovesBlank(s: Store, id: nat, k: nat)
    requires IndexOf(s.plans, id) == Some(k)
    requires Trim(s.plans[k].title) == []
    ensures var r := SaveEditing(s, id);
            && (forall p :: p in r.plans <==> p in s.plans && p.id != id)
            && IsSubseq(r.plans, s.plans)
            && (forall i :: 0 <= i < |r.plans| ==> r.plans[i].id != id)
  {
    var p := s.plans[k];
    var edited := p.(editing := false, title := []);
    var saved := s.(plans := s.plans[k := edited]);
    var r := Remove(saved, id);
    assert SaveEditing(s, id) == r;
    forall q | q in r.plans ensures q in s.plans && q.id != id {
      var j :| 0 <= j < |saved.plans| && saved.plans[j] == q;
      assert j != k;
    }
    forall q | q in s.plans && q.id != id ensures q in r.plans {
      var j :| 0 <= j < |s.plans| && s.plans[j] == q;
      assert saved.plans[j] == q;
    }
    assert edited !in r.plans;
    SubseqOfEdited(s.plans, k, edited, r.plans);
    assert forall i :: 0 <= i < |r.plans| ==> r.plans[i] in r.plans;
  }

  /** Saving a plan with a blank title is removing it: the list left is the one
      `remove` leaves. */
  lemma SaveEditingBlankIsRemove(s: Store, id: nat, k: nat)
    requires IndexOf(s.plans, id) == Some(k)
    requires Trim(s.plans[k].title) == []
    ensures SaveEditing(s, id) == Remove(s, id)
  {
    var edited := s.plans[k].(editing := false, title := []);
    assert SaveEditing(s, id) == Remove(s.(plans := s.plans[k := edited]), id);
    FilterIgnoresDroppedSlot((p: Plan) => p.id != id, s.plans, k, edited);
  }

  /** A saved plan leaves the list exactly when its trimmed title is empty. */
  lemma SaveEditingRemovesIff(s: Store, id: nat, k: nat)
    requires IndexOf(s.plans, id) == Some(k)
    ensures (forall i :: 0 <= i < |SaveEditing(s, id).plans| ==> SaveEditing(s, id).plans[i].id != id)
            <==> Trim(s.plans[k].title) == []
  {
    if Trim(s.plans[k].title) == [] {
      SaveEditingRemovesBlank(s, id, k);
    } else {
      SaveEditingCommits(s, id, k);
    }
  }

  /** A subsequence that avoids slot `k` survives any change to that slot. */
  lemma {:induction false} SubseqOfEdited(ps: seq<Plan>, k: nat, p: Plan, a: seq<Plan>)
    requires k < |ps|
    requires IsSubseq(a, ps[k := p])
    requires p !in a
    ensures IsSubseq(a, ps)
  {
    if |a| > 0 {
      var qs := ps[k := p];
      if k == 0 {
        assert qs[1..] == ps[1..];
      } else if a[0] == qs[0] && IsSubseq(a[1..], qs[1..]) {
        assert qs[1..] == ps[1..][k - 1 := p];
        assert p !in a[1..] by { assert forall x :: x in a[1..] ==> x in a; }
        SubseqOfEdited(ps[1..], k - 1, p, a[1..]);
      } else {
        assert qs[1..] == ps[1..][k - 1 := p];
        SubseqOfEdited(ps[1..], k - 1, p, a);
      }
    }
  }

  /** Whether `cancelEditing` can restore the plan: `editPlan` has run on it at
      some point, so it has a title to fall back to. */
  predicate CanCancel(s: Store, id: nat)
  {
    match IndexOf(s.plans, id)
    case None => true
    case Some(k) => s.plans[k].previousTitle.Some?
  }

  /** `cancelEditing`: the plan leaves edit mode and gets back the title it had
      when editing began, whatever was typed since. */
  function CancelEditing(s: Store, id: nat): (r: Store)
    requires CanCancel(s, id)
    ensures IndexOf(s.plans, id).None? ==> r == s
    ensures IndexOf(s.plans, id).Some? ==>
              var k := IndexOf(s.plans, id).value;
              && |r.plans| == |s.plans|
              && !r.plans[k].editing
              && Some(r.plans[k].title) == s.plans[k].previousTitle
              && r.plans[k] == s.plans[k].(editing := false, title := r.plans[k].title)
              && (forall i :: 0 <= i < |s.plans| && i != k ==> r.plans[i] == s.plans[i])
    ensures r.current == s.current && r.showMode == s.showMode && r.nextId == s.nextId
    ensures Valid(s) ==> Valid(r)
  {
    match IndexOf(s.plans, id)
    case None => s
    case Some(k) =>
      var p := s.plans[k];
      s.(plans := s.plans[k := p.(editing := false, title := p.previousTitle.value)])
  }

  /** Editing a plan, typing anything into it and then cancelling puts the plan
      back as it was, only out of edit mode and still holding the remembered title;
      every other plan, the input box and the filter mode are untouched. */
  lemma EditCancelRoundTrip(s: Store, id: nat, k: nat, typed: seq<string>)
    requires k < |s.plans| && s.plans[k].id == id
    requires Valid(s)
    ensures var edited := SetTitles(EditPlan(s, id), id, typed);
            && CanCancel(edited, id)
            && var r := CancelEditing(edited, id);
               && |r.plans| == |s.plans|
               && r.plans[k] == s.plans[k].(editing := false,
                                            previousTitle := Some(s.plans[k].title))
               && (forall i :: 0 <= i < |s.plans| && i != k ==> r.plans[i] == s.plans[i])
               && r.current == s.current && r.showMode == s.showMode && r.nextId == s.nextId
  {
    IndexOfUnique(s.plans, id, k);
    var e := EditPlan(s, id);
    IndexOfStable(s.plans, e.plans, id, k);
    SetTitlesTouchOnlyTitle(e, id, typed, k);
  }

  /** Editing a plan and saving it without typing anything leaves a plan with a
      tidy title as it was, apart from the remembered title. */
  lemma EditSaveRoundTrip(s: Store, id: nat, k: nat)
    requires k < |s.plans| && s.plans[k].id == id
    requires Valid(s)
    requires IsTrimmed(s.plans[k].title) && s.plans[k].title != []
    ensures var r := SaveEditing(EditPlan(s, id), id);
            && |r.plans| == |s.plans|
            && r.plans[k] == s.plans[k].(editing := false,
                                         previousTitle := Some(s.plans[k].title))
            && (forall i :: 0 <= i < |s.plans| && i != k ==> r.plans[i] == s.plans[i])
  {
    IndexOfUnique(s.plans, id, k);
    var e := EditPlan(s, id);
    IndexOfStable(s.plans, e.plans, id, k);
  }

  /** `add` never hands out an identity already used: a plan that has left the list
      stays gone, so a later `remove` of it is still a no-op. */
  lemma {:induction false} AddKeepsRemovedGone(s: Store, id: nat)
    requires Valid(s)
    requires id < s.nextId && IndexOf(s.plans, id).None?
    ensures IndexOf(Add(s).plans, id).None?
    ensures Remove(Add(s), id) == Add(s)
  {
    var r := Add(s);
    forall i | 0 <= i < |r.plans| ensures r.plans[i].id != id {
      if i < |s.plans| { assert r.plans[i] == s.plans[i]; }
    }
  }

  /** Removing the plan `id`, adding a plan, then removing `id` again: the second
      remove, on a plan already gone, leaves the newly added plan in place. */
  lemma RemoveAddRemove(s: Store, id: nat, k: nat)
    requires Valid(s)
    requires k < |s.plans| && s.plans[k].id == id
    ensures var r := Add(Remove(s, id));
            Remove(r, id) == r
  {
    var s1 := Remove(s, id);
    assert IndexOf(s1.plans, id).None? by {
      assert forall i :: 0 <= i < |s1.plans| ==> s1.plans[i] in s1.plans;
    }
    assert s.plans[k].id < s.nextId;
    AddKeepsRemovedGone(s1, id);
  }

  /** Removing the plan `add` just appended gives back the list from before. */
  lemma AddThenRemove(s: Store)
    requires Valid(s)
    requires Trim(s.current) != []
    ensures var a := Add(s);
            Remove(a, a.plans[|s.plans|].id).plans == s.plans
  {
    var a := Add(s);
    RemoveCutsOne(a, a.plans[|s.plans|].id, |s.plans|);
  }
}
