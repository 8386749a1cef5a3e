/**
 * Building the view model from the plans saved in local storage.
 */
module Load {
  import opened Wrappers
  import opened Plans

  /** What the constructor reads from one saved entry: its `title` and `completed`.
      Any other field the entry carries is ignored. */
  datatype Record = Record(title: string, completed: bool)

  /** `new Plan(plan.title, plan.completed)` for a saved entry. */
  function FromRecord(id: nat, rec: Record): (p: Plan)
    ensures p.id == id && p.title == rec.title && p.completed == rec.completed
    ensures !p.editing && p.previousTitle.None?
  {
    Plan(id, rec.title, rec.completed, false, None)
  }

  /** The `ViewModel` constructor: one plan per saved entry, in the saved order,
      none of them being edited; the input box is empty and the filter shows all. */
  function NewViewModel(recs: seq<Record>): (s: Store)
    ensures |s.plans| == |recs|
    ensures forall i :: 0 <= i < |recs| ==>
              && s.plans[i].title == recs[i].title
              && s.plans[i].completed == recs[i].completed
              && !s.plans[i].editing
              && s.plans[i].previousTitle.None?
    ensures Valid(s)
    ensures s.current == [] && s.showMode == "all"
  {
    var ps := seq(|recs|, i requires 0 <= i < |recs| => FromRecord(i, recs[i]));
    Store(ps, [], "all", |recs|)
  }

  /** Start-up: the parsed snapshot if there is one (`plans || []`), else no plans. */
  function Startup(snapshot: Option<seq<Record>>): (s: Store)
    ensures snapshot.None? ==> s.plans == []
    ensures snapshot.Some? ==> ToRecords(s.plans) == snapshot.value
    ensures forall i :: 0 <= i < |s.plans| ==> !s.plans[i].editing && s.plans[i].previousTitle.None?
    ensures s.current == [] && s.showMode == "all"
    ensures Valid(s)
  {
    NewViewModel(snapshot.GetOr([]))
  }

  /** The `title` and `completed` of each plan: the part of a saved plan that the
      constructor reads back. */
  function ToRecords(ps: seq<Plan>): (recs: seq<Record>)
    ensures |recs| == |ps|
    ensures forall i :: 0 <= i < |ps| ==>
              recs[i].title == ps[i].title && recs[i].completed == ps[i].completed
  {
    seq(|ps|, i requires 0 <= i < |ps| => Record(ps[i].title, ps[i].completed))
  }

  /** Loading a snapshot and reading back its titles and flags gives the snapshot. */
  lemma LoadRoundTrip(recs: seq<Record>)
    ensures ToRecords(NewViewModel(recs).plans) == recs
  {
  }

  /** Reloading the plans of a store keeps every title and flag in its place, and
      drops the edit state. */
  lemma ReloadKeepsPlans(s: Store)
    ensures var t := Startup(Some(ToRecords(s.plans)));
            && |t.plans| == |s.plans|
            && forall i :: 0 <= i < |s.plans| ==>
                 t.plans[i] == s.plans[i].(id := i, editing := false, previousTitle := None)
  {
  }
}
