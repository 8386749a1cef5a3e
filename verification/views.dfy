/**
 * The view model's computed values: the filtered list, the counts, the
 * read/write "all completed" flag and the pluralised label.
 */
module Views {
  import opened Plans
  import opened Seqs

  predicate IsCompleted(p: Plan)
  {
    p.completed
  }

  predicate IsActive(p: Plan)
  {
    !p.completed
  }

  /** The completed plans, in list order. */
  function CompletedPlans(ps: seq<Plan>): (r: seq<Plan>)
    ensures forall p :: p in r <==> p in ps && p.completed
    ensures IsSubseq(r, ps)
  {
    FilterIsSubseq(IsCompleted, ps);
    Filter(IsCompleted, ps)
  }

  /** The plans not yet completed, in list order. */
  function ActivePlans(ps: seq<Plan>): (r: seq<Plan>)
    ensures forall p :: p in r <==> p in ps && !p.completed
    ensures IsSubseq(r, ps)
  {
    FilterIsSubseq(IsActive, ps);
    Filter(IsActive, ps)
  }

  /** The active and the completed plans split the list between them. */
  lemma ActiveCompletedPartition(ps: seq<Plan>)
    ensures multiset(ActivePlans(ps)) + multiset(CompletedPlans(ps)) == multiset(ps)
    ensures |ActivePlans(ps)| + |CompletedPlans(ps)| == |ps|
  {
    FilterPartition(IsActive, IsCompleted, ps);
  }

  /** The list the page shows for the current filter mode. */
  function FilteredPlans(s: Store): (r: seq<Plan>)
    ensures IsSubseq(r, s.plans)
    ensures s.showMode == "active" ==>
              forall p :: p in r <==> p in s.plans && !p.completed
    ensures s.showMode == "completed" ==>
              forall p :: p in r <==> p in s.plans && p.completed
    ensures s.showMode != "active" && s.showMode != "completed" ==> r == s.plans
  {
    match s.showMode
    case "active" => ActivePlans(s.plans)
    case "completed" => CompletedPlans(s.plans)
    case _ =>
      SubseqRefl(s.plans);
      s.plans
  }

  /** The footer's counts are the sizes of the filtered views. */
  lemma FilteredSizesAreCounts(s: Store)
    ensures s.showMode == "active" ==> |FilteredPlans(s)| == RemainingCount(s.plans)
    ensures s.showMode == "completed" ==> |FilteredPlans(s)| == CompletedCount(s.plans)
    ensures |FilteredPlans(s.(showMode := "active"))| + |FilteredPlans(s.(showMode := "completed"))|
            == |FilteredPlans(s.(showMode := "all"))|
  {
    ActiveCompletedPartition(s.plans);
  }

  /** The number of completed plans. */
  function CompletedCount(ps: seq<Plan>): (n: nat)
    ensures n <= |ps|
    ensures n == 0 <==> forall i :: 0 <= i < |ps| ==> !ps[i].completed
  {
    ActiveCompletedPartition(ps);
    var done := CompletedPlans(ps);
    assert |done| > 0 ==> done[0] in done;
    |done|
  }

  /** A plain tally of the completed plans, one by one. */
  function Tally(ps: seq<Plan>): nat
  {
    if |ps| == 0 then 0 else (if ps[0].completed then 1 else 0) + Tally(ps[1..])
  }

  /** The completed count is the tally of completed plans. */
  lemma {:induction false} CompletedCountIsTally(ps: seq<Plan>)
    ensures CompletedCount(ps) == Tally(ps)
  {
    if |ps| > 0 {
      CompletedCountIsTally(ps[1..]);
      assert CompletedPlans(ps) == Filter(IsCompleted, ps);
      assert CompletedPlans(ps[1..]) == Filter(IsCompleted, ps[1..]);
    }
  }

  /** The number of plans still to do: the size of the active view. */
  function RemainingCount(ps: seq<Plan>): (n: nat)
    ensures n == |ActivePlans(ps)|
    ensures n + CompletedCount(ps) == |ps|
  {
    ActiveCompletedPartition(ps);
    |ps| - CompletedCount(ps)
  }

  /** Reading "all completed": true exactly when no plan remains to do, so an
      empty list reads true. */
  function AllCompleted(ps: seq<Plan>): (b: bool)
    ensures b <==> forall i :: 0 <= i < |ps| ==> ps[i].completed
    ensures |ps| == 0 ==> b
  {
    var active := ActivePlans(ps);
    assert |active| > 0 ==> active[0] in active;
    RemainingCount(ps) == 0
  }

  /** Writing `v` to "all completed": every plan's `completed` becomes `v` and nothing
      else about the list changes. */
  function WriteAllCompleted(s: Store, v: bool): (r: Store)
    ensures |r.plans| == |s.plans|
    ensures forall i :: 0 <= i < |s.plans| ==>
              r.plans[i].completed == v && r.plans[i] == s.plans[i].(completed := v)
    ensures r.current == s.current && r.showMode == s.showMode && r.nextId == s.nextId
    ensures CompletedCount(r.plans) == if v then |s.plans| else 0
    ensures Valid(s) ==> Valid(r)
  {
    var ps := seq(|s.plans|, i requires 0 <= i < |s.plans| => s.plans[i].(completed := v));
    assert v ==> Filter(IsCompleted, ps) == ps by {
      if v { FilterKeepsAll(IsCompleted, ps); }
    }
    s.(plans := ps)
  }

  /** After a write of `v`, "all completed" reads `v`, except that an empty list
      always reads true. */
  lemma WriteThenReadAllCompleted(s: Store, v: bool)
    ensures AllCompleted(WriteAllCompleted(s, v).plans) == (v || |s.plans| == 0)
  {
    var r := WriteAllCompleted(s, v);
    if !v && |s.plans| > 0 {
      assert !r.plans[0].completed;
    }
  }

  /** The noun after a count: singular for exactly one plan, plural otherwise
      (zero included). */
  function GetLabel(count: int): (r: string)
    ensures r == "plan" <==> count == 1
    ensures r == "plans" <==> count != 1
  {
    if count == 1 then "plan" else "plans"
  }
}
