/**
 * The planner's state: plans and the view model that owns them.
 */
module Plans {
  import opened Wrappers
  import opened Seqs

  /** One plan of the list. In the program a plan is an object with observable
      `title`, `completed` and `editing` fields, plus a `previousTitle` property that
      editing adds to it; `id` stands in for the object's identity. */
  datatype Plan = Plan(id: nat, title: string, completed: bool, editing: bool,
                       previousTitle: Option<string>)

  /** The view model: the ordered plans, the text being typed into the new-plan box,
      and the filter mode the router writes (`"all"`, `"active"`, `"completed"`, or
      whatever else the URL says). `nextId` is the identity the next new plan gets:
      every identity below it has been handed out, so a new plan, like a new object,
      is distinct from every plan ever made, removed ones included. */
  datatype Store = Store(plans: seq<Plan>, current: string, showMode: string, nextId: nat)

  /** No two plans share an identity. */
  ghost predicate UniqueIds(ps: seq<Plan>)
  {
    forall i, j :: 0 <= i < j < |ps| ==> ps[i].id != ps[j].id
  }

  /** Every identity in `ps` was handed out before `next`. */
  ghost predicate IdsBelow(ps: seq<Plan>, next: nat)
  {
    forall i :: 0 <= i < |ps| ==> ps[i].id < next
  }

  ghost predicate Valid(s: Store)
  {
    UniqueIds(s.plans) && IdsBelow(s.plans, s.nextId)
  }

  /** A plan `new Plan(title)` builds: `completed` is left undefined, which every
      reader of it treats as false, and it is not being edited. */
  function NewPlan(id: nat, title: string): (p: Plan)
    ensures p.id == id && p.title == title
    ensures !p.completed && !p.editing && p.previousTitle.None?
  {
    Plan(id, title, false, false, None)
  }

  /** Where the plan with identity `id` sits in `ps`, if it is there at all. */
  function IndexOf(ps: seq<Plan>, id: nat): (r: Option<nat>)
    ensures r.Some? ==> r.value < |ps| && ps[r.value].id == id
    ensures r.None? <==> forall i :: 0 <= i < |ps| ==> ps[i].id != id
  {
    if |ps| == 0 then None
    else if ps[0].id == id then Some(0)
    else
      match IndexOf(ps[1..], id)
      case None => None
      case Some(k) => Some(k + 1)
  }

  /** With unique identities the plan found is the only one carrying `id`. */
  lemma IndexOfUnique(ps: seq<Plan>, id: nat, i: nat)
    requires UniqueIds(ps)
    requires i < |ps| && ps[i].id == id
    ensures IndexOf(ps, id) == Some(i)
  {
  }

  /** Dropping plans from a list never creates a clash of identities. */
  lemma {:induction false} SubseqUniqueIds(a: seq<Plan>, b: seq<Plan>)
    requires IsSubseq(a, b) && UniqueIds(b)
    ensures UniqueIds(a)
  {
    if |a| > 0 {
      assert UniqueIds(b[1..]);
      if a[0] == b[0] && IsSubseq(a[1..], b[1..]) {
        SubseqUniqueIds(a[1..], b[1..]);
        SubseqMembers(a[1..], b[1..]);
        forall j | 0 < j < |a| ensures a[0].id != a[j].id {
          assert a[j] in a[1..];
        }
      } else {
        SubseqUniqueIds(a, b[1..]);
      }
    }
  }
}
