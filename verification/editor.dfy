/**
  The record/list skeleton shared by the two registry widgets (suppliers and
  clients). Each widget holds a pair (list, form): the list of stored records,
  newest first, and a form draft of the same shape whose `id` is `null` in
  create mode and non-null in edit mode. Every handler is a synchronous, pure
  transform of that pair; this module holds the parts both widgets share.
 */
module Editor {

  /** An identifier as the widgets store it: JavaScript `null`, or the number
      produced by the id generator (`Date.now()` plus a random offset). */
  datatype Id = Null | Num(n: int)

  /** A stored record, or the form draft, which has the same shape: the `id`
      property plus the widget's own string fields `F`. */
  datatype Rec<F> = Rec(id: Id, fields: F)

  /** The component state: the stored list (newest first) and the form. */
  datatype State<F> = State(list: seq<Rec<F>>, form: Rec<F>)

  /** How the create handler's object literal decides the new record's id.
      In `{ id: gen(), ...form, id: gen() }` the trailing property wins;
      in `{ id: gen(), ...form }` the spread form's own `id` property wins,
      since the form always carries one, even when it is `null`. */
  datatype CreateRule = FreshIdLast | FormIdLast

  /** `isEditing`: the form is in edit mode exactly when its id is not `null`. */
  predicate IsEditing<F>(form: Rec<F>) {
    form.id != Null
  }

  /** The record the create handler builds from the form and the generated id. */
  function Create<F>(rule: CreateRule, form: Rec<F>, generated: nat): (r: Rec<F>)
    ensures r.fields == form.fields
    ensures rule == FreshIdLast ==> r.id == Num(generated)
    ensures rule == FormIdLast ==> r.id == form.id
    ensures r.id == Num(generated) <==> rule == FreshIdLast || form.id == Num(generated)
    ensures r.id == Null <==> rule == FormIdLast && form.id == Null
  {
    match rule
    case FreshIdLast => Rec(Num(generated), form.fields)
    case FormIdLast => Rec(form.id, form.fields)
  }

  /** The `map` of the update handler: every record whose id equals the form's
      id is replaced by a copy of the form; the others stay where they are. */
  function ReplaceMatching<F>(list: seq<Rec<F>>, form: Rec<F>): (r: seq<Rec<F>>)
    ensures |r| == |list|
    ensures forall i :: 0 <= i < |list| && list[i].id == form.id ==> r[i] == form
    ensures forall i :: 0 <= i < |list| && list[i].id != form.id ==> r[i] == list[i]
  {
    if |list| == 0 then []
    else [if list[0].id == form.id then form else list[0]] + ReplaceMatching(list[1..], form)
  }

  /** How many records carry the given id. */
  function CountMatching<F>(list: seq<Rec<F>>, id: Id): nat
  {
    if |list| == 0 then 0
    else (if list[0].id == id then 1 else 0) + CountMatching(list[1..], id)
  }

  /** The `filter` of the remove handler: keeps the records whose id differs. */
  function RemoveMatching<F>(list: seq<Rec<F>>, id: Id): (r: seq<Rec<F>>)
    ensures forall i :: 0 <= i < |r| ==> r[i] in list && r[i].id != id
    ensures forall i :: 0 <= i < |list| && list[i].id != id ==> list[i] in r
    ensures |r| + CountMatching(list, id) == |list|
    ensures (forall i :: 0 <= i < |list| ==> list[i].id != id) ==> r == list
  {
    if |list| == 0 then []
    else if list[0].id != id then [list[0]] + RemoveMatching(list[1..], id)
    else RemoveMatching(list[1..], id)
  }

  /** Every stored record has a non-null id. */
  predicate AllIdsSet<F>(list: seq<Rec<F>>) {
    forall i :: 0 <= i < |list| ==> list[i].id != Null
  }

  /** Every stored record has a null id. */
  predicate AllIdsNull<F>(list: seq<Rec<F>>) {
    forall i :: 0 <= i < |list| ==> list[i].id == Null
  }

  /** No two stored records share an id. Nothing in the widgets guarantees
      this; it appears only as a hypothesis. */
  predicate DistinctIds<F>(list: seq<Rec<F>>) {
    forall i, j :: 0 <= i < j < |list| ==> list[i].id != list[j].id
  }

  /** Filtering distributes over concatenation: together with the one-element
      cases this fixes the result's order as the original order. */
  lemma {:induction false} RemoveMatchingAppend<F>(a: seq<Rec<F>>, b: seq<Rec<F>>, id: Id)
    ensures RemoveMatching(a + b, id) == RemoveMatching(a, id) + RemoveMatching(b, id)
  {
    if |a| == 0 {
      assert a + b == b;
    } else {
      assert (a + b)[1..] == a[1..] + b;
      RemoveMatchingAppend(a[1..], b, id);
    }
  }

  /** With distinct ids, at most one record carries any given id. */
  lemma {:induction false} CountDistinctAtMostOne<F>(list: seq<Rec<F>>, id: Id)
    requires DistinctIds(list)
    ensures CountMatching(list, id) <= 1
    ensures CountMatching(list, id) == 1 <==> exists i :: 0 <= i < |list| && list[i].id == id
  {
    if |list| > 0 {
      var tail := list[1..];
      assert DistinctIds(tail) by {
        forall i, j | 0 <= i < j < |tail| ensures tail[i].id != tail[j].id {
          assert tail[i] == list[i + 1] && tail[j] == list[j + 1];
        }
      }
      CountDistinctAtMostOne(tail, id);
      if list[0].id == id {
        assert forall k :: 0 <= k < |tail| ==> tail[k].id != id by {
          forall k | 0 <= k < |tail| ensures tail[k].id != id {
            assert tail[k] == list[k + 1];
          }
        }
        CountZeroWhenAbsent(tail, id);
      } else {
        if exists i :: 0 <= i < |list| && list[i].id == id {
          var i :| 0 <= i < |list| && list[i].id == id;
          assert tail[i - 1] == list[i];
        }
        if exists k :: 0 <= k < |tail| && tail[k].id == id {
          var k :| 0 <= k < |tail| && tail[k].id == id;
          assert list[k + 1] == tail[k];
        }
      }
    }
  }

  /** A list in which no record carries the id has none to count. */
  lemma {:induction false} CountZeroWhenAbsent<F>(list: seq<Rec<F>>, id: Id)
    requires forall k :: 0 <= k < |list| ==> list[k].id != id
    ensures CountMatching(list, id) == 0
  {
    if |list| > 0 {
      CountZeroWhenAbsent(list[1..], id);
    }
  }

  /** When every record carries the same id, removing that id removes them all. */
  lemma {:induction false} RemoveSharedIdEmpties<F>(list: seq<Rec<F>>, id: Id)
    requires forall k :: 0 <= k < |list| ==> list[k].id == id
    ensures RemoveMatching(list, id) == []
  {
    if |list| > 0 {
      RemoveSharedIdEmpties(list[1..], id);
    }
  }

  /** With distinct ids, a confirmed remove of a present id drops exactly one
      record. */
  lemma RemoveDistinctDropsOne<F>(list: seq<Rec<F>>, k: nat)
    requires DistinctIds(list)
    requires k < |list|
    ensures |RemoveMatching(list, list[k].id)| == |list| - 1
    ensures list[k] !in RemoveMatching(list, list[k].id)
  {
    CountDistinctAtMostOne(list, list[k].id);
  }

  /** Replacing by a form that equals every record with its id changes nothing:
      the edit-then-submit round trip when the form was not touched. */
  lemma ReplaceByOwnRowIsIdentity<F>(list: seq<Rec<F>>, k: nat)
    requires DistinctIds(list)
    requires k < |list|
    ensures ReplaceMatching(list, list[k]) == list
  {
    var r := ReplaceMatching(list, list[k]);
    forall i | 0 <= i < |list| ensures r[i] == list[i] {
      if i != k {
        if i < k {
          assert list[i].id != list[k].id;
        } else {
          assert list[k].id != list[i].id;
        }
      }
    }
  }
}
