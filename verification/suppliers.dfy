/**
  The suppliers registry widget (`SupplierCrud`): a list of suppliers and a
  form with six string fields. Its create handler lets the trailing freshly
  generated id win over the form's `null` id, so every stored supplier has a
  non-null id and the edit path is reachable.
 */
module Suppliers {
  import opened Editor

  /** The six string fields of a supplier record and of the form. */
  datatype Fields = Fields(
    name: string,
    social: string,
    category: string,
    cnpj: string,
    email: string,
    phone: string)

  /** The names the form's inputs carry. `id` is not among them, so a field
      change can never alter the form's id. */
  datatype Field = Name | Social | Category | Cnpj | Email | Phone

  type Supplier = Rec<Fields>
  type Model = State<Fields>

  function Get(x: Fields, f: Field): string {
    match f
    case Name => x.name
    case Social => x.social
    case Category => x.category
    case Cnpj => x.cnpj
    case Email => x.email
    case Phone => x.phone
  }

  /** `{ ...prev, [name]: value }` on the fields: one named field takes the
      new value, every other field keeps its old one. */
  function Set(x: Fields, f: Field, v: string): (r: Fields)
    ensures Get(r, f) == v
    ensures forall g :: g != f ==> Get(r, g) == Get(x, g)
  {
    match f
    case Name => x.(name := v)
    case Social => x.(social := v)
    case Category => x.(category := v)
    case Cnpj => x.(cnpj := v)
    case Email => x.(email := v)
    case Phone => x.(phone := v)
  }

  const Blank: Fields := Fields("", "", "", "", "", "")

  /** The empty form: create mode, every field the empty string. */
  const EmptyForm: Supplier := Rec(Null, Blank)

  /** The state at mount: no suppliers, empty form. */
  const Init: Model := State([], EmptyForm)

  /** The mount state holds no suppliers and an empty form in create mode. */
  lemma InitIsEmptyCreateMode()
    ensures Init.list == [] && !IsEditing(Init.form)
    ensures forall f :: Get(Init.form.fields, f) == ""
  {
  }

  /** `handleChange`: sets one named field of the form. */
  function HandleChange(s: Model, f: Field, v: string): (r: Model)
    ensures r.list == s.list
    ensures r.form.id == s.form.id
    ensures Get(r.form.fields, f) == v
    ensures forall g :: g != f ==> Get(r.form.fields, g) == Get(s.form.fields, g)
  {
    s.(form := s.form.(fields := Set(s.form.fields, f, v)))
  }

  /** `clearForm`: back to create mode with six empty fields. */
  function ClearForm(s: Model): (r: Model)
    ensures r.list == s.list
    ensures r.form.id == Null && !IsEditing(r.form)
    ensures forall f :: Get(r.form.fields, f) == ""
  {
    s.(form := EmptyForm)
  }

  /** Clearing twice leaves the same state as clearing once. */
  lemma ClearFormIdempotent(s: Model)
    ensures ClearForm(ClearForm(s)) == ClearForm(s)
  {
  }

  /** `addSupplier`: prepends one supplier carrying the generated id and the
      form's fields, then clears the form. */
  function AddSupplier(s: Model, generated: nat): (r: Model)
    ensures |r.list| == |s.list| + 1
    ensures r.list[0].id == Num(generated) && r.list[0].id != Null
    ensures r.list[0].fields == s.form.fields
    ensures r.list[1..] == s.list
    ensures r.form == EmptyForm
  {
    ClearForm(s.(list := [Create(FreshIdLast, s.form, generated)] + s.list))
  }

  /** `startEdit`: copies a supplier, id included, into the form. */
  function StartEdit(s: Model, row: Supplier): (r: Model)
    ensures r.list == s.list
    ensures r.form == row
    ensures IsEditing(r.form) <==> row.id != Null
  {
    s.(form := row)
  }

  /** `updateSupplier`: every supplier whose id equals the form's id becomes a
      copy of the form, the others keep their place and value; then the form
      is cleared. */
  function UpdateSupplier(s: Model): (r: Model)
    ensures |r.list| == |s.list|
    ensures forall i :: 0 <= i < |s.list| && s.list[i].id == s.form.id ==> r.list[i] == s.form
    ensures forall i :: 0 <= i < |s.list| && s.list[i].id != s.form.id ==> r.list[i] == s.list[i]
    ensures (forall i :: 0 <= i < |s.list| ==> s.list[i].id != s.form.id) ==> r.list == s.list
    ensures r.form == EmptyForm
  {
    ClearForm(s.(list := ReplaceMatching(s.list, s.form)))
  }

  /** `removeSupplier`: when the confirmation dialog answers yes, keeps exactly
      the suppliers whose id differs; the form is never touched. */
  function RemoveSupplier(s: Model, id: Id, confirmed: bool): (r: Model)
    ensures r.form == s.form
    ensures !confirmed ==> r.list == s.list
    ensures confirmed ==> r.list == RemoveMatching(s.list, id)
    ensures confirmed ==> forall i :: 0 <= i < |r.list| ==> r.list[i] in s.list && r.list[i].id != id
    ensures confirmed ==> forall i :: 0 <= i < |s.list| && s.list[i].id != id ==> s.list[i] in r.list
    ensures confirmed ==> |r.list| == |s.list| - CountMatching(s.list, id)
    ensures (forall i :: 0 <= i < |s.list| ==> s.list[i].id != id) ==> r.list == s.list
  {
    if confirmed then s.(list := RemoveMatching(s.list, id)) else s
  }

  /** `handleSubmit`: update in edit mode, create otherwise; the form always
      ends cleared. */
  function HandleSubmit(s: Model, generated: nat): (r: Model)
    ensures r.form == EmptyForm
    ensures !IsEditing(s.form) ==> r.list == [Rec(Num(generated), s.form.fields)] + s.list
    ensures IsEditing(s.form) ==> |r.list| == |s.list|
    ensures IsEditing(s.form) ==> forall i :: 0 <= i < |s.list| ==>
      r.list[i] == (if s.list[i].id == s.form.id then s.form else s.list[i])
  {
    if IsEditing(s.form) then UpdateSupplier(s) else AddSupplier(s, generated)
  }

  /** The user events the widget reacts to. `Edit` and `Remove` come from a
      row's buttons; the generated id and the dialog's answer are inputs. */
  datatype Event =
    | Change(field: Field, value: string)
    | Cancel
    | Submit(generated: nat)
    | Edit(row: Supplier)
    | Remove(id: Id, confirmed: bool)

  function Step(s: Model, e: Event): Model {
    match e
    case Change(f, v) => HandleChange(s, f, v)
    case Cancel => ClearForm(s)
    case Submit(g) => HandleSubmit(s, g)
    case Edit(row) => StartEdit(s, row)
    case Remove(id, ok) => RemoveSupplier(s, id, ok)
  }

  /** The state after handling the events in order. */
  function Run(s: Model, events: seq<Event>): Model
    decreases |events|
  {
    if |events| == 0 then s else Run(Step(s, events[0]), events[1..])
  }

  /** No event stores a supplier with a null id: create stores the generated
      number, and update only writes the form where its id is non-null. */
  lemma StepKeepsIdsSet(s: Model, e: Event)
    requires AllIdsSet(s.list)
    ensures AllIdsSet(Step(s, e).list)
  {
  }

  lemma {:induction false} RunKeepsIdsSet(s: Model, events: seq<Event>)
    requires AllIdsSet(s.list)
    ensures AllIdsSet(Run(s, events).list)
    decreases |events|
  {
    if |events| > 0 {
      StepKeepsIdsSet(s, events[0]);
      RunKeepsIdsSet(Step(s, events[0]), events[1..]);
    }
  }

  /** In every reachable state, whatever rows were edited, every stored
      supplier has a non-null id. */
  lemma ReachableIdsSet(events: seq<Event>)
    ensures AllIdsSet(Run(Init, events).list)
  {
    RunKeepsIdsSet(Init, events);
  }

  /** In every reachable state, `isEditing` turns true as soon as any stored
      row is put in the form, so the next submit takes the update branch. */
  lemma StartEditEntersEditMode(events: seq<Event>, k: nat)
    requires k < |Run(Init, events).list|
    ensures var s := Run(Init, events);
      IsEditing(StartEdit(s, s.list[k]).form)
  {
    ReachableIdsSet(events);
  }

  /** Editing a stored supplier and submitting without touching a field leaves
      the list exactly as it was, provided no two suppliers share an id. */
  lemma EditThenSubmitIsIdentity(s: Model, k: nat, generated: nat)
    requires AllIdsSet(s.list)
    requires DistinctIds(s.list)
    requires k < |s.list|
    ensures HandleSubmit(StartEdit(s, s.list[k]), generated) == State(s.list, EmptyForm)
  {
    ReplaceByOwnRowIsIdentity(s.list, k);
  }

  /** Creating a supplier and then editing the new row puts the submitted
      fields back in the form, now in edit mode under the generated id. */
  lemma AddThenEditRestoresFields(s: Model, generated: nat)
    requires !IsEditing(s.form)
    ensures var t := HandleSubmit(s, generated);
      StartEdit(t, t.list[0]).form == Rec(Num(generated), s.form.fields)
  {
  }

  /** One submit event per generated id. */
  function Submits(gs: seq<nat>): (es: seq<Event>)
    ensures |es| == |gs|
    ensures forall i :: 0 <= i < |gs| ==> es[i] == Submit(gs[i])
  {
    if |gs| == 0 then [] else [Submit(gs[0])] + Submits(gs[1..])
  }

  /** A run of submits in create mode: each one prepends one supplier, so the
      list grows by the number of submits, the old list stays at the end, and
      the newest (last generated) supplier comes first. */
  lemma {:induction false} CreatesPrepend(s: Model, gs: seq<nat>)
    requires !IsEditing(s.form)
    ensures |Run(s, Submits(gs)).list| == |s.list| + |gs|
    ensures Run(s, Submits(gs)).list[|gs|..] == s.list
    ensures |gs| > 0 ==> Run(s, Submits(gs)).list[0].id == Num(gs[|gs| - 1])
    decreases |gs|
  {
    if |gs| > 0 {
      var t := Step(s, Submit(gs[0]));
      assert Submits(gs)[1..] == Submits(gs[1..]);
      CreatesPrepend(t, gs[1..]);
      var u := Run(t, Submits(gs[1..]));
      assert Run(s, Submits(gs)) == u;
      assert u.list[|gs|..] == u.list[|gs| - 1..][1..];
      if |gs| > 1 {
        assert gs[1..][|gs[1..]| - 1] == gs[|gs| - 1];
      }
    }
  }

  /** From a cleared form, typing a name and submitting prepends one supplier
      with that name, the generated id and every other field empty. */
  lemma NameThenSubmitCreates(s: Model, v: string, generated: nat)
    requires s.form == EmptyForm
    ensures Run(s, [Change(Name, v), Submit(generated)])
      == State([Rec(Num(generated), Blank.(name := v))] + s.list, EmptyForm)
  {
    var evs := [Change(Name, v), Submit(generated)];
    var t := HandleChange(s, Name, v);
    assert t.form == Rec(Null, Blank.(name := v));
    assert Run(s, evs) == Run(t, evs[1..]) == HandleSubmit(t, generated);
  }

  /** Renaming a stored supplier through its edit button changes that row's
      name in place and nothing else, provided ids are distinct and set. */
  lemma EditNameThenSubmitRenames(s: Model, k: nat, v: string, generated: nat)
    requires AllIdsSet(s.list)
    requires DistinctIds(s.list)
    requires k < |s.list|
    ensures Run(s, [Edit(s.list[k]), Change(Name, v), Submit(generated)])
      == State(s.list[k := s.list[k].(fields := s.list[k].fields.(name := v))], EmptyForm)
  {
    var evs := [Edit(s.list[k]), Change(Name, v), Submit(generated)];
    var row := s.list[k].(fields := s.list[k].fields.(name := v));
    var e := StartEdit(s, s.list[k]);
    var c := HandleChange(e, Name, v);
    assert c.form == row;
    assert Run(s, evs) == Run(e, evs[1..]) == Run(c, evs[2..]) == HandleSubmit(c, generated);
    var r := HandleSubmit(c, generated).list;
    forall i | 0 <= i < |s.list| ensures r[i] == s.list[k := row][i] {
      if i < k {
        assert s.list[i].id != s.list[k].id;
      } else if i > k {
        assert s.list[k].id != s.list[i].id;
      }
    }
  }

  /** Create A, create B, rename B to B2 through an edit, remove A. */
  lemma Scenario()
    ensures
      var a := Blank.(name := "A");
      var b := Blank.(name := "B");
      var b2 := Blank.(name := "B2");
      var s1 := Run(Init, [Change(Name, "A"), Submit(1)]);
      var s2 := Run(s1, [Change(Name, "B"), Submit(2)]);
      var s3 := Run(s2, [Edit(s2.list[0]), Change(Name, "B2"), Submit(3)]);
      var s4 := Run(s3, [Remove(Num(1), true)]);
      && s1.list == [Rec(Num(1), a)]
      && s2.list == [Rec(Num(2), b), Rec(Num(1), a)]
      && s3.list == [Rec(Num(2), b2), Rec(Num(1), a)]
      && s4.list == [Rec(Num(2), b2)]
  {
    var a := Blank.(name := "A");
    var b2 := Blank.(name := "B2");
    NameThenSubmitCreates(Init, "A", 1);
    var s1 := Run(Init, [Change(Name, "A"), Submit(1)]);
    NameThenSubmitCreates(s1, "B", 2);
    var s2 := Run(s1, [Change(Name, "B"), Submit(2)]);
    EditNameThenSubmitRenames(s2, 0, "B2", 3);
    var s3 := Run(s2, [Edit(s2.list[0]), Change(Name, "B2"), Submit(3)]);
    assert s3.list == [Rec(Num(2), b2), Rec(Num(1), a)];
    assert Run(s3, [Remove(Num(1), true)]).list == RemoveMatching(s3.list, Num(1));
  }

  /** Removal is by id, not by row: when two suppliers were generated with the
      same id, one confirmed remove drops both. */
  lemma RemoveDropsEveryDuplicate(x: Fields, y: Fields, n: int)
    ensures RemoveSupplier(State([Rec(Num(n), x), Rec(Num(n), y)], EmptyForm), Num(n), true).list == []
  {
  }
}
