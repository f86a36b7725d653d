/**
  The clients registry widget (`ClientCrud`): a list of clients and a form with
  five string fields. It is a near-copy of the suppliers widget, but its create
  handler writes `{ id: ClientID(), ...clientForm }`: the form's own `id`
  property comes last and wins. In create mode that id is `null`, so every
  stored client has a null id, the widget never enters edit mode, and a
  confirmed remove of any client removes them all.

  The create rule is a parameter of the submit handler and of the event runner:
  `AsWritten` is the rule the widget uses, `Corrected` the suppliers' rule that
  the widget evidently intends.
 */
module Clients {
  import opened Editor

  /** The five string fields of a client record and of the form. */
  datatype Fields = Fields(
    name: string,
    kind: string,
    document: string,
    email: string,
    phone: string)

  /** The names the form's inputs carry (`name`, `type`, `document`, `email`,
      `phone`). `id` is not among them. */
  datatype Field = Name | Type | Document | Email | Phone

  type Client = Rec<Fields>
  type Model = State<Fields>

  /** The create rule of the widget as written: the spread form's id wins. */
  const AsWritten: CreateRule := FormIdLast

  /** The create rule the widget evidently intends: the generated id wins. */
  const Corrected: CreateRule := FreshIdLast

  function Get(x: Fields, f: Field): string {
    match f
    case Name => x.name
    case Type => x.kind
    case Document => x.document
    case Email => x.email
    case Phone => x.phone
  }

  /** `{ ...prev, [name]: value }` on the fields: one named field takes the
      new value, every other field keeps its old one. */
  function Set(x: Fields, f: Field, v: string): (r: Fields)
    ensures Get(r, f) == v
    ensures forall g :: g != f ==> Get(r, g) == Get(x, g)
  {
    match f
    case Name => x.(name := v)
    case Type => x.(kind := v)
    case Document => x.(document := v)
    case Email => x.(email := v)
    case Phone => x.(phone := v)
  }

  const Blank: Fields := Fields("", "", "", "", "")

  /** The empty form: create mode, every field the empty string. */
  const EmptyForm: Client := Rec(Null, Blank)

  /** The state at mount: no clients, empty form. */
  const Init: Model := State([], EmptyForm)

  /** The mount state holds no clients and an empty form in create mode. */
  lemma InitIsEmptyCreateMode()
    ensures Init.list == [] && !IsEditing(Init.form)
    ensures forall f :: Get(Init.form.fields, f) == ""
  {
  }

  /** `handleChange`: sets one named field of the form. */
  function HandleChange(s: Model, f: Field, v: string): (r: Model)
    ensures r.list == s.list
    ensures r.form.id == s.form.id
    ensures Get(r.form.fields, f) == v
    ensures forall g :: g != f ==> Get(r.form.fields, g) == Get(s.form.fields, g)
  {
    s.(form := s.form.(fields := Set(s.form.fields, f, v)))
  }

  /** `clearForm`: back to create mode with five empty fields. */
  function ClearForm(s: Model): (r: Model)
    ensures r.list == s.list
    ensures r.form.id == Null && !IsEditing(r.form)
    ensures forall f :: Get(r.form.fields, f) == ""
  {
    s.(form := EmptyForm)
  }

  /** Clearing twice leaves the same state as clearing once. */
  lemma ClearFormIdempotent(s: Model)
    ensures ClearForm(ClearForm(s)) == ClearForm(s)
  {
  }

  /** `addClient`: prepends one client built from the form under the given
      create rule, then clears the form. As written, the new client's id is
      the form's id and the generated one is lost. */
  function AddClient(rule: CreateRule, s: Model, generated: nat): (r: Model)
    ensures |r.list| == |s.list| + 1
    ensures r.list[0].fields == s.form.fields
    ensures rule == AsWritten ==> r.list[0] == s.form
    ensures rule == Corrected ==> r.list[0].id == Num(generated)
    ensures r.list[1..] == s.list
    ensures r.form == EmptyForm
  {
    ClearForm(s.(list := [Create(rule, s.form, generated)] + s.list))
  }

  /** `startEdit`: copies a client, id included, into the form. */
  function StartEdit(s: Model, row: Client): (r: Model)
    ensures r.list == s.list
    ensures r.form == row
    ensures IsEditing(r.form) <==> row.id != Null
  {
    s.(form := row)
  }

  /** `updateClient`: every client whose id equals the form's id becomes a copy
      of the form, the others keep their place and value; then the form is
      cleared. */
  function UpdateClient(s: Model): (r: Model)
    ensures |r.list| == |s.list|
    ensures forall i :: 0 <= i < |s.list| && s.list[i].id == s.form.id ==> r.list[i] == s.form
    ensures forall i :: 0 <= i < |s.list| && s.list[i].id != s.form.id ==> r.list[i] == s.list[i]
    ensures (forall i :: 0 <= i < |s.list| ==> s.list[i].id != s.form.id) ==> r.list == s.list
    ensures r.form == EmptyForm
  {
    ClearForm(s.(list := ReplaceMatching(s.list, s.form)))
  }

  /** `removeClient`: when the confirmation dialog answers yes, keeps exactly
      the clients whose id differs; the form is never touched. */
  function RemoveClient(s: Model, id: Id, confirmed: bool): (r: Model)
    ensures r.form == s.form
    ensures !confirmed ==> r.list == s.list
    ensures confirmed ==> r.list == RemoveMatching(s.list, id)
    ensures confirmed ==> forall i :: 0 <= i < |r.list| ==> r.list[i] in s.list && r.list[i].id != id
    ensures confirmed ==> forall i :: 0 <= i < |s.list| && s.list[i].id != id ==> s.list[i] in r.list
    ensures confirmed ==> |r.list| == |s.list| - CountMatching(s.list, id)
    ensures (forall i :: 0 <= i < |s.list| ==> s.list[i].id != id) ==> r.list == s.list
  {
    if confirmed then s.(list := RemoveMatching(s.list, id)) else s
  }

  /** `handleSubmit`: update in edit mode, create otherwise; the form always
      ends cleared. */
  function HandleSubmit(rule: CreateRule, s: Model, generated: nat): (r: Model)
    ensures r.form == EmptyForm
    ensures !IsEditing(s.form) ==> |r.list| == |s.list| + 1 && r.list[1..] == s.list
    ensures !IsEditing(s.form) && rule == AsWritten ==> r.list[0] == s.form && r.list[0].id == Null
    ensures IsEditing(s.form) ==> |r.list| == |s.list|
  {
    if IsEditing(s.form) then UpdateClient(s) else AddClient(rule, s, generated)
  }

  /** The user events the widget reacts to. `Edit` and `Remove` come from a
      row's buttons; the generated id and the dialog's answer are inputs. */
  datatype Event =
    | Change(field: Field, value: string)
    | Cancel
    | Submit(generated: nat)
    | Edit(row: Client)
    | Remove(id: Id, confirmed: bool)

  /** The table offers `Edit` only on a stored row. */
  predicate Enabled(s: Model, e: Event) {
    e.Edit? ==> e.row in s.list
  }

  function Step(rule: CreateRule, s: Model, e: Event): Model {
    match e
    case Change(f, v) => HandleChange(s, f, v)
    case Cancel => ClearForm(s)
    case Submit(g) => HandleSubmit(rule, s, g)
    case Edit(row) => StartEdit(s, row)
    case Remove(id, ok) => RemoveClient(s, id, ok)
  }

  /** The state after handling the events in order. */
  function Run(rule: CreateRule, s: Model, events: seq<Event>): Model
    decreases |events|
  {
    if |events| == 0 then s else Run(rule, Step(rule, s, events[0]), events[1..])
  }

  /** Every event of the run is enabled in the state it meets. */
  predicate Admissible(rule: CreateRule, s: Model, events: seq<Event>)
    decreases |events|
  {
    |events| == 0 || (Enabled(s, events[0]) && Admissible(rule, Step(rule, s, events[0]), events[1..]))
  }

  /** The invariant of the widget as written: the form is in create mode and
      every stored client has a null id. */
  predicate NullIds(s: Model) {
    s.form.id == Null && AllIdsNull(s.list)
  }

  lemma StepKeepsNullIds(s: Model, e: Event)
    requires NullIds(s)
    requires Enabled(s, e)
    ensures NullIds(Step(AsWritten, s, e))
  {
    if e.Edit? {
      var k :| 0 <= k < |s.list| && s.list[k] == e.row;
    }
  }

  lemma {:induction false} RunKeepsNullIds(s: Model, events: seq<Event>)
    requires NullIds(s)
    requires Admissible(AsWritten, s, events)
    ensures NullIds(Run(AsWritten, s, events))
    decreases |events|
  {
    if |events| > 0 {
      StepKeepsNullIds(s, events[0]);
      RunKeepsNullIds(Step(AsWritten, s, events[0]), events[1..]);
    }
  }

  /** In every reachable state of the widget as written, the form's id is
      null, so the widget is never in edit mode, and every stored client has a
      null id. */
  lemma ReachableIdsNull(events: seq<Event>)
    requires Admissible(AsWritten, Init, events)
    ensures var t := Run(AsWritten, Init, events);
      t.form.id == Null && !IsEditing(t.form) && AllIdsNull(t.list)
  {
    RunKeepsNullIds(Init, events);
  }

  /** Under the invariant, submit always takes the create branch:
      `updateClient` is never reached, and the form, null id included, is
      prepended as it stands. */
  lemma SubmitNeverUpdates(s: Model, generated: nat)
    requires NullIds(s)
    ensures HandleSubmit(AsWritten, s, generated) == State([s.form] + s.list, EmptyForm)
  {
  }

  /** Editing a stored client and submitting prepends a copy of it instead of
      replacing it: the list grows by one. */
  lemma EditThenSubmitDuplicates(s: Model, k: nat, generated: nat)
    requires NullIds(s)
    requires k < |s.list|
    ensures HandleSubmit(AsWritten, StartEdit(s, s.list[k]), generated).list == [s.list[k]] + s.list
  {
  }

  /** Under the invariant, a confirmed remove of any stored client's id
      empties the list, and a declined one changes nothing. */
  lemma RemoveAnyEmptiesList(s: Model, k: nat, confirmed: bool)
    requires NullIds(s)
    requires k < |s.list|
    ensures confirmed ==> RemoveClient(s, s.list[k].id, confirmed).list == []
    ensures !confirmed ==> RemoveClient(s, s.list[k].id, confirmed) == s
  {
    RemoveSharedIdEmpties(s.list, Null);
  }

  /** Create A, then create B: both are stored with a null id, B first. A
      confirmed remove from A's row then removes B as well. */
  lemma TwoClientsOneRemove()
    ensures var s := Run(AsWritten, Init, [Change(Name, "A"), Submit(7), Change(Name, "B"), Submit(8)]);
      && |s.list| == 2
      && s.list[0] == Rec(Null, Blank.(name := "B"))
      && s.list[1] == Rec(Null, Blank.(name := "A"))
      && RemoveClient(s, s.list[1].id, true).list == []
  {
    var s1 := HandleChange(Init, Name, "A");
    var s2 := HandleSubmit(AsWritten, s1, 7);
    var s3 := HandleChange(s2, Name, "B");
    var s4 := HandleSubmit(AsWritten, s3, 8);
    var evs := [Change(Name, "A"), Submit(7), Change(Name, "B"), Submit(8)];
    assert Run(AsWritten, Init, evs) == Run(AsWritten, s1, evs[1..]);
    assert Run(AsWritten, s1, evs[1..]) == Run(AsWritten, s2, evs[2..]);
    assert Run(AsWritten, s2, evs[2..]) == Run(AsWritten, s3, evs[3..]);
    assert Run(AsWritten, s3, evs[3..]) == s4;
  }

  /** With the corrected create rule no event stores a client with a null
      id, whatever rows were edited. */
  lemma CorrectedStepKeepsIdsSet(s: Model, e: Event)
    requires AllIdsSet(s.list)
    ensures AllIdsSet(Step(Corrected, s, e).list)
  {
  }

  lemma {:induction false} CorrectedRunKeepsIdsSet(s: Model, events: seq<Event>)
    requires AllIdsSet(s.list)
    ensures AllIdsSet(Run(Corrected, s, events).list)
    decreases |events|
  {
    if |events| > 0 {
      CorrectedStepKeepsIdsSet(s, events[0]);
      CorrectedRunKeepsIdsSet(Step(Corrected, s, events[0]), events[1..]);
    }
  }

  /** With the corrected create rule every reachable state stores only
      non-null ids. */
  lemma CorrectedReachableIdsSet(events: seq<Event>)
    ensures AllIdsSet(Run(Corrected, Init, events).list)
  {
    CorrectedRunKeepsIdsSet(Init, events);
  }

  /** With the corrected create rule, editing a stored client and submitting
      without touching a field leaves the list exactly as it was, provided no
      two clients share an id. */
  lemma CorrectedEditThenSubmitIsIdentity(s: Model, k: nat, generated: nat)
    requires AllIdsSet(s.list)
    requires DistinctIds(s.list)
    requires k < |s.list|
    ensures HandleSubmit(Corrected, StartEdit(s, s.list[k]), generated) == State(s.list, EmptyForm)
  {
    ReplaceByOwnRowIsIdentity(s.list, k);
  }
}
