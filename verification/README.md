# Registry widgets: a Dafny model of the client and supplier editors

The application has two registry widgets: one for suppliers (`SupplierCrud`) and one
for clients (`ClientCrud`). Each holds a pair `(list, form)`:

- `list` holds the stored records, newest first.
- `form` is a draft of the same shape. Its `id` is `null` in create mode and non-null in edit mode.

Each handler is a synchronous, pure transform of that pair:

- `handleChange` sets one named field.
- `clearForm` resets the form.
- `handleSubmit` creates a record when the form's id is `null` and updates one otherwise.
- `startEdit` copies a row into the form.
- `remove` filters the list by id once the confirmation dialog answers yes.

The model has three modules:

- `Editor` (`editor.dfy`) is the skeleton both widgets share. It holds the id, record and state datatypes, the update's `map`-replace (`ReplaceMatching`), the remove's `filter` (`RemoveMatching`), and the create rule.
- `Suppliers` (`suppliers.dfy`) models the suppliers widget.
- `Clients` (`clients.dfy`) models the clients widget.

Each widget module has one function per handler, a `Step` over user events, and a `Run` over event sequences. It also has lemmas about the states a run can reach.

The two widgets differ in one line, and `Editor.CreateRule` captures it:

- Suppliers build a new record as `{ id: supplierId(), ...supplierForm, id: supplierId() }`. The trailing generated id wins (`FreshIdLast`).
- Clients build it as `{ id: ClientID(), ...clientForm }`. The form's own `id` property comes last and wins (`FormIdLast`).

As a result:

- Every stored supplier has a non-null id (`Suppliers.ReachableIdsSet`).
- Every stored client has a `null` id, and the client form never enters edit mode (`Clients.ReachableIdsNull`).
- A client's edit button re-creates the row as a copy.
- Removing any client removes all of them.

Inputs the widgets get from their host are parameters:

- The generated id is a `nat`.
- The answer of the confirmation dialog is a `bool`.

Where the code differs from what a user would expect, the model follows the code:

- A confirmed remove drops every record carrying the id, not exactly one. With distinct ids this means exactly one (`Editor.RemoveDistinctDropsOne`); with duplicates it means all of them (`Suppliers.RemoveDropsEveryDuplicate`).
- Ids are not guaranteed unique, so distinctness appears only as a hypothesis of the lemmas that need it.
- `startEdit` receives a row object and does no lookup, so there is no "identifier not found" case. The table only offers it on stored rows; `Clients.Enabled` records this.
- The form's id need not name a stored record. Removing the row being edited leaves the form in edit mode, and the next submit then matches nothing and only clears the form.
- Stored client ids are `null`, not unique numbers.

## Model

| member | source | states |
|---|---|---|
| Editor.Create | src/components/CrudClientes/CrudClientes.jsx:40 | The new record carries the form's fields. Under the trailing-id rule its id is the generated number. Under the form-id rule it keeps the form's id, whatever that is, so it is `null` exactly when the form is in create mode. |
| Editor.ReplaceMatching | src/components/CrudFornecedor/CrudFornecedor.jsx:58-60 | Length is kept. Each record whose id equals the form's id becomes the form. Every other record keeps its place and value. |
| Editor.RemoveMatching | src/components/CrudFornecedor/CrudFornecedor.jsx:68 | The result holds exactly the records whose id differs. The length drops by the number of records carrying the id. An absent id leaves the list unchanged. |
| Editor.RemoveMatchingAppend | src/components/CrudFornecedor/CrudFornecedor.jsx:68 | Filtering distributes over concatenation, so the kept records stay in their original order. |
| Editor.RemoveSharedIdEmpties | src/components/CrudClientes/CrudClientes.jsx:62 | When every record carries the removed id, the filter leaves nothing. |
| Editor.RemoveDistinctDropsOne | src/components/CrudFornecedor/CrudFornecedor.jsx:65-70 | With distinct ids, removing a present row's id shrinks the list by exactly one, and that row is gone. |
| Editor.ReplaceByOwnRowIsIdentity | src/components/CrudFornecedor/CrudFornecedor.jsx:57-61 | With distinct ids, replacing by an unchanged stored row gives back the same list. |
| Suppliers.InitIsEmptyCreateMode | src/components/CrudFornecedor/CrudFornecedor.jsx:17-26 | At mount the list is empty and the form is in create mode (`isEditing` false) with all six fields empty. This is the start state of `Suppliers.ReachableIdsSet`. |
| Suppliers.StartEditEntersEditMode | src/components/CrudFornecedor/CrudFornecedor.jsx:28 | In every reachable state, putting any stored row in the form makes `isEditing` true, so the next submit takes the update branch. |
| Suppliers.Set | src/components/CrudFornecedor/CrudFornecedor.jsx:32 | The named field reads back the new value, and every other field reads back its old value. |
| Suppliers.HandleChange | src/components/CrudFornecedor/CrudFornecedor.jsx:30-33 | Only the named form field changes. The form's id and the list are untouched. |
| Suppliers.ClearForm | src/components/CrudFornecedor/CrudFornecedor.jsx:35-45 | The form returns to create mode (`null` id) with all six fields empty. The list is untouched. |
| Suppliers.ClearFormIdempotent | src/components/CrudFornecedor/CrudFornecedor.jsx:35-45 | Clearing twice equals clearing once. |
| Suppliers.AddSupplier | src/components/CrudFornecedor/CrudFornecedor.jsx:47-51 | Exactly one supplier is prepended. It carries the generated (non-null) id and the form's fields. The old list follows unchanged, and the form is cleared. |
| Suppliers.StartEdit | src/components/CrudFornecedor/CrudFornecedor.jsx:53-55 | The form becomes the row, id included. It is in edit mode exactly when the row's id is non-null. The list is untouched. |
| Suppliers.UpdateSupplier | src/components/CrudFornecedor/CrudFornecedor.jsx:57-63 | Length and order are kept. Suppliers with the form's id become copies of the form, and the others are unchanged. With no match the list is unchanged. The form is cleared. |
| Suppliers.RemoveSupplier | src/components/CrudFornecedor/CrudFornecedor.jsx:65-70 | A declined dialog changes nothing. A confirmed one is exactly the shared filter (`Editor.RemoveMatching`): it keeps the suppliers whose id differs, in order, fewer by the number that match. An absent id changes nothing, and the form is never touched. |
| Suppliers.HandleSubmit | src/components/CrudFornecedor/CrudFornecedor.jsx:72-76 | In create mode the list becomes the new supplier (generated id, form's fields) followed by the old list. In edit mode the length is kept and matching suppliers become the form. The form always ends cleared. |
| Suppliers.StepKeepsIdsSet | src/components/CrudFornecedor/CrudFornecedor.jsx:48 | No event stores a supplier with a `null` id. |
| Suppliers.RunKeepsIdsSet | src/components/CrudFornecedor/CrudFornecedor.jsx:57-59 | Any sequence of events preserves "every stored supplier has a non-null id". |
| Suppliers.ReachableIdsSet | src/components/CrudFornecedor/CrudFornecedor.jsx:17-26 | In every state reachable from the mount state, every stored supplier has a non-null id. |
| Suppliers.EditThenSubmitIsIdentity | src/components/CrudFornecedor/CrudFornecedor.jsx:53-63 | With distinct non-null ids, editing a stored row and submitting without changes leaves the list identical and the form cleared. |
| Suppliers.AddThenEditRestoresFields | src/components/CrudFornecedor/CrudFornecedor.jsx:47-55 | Creating and then editing the new row puts the submitted fields back in the form, under the generated id. |
| Suppliers.CreatesPrepend | src/components/CrudFornecedor/CrudFornecedor.jsx:47-51 | A run of submits from create mode grows the list by the number of submits. The old list stays at the end, and the last generated id comes first. |
| Suppliers.NameThenSubmitCreates | src/components/CrudFornecedor/CrudFornecedor.jsx:30-51 | From a cleared form, typing a name and submitting prepends exactly one supplier with that name, the generated id and the other fields empty, and clears the form again. |
| Suppliers.EditNameThenSubmitRenames | src/components/CrudFornecedor/CrudFornecedor.jsx:30-63 | With distinct non-null ids, editing row k, changing its name and submitting replaces row k in place with the renamed copy and leaves every other row unchanged. |
| Suppliers.Scenario | src/components/CrudFornecedor/CrudFornecedor.jsx:30-76 | Create A, create B, edit B to B2, then remove A gives the lists [A], [B, A], [B2, A] and [B2]. |
| Suppliers.RemoveDropsEveryDuplicate | src/components/CrudFornecedor/CrudFornecedor.jsx:68 | Two suppliers generated with the same id are both dropped by one confirmed remove. |
| Clients.InitIsEmptyCreateMode | src/components/CrudClientes/CrudClientes.jsx:11-19 | At mount the list is empty and the form is in create mode (`isEditing` false) with all five fields empty. This is the start state of `Clients.ReachableIdsNull`. |
| Clients.Set | src/components/CrudClientes/CrudClientes.jsx:25 | The named field reads back the new value, and every other field reads back its old value. |
| Clients.HandleChange | src/components/CrudClientes/CrudClientes.jsx:23-26 | Only the named form field changes. The form's id and the list are untouched. |
| Clients.ClearForm | src/components/CrudClientes/CrudClientes.jsx:28-37 | The form returns to create mode (`null` id) with all five fields empty. The list is untouched. |
| Clients.ClearFormIdempotent | src/components/CrudClientes/CrudClientes.jsx:28-37 | Clearing twice equals clearing once. |
| Clients.AddClient | src/components/CrudClientes/CrudClientes.jsx:39-43 | Exactly one client is prepended, followed by the old list unchanged, and the form is cleared. As written, the new client is the form itself, id included. Under the corrected rule it carries the generated id. |
| Clients.StartEdit | src/components/CrudClientes/CrudClientes.jsx:45-47 | The form becomes the row, id included. It is in edit mode exactly when the row's id is non-null. |
| Clients.UpdateClient | src/components/CrudClientes/CrudClientes.jsx:49-55 | Length and order are kept. Clients with the form's id become copies of the form, and the others are unchanged. With no match the list is unchanged. The form is cleared. |
| Clients.RemoveClient | src/components/CrudClientes/CrudClientes.jsx:57-64 | A declined dialog changes nothing. A confirmed one is exactly the shared filter (`Editor.RemoveMatching`): it keeps the clients whose id differs, in order, fewer by the number that match. The form is never touched. |
| Clients.HandleSubmit | src/components/CrudClientes/CrudClientes.jsx:66-70 | In create mode the list grows by one over the old list; as written, the new head is the form with its `null` id. In edit mode the length is kept. The form always ends cleared. |
| Clients.StepKeepsNullIds | src/components/CrudClientes/CrudClientes.jsx:40 | As written, every enabled event keeps the form's id and every stored id `null`. |
| Clients.RunKeepsNullIds | src/components/CrudClientes/CrudClientes.jsx:28-47 | Any admissible event sequence preserves that invariant. |
| Clients.ReachableIdsNull | src/components/CrudClientes/CrudClientes.jsx:21 | In every reachable state the form's id is `null`, so `isEditing` is false, and every stored client's id is `null`. |
| Clients.SubmitNeverUpdates | src/components/CrudClientes/CrudClientes.jsx:66-70 | Under the invariant, submit always prepends the form as it stands and clears it, so `updateClient` is never reached. |
| Clients.EditThenSubmitDuplicates | src/components/CrudClientes/CrudClientes.jsx:45-47 | Under the invariant, editing a stored client and submitting prepends a copy instead of replacing it. |
| Clients.RemoveAnyEmptiesList | src/components/CrudClientes/CrudClientes.jsx:57-64 | Under the invariant, a confirmed remove of any stored client's id empties the list. A declined one changes nothing. |
| Clients.TwoClientsOneRemove | src/components/CrudClientes/CrudClientes.jsx:39-64 | Creating A and then B stores [B, A], both with `null` ids. A confirmed remove from A's row (the older one) removes B as well, leaving the list empty. |
| Clients.CorrectedStepKeepsIdsSet | src/components/CrudClientes/CrudClientes.jsx:40 | Under the corrected create rule, no event stores a client with a `null` id. |
| Clients.CorrectedRunKeepsIdsSet | src/components/CrudClientes/CrudClientes.jsx:39-55 | Under the corrected rule, any event sequence preserves non-null stored ids. |
| Clients.CorrectedReachableIdsSet | src/components/CrudClientes/CrudClientes.jsx:40 | Under the corrected rule, every reachable state stores only non-null ids. |
| Clients.CorrectedEditThenSubmitIsIdentity | src/components/CrudClientes/CrudClientes.jsx:45-55 | Under the corrected rule, with distinct non-null ids, editing a row and submitting unchanged leaves the list identical. |

## Left out

- Id generation (`Date.now()` plus `Math.floor(Math.random() * 1000)`) is nondeterministic, so the generated id is a `nat` parameter. The supplier handler calls the generator twice and keeps only the second value; the model takes that one value.
- `window.confirm` is a host dialog. Its answer is a `bool` parameter.
- Rendering is presentation only and is not modelled. This covers the JSX, CSS classes, labels, placeholders, button captions and the empty-list placeholder row. It also covers the row cells reading `cliente.documento` and `cliente.Email`, which do not exist on the record.
- The `supplierCategory` and `ClientType` option lists are not modelled. They only populate `<select>` options, and `handleChange` accepts any string.
- React's `useState` batching, closure staleness and `e.preventDefault()` are framework plumbing. Each handler is one atomic transition of `(list, form)`.
- JavaScript numbers are modelled as unbounded integers. Precision loss above 2^53 is not modelled.
- Clients.HandleSubmit: in edit mode it states only that the length is kept. The full replacement property is on `Clients.UpdateClient`, and under the widget's invariant that branch is unreachable.

## Findings

| source | as written | input that shows it | evidently intended | confidence | as-written member | corrected member |
|---|---|---|---|---|---|---|
| src/components/CrudClientes/CrudClientes.jsx:40 | `{ id: ClientID(), ...clientForm }`: the spread form's `id` (always `null` in create mode) overwrites the generated id | From the mount state, submit a filled form twice. Both stored clients have id `null`. Editing one prepends a copy, and removing one removes both. | The new client carries the generated id, as the suppliers widget does with its trailing `id:` | high (not executed) | Clients.ReachableIdsNull | Clients.CorrectedReachableIdsSet |

In the model, `Clients.AsWritten` is the create rule the widget uses, and every lemma about the widget's actual behaviour is stated with it. `Clients.Corrected` is the intended rule. The lemmas prefixed `Corrected` show that under it the stored ids stay non-null and the edit round trip is the identity, as it is for suppliers.
