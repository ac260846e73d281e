# Category screen of the Northwind admin front end

This project models the category management screen of a small React admin
application. The screen holds the list of categories it fetched from a REST
backend and keeps that list in step with the server as the user creates,
edits and deletes entries, without fetching it again. The table shows the
list one page at a time, by slicing it on the client.

The model has four modules:

- `CategoryList` (`category_list.dfy`): the `Category` entity, with
  identity `0` reserved for a draft that is not yet persisted. It also holds
  the two list transforms the screen applies, replace-by-identity after an
  update and remove-by-identity after a delete. The lemmas show that both keep
  the store's invariant that no two entries share a non-zero identity, and
  that appending keeps it exactly when the new identity is fresh or `0`.
- `Paging` (`paging.dfy`): JavaScript's `Array.prototype.slice`, with its
  treatment of negative and out-of-range bounds. On top of it sits the page
  projection, proved to be the clipped window `[page*size, page*size+size)`.
  A further lemma proves that the pages, taken in order, rebuild the list
  exactly, with `ceil(n/size)` non-empty pages.
- `CategoriaService` (`service.dfy`): the outcomes of the service calls, as
  the screen sees them. A call either fails at transport level (a rejected
  promise, which includes every non-success HTTP status) or resolves with the
  parsed body: a `mensaje` and an optional `categoryID`.
- `CategoriasScreen` (`categorias.dfy`): class `Categorias` holds the
  component's state fields (`categorias`, `loading`, `error`, `page`,
  `rowsPerPage`, `modalOpen`, `selectedCategoria`). Each event handler is a
  method that takes the server's outcome, and the user's confirmation where
  there is one, as parameters. It returns the notification it would pop up.
  Every handler keeps `modalOpen` true exactly while there is a draft
  (`ModalShowsDraft`).

The rules the handlers follow, as the code has them:

- Create and delete succeed only when the server's message equals
  `"Registro exitoso"` or `"Eliminación exitosa"` respectively. Update counts
  any resolved call as success.
- A create that resolves with another message still closes the modal. A
  transport failure on create or update leaves the list, the modal and the
  draft as they were.
- The identity stored after a create is the server's `categoryID`, falling
  back to `0` when it is absent or zero (the `|| 0` at
  `src/Componentes/categoria.tsx:123`). Such an entry carries the draft
  sentinel, so editing and saving it takes the create path again.
  `CategoriasScreen.IdLessCreateReturnsAsNewDraft` walks through that
  sequence.

Two behaviours of the code are worth noting:

- The update replaces every entry with the draft's identity, not just one. The
  delete drops every entry with that identity. With unique identities both
  touch exactly one entry (`ReplaceByIdAt`, `RemoveByIdAt`).
- The edit and add-new handlers open the modal from any state, not only from a
  closed modal.

## Model

| member | source | states |
|---|---|---|
| `CategoryList.ReplaceById` | src/Componentes/categoria.tsx:139-143 | the list after an accepted update keeps its length; every entry with the draft's identity is the draft and every other entry is left in its place |
| `CategoryList.RemoveById` | src/Componentes/categoria.tsx:88-90 | the list after an accepted delete holds exactly the old entries whose identity differs from the deleted one, and is no longer |
| `CategoryList.ReplaceByIdKeepsUnique` | src/Componentes/categoria.tsx:139-143 | an update keeps every identity at its index, so unique identities stay unique |
| `CategoryList.ReplaceByIdAt` | src/Componentes/categoria.tsx:139-143 | with unique identities, updating a persisted entry at index k equals replacing index k alone |
| `CategoryList.RemoveByIdUnchanged` | src/Componentes/categoria.tsx:87-90 | removal leaves the list unchanged if and only if no entry has that identity |
| `CategoryList.RemoveByIdConcat` | src/Componentes/categoria.tsx:88-90 | removal distributes over concatenation, so the survivors keep their relative order |
| `CategoryList.RemoveByIdKeepsUnique` | src/Componentes/categoria.tsx:88-90 | a delete keeps identities unique |
| `CategoryList.RemoveByIdAt` | src/Componentes/categoria.tsx:87-91 | with unique identities, deleting the persisted identity found at index k removes exactly that entry and the list shrinks by one |
| `CategoryList.AppendKeepsUnique` | src/Componentes/categoria.tsx:123-124 | the appended list has unique identities if and only if the old one has and the new entry is a draft or its identity is not yet present |
| `Paging.SliceBound` | src/Componentes/categoria.tsx:192 | a slice bound lands in [0, n]: a non-negative bound is clipped to n, and a negative one counts back from the end |
| `Paging.JsSlice` | src/Componentes/categoria.tsx:192 | a slice with ordered non-negative bounds is the clipped sub-sequence between them; with reversed bounds it is empty |
| `Paging.PageOf` | src/Componentes/categoria.tsx:192 | for a non-negative page and size, the rows shown are the window starting at `page*size` and `size` rows long, clipped to the list; `PageWindow` adds the bound, the emptiness cases and the element-by-element form |
| `Paging.PageWindow` | src/Componentes/categoria.tsx:191-192 | a page is the window of at most `size` rows starting at `page*size`, element by element; it is empty past the end and non-empty before it |
| `Paging.PagesArePrefix` | src/Componentes/categoria.tsx:191-192 | the first k pages, concatenated, are the first `k*size` rows |
| `Paging.PageCount` | src/Componentes/categoria.tsx:212-218 | the page count is the least c with `n <= c*size` |
| `Paging.PagesCoverList` | src/Componentes/categoria.tsx:191-192 | the `PageCount` pages are all non-empty, together they are the whole list in order, and the next page is empty |
| `CategoriasScreen.AssignedId` | src/Componentes/categoria.tsx:123 | the stored identity is the sentinel if and only if the server sent none or zero; otherwise it is the server's identity |
| `CategoriasScreen.CreatedEntry` | src/Componentes/categoria.tsx:123 | the appended entry carries the draft's name and description; it has the draft sentinel identity if and only if the server sent no identity or zero, and otherwise the server's identity |
| `CategoriasScreen.Categorias.constructor` | src/Componentes/categoria.tsx:27-38 | the screen starts loading, with an empty list, page 0 of 5 rows, and a closed modal with no draft |
| `CategoriasScreen.Categorias.LoadCategorias` | src/Componentes/categoria.tsx:40-50 | loading ends; a fetched list replaces the local one, and a failed fetch leaves it and records the load error |
| `CategoriasScreen.Categorias.VisibleRows` | src/Componentes/categoria.tsx:191-192 | the visible rows are the clipped window of the current page, empty past the end |
| `CategoriasScreen.Categorias.ChangePage` | src/Componentes/categoria.tsx:52-54 | the page becomes the new one and nothing else changes |
| `CategoriasScreen.Categorias.ChangeRowsPerPage` | src/Componentes/categoria.tsx:56-59 | the page size becomes the new one and the page is reset to 0 |
| `CategoriasScreen.Categorias.OpenForUpdate` | src/Componentes/categoria.tsx:62-65 | the modal opens on the chosen entry; the list is untouched |
| `CategoriasScreen.Categorias.AddNew` | src/Componentes/categoria.tsx:68-71 | the modal opens on the empty draft `{0, "", ""}`; the list is untouched |
| `CategoriasScreen.Categorias.ModalClose` | src/Componentes/categoria.tsx:108-111 | the modal closes and the draft is discarded; the list is untouched |
| `CategoriasScreen.Categorias.EditName` | src/Componentes/categoria.tsx:253-255 | only the draft's name changes |
| `CategoriasScreen.Categorias.EditDescription` | src/Componentes/categoria.tsx:262-264 | only the draft's description changes |
| `CategoriasScreen.Categorias.Delete` | src/Componentes/categoria.tsx:73-101 | without confirmation nothing changes. On the success message the entries of that identity are removed. Any other message or a transport failure leaves the list as it was. Each case shows its own notification |
| `CategoriasScreen.Categorias.ModalSave` | src/Componentes/categoria.tsx:113-153 | no draft: no-op. Create path on the success message: append the draft's fields under the assigned identity. Create path on any other message: list unchanged. Update path on any resolved call: replace by identity. Any resolved call closes the modal. A transport failure keeps list, modal and draft |

## Left out

- The HTTP calls of `src/service/categoria.Service.ts` are not modelled. Each
  call is the outcome parameter it produces, where a non-success status is a
  transport failure. The unused search by name (`listaCategoriaPorNombreLike`)
  is not modelled.
- The alert dialogs, the loading spinner, the table and modal rendering, and
  the console logging are not modelled. Each handler returns only a tag for
  the notification it shows (`Alert`), not its text.
- Overlapping requests are not modelled: each handler runs as one atomic step.
  In the code, create and update build the new list from the list they
  captured when the save started, while delete applies its change to the
  latest list. That difference only shows when requests overlap.
- The unused `searchTerm` state is not modelled.
- `ChangeRowsPerPage` receives the page size as an integer. The parsing of the
  select box's text is not modelled.
- The non-success rendering paths (loading indicator, load error text) are
  represented only by the `loading` and `error` fields.
- The routing shell, the dashboard drawer and the product model are not part
  of this model: they hold no logic of the category screen.
- JavaScript numbers are modelled as unbounded integers for `categoryID`,
  `page` and `rowsPerPage`. Fractional values, `NaN` and values above 2^53
  are not modelled, and neither is the `NaN` case of the `|| 0` fallback at
  `src/Componentes/categoria.tsx:123`. No branch of the screen's logic
  depends on them.
