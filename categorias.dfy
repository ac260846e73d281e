/** The category screen: the component state and the handlers that keep the
    local list in step with the server. Each handler runs as one atomic step;
    the server's answer and the user's confirmation are parameters. */
module CategoriasScreen {
  import opened CategoryList
  import opened Paging
  import opened CategoriaService

  /** The message with which the server confirms a create. */
  const RegistroExitoso: string := "Registro exitoso"

  /** The message with which the server confirms a delete. */
  const EliminacionExitosa: string := "Eliminación exitosa"

  /** The text shown when the initial load fails. */
  const LoadErrorMessage: string := "Error al cargar las categorías"

  /** The page size the table starts with. */
  const InitialRowsPerPage: int := 5

  /** The notification a handler pops up. */
  datatype Alert =
    | NoAlert        // nothing is shown
    | SuccessAlert   // the change took effect
    | RejectedAlert  // the server answered, but not with the success message
    | ProblemAlert   // the call itself failed

  /** The identity a confirmed create stores: the server's, with an absent or
      zero identity falling back to the draft sentinel. */
  function AssignedId(id: Option<int>): (r: int)
    ensures r == NewId <==> id.None? || id == Some(0)
    ensures r != NewId ==> id == Some(r)
  {
    if id.Some? && id.value != 0 then id.value else 0
  }

  /** The entry a confirmed create appends: the draft's name and description
      under the identity the server assigned. */
  function CreatedEntry(draft: Category, id: Option<int>): (c: Category)
    ensures c.categoryName == draft.categoryName && c.description == draft.description
    ensures IsNew(c) <==> id.None? || id == Some(0)
    ensures !IsNew(c) ==> id == Some(c.categoryID)
  {
    Category(AssignedId(id), draft.categoryName, draft.description)
  }

  class Categorias {
    var categorias: seq<Category>
    var loading: bool
    var error: Option<string>
    var page: int
    var rowsPerPage: int
    var modalOpen: bool
    var selectedCategoria: Option<Category>

    /** The modal is open exactly while there is a draft to show in it. */
    predicate ModalShowsDraft()
      reads this
    {
      modalOpen == selectedCategoria.Some?
    }

    constructor ()
      ensures categorias == [] && loading && error == None
      ensures page == 0 && rowsPerPage == InitialRowsPerPage
      ensures !modalOpen && selectedCategoria == None
      ensures ModalShowsDraft()
    {
      categorias := [];
      loading := true;
      error := None;
      page := 0;
      rowsPerPage := InitialRowsPerPage;
      modalOpen := false;
      selectedCategoria := None;
    }

    /** The effect that runs when the screen mounts: the fetched list replaces
        the local one; a failed fetch records the load error instead. Either
        way loading ends. */
    method LoadCategorias(reply: ListReply)
      modifies this`categorias, this`loading, this`error
      ensures !loading
      ensures reply.Listed? ==> categorias == reply.categorias && error == old(error)
      ensures reply.ListFailed? ==> categorias == old(categorias) && error == Some(LoadErrorMessage)
    {
      match reply {
        case Listed(data) =>
          categorias := data;
        case ListFailed =>
          error := Some(LoadErrorMessage);
      }
      loading := false;
    }

    /** The rows the table shows: the current page's window of the list,
        empty once the page lies past the end. */
    function VisibleRows(): (rows: seq<Category>)
      reads this
      ensures 0 <= page && 0 <= rowsPerPage ==>
        rows == categorias[Min(page * rowsPerPage, |categorias|)..Min(page * rowsPerPage + rowsPerPage, |categorias|)]
      ensures 0 <= page && 0 <= rowsPerPage && |categorias| <= page * rowsPerPage ==> rows == []
    {
      PageOf(categorias, page, rowsPerPage)
    }

    /** Moving to another page changes the page and nothing else. */
    method ChangePage(newPage: int)
      modifies this`page
      ensures page == newPage
    {
      page := newPage;
    }

    /** A new page size starts over at the first page. */
    method ChangeRowsPerPage(value: int)
      modifies this`rowsPerPage, this`page
      ensures rowsPerPage == value && page == 0
    {
      rowsPerPage := value;
      page := 0;
    }

    /** Editing an entry opens the modal on that entry. */
    method OpenForUpdate(categoria: Category)
      modifies this`selectedCategoria, this`modalOpen
      ensures selectedCategoria == Some(categoria) && modalOpen
      ensures ModalShowsDraft()
    {
      selectedCategoria := Some(categoria);
      modalOpen := true;
    }

    /** "Add new" opens the modal on an empty draft carrying the sentinel identity. */
    method AddNew()
      modifies this`selectedCategoria, this`modalOpen
      ensures selectedCategoria == Some(Category(NewId, "", "")) && modalOpen
      ensures IsNew(selectedCategoria.value)
      ensures ModalShowsDraft()
    {
      selectedCategoria := Some(Category(0, "", ""));
      modalOpen := true;
    }

    /** Closing or cancelling discards the draft. */
    method ModalClose()
      modifies this`selectedCategoria, this`modalOpen
      ensures selectedCategoria == None && !modalOpen
      ensures ModalShowsDraft()
    {
      modalOpen := false;
      selectedCategoria := None;
    }

    /** Typing in the name field changes the draft's name only. The field is
        only on screen while there is a draft. */
    method EditName(name: string)
      requires selectedCategoria.Some?
      modifies this`selectedCategoria
      ensures selectedCategoria == Some(old(selectedCategoria).value.(categoryName := name))
    {
      selectedCategoria := Some(selectedCategoria.value.(categoryName := name));
    }

    /** Typing in the description field changes the draft's description only. */
    method EditDescription(description: string)
      requires selectedCategoria.Some?
      modifies this`selectedCategoria
      ensures selectedCategoria == Some(old(selectedCategoria).value.(description := description))
    {
      selectedCategoria := Some(selectedCategoria.value.(description := description));
    }

    /** Deleting `id` after the confirmation dialog. Nothing happens unless the
        user confirms; the list loses the entries of that identity only when the
        server answers with the delete success message. */
    method Delete(id: int, confirmed: bool, reply: Reply) returns (alert: Alert)
      modifies this`categorias
      ensures !confirmed ==> categorias == old(categorias) && alert == NoAlert
      ensures confirmed && reply.TransportFailure? ==> categorias == old(categorias) && alert == ProblemAlert
      ensures confirmed && reply.Resolved? && reply.mensaje == EliminacionExitosa ==>
        categorias == RemoveById(old(categorias), id) && alert == SuccessAlert
      ensures confirmed && reply.Resolved? && reply.mensaje != EliminacionExitosa ==>
        categorias == old(categorias) && alert == RejectedAlert
    {
      alert := NoAlert;
      if confirmed {
        match reply
        case TransportFailure =>
          alert := ProblemAlert;
        case Resolved(mensaje, _) =>
          if mensaje == EliminacionExitosa {
            categorias := RemoveById(categorias, id);
            alert := SuccessAlert;
          } else {
            alert := RejectedAlert;
          }
      }
    }

    /** Saving the draft. A draft with the sentinel identity is created: the
        entry is appended only on the create success message, and any answer
        from the server closes the modal. Any other draft is updated: every
        answer from the server counts as success. A failed call leaves the
        list, the modal and the draft as they were. */
    method ModalSave(reply: Reply) returns (alert: Alert)
      requires ModalShowsDraft()
      modifies this`categorias, this`modalOpen, this`selectedCategoria
      ensures ModalShowsDraft()
      ensures old(selectedCategoria).None? ==>
        categorias == old(categorias) && selectedCategoria == None && alert == NoAlert
      ensures old(selectedCategoria).Some? && reply.TransportFailure? ==>
        categorias == old(categorias) && selectedCategoria == old(selectedCategoria) && modalOpen &&
        alert == ProblemAlert
      ensures old(selectedCategoria).Some? && reply.Resolved? ==> selectedCategoria == None && !modalOpen
      ensures old(selectedCategoria).Some? && IsNew(old(selectedCategoria).value) && reply.Resolved? ==>
        if reply.mensaje == RegistroExitoso then
          categorias == old(categorias) + [CreatedEntry(old(selectedCategoria).value, reply.categoryID)] &&
          alert == SuccessAlert
        else
          categorias == old(categorias) && alert == RejectedAlert
      ensures old(selectedCategoria).Some? && !IsNew(old(selectedCategoria).value) && reply.Resolved? ==>
        categorias == ReplaceById(old(categorias), old(selectedCategoria).value) && alert == SuccessAlert
    {
      alert := NoAlert;
      if selectedCategoria.Some? {
        var draft := selectedCategoria.value;
        if IsNew(draft) {
          match reply
          case TransportFailure =>
            alert := ProblemAlert;
          case Resolved(mensaje, id) =>
            if mensaje == RegistroExitoso {
              categorias := categorias + [CreatedEntry(draft, id)];
              alert := SuccessAlert;
            } else {
              alert := RejectedAlert;
            }
            ModalClose();
        } else {
          match reply
          case TransportFailure =>
            alert := ProblemAlert;
          case Resolved(_, _) =>
            categorias := ReplaceById(categorias, draft);
            alert := SuccessAlert;
            ModalClose();
        }
      }
    }
  }

  /** A create the server confirms without an identity stores an entry with
      the sentinel identity, so editing that entry and saving it takes the
      create path again instead of the update path. */
  method IdLessCreateReturnsAsNewDraft(name: string)
  {
    var screen := new Categorias();
    screen.LoadCategorias(Listed([]));
    screen.AddNew();
    screen.EditName(name);
    var alert := screen.ModalSave(Resolved(RegistroExitoso, None));
    assert alert == SuccessAlert;
    assert screen.categorias == [Category(NewId, name, "")];
    screen.OpenForUpdate(screen.categorias[0]);
    assert IsNew(screen.selectedCategoria.value);
  }
}
