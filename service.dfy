/** What the category service's calls can yield, as seen by the screen. The
    HTTP exchange itself is not modelled: each call is an outcome handed to the
    transition that awaits it. A response whose status is not a success turns
    into a transport failure, as does a network error. */
module CategoriaService {
  import opened CategoryList

  datatype Option<T> = None | Some(value: T)

  /** The outcome of fetching the whole list. */
  datatype ListReply =
    | ListFailed
    | Listed(categorias: seq<Category>)

  /** The outcome of a create, update or delete call: a rejected promise, or
      the parsed body with its status message and, when the server sent one,
      an identity. */
  datatype Reply =
    | TransportFailure
    | Resolved(mensaje: string, categoryID: Option<int>)
}
