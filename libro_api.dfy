/** The book record and the book adapter src/api/libroApi.js: the create and
    update bodies and how the create response is turned into a record. */
module LibroApi {
  import opened JsValues

  /** A book as the manager keeps it. */
  datatype Libro = Libro(
    libreriaMaterialId: Option<string>,
    titulo: string,
    fechaPublicacion: Option<string>,
    autorLibro: Option<string>)

  /** The JSON body of POST /. */
  datatype LibroPayload = LibroPayload(
    Titulo: string,
    FechaPublicacion: Option<string>,
    AutorLibro: Option<string>)

  /** The JSON body of PUT /{id}: the create body plus the path id. */
  datatype LibroUpdatePayload = LibroUpdatePayload(
    Titulo: string,
    FechaPublicacion: Option<string>,
    AutorLibro: Option<string>,
    LibroId: Option<string>)

  /** The two id fields the create response may carry. */
  datatype CreateResponse = CreateResponse(libreriaMaterialId: Option<string>, id: Option<string>)

  /** createLibro's body: the title as given, falsy date and author sent as null. */
  function CreatePayload(l: Libro): (p: LibroPayload)
    ensures p.Titulo == l.titulo
    ensures p.FechaPublicacion == (if Truthy(l.fechaPublicacion) then l.fechaPublicacion else None)
    ensures p.AutorLibro == (if Truthy(l.autorLibro) then l.autorLibro else None)
  {
    LibroPayload(l.titulo, OrNull(l.fechaPublicacion), OrNull(l.autorLibro))
  }

  /** updateLibro's body: the same three fields as the create body, plus the path id. */
  function UpdatePayload(id: Option<string>, l: Libro): (p: LibroUpdatePayload)
    ensures LibroPayload(p.Titulo, p.FechaPublicacion, p.AutorLibro) == CreatePayload(l)
    ensures p.LibroId == id
  {
    LibroUpdatePayload(l.titulo, OrNull(l.fechaPublicacion), OrNull(l.autorLibro), id)
  }

  /** The record createLibro returns: the id from the response
      (`libreriaMaterialId`, falling back to `id` when that is falsy),
      every other field echoed from the request, not from the response. */
  function CreatedLibro(l: Libro, data: CreateResponse): (r: Libro)
    ensures Truthy(data.libreriaMaterialId) ==> r.libreriaMaterialId == data.libreriaMaterialId
    ensures !Truthy(data.libreriaMaterialId) ==> r.libreriaMaterialId == data.id
    ensures r.(libreriaMaterialId := l.libreriaMaterialId) == l
  {
    l.(libreriaMaterialId := Or(data.libreriaMaterialId, data.id))
  }

  /** createLibro: a failed POST is rethrown as is; a successful one yields
      the normalised record. */
  function CreateLibro(l: Libro, reply: Reply<CreateResponse>): (r: Reply<Libro>)
    ensures reply.Failure? ==> r == Failure(reply.message)
    ensures reply.Success? ==> r == Success(CreatedLibro(l, reply.value))
  {
    match reply
    case Success(data) => Success(CreatedLibro(l, data))
    case Failure(m) => Failure(m)
  }
}
