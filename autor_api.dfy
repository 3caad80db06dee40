/** The author record and the request bodies both author adapters send:
    src/api/autorApi.js (the SQL Server service) and
    src/api/autorApiPosgreSql.js (the PostgreSQL service) build the same
    PascalCase body for create and for update. */
module AutorApi {
  import opened JsValues

  /** An author as the services return it and the manager keeps it. */
  datatype Autor = Autor(
    autorLibroId: Option<string>,
    nombre: Option<string>,
    apellido: Option<string>,
    fechaNacimiento: Option<string>)

  /** The JSON body of POST / and PUT /{id}. */
  datatype AutorPayload = AutorPayload(
    Nombre: Option<string>,
    Apellido: Option<string>,
    FechaNacimiento: Option<string>)

  /** A request an author adapter sends with that body. */
  datatype AutorRequest =
    | CreateAutor(body: AutorPayload)
    | UpdateAutor(id: Option<string>, body: AutorPayload)

  /** The body built from an author: names go through as they are, a falsy
      birth date ("" or absent) is sent as null. */
  function ToPayload(a: Autor): (p: AutorPayload)
    ensures p.Nombre == a.nombre && p.Apellido == a.apellido
    ensures Truthy(a.fechaNacimiento) ==> p.FechaNacimiento == a.fechaNacimiento
    ensures !Truthy(a.fechaNacimiento) ==> p.FechaNacimiento == None
    ensures p.FechaNacimiento != Some("")
  {
    AutorPayload(a.nombre, a.apellido, OrNull(a.fechaNacimiento))
  }
}
