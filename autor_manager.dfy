/** The author screen, src/components/autor/AutorManager.js: its state
    hooks become the fields of a class, its handlers the methods. Each HTTP
    call it awaits is a parameter: the reply that call got (for the two
    searches, the service as a function from term to reply). */
module AutorManager {
  import opened JsValues
  import opened Lists
  import opened AutorApi

  const NombreRequerido := "Nombre requerido"
  const ApellidoRequerido := "Apellido requerido"

  /** The empty form `{ nombre: '', apellido: '', fechaNacimiento: '' }`. */
  const EmptyAutor := Autor(None, Some(""), Some(""), Some(""))

  // ---------------------------------------------------------------------
  // Validation

  /** What validateAutor accepts: both names present and not blank. */
  predicate AutorIsValid(a: Autor)
  {
    !IsBlank(a.nombre) && !IsBlank(a.apellido)
  }

  /** validateAutor's error map: one entry per failing field, each with its message. */
  function AutorErrors(a: Autor): (errors: map<string, string>)
    ensures "nombre" in errors <==> IsBlank(a.nombre)
    ensures "apellido" in errors <==> IsBlank(a.apellido)
    ensures errors.Keys <= {"nombre", "apellido"}
    ensures "nombre" in errors ==> errors["nombre"] == NombreRequerido
    ensures "apellido" in errors ==> errors["apellido"] == ApellidoRequerido
    ensures errors == map[] <==> AutorIsValid(a)
  {
    var withNombre := if IsBlank(a.nombre) then map["nombre" := NombreRequerido] else map[];
    if IsBlank(a.apellido) then withNombre["apellido" := ApellidoRequerido] else withNombre
  }

  /** A name passes exactly when it is present and holds a character that is
      not whitespace. */
  lemma NameAcceptedIff(name: Option<string>)
    ensures !IsBlank(name) <==> name.Some? && exists i :: 0 <= i < |name.value| && !IsWhitespace(name.value[i])
  {
    if name.Some? {
      TrimEmptyIff(name.value);
    }
  }

  // ---------------------------------------------------------------------
  // Search

  /** What the debounce timer does when it fires. */
  datatype SearchAction = ShowAll | LookupById(id: string) | SearchByName(name: string)

  predicate IsHexOrHyphen(c: char)
  {
    ('0' <= c <= '9') || ('a' <= c <= 'f') || ('A' <= c <= 'F') || c == '-'
  }

  /** `/^[\da-fA-F-]{36}$/.test(term)` */
  predicate IsGuidShaped(term: string)
  {
    |term| == 36 && forall i :: 0 <= i < |term| ==> IsHexOrHyphen(term[i])
  }

  /** The timer's decision: a blank term shows the whole list without any
      call; otherwise the untrimmed term goes to the id lookup when it is
      GUID-shaped and to the name search when it is not. */
  function SearchDispatch(term: string): (action: SearchAction)
    ensures action == ShowAll <==> IsBlank(Some(term))
    ensures action.LookupById? <==> !IsBlank(Some(term)) && IsGuidShaped(term)
    ensures action.SearchByName? <==> !IsBlank(Some(term)) && !IsGuidShaped(term)
    ensures action.LookupById? ==> action.id == term
    ensures action.SearchByName? ==> action.name == term
  {
    if IsBlank(Some(term)) then ShowAll
    else if IsGuidShaped(term) then LookupById(term)
    else SearchByName(term)
  }

  /** A GUID-shaped term is never blank, so it always reaches the id lookup. */
  lemma GuidTermLooksUpId(term: string)
    requires IsGuidShaped(term)
    ensures SearchDispatch(term) == LookupById(term)
  {
    TrimEmptyIff(term);
    assert !IsWhitespace(term[0]);
  }

  /** The filtered list once the action has run against the services. */
  function SearchOutcome(action: SearchAction, autores: seq<Autor>,
                         lookup: string -> Reply<Option<Autor>>,
                         search: string -> Reply<seq<Autor>>): (r: seq<Autor>)
    ensures action == ShowAll ==> r == autores
    ensures action.LookupById? ==> |r| <= 1
    ensures action.LookupById? && lookup(action.id).Success? && lookup(action.id).value.Some? ==>
      r == [lookup(action.id).value.value]
    ensures action.LookupById? && lookup(action.id) == Success(None) ==> r == []
    ensures action.SearchByName? && search(action.name).Success? ==> r == search(action.name).value
    // any failure empties the list
    ensures action.LookupById? && lookup(action.id).Failure? ==> r == []
    ensures action.SearchByName? && search(action.name).Failure? ==> r == []
  {
    match action
    case ShowAll => autores
    case LookupById(id) =>
      (match lookup(id)
       case Success(Some(autor)) => [autor]
       case Success(None) => []
       case Failure(_) => [])
    case SearchByName(name) =>
      (match search(name)
       case Success(found) => found
       case Failure(_) => [])
  }

  // ---------------------------------------------------------------------
  // List updates

  /** `a => a.autorLibroId === id` */
  function HasId(id: Option<string>): Autor -> bool
  {
    (a: Autor) => a.autorLibroId == id
  }

  /** `a => a.autorLibroId !== id` */
  function HasOtherId(id: Option<string>): Autor -> bool
  {
    (a: Autor) => a.autorLibroId != id
  }

  /** `prev.map(a => a.autorLibroId === data.autorLibroId ? data : a)` */
  function UpdateById(autores: seq<Autor>, data: Autor): seq<Autor>
  {
    ReplaceWhere(autores, HasId(data.autorLibroId), data)
  }

  /** `prev.filter(a => a.autorLibroId !== id)` */
  function RemoveById(autores: seq<Autor>, id: Option<string>): seq<Autor>
  {
    Filter(autores, HasOtherId(id))
  }

  /** An update keeps the length, the order and the id of every position. */
  lemma UpdateKeepsIds(autores: seq<Autor>, data: Autor)
    ensures |UpdateById(autores, data)| == |autores|
    ensures forall i :: 0 <= i < |autores| ==> UpdateById(autores, data)[i].autorLibroId == autores[i].autorLibroId
  {
  }

  /** After a delete no record has the id, and every other record is still
      there exactly as often as before, in the same order. */
  lemma DeleteKeepsOthers(autores: seq<Autor>, id: Option<string>, x: Autor)
    ensures x in RemoveById(autores, id) <==> x in autores && x.autorLibroId != id
    ensures multiset(RemoveById(autores, id))[x] == if x.autorLibroId != id then multiset(autores)[x] else 0
    ensures IsSubsequence(RemoveById(autores, id), autores)
  {
    FilterMembership(autores, HasOtherId(id), x);
    FilterMultiplicity(autores, HasOtherId(id), x);
    FilterIsSubsequence(autores, HasOtherId(id));
  }

  /** Deleting an id no record has changes nothing. */
  lemma DeleteAbsentIsNoop(autores: seq<Autor>, id: Option<string>)
    requires forall i :: 0 <= i < |autores| ==> autores[i].autorLibroId != id
    ensures RemoveById(autores, id) == autores
  {
    FilterKeepsAll(autores, HasOtherId(id));
  }

  /** Creating an author under a new id and then deleting that id gives
      back the list as it was. */
  lemma CreateThenDeleteRestores(autores: seq<Autor>, created: Autor)
    requires forall i :: 0 <= i < |autores| ==> autores[i].autorLibroId != created.autorLibroId
    ensures RemoveById(autores + [created], created.autorLibroId) == autores
  {
    var p := HasOtherId(created.autorLibroId);
    FilterAppend(autores, [created], p);
    FilterKeepsAll(autores, p);
  }

  /** Deleting after an update leaves what deleting straight away leaves. */
  lemma DeleteAfterUpdate(autores: seq<Autor>, data: Autor)
    ensures RemoveById(UpdateById(autores, data), data.autorLibroId) == RemoveById(autores, data.autorLibroId)
  {
    FilterAfterReplace(autores, HasId(data.autorLibroId), HasOtherId(data.autorLibroId), data);
  }

  // ---------------------------------------------------------------------
  // Editing

  /** What startEditing puts in the form: the record with its birth date cut
      to the part before 'T' ("" when there is none). */
  function EditCopy(a: Autor): (e: Autor)
    ensures e.autorLibroId == a.autorLibroId && e.nombre == a.nombre && e.apellido == a.apellido
    ensures e.fechaNacimiento == Some(DatePart(a.fechaNacimiento))
  {
    a.(fechaNacimiento := Some(DatePart(a.fechaNacimiento)))
  }

  /** Saving an author straight after opening it for editing sends the names
      unchanged. The birth date sent is null when the stored one is absent,
      empty or starts with 'T' (its date part is then empty), and otherwise
      its date part, a non-empty prefix of the stored date. */
  lemma EditedAuthorOnTheWire(a: Autor)
    ensures ToPayload(EditCopy(a)).Nombre == a.nombre && ToPayload(EditCopy(a)).Apellido == a.apellido
    ensures DatePart(a.fechaNacimiento) == "" <==>
      a.fechaNacimiento.None? || a.fechaNacimiento.value == [] || a.fechaNacimiento.value[0] == 'T'
    ensures DatePart(a.fechaNacimiento) == "" ==> ToPayload(EditCopy(a)).FechaNacimiento == None
    ensures DatePart(a.fechaNacimiento) != "" ==>
      a.fechaNacimiento.Some? &&
      ToPayload(EditCopy(a)).FechaNacimiento == Some(DatePart(a.fechaNacimiento)) &&
      DatePart(a.fechaNacimiento) <= a.fechaNacimiento.value
  {
    if a.fechaNacimiento.Some? && a.fechaNacimiento.value != [] && a.fechaNacimiento.value[0] != 'T' {
      assert DatePart(a.fechaNacimiento)[0] == a.fechaNacimiento.value[0];
    }
  }

  /** The author form's three inputs. */
  datatype AutorField = NombreField | ApellidoField | FechaNacimientoField

  /** `{ ...autor, [field]: value }`: the record with one field replaced by
      what was typed. */
  function WithField(a: Autor, field: AutorField, value: string): (r: Autor)
    ensures r.autorLibroId == a.autorLibroId
    ensures r.nombre == (if field == NombreField then Some(value) else a.nombre)
    ensures r.apellido == (if field == ApellidoField then Some(value) else a.apellido)
    ensures r.fechaNacimiento == (if field == FechaNacimientoField then Some(value) else a.fechaNacimiento)
  {
    match field
    case NombreField => a.(nombre := Some(value))
    case ApellidoField => a.(apellido := Some(value))
    case FechaNacimientoField => a.(fechaNacimiento := Some(value))
  }


  // ---------------------------------------------------------------------
  // Saving

  /** `editingAutor || newAutor`: the record the form submits. */
  function FormData(editing: Option<Autor>, draft: Autor): Autor
  {
    if editing.Some? then editing.value else draft
  }

  /** The call handleAddOrUpdate makes: an update of the edited record's id,
      or a create. */
  function SaveRequest(editing: Option<Autor>, data: Autor): (r: AutorRequest)
    ensures editing.Some? ==> r.UpdateAutor? && r.id == data.autorLibroId
    ensures editing.None? ==> r.CreateAutor?
    ensures r.body == ToPayload(data)
  {
    if editing.Some? then UpdateAutor(data.autorLibroId, ToPayload(data)) else CreateAutor(ToPayload(data))
  }

  /** The author list after a successful save: the edited record replaces the
      ones sharing its id, or the created record is appended. */
  function SavedList(autores: seq<Autor>, editing: Option<Autor>, data: Autor, created: Autor): (r: seq<Autor>)
    ensures editing.None? ==> r == autores + [created]
    ensures editing.Some? ==> |r| == |autores|
    ensures editing.Some? ==> forall i :: 0 <= i < |autores| ==>
      r[i] == (if autores[i].autorLibroId == data.autorLibroId then data else autores[i])
  {
    if editing.Some? then UpdateById(autores, data) else autores + [created]
  }

  // ---------------------------------------------------------------------
  // The component

  class AutorManager {
    var autores: seq<Autor>
    var filteredAutores: seq<Autor>
    var autorSearchTerm: string
    var newAutor: Autor
    var editingAutor: Option<Autor>
    var formErrors: map<string, string>
    /** A second error map, written only by the form's cancel button. */
    var autorFormErrors: map<string, string>
    /** The parent's tab, changed through `setActiveTab`. */
    var activeTab: string

    constructor (activeTab: string)
      ensures autores == [] && filteredAutores == [] && autorSearchTerm == ""
      ensures newAutor == EmptyAutor && editingAutor == None && formErrors == map[] && autorFormErrors == map[]
      ensures this.activeTab == activeTab
    {
      autores := [];
      filteredAutores := [];
      autorSearchTerm := "";
      newAutor := EmptyAutor;
      editingAutor := None;
      formErrors := map[];
      autorFormErrors := map[];
      this.activeTab := activeTab;
    }

    /** The mount effect: a loaded list replaces both lists; a failure is only logged. */
    method LoadAutores(reply: Reply<seq<Autor>>)
      modifies this`autores, this`filteredAutores
      ensures reply.Success? ==> autores == reply.value && filteredAutores == reply.value
      ensures reply.Failure? ==> autores == old(autores) && filteredAutores == old(filteredAutores)
    {
      if reply.Success? {
        autores := reply.value;
        filteredAutores := reply.value;
      }
    }

    /** The search box's onChange. */
    method SetSearchTerm(term: string)
      modifies this`autorSearchTerm
      ensures autorSearchTerm == term
    {
      autorSearchTerm := term;
    }

    /** The debounce timer firing: the effect's blank check, then handleAutorSearch. */
    method SearchTimerFired(lookup: string -> Reply<Option<Autor>>, search: string -> Reply<seq<Autor>>)
      modifies this`filteredAutores
      ensures filteredAutores == SearchOutcome(SearchDispatch(autorSearchTerm), autores, lookup, search)
    {
      var term := autorSearchTerm;
      if IsBlank(Some(term)) {
        filteredAutores := autores;
        return;
      }
      if IsGuidShaped(term) {
        var reply := lookup(term);
        if reply.Success? && reply.value.Some? {
          filteredAutores := [reply.value.value];
        } else {
          filteredAutores := [];
        }
      } else {
        var reply := search(term);
        if reply.Success? {
          filteredAutores := reply.value;
        } else {
          filteredAutores := [];
        }
      }
    }

    /** validateAutor: fills the error map one failing field at a time,
        stores it and reports whether it stayed empty. */
    method ValidateAutor(a: Autor) returns (ok: bool)
      modifies this`formErrors
      ensures formErrors == AutorErrors(a)
      ensures ok <==> AutorIsValid(a)
    {
      var errors := map[];
      if IsBlank(a.nombre) {
        errors := errors["nombre" := NombreRequerido];
      }
      if IsBlank(a.apellido) {
        errors := errors["apellido" := ApellidoRequerido];
      }
      formErrors := errors;
      ok := |errors| == 0;
    }

    /** handleAddOrUpdate: validates the form (the record being edited, or the
        new one), and only then sends the update or the create; `request` is
        what was sent. On success the list is patched, the form reset and the
        filtered list set to the list as it was when the handler started. */
    method AddOrUpdate(reply: Reply<Autor>) returns (request: Option<AutorRequest>)
      modifies this
      ensures formErrors == AutorErrors(FormData(old(editingAutor), old(newAutor)))
      // nothing is sent unless the form is valid
      ensures request.None? <==> !AutorIsValid(FormData(old(editingAutor), old(newAutor)))
      ensures request.Some? ==> request.value == SaveRequest(old(editingAutor), FormData(old(editingAutor), old(newAutor)))
      ensures request.Some? && reply.Success? ==>
        && autores == SavedList(old(autores), old(editingAutor), FormData(old(editingAutor), old(newAutor)), reply.value)
        && filteredAutores == old(autores)
        && editingAutor == None && newAutor == EmptyAutor && activeTab == "autores"
      ensures request.None? || reply.Failure? ==>
        && autores == old(autores) && filteredAutores == old(filteredAutores)
        && editingAutor == old(editingAutor) && newAutor == old(newAutor) && activeTab == old(activeTab)
      ensures autorSearchTerm == old(autorSearchTerm)
      // the errors found go to `formErrors`, never to the map the form shows
      ensures autorFormErrors == old(autorFormErrors)
    {
      var before := autores;
      var data := FormData(editingAutor, newAutor);
      var ok := ValidateAutor(data);
      if !ok {
        return None;
      }
      request := Some(SaveRequest(editingAutor, data));
      if reply.Failure? {
        return;
      }
      autores := SavedList(autores, editingAutor, data, reply.value);
      editingAutor := None;
      newAutor := EmptyAutor;
      filteredAutores := before;
      activeTab := "autores";
    }

    /** startEditing: opens the form on a copy of the record with its date cut. */
    method StartEditing(a: Autor)
      modifies this`editingAutor, this`activeTab
      ensures editingAutor == Some(EditCopy(a))
      ensures activeTab == "addAutor"
    {
      editingAutor := Some(EditCopy(a));
      activeTab := "addAutor";
    }

    /** An input's onChange: the text goes into the author being edited when
        there is one, and into the new-author form otherwise. */
    method TypeInto(field: AutorField, value: string)
      modifies this`editingAutor, this`newAutor
      ensures old(editingAutor).Some? ==>
        editingAutor == Some(WithField(old(editingAutor).value, field, value)) && newAutor == old(newAutor)
      ensures old(editingAutor).None? ==>
        editingAutor == None && newAutor == WithField(old(newAutor), field, value)
    {
      if editingAutor.Some? {
        editingAutor := Some(WithField(editingAutor.value, field, value));
      } else {
        newAutor := WithField(newAutor, field, value);
      }
    }

    /** The form's "Cancelar": drops the edit, empties the new-author form,
        blanks the second error map and returns to the author list. */
    method CancelForm()
      modifies this`editingAutor, this`newAutor, this`autorFormErrors, this`activeTab
      ensures editingAutor == None && newAutor == EmptyAutor && activeTab == "autores"
      ensures autorFormErrors == map["nombre" := "", "apellido" := "", "fechaNacimiento" := ""]
    {
      editingAutor := None;
      activeTab := "autores";
      newAutor := EmptyAutor;
      autorFormErrors := map["nombre" := "", "apellido" := "", "fechaNacimiento" := ""];
    }

    /** The empty list's "Añadir Primer Autor": opens an empty create form. */
    method AddFirstAutor()
      modifies this`editingAutor, this`newAutor, this`activeTab
      ensures editingAutor == None && newAutor == EmptyAutor && activeTab == "addAutor"
    {
      editingAutor := None;
      newAutor := EmptyAutor;
      activeTab := "addAutor";
    }

    /** handleDelete: after a successful DELETE the id leaves both lists; after
        a failure both stay as they were. */
    method Delete(id: Option<string>, reply: Reply<()>)
      modifies this`autores, this`filteredAutores
      ensures reply.Success? ==>
        autores == RemoveById(old(autores), id) && filteredAutores == RemoveById(old(filteredAutores), id)
      ensures reply.Failure? ==> autores == old(autores) && filteredAutores == old(filteredAutores)
    {
      if reply.Success? {
        autores := RemoveById(autores, id);
        filteredAutores := RemoveById(filteredAutores, id);
      }
    }
  }
}
