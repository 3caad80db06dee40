/** The book screen, src/components/libro/LibroManager.js: its state hooks
    become the fields of a class, its handlers the methods, and the title
    filter effect (which runs whenever `books` or `searchTerm` changes) is
    applied at the end of every method that changes either, so that
    `filteredBooks` always equals the title filter of `books`. */
module LibroManager {
  import opened JsValues
  import opened Lists
  import opened LibroApi

  /** The author every new book is filed under. */
  const AutorIdDefault := "3fa85f64-5567-1021-b3fc-2c963f66afa6"
  const TituloRequerido := "El título es requerido"

  /** The create form `{ titulo: '', fechaPublicacion: '' }`. */
  datatype NewBook = NewBook(titulo: string, fechaPublicacion: string)

  const EmptyNewBook := NewBook("", "")

  // ---------------------------------------------------------------------
  // The title filter

  /** `book => book.titulo.toLowerCase().includes(term.toLowerCase())` */
  function TitleMatches(term: string): Libro -> bool
  {
    (b: Libro) => Includes(ToLower(b.titulo), ToLower(term))
  }

  function TitleFilter(books: seq<Libro>, term: string): seq<Libro>
  {
    Filter(books, TitleMatches(term))
  }

  /** The filtered list is the order-preserving subsequence of the books
      whose lower-cased title contains the lower-cased term, each as often
      as in `books`. */
  lemma TitleFilterShowsMatches(books: seq<Libro>, term: string, b: Libro)
    ensures b in TitleFilter(books, term) <==> b in books && Includes(ToLower(b.titulo), ToLower(term))
    ensures multiset(TitleFilter(books, term))[b] ==
      if Includes(ToLower(b.titulo), ToLower(term)) then multiset(books)[b] else 0
    ensures IsSubsequence(TitleFilter(books, term), books)
  {
    FilterMembership(books, TitleMatches(term), b);
    FilterMultiplicity(books, TitleMatches(term), b);
    FilterIsSubsequence(books, TitleMatches(term));
  }

  /** An empty search shows every book. */
  lemma EmptyTermShowsAll(books: seq<Libro>)
    ensures TitleFilter(books, "") == books
  {
    forall i | 0 <= i < |books| ensures TitleMatches("")(books[i]) {
      IncludesEmpty(ToLower(books[i].titulo));
    }
    FilterKeepsAll(books, TitleMatches(""));
  }

  lemma LowerCharIdempotent(c: char)
    ensures LowerChar(LowerChar(c)) == LowerChar(c)
  {
  }

  lemma {:induction false} ToLowerIdempotent(s: string)
    ensures ToLower(ToLower(s)) == ToLower(s)
  {
    forall i | 0 <= i < |s| ensures ToLower(ToLower(s))[i] == ToLower(s)[i] {
      LowerCharIdempotent(s[i]);
    }
  }

  /** The search ignores the case of the term: typing it in capitals finds
      the same books. */
  lemma SearchIgnoresCase(books: seq<Libro>, term: string)
    ensures TitleFilter(books, ToLower(term)) == TitleFilter(books, term)
    decreases |books|
  {
    ToLowerIdempotent(term);
    if books != [] {
      SearchIgnoresCase(books[1..], term);
    }
  }

  /** A created book joins the filtered list at its end exactly when its
      title matches the current term; the earlier entries are untouched. */
  lemma CreatedBookInView(books: seq<Libro>, created: Libro, term: string)
    ensures TitleFilter(books + [created], term) ==
      TitleFilter(books, term) + (if TitleMatches(term)(created) then [created] else [])
  {
    FilterAppend(books, [created], TitleMatches(term));
    assert [created][1..] == [];
  }

  // ---------------------------------------------------------------------
  // Validation and the new record

  /** What validateBook accepts: a title that is not blank after trimming. */
  predicate LibroIsValid(b: Libro)
  {
    Trim(b.titulo) != ""
  }

  /** validateBook's error map: only `titulo` can fail. */
  function LibroErrors(b: Libro): (errors: map<string, string>)
    ensures errors.Keys <= {"titulo"}
    ensures "titulo" in errors <==> !LibroIsValid(b)
    ensures "titulo" in errors ==> errors["titulo"] == TituloRequerido
    ensures errors == map[] <==> LibroIsValid(b)
  {
    if Trim(b.titulo) == "" then map["titulo" := TituloRequerido] else map[]
  }

  /** The record handleAddBook builds from the form: trimmed title, an empty
      date as null, and the default author. */
  function NewBookRecord(form: NewBook): (b: Libro)
    ensures b.libreriaMaterialId == None
    ensures b.titulo == Trim(form.titulo)
    ensures form.fechaPublicacion == "" ==> b.fechaPublicacion == None
    ensures form.fechaPublicacion != "" ==> b.fechaPublicacion == Some(form.fechaPublicacion)
    ensures b.autorLibro == Some(AutorIdDefault)
  {
    Libro(None, Trim(form.titulo), OrNull(Some(form.fechaPublicacion)), Some(AutorIdDefault))
  }

  /** The built record passes validation exactly when the typed title does:
      trimming it before validating loses nothing. */
  lemma NewBookValidIff(form: NewBook)
    ensures LibroIsValid(NewBookRecord(form)) <==> Trim(form.titulo) != ""
  {
    TrimIdempotent(form.titulo);
  }

  // ---------------------------------------------------------------------
  // List updates and editing

  /** `b => b.libreriaMaterialId === id` */
  function HasId(id: Option<string>): Libro -> bool
  {
    (b: Libro) => b.libreriaMaterialId == id
  }

  /** `b => b.libreriaMaterialId !== id` */
  function HasOtherId(id: Option<string>): Libro -> bool
  {
    (b: Libro) => b.libreriaMaterialId != id
  }

  /** `prev.map(b => b.libreriaMaterialId === edited.libreriaMaterialId ? edited : b)` */
  function UpdateById(books: seq<Libro>, edited: Libro): seq<Libro>
  {
    ReplaceWhere(books, HasId(edited.libreriaMaterialId), edited)
  }

  /** `prev.filter(b => b.libreriaMaterialId !== id)` */
  function RemoveById(books: seq<Libro>, id: Option<string>): seq<Libro>
  {
    Filter(books, HasOtherId(id))
  }

  /** A confirmed delete drops every book with the id and keeps every other
      one, as often as before and in order; an absent id changes nothing. */
  lemma DeleteKeepsOthers(books: seq<Libro>, id: Option<string>, b: Libro)
    ensures b in RemoveById(books, id) <==> b in books && b.libreriaMaterialId != id
    ensures multiset(RemoveById(books, id))[b] == if b.libreriaMaterialId != id then multiset(books)[b] else 0
    ensures IsSubsequence(RemoveById(books, id), books)
    ensures (forall i :: 0 <= i < |books| ==> books[i].libreriaMaterialId != id) ==> RemoveById(books, id) == books
  {
    FilterMembership(books, HasOtherId(id), b);
    FilterMultiplicity(books, HasOtherId(id), b);
    FilterIsSubsequence(books, HasOtherId(id));
    if forall i :: 0 <= i < |books| ==> books[i].libreriaMaterialId != id {
      FilterKeepsAll(books, HasOtherId(id));
    }
  }

  /** What startEditing puts in the form: the book with its publication date
      cut to the part before 'T' ("" when there is none). */
  function EditCopy(b: Libro): (e: Libro)
    ensures e.libreriaMaterialId == b.libreriaMaterialId && e.titulo == b.titulo && e.autorLibro == b.autorLibro
    ensures e.fechaPublicacion == Some(DatePart(b.fechaPublicacion))
  {
    b.(fechaPublicacion := Some(DatePart(b.fechaPublicacion)))
  }

  /** A publication timestamp from the service is cut to its date. */
  lemma EditCutsTimestamp(b: Libro, date: string, time: string)
    requires 'T' !in date && b.fechaPublicacion == Some(date + "T" + time)
    ensures EditCopy(b).fechaPublicacion == Some(date)
  {
    DatePartOfTimestamp(date, time);
  }

  /** Saving a book straight after opening it for editing sends the service
      the same title and author, and a date that is null when it had none. */
  lemma EditedBookOnTheWire(b: Libro)
    ensures UpdatePayload(b.libreriaMaterialId, EditCopy(b)).Titulo == b.titulo
    ensures UpdatePayload(b.libreriaMaterialId, EditCopy(b)).AutorLibro == OrNull(b.autorLibro)
    ensures b.fechaPublicacion.None? ==> UpdatePayload(b.libreriaMaterialId, EditCopy(b)).FechaPublicacion == None
    ensures UpdatePayload(b.libreriaMaterialId, EditCopy(b)).LibroId == b.libreriaMaterialId
  {
  }

  /** The book form's two inputs. */
  datatype LibroField = TituloField | FechaPublicacionField

  /** `{ ...editingBook, [field]: value }`: the book being edited with one
      field replaced by what was typed. */
  function EditField(b: Libro, field: LibroField, value: string): (r: Libro)
    ensures r.libreriaMaterialId == b.libreriaMaterialId && r.autorLibro == b.autorLibro
    ensures r.titulo == (if field == TituloField then value else b.titulo)
    ensures r.fechaPublicacion == (if field == FechaPublicacionField then Some(value) else b.fechaPublicacion)
  {
    match field
    case TituloField => b.(titulo := value)
    case FechaPublicacionField => b.(fechaPublicacion := Some(value))
  }

  /** `{ ...newBook, [field]: value }`: the create form with one field replaced. */
  function DraftField(n: NewBook, field: LibroField, value: string): (r: NewBook)
    ensures r.titulo == (if field == TituloField then value else n.titulo)
    ensures r.fechaPublicacion == (if field == FechaPublicacionField then value else n.fechaPublicacion)
  {
    match field
    case TituloField => n.(titulo := value)
    case FechaPublicacionField => n.(fechaPublicacion := value)
  }

  // ---------------------------------------------------------------------
  // The component

  class LibroManager {
    var books: seq<Libro>
    var filteredBooks: seq<Libro>
    var searchTerm: string
    var newBook: NewBook
    var editingBook: Option<Libro>
    var formErrors: map<string, string>
    var bookToDelete: Option<string>
    var showDeleteModal: bool
    /** The parent's tab, changed through `setActiveTab`. */
    var activeTab: string

    /** The filter effect has run for the current books and term. */
    ghost predicate Valid()
      reads this
    {
      filteredBooks == TitleFilter(books, searchTerm)
    }

    constructor (activeTab: string)
      ensures Valid()
      ensures books == [] && searchTerm == "" && newBook == EmptyNewBook
      ensures editingBook == None && formErrors == map[]
      ensures bookToDelete == None && !showDeleteModal
      ensures this.activeTab == activeTab
    {
      books := [];
      filteredBooks := [];
      searchTerm := "";
      newBook := EmptyNewBook;
      editingBook := None;
      formErrors := map[];
      bookToDelete := None;
      showDeleteModal := false;
      this.activeTab := activeTab;
    }

    /** The mount effect: a loaded list replaces `books` (and the filter
        reruns); a failure is only logged. */
    method LoadBooks(reply: Reply<seq<Libro>>)
      requires Valid()
      modifies this`books, this`filteredBooks
      ensures Valid()
      ensures reply.Success? ==> books == reply.value
      ensures reply.Failure? ==> books == old(books) && filteredBooks == old(filteredBooks)
    {
      if reply.Success? {
        books := reply.value;
        filteredBooks := TitleFilter(books, searchTerm);
      }
    }

    /** The search box's onChange, followed by the filter effect. */
    method SetSearchTerm(term: string)
      modifies this`searchTerm, this`filteredBooks
      ensures searchTerm == term
      ensures Valid()
    {
      searchTerm := term;
      filteredBooks := TitleFilter(books, searchTerm);
    }

    /** validateBook: stores the error map and reports whether it is empty. */
    method ValidateBook(b: Libro) returns (ok: bool)
      requires Valid()
      modifies this`formErrors
      ensures Valid()
      ensures formErrors == LibroErrors(b)
      ensures ok <==> LibroIsValid(b)
    {
      var errors := map[];
      if Trim(b.titulo) == "" {
        errors := errors["titulo" := TituloRequerido];
      }
      formErrors := errors;
      ok := |errors| == 0;
    }

    /** handleAddBook: builds the record, validates it and only then sends
        the create; `request` is the body sent. On success the normalised
        record is appended and the form is reset. */
    method AddBook(reply: Reply<CreateResponse>) returns (request: Option<LibroPayload>)
      requires Valid()
      modifies this`books, this`filteredBooks, this`formErrors, this`newBook, this`activeTab
      ensures Valid()
      ensures formErrors == LibroErrors(NewBookRecord(old(newBook)))
      ensures request.None? <==> !LibroIsValid(NewBookRecord(old(newBook)))
      ensures request.Some? ==> request.value == CreatePayload(NewBookRecord(old(newBook)))
      ensures request.Some? && reply.Success? ==>
        && books == old(books) + [CreatedLibro(NewBookRecord(old(newBook)), reply.value)]
        && newBook == EmptyNewBook && activeTab == "list"
      ensures request.None? || reply.Failure? ==>
        books == old(books) && newBook == old(newBook) && activeTab == old(activeTab)
    {
      var book := NewBookRecord(newBook);
      var ok := ValidateBook(book);
      if !ok {
        return None;
      }
      request := Some(CreatePayload(book));
      var created := CreateLibro(book, reply);
      if created.Success? {
        books := books + [created.value];
        filteredBooks := TitleFilter(books, searchTerm);
        newBook := EmptyNewBook;
        activeTab := "list";
      }
    }

    /** handleUpdateBook (the form submits it only while a book is being
        edited): validates, sends the update, and on success replaces every
        book with the edited book's id and closes the form. */
    method UpdateBook(reply: Reply<()>) returns (request: Option<LibroUpdatePayload>)
      requires Valid() && editingBook.Some?
      modifies this`books, this`filteredBooks, this`formErrors, this`editingBook, this`activeTab
      ensures Valid()
      ensures formErrors == LibroErrors(old(editingBook).value)
      ensures request.None? <==> !LibroIsValid(old(editingBook).value)
      ensures request.Some? ==>
        request.value == UpdatePayload(old(editingBook).value.libreriaMaterialId, old(editingBook).value)
      ensures request.Some? && reply.Success? ==>
        && books == UpdateById(old(books), old(editingBook).value)
        && editingBook == None && activeTab == "list"
      ensures request.None? || reply.Failure? ==>
        books == old(books) && editingBook == old(editingBook) && activeTab == old(activeTab)
    {
      var edited := editingBook.value;
      var ok := ValidateBook(edited);
      if !ok {
        return None;
      }
      request := Some(UpdatePayload(edited.libreriaMaterialId, edited));
      if reply.Success? {
        books := UpdateById(books, edited);
        filteredBooks := TitleFilter(books, searchTerm);
        editingBook := None;
        activeTab := "list";
      }
    }

    /** The card's "Eliminar" button: remembers the id and opens the modal;
        nothing is deleted yet. */
    method AskDelete(id: Option<string>)
      requires Valid()
      modifies this`bookToDelete, this`showDeleteModal
      ensures Valid()
      ensures bookToDelete == id && showDeleteModal
    {
      bookToDelete := id;
      showDeleteModal := true;
    }

    /** The modal's "No": closes it without deleting. */
    method DismissDelete()
      requires Valid()
      modifies this`showDeleteModal
      ensures Valid()
      ensures !showDeleteModal
    {
      showDeleteModal := false;
    }

    /** handleDeleteBook, the modal's "Sí": after a successful DELETE of the
        remembered id the book leaves the list and the modal closes; after a
        failure the list and the modal stay as they were. `bookToDelete` is
        not cleared in either case. */
    method ConfirmDelete(reply: Reply<()>)
      requires Valid()
      modifies this`books, this`filteredBooks, this`showDeleteModal
      ensures Valid()
      ensures reply.Success? ==> books == RemoveById(old(books), bookToDelete) && !showDeleteModal
      ensures reply.Failure? ==> books == old(books) && showDeleteModal == old(showDeleteModal)
    {
      if reply.Success? {
        books := RemoveById(books, bookToDelete);
        filteredBooks := TitleFilter(books, searchTerm);
        showDeleteModal := false;
      }
    }

    /** startEditing: opens the form on a copy of the book with its date cut. */
    method StartEditing(b: Libro)
      requires Valid()
      modifies this`editingBook, this`activeTab
      ensures Valid()
      ensures editingBook == Some(EditCopy(b))
      ensures activeTab == "edit"
    {
      editingBook := Some(EditCopy(b));
      activeTab := "edit";
    }

    /** An input's onChange: the text goes into the book being edited when
        there is one, and into the create form otherwise. */
    method TypeInto(field: LibroField, value: string)
      requires Valid()
      modifies this`editingBook, this`newBook
      ensures Valid()
      ensures old(editingBook).Some? ==>
        editingBook == Some(EditField(old(editingBook).value, field, value)) && newBook == old(newBook)
      ensures old(editingBook).None? ==>
        editingBook == None && newBook == DraftField(old(newBook), field, value)
    {
      if editingBook.Some? {
        editingBook := Some(EditField(editingBook.value, field, value));
      } else {
        newBook := DraftField(newBook, field, value);
      }
    }

    /** The form's "Cancelar": drops the edit, blanks the error map and
        returns to the list. The create form keeps what was typed. */
    method CancelForm()
      requires Valid()
      modifies this`editingBook, this`formErrors, this`activeTab
      ensures Valid()
      ensures editingBook == None && activeTab == "list"
      ensures formErrors == map["titulo" := "", "fechaPublicacion" := "", "autorLibro" := ""]
    {
      editingBook := None;
      activeTab := "list";
      formErrors := map["titulo" := "", "fechaPublicacion" := "", "autorLibro" := ""];
    }

    /** The empty catalogue's "Añadir Primer Libro": only switches to the
        create tab. */
    method AddFirstBook()
      requires Valid()
      modifies this`activeTab
      ensures Valid()
      ensures activeTab == "add"
    {
      activeTab := "add";
    }
  }
}
