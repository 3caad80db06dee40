# Libreria front end — a Dafny model of its handlers and API adapters

Libreria is a small React front end for a library: a book catalogue, an
author catalogue and a password-recovery form, talking to REST services
through axios adapters. This project models the logic behind those screens
and proves what it promises:

- **`JsValues`** (`js_values.dfy`) — the JavaScript values the handlers see:
  - `null`/`undefined` as `Option`, the outcome of an awaited call as `Reply`;
  - truthiness and `x || y`;
  - `String.prototype.trim`, over ECMAScript's exact whitespace and line-terminator code points;
  - ASCII `toLowerCase`, `includes`, and `split('T')[0]`.
- **`Lists`** (`lists.dfy`) — the two array updates the managers apply, `filter` and `map`-with-replace, with their membership, multiplicity, order and composition laws.
- **`AutorApi`** and **`LibroApi`** (`autor_api.dfy`, `libro_api.dfy`) — the records and request bodies of the author adapters (`src/api/autorApiPosgreSql.js`, `src/api/autorApi.js`) and the book adapter (`src/api/libroApi.js`). This includes how `createLibro` normalises the create response.
- **`AuthInterceptor`** (`auth_interceptor.dfy`) — the request interceptor that attaches the bearer token, and the response interceptor that answers a 401 by refreshing the token once. It appears twice:
  - as classes over `localStorage` and the request config;
  - as a pure decision function, with the "no retry storm" bound.
- **`AutorManager`**, **`LibroManager`**, **`RecoveryForm`** (`autor_manager.dfy`, `libro_manager.dfy`, `recovery_form.dfy`) — the three components as classes:
  - their state hooks are fields;
  - each handler is a method whose contract gives the whole new state;
  - the reply of the HTTP call the handler awaits is a parameter of the method.

Some behaviour is folded into the model:

- **Filter effect.** `LibroManager` re-filters the catalogue whenever `books` or `searchTerm` changes. The model applies that filter at the end of every method that changes either one. The class invariant `Valid()` is `filteredBooks == TitleFilter(books, searchTerm)`.
- **Debounce.** `AutorManager`'s debounced search is the method `SearchTimerFired`: the timer firing on the current term.

Behaviour sometimes described for these screens is not in the code and is not modelled. The code has none of these:

- optimistic insertion with temporary ids;
- rollback and re-fetch after a failed call;
- an error taxonomy;
- future-date, author-id or maximum-title-length validation.

Its rules are these:

- validation only requires non-blank names or a non-blank title;
- a failed load, save or delete in the two managers leaves the lists as they were, and its error is only logged;
- a failed author search empties the shown list;
- the recovery form shows the server's error message, or a fixed one;
- a failed token refresh removes both stored tokens and reloads the page.

## Model

| member | source | states |
|---|---|---|
| JsValues.TrimEmptyIff | src/components/autor/AutorManager.js:67-68 | a string trims to "" exactly when every character is ECMAScript whitespace, so `!s?.trim()` rejects exactly the absent and all-whitespace values |
| JsValues.TrimStartShape | src/components/libro/LibroManager.js:55 | trimming the front keeps a suffix that does not start with whitespace, and everything dropped is whitespace |
| JsValues.TrimEndShape | src/components/libro/LibroManager.js:55 | trimming the back keeps a prefix that does not end with whitespace, and everything dropped is whitespace |
| JsValues.TrimIdempotent | src/components/libro/LibroManager.js:47-55 | trimming an already trimmed title changes nothing |
| JsValues.ToLower | src/components/libro/LibroManager.js:40 | lower-casing keeps the length and maps each character on its own |
| JsValues.IncludesIff | src/components/libro/LibroManager.js:40 | `includes` holds exactly when the needle occurs at some position of the haystack |
| JsValues.BeforeT | src/components/autor/AutorManager.js:100 | `split('T')[0]` is a prefix without 'T', and it stops only at a 'T' or at the end |
| JsValues.DatePart | src/components/libro/LibroManager.js:100 | the optional-chained date cut: "" for an absent date, else a 'T'-free prefix, and the whole value when it has no 'T' |
| JsValues.BeforeTAt | src/components/libro/LibroManager.js:100 | the cut ends exactly at the first 'T' |
| JsValues.DatePartOfTimestamp | src/components/autor/AutorManager.js:100 | an ISO timestamp `date + "T" + time` is cut to `date` |
| Lists.Filter | src/components/autor/AutorManager.js:108-109 | a filter keeps only elements that were there and satisfy the predicate, and never grows the list |
| Lists.ReplaceWhere | src/components/autor/AutorManager.js:81-83 | the map keeps the length, gives the new record at every matching position and keeps every other element in place |
| Lists.FilterMembership | src/components/libro/LibroManager.js:90 | an element is kept exactly when it was there and satisfies the predicate |
| Lists.FilterMultiplicity | src/components/libro/LibroManager.js:90 | each kept element appears exactly as often as before; rejected ones not at all |
| Lists.FilterIsSubsequence | src/components/libro/LibroManager.js:39-41 | the filtered list keeps the original order |
| Lists.FilterKeepsAll | src/components/libro/LibroManager.js:39-41 | when every element passes, the filter returns the list unchanged |
| Lists.FilterAppend | src/components/libro/LibroManager.js:63 | filtering a concatenation is concatenating the filtered parts |
| Lists.FilterIdempotent | src/components/autor/AutorManager.js:109 | filtering an already filtered list again changes nothing |
| Lists.ReplaceNoMatch | src/components/libro/LibroManager.js:77-79 | where no element matches, the map changes nothing |
| Lists.FilterAfterReplace | src/components/autor/AutorManager.js:81-83 | removing by id after replacing by that id gives the same list as removing straight away |
| AutorApi.ToPayload | src/api/autorApiPosgreSql.js:88-111 | the create and update body: names are passed through, and a falsy birth date is sent as null, never as "". The other author adapter, `src/api/autorApi.js`, builds the same body |
| LibroApi.CreatePayload | src/api/libroApi.js:39-43 | the create body: the title as given, and a falsy date or author sent as null |
| LibroApi.UpdatePayload | src/api/libroApi.js:61-66 | the update body has the same three fields as the create body, plus `LibroId`, the path id |
| LibroApi.CreatedLibro | src/api/libroApi.js:46-51 | the returned id is `libreriaMaterialId`, or `id` when that is falsy; every other field equals the request's |
| LibroApi.CreateLibro | src/api/libroApi.js:37-56 | a failed POST is rethrown with its message; a successful one yields the normalised record |
| AuthInterceptor.GetItem | src/api/autorApiPosgreSql.js:22 | `getItem` is null exactly for an absent key, and otherwise the stored value |
| AuthInterceptor.WithToken | src/api/autorApiPosgreSql.js:55-60 | with a truthy stored token the headers gain `Authorization: Bearer <token>`, and every other header is kept; without one they are unchanged |
| AuthInterceptor.HandleError | src/api/autorApiPosgreSql.js:13-52 | the refresh runs only for a 401 on a request not yet retried with a refresh token stored. Every other error is rejected untouched. A 401 with no refresh token reloads and rejects. A successful refresh stores the token and resends. A failed refresh removes both tokens, reloads and rejects |
| AuthInterceptor.AtMostOneRefresh | src/api/autorApiPosgreSql.js:19-40 | however often the re-sent request fails, one request calls the refresh endpoint at most once, and never once it carries `_retry` |
| AuthInterceptor.ResentRequestCarriesNewToken | src/api/autorApiPosgreSql.js:35-60 | the re-sent request passes the request interceptor again and carries the refreshed token |
| AuthInterceptor.InterceptRequest | src/api/autorApiPosgreSql.js:55-63 | the config's headers become `WithToken` of the stored items and the old headers |
| AuthInterceptor.InterceptError | src/api/autorApiPosgreSql.js:15-51 | the `_retry` flag, `localStorage` and the resolution end as `HandleError` decides; the header is set only when the request is resent |
| AutorManager.AutorErrors | src/components/autor/AutorManager.js:65-71 | the error map has a `nombre` or `apellido` entry exactly for a blank field, with its message, and is empty exactly for a valid author |
| AutorManager.NameAcceptedIff | src/components/autor/AutorManager.js:67-68 | a name passes exactly when it is present and has a character that is not whitespace |
| AutorManager.SearchDispatch | src/components/autor/AutorManager.js:43-58 | a blank term shows the whole list; otherwise the untrimmed term goes to the id lookup exactly when it is 36 hex digits or hyphens, and to the name search when it is not |
| AutorManager.GuidTermLooksUpId | src/components/autor/AutorManager.js:45-54 | a GUID-shaped term is never blank and always reaches the id lookup |
| AutorManager.SearchOutcome | src/components/autor/AutorManager.js:51-63 | the list after the search. A blank term gives the full list. The id lookup gives exactly the author found, and nothing when there is none. The name search gives the service's list. Any failure empties the list |
| AutorManager.UpdateKeepsIds | src/components/autor/AutorManager.js:81-83 | an update keeps the length and the id at every position |
| AutorManager.DeleteKeepsOthers | src/components/autor/AutorManager.js:108-109 | after a delete no author has the id. Every other author remains, as often as before and in order |
| AutorManager.DeleteAbsentIsNoop | src/components/autor/AutorManager.js:108 | deleting an id that no author has changes nothing |
| AutorManager.CreateThenDeleteRestores | src/components/autor/AutorManager.js:86-108 | appending an author with a fresh id, then deleting that id, restores the list |
| AutorManager.DeleteAfterUpdate | src/components/autor/AutorManager.js:81-108 | deleting an id after updating it gives what deleting it straight away gives |
| AutorManager.EditCopy | src/components/autor/AutorManager.js:97-101 | the edit copy keeps the id and the names, and cuts the birth date to its date part ("" when absent) |
| AutorManager.EditedAuthorOnTheWire | src/components/autor/AutorManager.js:97-103 | saving straight after opening the form sends the same names. The date part is empty exactly when the stored date is absent, empty or starts with 'T', and the date sent is then null. Otherwise the date part is sent, a non-empty prefix of the stored date |
| AutorManager.SaveRequest | src/components/autor/AutorManager.js:75-86 | editing sends an update of the edited author's id, otherwise it sends a create; the body is always `ToPayload` of the form data |
| AutorManager.WithField | src/components/autor/AutorManager.js:207-244 | typing into one field replaces that field with the typed text and leaves the id and the other fields as they were |
| AutorManager.SavedList | src/components/autor/AutorManager.js:79-87 | after a save the created author is appended, or the edited author replaces every author with its id and the rest stay in place |
| AutorManager.AutorManager.constructor | src/components/autor/AutorManager.js:21-27 | the component starts with empty lists, an empty term, an empty form, no author being edited and no errors |
| AutorManager.AutorManager.LoadAutores | src/components/autor/AutorManager.js:30-41 | a loaded list replaces both lists; a failure changes nothing |
| AutorManager.AutorManager.SetSearchTerm | src/components/autor/AutorManager.js:125 | the term becomes the typed value |
| AutorManager.AutorManager.SearchTimerFired | src/components/autor/AutorManager.js:43-63 | the filtered list becomes `SearchOutcome` of the dispatched term |
| AutorManager.AutorManager.ValidateAutor | src/components/autor/AutorManager.js:65-71 | stores `AutorErrors` and answers true exactly for a valid author |
| AutorManager.AutorManager.AddOrUpdate | src/components/autor/AutorManager.js:73-95 | validates the form data and sends nothing when it is invalid. Every call it makes is `SaveRequest`. On success the list becomes `SavedList`, the filtered list the list as it stood before the save, and the form and the tab are reset. On failure everything but the errors is left as it was. The errors go to `formErrors`; the map the form renders is not touched |
| AutorManager.AutorManager.StartEditing | src/components/autor/AutorManager.js:97-103 | the form opens on `EditCopy` of the author, on the `addAutor` tab |
| AutorManager.AutorManager.TypeInto | src/components/autor/AutorManager.js:207-244 | the typed text goes into the edited author when one is open, and into the create form otherwise; the other one is untouched |
| AutorManager.AutorManager.CancelForm | src/components/autor/AutorManager.js:258-265 | "Cancelar" closes the edit, empties the create form, blanks the three entries of the form's own error map and returns to the author list |
| AutorManager.AutorManager.AddFirstAutor | src/components/autor/AutorManager.js:183-187 | "Añadir Primer Autor" closes any edit, empties the create form and opens the create tab |
| AutorManager.AutorManager.Delete | src/components/autor/AutorManager.js:105-113 | a successful delete removes the id from both lists; a failure changes neither |
| LibroManager.TitleFilterShowsMatches | src/components/libro/LibroManager.js:38-43 | a book is shown exactly when its lower-cased title includes the lower-cased term. It is shown as often as it occurs, in catalogue order |
| LibroManager.EmptyTermShowsAll | src/components/libro/LibroManager.js:38-43 | an empty term shows every book |
| LibroManager.ToLowerIdempotent | src/components/libro/LibroManager.js:40 | lower-casing twice is lower-casing once |
| LibroManager.SearchIgnoresCase | src/components/libro/LibroManager.js:40 | a term and its lower-cased form show the same books |
| LibroManager.CreatedBookInView | src/components/libro/LibroManager.js:38-63 | a created book joins the end of the shown list exactly when its title matches the term |
| LibroManager.LibroErrors | src/components/libro/LibroManager.js:45-50 | the only possible error is on `titulo`, with its message, exactly when the title is blank |
| LibroManager.NewBookRecord | src/components/libro/LibroManager.js:54-58 | the new record has the trimmed title, an empty date sent as null, and the default author |
| LibroManager.NewBookValidIff | src/components/libro/LibroManager.js:54-59 | the built record passes validation exactly when the typed title is not blank |
| LibroManager.DeleteKeepsOthers | src/components/libro/LibroManager.js:90 | a delete drops every book with the id and keeps the others, as often as before and in order; an absent id changes nothing |
| LibroManager.EditCopy | src/components/libro/LibroManager.js:97-101 | the edit copy keeps id, title and author, and cuts the publication date to its date part |
| LibroManager.EditCutsTimestamp | src/components/libro/LibroManager.js:100 | a service timestamp `date + "T" + time` is cut to `date` |
| LibroManager.EditedBookOnTheWire | src/api/libroApi.js:59-66 | saving straight after editing sends the same title and author, the book's own id, and null for an absent date |
| LibroManager.EditField | src/components/libro/LibroManager.js:208-227 | typing into the edited book replaces the chosen field (the date as present) and keeps the id, the author and the other field |
| LibroManager.DraftField | src/components/libro/LibroManager.js:208-227 | typing into the create form replaces the chosen field and keeps the other one |
| LibroManager.LibroManager.constructor | src/components/libro/LibroManager.js:14-21 | the component starts empty, with the filter invariant holding |
| LibroManager.LibroManager.LoadBooks | src/components/libro/LibroManager.js:25-43 | a loaded list replaces the catalogue; a failure changes nothing; the shown list stays the title filter of the catalogue |
| LibroManager.LibroManager.SetSearchTerm | src/components/libro/LibroManager.js:114 | the term becomes the typed value and the shown list is re-filtered |
| LibroManager.LibroManager.ValidateBook | src/components/libro/LibroManager.js:45-50 | stores `LibroErrors` and answers true exactly for a valid book |
| LibroManager.LibroManager.AddBook | src/components/libro/LibroManager.js:52-69 | validates `NewBookRecord` of the form and sends nothing when it is invalid. It sends `CreatePayload` of the record. On success it appends `CreatedLibro`, resets the form and returns to the list. On failure the catalogue, the form and the tab are kept |
| LibroManager.LibroManager.UpdateBook | src/components/libro/LibroManager.js:71-85 | validates the edited book and sends nothing when it is invalid. It sends `UpdatePayload` with the book's id. On success every book with that id is replaced and the form closes. On failure everything but the errors is kept |
| LibroManager.LibroManager.AskDelete | src/components/libro/LibroManager.js:157-160 | remembers the id and opens the confirmation; nothing is deleted |
| LibroManager.LibroManager.DismissDelete | src/components/libro/LibroManager.js:191 | closes the confirmation without deleting |
| LibroManager.LibroManager.ConfirmDelete | src/components/libro/LibroManager.js:87-95 | a successful delete removes the remembered id and closes the confirmation; a failure keeps both |
| LibroManager.LibroManager.StartEditing | src/components/libro/LibroManager.js:97-103 | the form opens on `EditCopy` of the book, on the `edit` tab |
| LibroManager.LibroManager.TypeInto | src/components/libro/LibroManager.js:206-228 | the typed text goes into the edited book when one is open, and into the create form otherwise; the other one and the shown list are untouched |
| LibroManager.LibroManager.CancelForm | src/components/libro/LibroManager.js:240-247 | "Cancelar" closes the edit, blanks the three error entries and returns to the list; the create form keeps what was typed, and the next submit creates a book |
| LibroManager.LibroManager.AddFirstBook | src/components/libro/LibroManager.js:177-182 | "Añadir Primer Libro" only opens the create tab; an open edit stays open |
| RecoveryForm.RecoveryForm.constructor | src/components/auth/RecoveryForm.js:7-13 | the form starts at stage 1 with every field empty |
| RecoveryForm.RecoveryForm.SetFields | src/components/auth/RecoveryForm.js:54-86 | the e-mail, answer and new-password inputs store what was typed |
| RecoveryForm.RecoveryForm.FetchQuestion | src/components/auth/RecoveryForm.js:15-24 | a question moves the form to stage 2 and clears the error. A failure keeps the stage and shows the server's message, or "Error al obtener la pregunta" |
| RecoveryForm.RecoveryForm.HandleRecovery | src/components/auth/RecoveryForm.js:26-40 | success shows the service's message, clears the error and schedules the return to login. A failure shows the server's message, or "Error al recuperar contraseña". The stage never changes |
| RecoveryForm.RunRecovery | src/components/auth/RecoveryForm.js:15-40 | for any sequence of replies the stage stays 1 or 2. Once the question has been fetched, the stage stays 2 |

## Left out

Not modelled, and why:

- **Rendering.** The JSX markup, CSS and `isHovering` are presentation.
- **Displayed form value.** The inputs show `editingX?.field || newX.field`; which value is displayed is presentation. What typing stores is `TypeInto`.
- **Tab navigation.** The tab bar that passes `activeTab` and `setActiveTab` in belongs to the enclosing application, which is not part of this model.
- **Debounce timing.** The 400 ms timer and its cancellation are time. `SearchTimerFired` is the moment the timer fires.
- **Concurrency.** Overlapping handlers and the order in which their awaited calls resolve are not modelled. Each handler runs to completion with the reply it got.
- **Reload.** `window.location.reload()` is the `reload` flag of `AuthInterceptor.Resolution`.
- **Redirect to login.** The recovery form's two-second `setTimeout` to the login view is the `toLogin` result of `HandleRecovery`.
- **Logging.** `console.error` / `console.warn` are side effects only.
- **Transport.** The axios transport is not modelled: it would need the network. The adapters that forward `response.data` unchanged are the `Reply` parameters of the methods. These forwarding adapters are:
  - `getAutoresPostgre`, `getAutorByIdPostgre`, `updateAutorPostgre`, `deleteAutorPostgre`, `searchAutoresByNombrePostgre`;
  - `getLibros`, `updateLibro`, `deleteLibro`;
  - `getAutores`, `getAutorById`, `updateAutor`, `deleteAutor`, `searchAutoresByNombre`;
  - plus `encodeURIComponent` in the search URL.
- **`getLibroById`.** Has no caller in the core, and forwards its reply like the adapters above.
- **Interceptor vs. replies.** The interceptor is not composed with the manager replies. A manager's `Reply` is the outcome after the interceptor has run.
- **Config object.** `AuthInterceptor.InterceptError` keeps the flag on the config object. Axios, however, may copy the config when it re-sends. That is library behaviour outside the repository.
- **Missing `token` field.** `AuthInterceptor.HandleError`: a refresh reply without a `token` field would store the string "undefined" in the source. The model's successful reply always carries a string.
- **`null` vs. `undefined`.** Both are `None`, so the key that `JSON.stringify` omits for `undefined` in a request body is not distinguished from an explicit `null`. The merge also changes the strict id tests `===` / `!==` of `HasId` and `HasOtherId` (`src/components/autor/AutorManager.js:82`, `:108-109`; `src/components/libro/LibroManager.js:78`, `:90`). For example, a created book whose response has neither id field gets `libreriaMaterialId: undefined` (`src/api/libroApi.js:47`). In JavaScript that id does not equal a `null` id, but in the model the two are the same `None`.
- **`toLowerCase`.** `JsValues.ToLower`: covers ASCII letters only; other Unicode case mappings are not modelled.
- **Book title type.** `LibroManager.TitleFilter`: the title is a `string`; the source's filter would throw on a null title, which is not modelled.
- **Stale list after save.** `AutorManager.AutorManager.AddOrUpdate`: after a successful save the filtered list is set to `autores` as the handler's closure captured it. This is the list from before the save. The model keeps that value, and the component's later re-run of the debounce effect is left to the caller (`SearchTimerFired`).
- **Error-map state.** The author screen keeps two error maps. Validation writes `formErrors`; the form renders `autorFormErrors`, which only "Cancelar" writes. Both are fields of the model. The contracts of `ValidateAutor` and `AddOrUpdate` leave `autorFormErrors` unchanged, so validation errors never reach the author form. The model states this and does not correct it.
- **`toLocaleDateString`.** The display formatting of dates is presentation.
