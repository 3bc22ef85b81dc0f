# InkVerse Biblioteca: a Dafny model of its loan, stock and administration logic

InkVerse Biblioteca is a small library system. A Spring backend keeps books, categories, readers and loans. An Angular frontend has a public catalogue, a reader's loan history and an administration area. This project models the backend's behaviour and the frontend's decisions, and proves properties about them.

**Backend.**
- `Repositories` holds the database as one value, `Tables`: books and categories as maps by id, users and loans as sequences in id order, and the next identity value of each table. The `Store` class holds the same tables as fields that methods update in place.
- `BibliotecaService` covers lending and returning. `AdminController` covers the administration endpoints for categories, books, loans, fines and users. `AuthService` covers registration, the first administrator and login.
- Each state-changing operation is first a pure function `After…` from the old tables to the new tables and the result or exception. Its lemma `…Spec` states every branch: the error cases in the source's order, and what the success changes and keeps. The class method with the same name mutates the `Store` field by field, as the source's setters and `save` calls do. It is proved to produce exactly that function's outcome.
- Every state-changing operation is proved to keep the database's integrity (`Consistent`), by a `…KeepsConsistent` lemma about its `After…` function. `Store.Valid()` is `Consistent` of the store's contents: every method that changes the store requires it and ensures it again. `Consistent` means:
  - book rows are stored under their own ids and reference existing categories;
  - loan and user ids increase;
  - usernames and emails are unique;
  - active loans point at existing books.
- `PrestamoRepository` gives the derived and JPQL queries as functions over the loan table.
- `ExceptionHandler` maps an exception to the HTTP response that `GlobalExceptionHandler` builds.
- `UserDetailsService` gives the Spring Security view of an account. `FileUpload` covers the image upload validation and naming.

**Frontend.**
- `AuthSession` is the session in browser storage. `Interceptor` is the bearer-header decision. `ImageUrls` is the shared image-address normaliser.
- `Books` is the catalogue filter chain. `PrestamoViews`, `AdminPrestamos` and `HistorialPrestamos` are the loan lists, their counters, colours and labels.
- `AdminLibros` and `AdminUsuarios` are the book and user administration pages.
- Component state that the source assigns in handlers is a class with those fields, such as `Catalogo`, `LibrosPage` and `UsuariosPage`. Its methods state the new value of every field.

**Across layers.** Several lemmas tie the two sides together:
- a book deleted while it has copies on loan reaches the page as a warning with the server's own sentence;
- a token stored at login reaches the API;
- an ADMIN login makes the page an administrator's;
- the page's image checks match the server's.

**Stock.** `Stock` follows each book's copies on the shelf plus copies in readers' hands, and shows where the loan state machine as written breaks this count.

Dates are whole day numbers and "today" is a parameter. Java's `int` arithmetic on fines is modelled with an explicit 32-bit wrap (`Entities.Int32`).

The loan period follows the code: seven days (`BibliotecaService.java`, line 56). The endpoint documentation of `LibroController` says fifteen days.

## Model

| member | source | states |
|---|---|---|
| Entities.Int32 | backend/src/main/java/com/biblioteca/service/BibliotecaService.java:78 | Java's `(int)` narrowing: always inside the 32-bit signed range |
| Entities.Int32Wraps | backend/src/main/java/com/biblioteca/service/BibliotecaService.java:78 | the narrowing differs from its argument by a multiple of 2^32 and leaves values already in range alone |
| Entities.ValorMultaExact | backend/src/main/java/com/biblioteca/service/BibliotecaService.java:77-80 | from 1 to 429496 days late, the stored days equal the days late and the fine is exactly 5000 per day and positive |
| Entities.ValorMultaWraps | backend/src/main/java/com/biblioteca/service/BibliotecaService.java:80 | at 429497 days late the `int` fine wraps to a negative amount |
| Repositories.FindPrestamo | backend/src/main/java/com/biblioteca/service/BibliotecaService.java:66-67 | `findById` on loans: none exactly when no row has the id, otherwise the position of a row with that id |
| Repositories.FindUsuario | backend/src/main/java/com/biblioteca/controller/AdminController.java:533-534 | `findById` on users: none exactly when no row has the id, otherwise the position of a row with that id |
| Repositories.FindByUsername | backend/src/main/java/com/biblioteca/service/BibliotecaService.java:40-41 | none exactly when no account has the name, otherwise an account of the table holding it |
| Repositories.CountByCategoriaId | backend/src/main/java/com/biblioteca/controller/AdminController.java:146 | the count is zero exactly when no book is filed under the category |
| Repositories.FindByUsernameUnique | backend/src/main/java/com/biblioteca/service/AuthService.java:84-86 | with unique usernames the lookup returns the one account holding the name |
| Repositories.AddUsuarioKeepsConsistent | backend/src/main/java/com/biblioteca/controller/AdminController.java:497-511 | saving an account whose username and email nobody holds, under the next id, keeps ids increasing and accounts unique |
| PrestamoRepository.FindByUsuario | backend/src/main/java/com/biblioteca/repository/PrestamoRepository.java:14 | exactly the loans of that user, each from the table |
| PrestamoRepository.FindByEstado | backend/src/main/java/com/biblioteca/repository/PrestamoRepository.java:16 | exactly the loans in that state, each from the table |
| PrestamoRepository.FindByEstadoAndFechaLimiteBefore | backend/src/main/java/com/biblioteca/repository/PrestamoRepository.java:18 | exactly the loans in that state whose due date is strictly before the date |
| PrestamoRepository.InsertByFechaPrestamoDesc | backend/src/main/java/com/biblioteca/repository/PrestamoRepository.java:23 | inserting one loan into a list sorted by loan date, newest first, keeps it sorted and adds exactly that loan to its multiset |
| PrestamoRepository.SortByFechaPrestamoDesc | backend/src/main/java/com/biblioteca/repository/PrestamoRepository.java:23 | `ORDER BY fechaPrestamo DESC`: sorted newest first and a permutation of its input |
| PrestamoRepository.FindByUsuarioWithRelations | backend/src/main/java/com/biblioteca/repository/PrestamoRepository.java:23-24 | the user's loans and only those, newest first, a permutation of `findByUsuario` |
| PrestamoRepository.SameElements | backend/src/main/java/com/biblioteca/repository/PrestamoRepository.java:23-24 | two lists with the same multiset have the same elements |
| PrestamoRepository.CountPrestamosActivosByLibroId | backend/src/main/java/com/biblioteca/repository/PrestamoRepository.java:26-27 | at most the table size, and zero exactly when no loan of the book is PRESTADO or MULTA |
| PrestamoRepository.QueriesKeepTableOrder | backend/src/main/java/com/biblioteca/repository/PrestamoRepository.java:14-18 | the three derived queries return subsequences of the table |
| PrestamoRepository.UsuarioThenEstado | backend/src/main/java/com/biblioteca/repository/PrestamoRepository.java:14-16 | filtering by user then by state gives the same list as by state then by user |
| BibliotecaService.ObtenerLibro | backend/src/main/java/com/biblioteca/service/BibliotecaService.java:33-36 | the stored book exactly when the id exists, otherwise IllegalArgument "Libro no encontrado" |
| BibliotecaService.Restock | backend/src/main/java/com/biblioteca/service/BibliotecaService.java:86-88 | one more copy available of that book; every other book and the set of ids unchanged |
| BibliotecaService.PrestarLibroSpec | backend/src/main/java/com/biblioteca/service/BibliotecaService.java:39-62 | unknown user, then unknown book, then no copy available each fail with their exception and change nothing; success exactly otherwise, with one copy fewer of that book only and a new PRESTADO loan appended, lent today, due in 7 days, fine 0 |
| BibliotecaService.Devuelto | backend/src/main/java/com/biblioteca/service/BibliotecaService.java:73-84 | a returned loan keeps its id, user, book and dates and gets today's return date; late, it is MULTA with the wrapped days and fine; on time, DEVUELTO |
| BibliotecaService.DevueltoTardeMulta | backend/src/main/java/com/biblioteca/service/BibliotecaService.java:76-81 | a return up to 429496 days late is MULTA with exactly the days late and a positive fine of 5000 per day |
| BibliotecaService.DevolverLibroSpec | backend/src/main/java/com/biblioteca/service/BibliotecaService.java:65-91 | an unknown loan fails exactly when not found and changes nothing; a DEVUELTO loan comes back unchanged with nothing stored; any other loan is marked returned today and its book gets one copy back |
| BibliotecaService.DevolverIdempotent | backend/src/main/java/com/biblioteca/service/BibliotecaService.java:69-71 | returning a loan a second time after an on-time return changes nothing and answers the same loan |
| BibliotecaService.FindPrestamoUnique | backend/src/main/java/com/biblioteca/service/BibliotecaService.java:66-67 | with distinct ids, `findById` finds the one row carrying the id |
| BibliotecaService.PrestamosPorUsuario | backend/src/main/java/com/biblioteca/service/BibliotecaService.java:93-97 | an unknown user fails with IllegalArgument; otherwise every loan of that user and no other, each as often as in `findByUsuario`, newest first |
| BibliotecaService.PrestamosConMulta | backend/src/main/java/com/biblioteca/service/BibliotecaService.java:99-101 | exactly the loans in MULTA |
| BibliotecaService.PrestarKeepsConsistent | backend/src/main/java/com/biblioteca/service/BibliotecaService.java:39-62 | lending keeps ids increasing, accounts unique, books well filed and active loans pointing at existing books |
| BibliotecaService.DevolverKeepsConsistent | backend/src/main/java/com/biblioteca/service/BibliotecaService.java:65-91 | returning keeps the database consistent |
| BibliotecaService.BibliotecaService.constructor | backend/src/main/java/com/biblioteca/service/BibliotecaService.java:39 | the service works on the shared database |
| BibliotecaService.BibliotecaService.PrestarLibro | backend/src/main/java/com/biblioteca/service/BibliotecaService.java:39-62 | the tables after the setters and saves, and the loan returned, are those of `PrestarLibroSpec`; a consistent store (`Store.Valid()`) stays consistent |
| BibliotecaService.BibliotecaService.DevolverLibro | backend/src/main/java/com/biblioteca/service/BibliotecaService.java:65-91 | the tables after the setters and saves, and the loan returned, are those of `DevolverLibroSpec`; a consistent store (`Store.Valid()`) stays consistent |
| Stock.CuadraAcota | backend/src/main/java/com/biblioteca/service/BibliotecaService.java:44-48 | where shelf plus copies out equals the total, no book shows more available than its total |
| Stock.MismasExistenciasCuadra | backend/src/main/java/com/biblioteca/service/BibliotecaService.java:48-88 | an operation that keeps every book's shelf-plus-out count and total keeps the stock adding up |
| Stock.PrestarKeepsStock | backend/src/main/java/com/biblioteca/service/BibliotecaService.java:48-59 | lending moves one copy from the shelf to a reader: every book's stock is unchanged |
| Stock.ActualizarMultasKeepsStock | backend/src/main/java/com/biblioteca/controller/AdminController.java:393-403 | the fine update changes neither shelves nor return dates, so no stock changes |
| Stock.ReturnKeepsStock | backend/src/main/java/com/biblioteca/service/BibliotecaService.java:74-88 | giving a return date to an unreturned loan while adding a copy to its book keeps every book's stock |
| Stock.DevolverCorregidoKeepsStock | backend/src/main/java/com/biblioteca/service/BibliotecaService.java:65-91 | the corrected return keeps every book's stock and agrees with the code on loans not yet returned |
| Stock.PagarMultaCorregidoKeepsStock | backend/src/main/java/com/biblioteca/controller/AdminController.java:426-437 | the corrected payment keeps every book's stock |
| Stock.ActualizarLibroSinTope | backend/src/main/java/com/biblioteca/controller/AdminController.java:236-237 | an update sending more copies available than in total is accepted and stored as sent, and the stock then no longer adds up |
| Stock.DevueltoTardeCuadra | backend/src/main/java/com/biblioteca/service/BibliotecaService.java:76-88 | the example library adds up, and after a loan returned three days late the loan is MULTA, returned, and the copy is back on the shelf |
| Stock.PagarMultaDevueltoRepone | backend/src/main/java/com/biblioteca/controller/AdminController.java:435-437 | as written, paying the fine of a loan returned late restocks again: a one-copy book shows two available |
| Stock.DevolverDosVecesRepone | backend/src/main/java/com/biblioteca/service/BibliotecaService.java:69 | as written, returning a MULTA loan again restocks again: a one-copy book shows two available |
| AdminController.EliminarCategoriaSpec | backend/src/main/java/com/biblioteca/controller/AdminController.java:143-150 | unknown id fails; a category some book uses fails with IllegalState and changes nothing; success exactly otherwise, removing only that category |
| AdminController.EliminarCategoriaKeepsConsistent | backend/src/main/java/com/biblioteca/controller/AdminController.java:143-150 | deleting a category no book is filed under keeps the database consistent |
| AdminController.ResolverCategoria | backend/src/main/java/com/biblioteca/controller/AdminController.java:171-177 | no category stays none; a stored id is kept; an unknown id is an IllegalArgument |
| AdminController.CrearLibroSpec | backend/src/main/java/com/biblioteca/controller/AdminController.java:165-179 | an unknown category fails and stores nothing; otherwise a book under the next id with the request's fields, available = total when 0 was sent, else as sent |
| AdminController.CrearLibroKeepsConsistent | backend/src/main/java/com/biblioteca/controller/AdminController.java:165-179 | a new book under the next id and an existing category keeps the database consistent |
| AdminController.ActualizarLibroSpec | backend/src/main/java/com/biblioteca/controller/AdminController.java:224-248 | unknown book or category fails and changes nothing; otherwise every field, both counts included, is overwritten and only that book changes |
| AdminController.ActualizarLibroKeepsConsistent | backend/src/main/java/com/biblioteca/controller/AdminController.java:224-248 | updating a book keeps the database consistent |
| AdminController.MensajeLibroConPrestamos | backend/src/main/java/com/biblioteca/controller/AdminController.java:271 | the delete refusal message starts with the code LIBRO_CON_PRESTAMOS_ACTIVOS |
| AdminController.EliminarLibroSpec | backend/src/main/java/com/biblioteca/controller/AdminController.java:264-275 | unknown book fails; a book with a PRESTADO or MULTA loan fails with the coded IllegalState naming the count; success exactly when it has none, removing only that book |
| AdminController.EliminarLibroKeepsConsistent | backend/src/main/java/com/biblioteca/controller/AdminController.java:264-275 | the active-loans guard keeps every PRESTADO or MULTA loan pointing at an existing book, so the database stays consistent |
| AdminController.ListarPrestamosActivos | backend/src/main/java/com/biblioteca/controller/AdminController.java:329-334 | exactly the loans in PRESTADO or MULTA |
| AdminController.ActivosDelLibro | backend/src/main/java/com/biblioteca/controller/AdminController.java:329-334 | a book's loans in the active list are as many as the delete guard counts |
| AdminController.Multado | backend/src/main/java/com/biblioteca/controller/AdminController.java:394-400 | a fined loan is MULTA with days late and fine set and nothing else changed; up to 429496 days late the fine is exactly 5000 per day |
| AdminController.MultarVencidos | backend/src/main/java/com/biblioteca/controller/AdminController.java:388-403 | the same table length, each overdue PRESTADO loan fined and every other row untouched |
| AdminController.MultarVencidosRows | backend/src/main/java/com/biblioteca/controller/AdminController.java:393-403 | a table whose rows are each the updated row is the table after the update |
| AdminController.Actualizados | backend/src/main/java/com/biblioteca/controller/AdminController.java:402 | the count of fined loans is at most the table size |
| AdminController.ActualizadosZero | backend/src/main/java/com/biblioteca/controller/AdminController.java:392-402 | the count is zero exactly when no loan is overdue and PRESTADO |
| AdminController.VencidosSonLosDelRepositorio | backend/src/main/java/com/biblioteca/controller/AdminController.java:388-391 | the loans selected are exactly `findByEstadoAndFechaLimiteBefore(PRESTADO, today)` |
| AdminController.ActualizadosCuentaVencidos | backend/src/main/java/com/biblioteca/controller/AdminController.java:388-402 | the count reported is the number of overdue PRESTADO loans |
| AdminController.ActualizadosEsLaConsulta | backend/src/main/java/com/biblioteca/controller/AdminController.java:388-402 | the count reported is the size of `findByEstadoAndFechaLimiteBefore(PRESTADO, today)` |
| AdminController.ActualizadosStep | backend/src/main/java/com/biblioteca/controller/AdminController.java:402 | counting one more row adds one exactly when that row is overdue |
| AdminController.ActualizarMultasTwice | backend/src/main/java/com/biblioteca/controller/AdminController.java:389-400 | a second run on the same day updates no loan and changes nothing |
| AdminController.ActualizarMultasKeepsConsistent | backend/src/main/java/com/biblioteca/controller/AdminController.java:383-406 | fining keeps the database consistent |
| AdminController.PagarMultaSpec | backend/src/main/java/com/biblioteca/controller/AdminController.java:423-437 | unknown loan fails; success exactly for a MULTA loan, others fail with IllegalState and change nothing; the paid loan is DEVUELTO, returned today, keeps its fine, and its book gets a copy back |
| AdminController.PagarMultaKeepsConsistent | backend/src/main/java/com/biblioteca/controller/AdminController.java:420-445 | paying keeps the database consistent |
| AdminController.CrearUsuarioSpec | backend/src/main/java/com/biblioteca/controller/AdminController.java:497-513 | taken username, then taken email fail and change nothing; success exactly otherwise, appending the form's user, password encoded only when non-empty, role defaulting to USUARIO, and the answer hides the password |
| AdminController.CrearUsuarioKeepsConsistent | backend/src/main/java/com/biblioteca/controller/AdminController.java:494-514 | creating a user keeps the database consistent |
| AdminController.ActualizarUsuarioSpec | backend/src/main/java/com/biblioteca/controller/AdminController.java:533-559 | unknown user fails; a changed username or email held by another fails; keeping one's own is accepted; on success only that row changes, password re-encoded only when a non-empty one is sent |
| AdminController.ActualizarUsuarioKeepsConsistent | backend/src/main/java/com/biblioteca/controller/AdminController.java:536-544 | an update never creates a duplicate username or email |
| AdminController.EliminarUsuarioSpec | backend/src/main/java/com/biblioteca/controller/AdminController.java:575-579 | unknown id fails and changes nothing; otherwise one row fewer, every row from the old table, loans untouched |
| AdminController.EliminarUsuarioKeepsConsistent | backend/src/main/java/com/biblioteca/controller/AdminController.java:575-579 | deleting keeps the database consistent and leaves no account with that id |
| AdminController.RemoveAtKeepsAccounts | backend/src/main/java/com/biblioteca/controller/AdminController.java:578 | removing a row keeps ids increasing and accounts unique, and its id is gone |
| AdminController.AdminController.constructor | backend/src/main/java/com/biblioteca/controller/AdminController.java:44-56 | the controller shares the service's database |
| AdminController.AdminController.EliminarCategoria | backend/src/main/java/com/biblioteca/controller/AdminController.java:140-152 | the new tables and the answer are those of `EliminarCategoriaSpec`; a consistent store (`Store.Valid()`) stays consistent |
| AdminController.AdminController.CrearLibro | backend/src/main/java/com/biblioteca/controller/AdminController.java:165-179 | the new tables and the answer are those of `CrearLibroSpec`; a consistent store (`Store.Valid()`) stays consistent |
| AdminController.AdminController.ActualizarLibro | backend/src/main/java/com/biblioteca/controller/AdminController.java:224-248 | the new tables and the answer are those of `ActualizarLibroSpec`; a consistent store (`Store.Valid()`) stays consistent |
| AdminController.AdminController.EliminarLibro | backend/src/main/java/com/biblioteca/controller/AdminController.java:261-276 | the new tables and the answer are those of `EliminarLibroSpec`; a consistent store (`Store.Valid()`) stays consistent |
| AdminController.AdminController.RecibirLibro | backend/src/main/java/com/biblioteca/controller/AdminController.java:347-352 | the new tables and the answer are the service's return; a consistent store (`Store.Valid()`) stays consistent |
| AdminController.MultarFilas | backend/src/main/java/com/biblioteca/controller/AdminController.java:388-403 | the loop leaves the loan table as `MultarVencidos` (every overdue PRESTADO loan fined, the rest unchanged) and counts `Actualizados` |
| AdminController.AdminController.ActualizarMultas | backend/src/main/java/com/biblioteca/controller/AdminController.java:383-406 | the loan table ends as `MultarVencidos`, the count is `Actualizados`, the message names that count, and nothing else changes; a consistent store (`Store.Valid()`) stays consistent |
| AdminController.AdminController.PagarMulta | backend/src/main/java/com/biblioteca/controller/AdminController.java:420-445 | the new tables and the answer are those of `PagarMultaSpec`; a consistent store (`Store.Valid()`) stays consistent |
| AdminController.AdminController.CrearUsuario | backend/src/main/java/com/biblioteca/controller/AdminController.java:494-514 | the new tables and the answer are those of `CrearUsuarioSpec`; a consistent store (`Store.Valid()`) stays consistent |
| AdminController.AdminController.ActualizarUsuario | backend/src/main/java/com/biblioteca/controller/AdminController.java:528-560 | the new tables and the answer are those of `ActualizarUsuarioSpec`; a consistent store (`Store.Valid()`) stays consistent |
| AdminController.AdminController.EliminarUsuario | backend/src/main/java/com/biblioteca/controller/AdminController.java:572-580 | the new tables and the answer are those of `EliminarUsuarioSpec`; a consistent store (`Store.Valid()`) stays consistent |
| AuthService.RegistrarSpec | backend/src/main/java/com/biblioteca/service/AuthService.java:37-53 | taken username, then taken email fail and change nothing; success exactly otherwise, appending an unblocked USUARIO under the next user id with the request's username, nombre, apellido and email and the encoded password, and changing no other table |
| AuthService.RegistrarNoCreaAdmin | backend/src/main/java/com/biblioteca/service/AuthService.java:44-52 | self-registration never adds an administrator |
| AuthService.CrearPrimerAdminSpec | backend/src/main/java/com/biblioteca/service/AuthService.java:56-81 | fails while an ADMIN exists; then a taken username, then a taken email fail and change nothing; success exactly otherwise, appending an unblocked ADMIN under the next user id with the request's username, nombre, apellido and email and the encoded password, and changing no other table |
| AuthService.PrimerAdminUnaVez | backend/src/main/java/com/biblioteca/service/AuthService.java:58-63 | after one success every later call is refused |
| AuthService.RegistrarKeepsConsistent | backend/src/main/java/com/biblioteca/service/AuthService.java:37-53 | registration keeps the database consistent |
| AuthService.CrearPrimerAdminKeepsConsistent | backend/src/main/java/com/biblioteca/service/AuthService.java:56-81 | creating the first administrator keeps the database consistent |
| AuthService.LoginSpec | backend/src/main/java/com/biblioteca/service/AuthService.java:83-99 | unknown username fails; a blocked account is refused whatever the password; otherwise success exactly when authentication accepts, answering the token, stored name and role name |
| AuthService.AuthService.constructor | backend/src/main/java/com/biblioteca/service/AuthService.java:26-34 | the service shares the database and the encoder |
| AuthService.AuthService.RegistrarUsuario | backend/src/main/java/com/biblioteca/service/AuthService.java:37-53 | the new tables and the answer are those of `RegistrarSpec`; a consistent store (`Store.Valid()`) stays consistent |
| AuthService.AuthService.CrearPrimerAdmin | backend/src/main/java/com/biblioteca/service/AuthService.java:56-81 | the new tables and the answer are those of `CrearPrimerAdminSpec`; a consistent store (`Store.Valid()`) stays consistent |
| UserDetailsService.LoadUserByUsernameSpec | backend/src/main/java/com/biblioteca/security/CustomUserDetailsService.java:26-42 | unknown name fails naming it; otherwise the stored name and password, enabled and unlocked exactly when not blocked, never expired, and exactly one authority "ROLE_" + role |
| UserDetailsService.AdminAuthority | backend/src/main/java/com/biblioteca/security/CustomUserDetailsService.java:30-31 | the authority is ROLE_ADMIN exactly for the ADMIN role |
| ExceptionHandler.HandleStatus | backend/src/main/java/com/biblioteca/exception/GlobalExceptionHandler.java:18-79 | 403 exactly for disabled accounts and denied access, 401 exactly for the other authentication failures, 400 for everything else |
| ExceptionHandler.CredencialesSinDetalle | backend/src/main/java/com/biblioteca/exception/GlobalExceptionHandler.java:26-32 | all non-disabled authentication failures get the same response, CREDENCIALES_INVALIDAS |
| ExceptionHandler.IllegalStateKeepsMessage | backend/src/main/java/com/biblioteca/exception/GlobalExceptionHandler.java:42-55 | 400; the message passes through, or the fixed default when null; the code is the loans code exactly when the message contains it, otherwise ESTADO_INVALIDO |
| ExceptionHandler.IllegalArgumentKeepsMessage | backend/src/main/java/com/biblioteca/exception/GlobalExceptionHandler.java:57-63 | 400 with ARGUMENTO_INVALIDO and the message unchanged |
| ExceptionHandler.IntegrityViolationHidesMessage | backend/src/main/java/com/biblioteca/exception/GlobalExceptionHandler.java:65-79 | the loans code exactly when the message mentions loans, foreign keys or constraints, otherwise VIOLACION_INTEGRIDAD; the message is always one of the two fixed sentences |
| ExceptionHandler.CodeFoundAfterPrefix | backend/src/main/java/com/biblioteca/exception/GlobalExceptionHandler.java:47 | the loans code is recognised wherever it sits in the message |
| FileUpload.Extension | backend/src/main/java/com/biblioteca/controller/FileUploadController.java:71-75 | empty, or starting with the only '.' it contains; empty exactly when there is no name or no '.' |
| FileUpload.UploadImagenSpec | backend/src/main/java/com/biblioteca/controller/FileUploadController.java:55-83 | a non-image is refused before the size is looked at; over 5 MiB is refused; otherwise saved exactly when writing succeeds, at "/uploads/" + the id + the extension |
| FileUpload.LimitIsInclusive | backend/src/main/java/com/biblioteca/controller/FileUploadController.java:61-64 | exactly 5 MiB is accepted, one byte more refused |
| FileUpload.LastExtensionOnly | backend/src/main/java/com/biblioteca/controller/FileUploadController.java:71-76 | "portada.final.jpg" is stored as the id + ".jpg" |
| AuthSession.LoginStores | frontend/src/app/services/auth.service.ts:33-37 | after login the token, name and role are the response's, logged in exactly for a non-empty token, admin exactly for role "ADMIN", other keys untouched |
| AuthSession.LogoutClears | frontend/src/app/services/auth.service.ts:49-53 | after logout no token, name or role, neither logged in nor admin, other keys untouched |
| AuthSession.LogoutIdempotent | frontend/src/app/services/auth.service.ts:49-53 | logging out twice is logging out once |
| AuthSession.LogoutUndoesLogin | frontend/src/app/services/auth.service.ts:33-53 | logout after a login leaves what logout alone would have left |
| AuthSession.ServerAdminIsPageAdmin | frontend/src/app/services/auth.service.ts:71-73 | after a successful server login, the page treats the session as admin exactly when the account's role is ADMIN |
| AuthSession.Session.constructor | frontend/src/app/services/auth.service.ts:27 | the session starts on the given storage |
| AuthSession.Session.Login | frontend/src/app/services/auth.service.ts:33-37 | the storage after the `tap` is `LoginStores`' storage |
| AuthSession.Session.Logout | frontend/src/app/services/auth.service.ts:49-53 | the storage after logout is `LogoutClears`' storage |
| Interceptor.InterceptSpec | frontend/src/app/interceptors/auth.interceptor.ts:14-33 | one request forwarded; the bearer header exactly when storage was read, held a non-empty token and the URL is on the API origin, nothing else changed; otherwise the original, also when reading threw |
| Interceptor.ApiPathOnOrigin | frontend/src/app/interceptors/auth.interceptor.ts:18 | every API address starts with the API origin |
| Interceptor.SessionTokenReachesApi | frontend/src/app/interceptors/auth.interceptor.ts:17-25 | after a stored login an API call carries "Bearer " + that token; after logout it goes out unchanged |
| ImageUrls.ImagenUrlSpec | frontend/src/app/components/books/books.component.ts:122-139 | placeholder for none or empty; absolute addresses unchanged; a '/' path without localhost:8080 prefixed with the origin; anything else unchanged |
| ImageUrls.ImagenUrlIdempotent | frontend/src/app/components/admin-libros/admin-libros.component.ts:328-345 | normalising an address already produced gives it back |
| ImageUrls.UploadedImageUrl | frontend/src/app/components/admin-libros/admin-libros.component.ts:328-345 | an uploaded image's "/uploads/" path is loaded from the API origin |
| Books.NombreSpec | frontend/src/app/components/books/books.component.ts:80-86 | the name filter keeps exactly the books whose lower-cased title or author contains the search, and all when it is blank |
| Books.CategoriaSpec | frontend/src/app/components/books/books.component.ts:89-94 | the category filter keeps all for TODAS, else exactly the books filed under that id |
| Books.DisponibilidadSpec | frontend/src/app/components/books/books.component.ts:97-101 | availability keeps books with copies, or with none, and everything for any other value |
| Books.FiltrarSpec | frontend/src/app/components/books/books.component.ts:76-104 | the chain keeps, in order, exactly the books that pass every active filter |
| Books.FiltrarEnOrden | frontend/src/app/components/books/books.component.ts:76-104 | the filtered list is a subsequence of the catalogue |
| Books.SinFiltros | frontend/src/app/components/books/books.component.ts:106-111 | with the filters cleared the whole catalogue is shown |
| Books.DisponiblesAcotados | frontend/src/app/components/books/books.component.ts:185-191 | available books are at most the total, equal exactly when all have copies, and as many as the DISPONIBLES filter shows |
| Books.FilterMisses | frontend/src/app/components/books/books.component.ts:76-104 | a filter rejecting some book shows fewer books than the catalogue |
| Books.Catalogo.constructor | frontend/src/app/components/books/books.component.ts:15-26 | the page opens empty with no filter set |
| Books.Catalogo.AplicarFiltros | frontend/src/app/components/books/books.component.ts:76-104 | the shown list becomes `FiltrarSpec`'s list, nothing else changes |
| Books.Catalogo.LimpiarFiltros | frontend/src/app/components/books/books.component.ts:106-111 | filters reset and the whole catalogue shown |
| Books.Catalogo.CargarLibros | frontend/src/app/components/books/books.component.ts:41-44 | loading starts, the error is cleared, the lists stay |
| Books.Catalogo.LibrosCargados | frontend/src/app/components/books/books.component.ts:45-49 | the list is replaced and filtered again, loading ends |
| Books.Catalogo.ErrorAlCargar | frontend/src/app/components/books/books.component.ts:50-53 | the error text is set and loading ends, the lists stay |
| PrestamoViews.FiltrarPrestamosSpec | frontend/src/app/components/admin-prestamos/admin-prestamos.component.ts:389-394 | TODOS shows all; any other value exactly the loans in that state, in order, as many as its counter |
| PrestamoViews.CountsSumTotal | frontend/src/app/components/admin-prestamos/admin-prestamos.component.ts:396-410 | when every state is one of the three, the three counters add up to the total |
| PrestamoViews.CountFirst | frontend/src/app/components/historial-prestamos/historial-prestamos.component.ts:136-146 | a counter over a list is its first element's part plus the rest's |
| PrestamoViews.ServerLoansValid | frontend/src/app/components/admin-prestamos/admin-prestamos.component.ts:396-410 | loans the server sends always carry one of the three state names |
| PrestamoViews.EstadoMappers | frontend/src/app/components/admin-prestamos/admin-prestamos.component.ts:344-368 | the three states get distinct badges and labels, never the neutral badge; anything else gets bg-secondary and is shown as it came |
| PrestamoViews.FormatearMoneda | frontend/src/app/components/admin-prestamos/admin-prestamos.component.ts:379-382 | "$0" for a missing or zero value, otherwise "$" followed by the locale text |
| PrestamoViews.FinedLoanShowsFine | frontend/src/app/components/admin-prestamos/admin-prestamos.component.ts:420-434 | a loan fined by the server with a fine that did not wrap around shows its fine exactly when it is days late, and has days late exactly when it has a fine |
| AdminPrestamos.DiasRestantesClass | frontend/src/app/components/admin-prestamos/admin-prestamos.component.ts:412-414 | red exactly when overdue, green otherwise |
| AdminPrestamos.VencidoYEnPrestamoSpec | frontend/src/app/components/admin-prestamos/admin-prestamos.component.ts:416-418 | overdue-and-out exactly when the badge is PRESTADO's and the due date is red |
| AdminPrestamos.PrestamosPage.constructor | frontend/src/app/components/admin-prestamos/admin-prestamos.component.ts:20-22 | the page opens empty, showing all states |
| AdminPrestamos.PrestamosPage.CargarPrestamos | frontend/src/app/components/admin-prestamos/admin-prestamos.component.ts:81-84 | loading starts, the list stays |
| AdminPrestamos.PrestamosPage.PrestamosCargados | frontend/src/app/components/admin-prestamos/admin-prestamos.component.ts:85-89 | the list is replaced and loading ends |
| AdminPrestamos.PrestamosPage.ErrorAlCargar | frontend/src/app/components/admin-prestamos/admin-prestamos.component.ts:91-101 | any error empties the list and ends loading |
| HistorialPrestamos.DiasRestantesClass | frontend/src/app/components/historial-prestamos/historial-prestamos.component.ts:148-153 | red exactly when overdue, amber exactly for 0 to 2 days left, green exactly for 3 or more |
| HistorialPrestamos.SameOverdueColour | frontend/src/app/components/historial-prestamos/historial-prestamos.component.ts:148-153 | the history is red exactly where the administration page is |
| HistorialPrestamos.HistorialPage.constructor | frontend/src/app/components/historial-prestamos/historial-prestamos.component.ts:13-15 | the page opens empty, showing all states |
| HistorialPrestamos.HistorialPage.CargarPrestamos | frontend/src/app/components/historial-prestamos/historial-prestamos.component.ts:34-36 | loading starts, the list stays |
| HistorialPrestamos.HistorialPage.PrestamosCargados | frontend/src/app/components/historial-prestamos/historial-prestamos.component.ts:37-40 | the list is replaced and loading ends |
| HistorialPrestamos.HistorialPage.ErrorAlCargar | frontend/src/app/components/historial-prestamos/historial-prestamos.component.ts:42-58 | an error ends loading and keeps the list |
| AdminLibros.ValidarImagenAgreesWithServer | frontend/src/app/components/admin-libros/admin-libros.component.ts:143-156 | a file the page keeps is stored when writing succeeds; one it refuses the server refuses for the same reason |
| AdminLibros.GuardarLibroFinalSpec | frontend/src/app/components/admin-libros/admin-libros.component.ts:218-248 | the selected book's id or 0, the form's title, author, description and counts, image address or "", the loaded category with that id or none; update in edit mode, create otherwise |
| AdminLibros.AlGuardarLibro | frontend/src/app/components/admin-libros/admin-libros.component.ts:187-216 | nothing sent exactly for an invalid form; the image uploaded first exactly when one is picked and no address is set |
| AdminLibros.ClasificarErrorEliminarSpec | frontend/src/app/components/admin-libros/admin-libros.component.ts:278-310 | the permission alert exactly for the 403s it attributes to the role; the warning exactly for other errors naming the loans code or copies on loan; the fixed sentence when the message has no ':' and no "ejemplar"; otherwise the message or a default |
| AdminLibros.DigitsHaveNoColon | backend/src/main/java/com/biblioteca/controller/AdminController.java:271 | a decimal count has no ':' |
| AdminLibros.FraseShape | backend/src/main/java/com/biblioteca/controller/AdminController.java:271 | the server's sentence has no ':', starts with 'E' and ends with '.' |
| AdminLibros.TextoAvisoAfterCode | frontend/src/app/components/admin-libros/admin-libros.component.ts:301-303 | for "code: sentence" with no other ':' the warning shows exactly the sentence |
| AdminLibros.TextoAvisoDelServidor | frontend/src/app/components/admin-libros/admin-libros.component.ts:301-303 | for the message built by `eliminarLibro` the warning is exactly its human sentence |
| AdminLibros.DeleteBookWithLoansWarns | frontend/src/app/components/admin-libros/admin-libros.component.ts:297-307 | across the layers: deleting a book with active loans fails, and the page warns with the server's sentence for that count |
| AdminLibros.ActiveLoansCodeWarns | frontend/src/app/components/admin-libros/admin-libros.component.ts:297-307 | a 400 with the loans code is a warning with the text after the colon |
| AdminLibros.MensajeFijoShape | backend/src/main/java/com/biblioteca/exception/GlobalExceptionHandler.java:72-73 | the fixed integrity sentence has no ':' and mentions "ejemplar" |
| AdminLibros.ActiveLoansMessageShown | frontend/src/app/components/admin-libros/admin-libros.component.ts:301-306 | a coded message with no ':' that mentions "ejemplar" is shown unchanged |
| AdminLibros.IntegrityViolationWarns | frontend/src/app/components/admin-libros/admin-libros.component.ts:297-307 | across the layers: a foreign-key failure on delete is shown as the warning with the fixed sentence |
| AdminLibros.LibrosPage.constructor | frontend/src/app/components/admin-libros/admin-libros.component.ts:20-31 | no book selected, no image picked, not uploading |
| AdminLibros.LibrosPage.OnFileSelected | frontend/src/app/components/admin-libros/admin-libros.component.ts:141-165 | the alert is `ValidarImagen`'s; the picked image changes only for an accepted file |
| AdminLibros.LibrosPage.GuardarLibro | frontend/src/app/components/admin-libros/admin-libros.component.ts:187-216 | sends `AlGuardarLibro`'s request and raises the upload flag exactly when the image goes first |
| AdminUsuarios.FormDeEdicion | frontend/src/app/components/admin-usuarios/admin-usuarios.component.ts:116-127 | the edit form holds the user's fields and a blank password |
| AdminUsuarios.GuardarUsuarioSpec | frontend/src/app/components/admin-usuarios/admin-usuarios.component.ts:136-160 | nothing for an invalid form; otherwise the form's fields under the selected id or 0, the password exactly when not blank, update in edit mode, create otherwise |
| AdminUsuarios.EditUnchangedSendsUser | frontend/src/app/components/admin-usuarios/admin-usuarios.component.ts:116-160 | saving an untouched edit form sends the user back unchanged, without password |
| AdminUsuarios.RolFromName | frontend/src/app/components/admin-usuarios/admin-usuarios.component.ts:149 | a role read from its name prints back as that name |
| AdminUsuarios.EditKeepsOrReplacesPassword | frontend/src/app/components/admin-usuarios/admin-usuarios.component.ts:153-156 | across the layers: a blank password in edit keeps the stored one, a typed one stores its encoding; name, email and block flag are the form's |
| AdminUsuarios.BlankPasswordCreatesUserWithoutPassword | frontend/src/app/components/admin-usuarios/admin-usuarios.component.ts:109 | as written, a password of blanks passes the create form and the account is stored with no password |
| AdminUsuarios.CreatedUserHasPassword | frontend/src/app/components/admin-usuarios/admin-usuarios.component.ts:109 | with the password required after trimming, every created account stores the encoding of the typed password |
| AdminUsuarios.ToggleBloqueadoSpec | frontend/src/app/components/admin-usuarios/admin-usuarios.component.ts:238-243 | the flag flips, nothing else changes, and toggling twice gives the user back |
| AdminUsuarios.ToggleKeepsPassword | frontend/src/app/components/admin-usuarios/admin-usuarios.component.ts:238-245 | across the layers: toggling blocks or unblocks the stored account and keeps its password |
| AdminUsuarios.UsuariosPage.constructor | frontend/src/app/components/admin-usuarios/admin-usuarios.component.ts:22-44 | closed, create mode, no user selected |
| AdminUsuarios.UsuariosPage.AbrirCrearUsuario | frontend/src/app/components/admin-usuarios/admin-usuarios.component.ts:100-114 | create mode, no user, password required, the form reset to role USUARIO and unblocked |
| AdminUsuarios.UsuariosPage.AbrirEditarUsuario | frontend/src/app/components/admin-usuarios/admin-usuarios.component.ts:116-134 | edit mode, that user selected, password optional, the form holding the user |
| AdminUsuarios.UsuariosPage.GuardarUsuario | frontend/src/app/components/admin-usuarios/admin-usuarios.component.ts:136-160 | sends `GuardarUsuarioSpec`'s request: an update of the selected user exactly in edit mode |
| AdminUsuarios.UsuariosPage.CerrarModal | frontend/src/app/components/admin-usuarios/admin-usuarios.component.ts:228-236 | closed, no user selected, the form cleared, the mode left as it was |

## Left out

- Clock: `LocalDate.now()` and `new Date()` are a `today` day number. The frontend's days-remaining arithmetic on milliseconds is replaced by its integer result, which the page predicates take as a parameter.
- Password encoding, JWT signing and parsing, and the authentication manager are uninterpreted function parameters (`encode`, `token`, `authenticate`). `JwtUtil` is not part of this model.
- Persistence: transactions, lazy fetching and the joins of `findAllWithRelations` are not modelled. A `save` of an entity whose id is sent as 0 is modelled as an insert under the next identity value.
- `Usuario.java` is not part of this model. Whether the password column accepts null is unknown, so a stored password is an `Option`.
- Spring's own checks in the `User` constructor (null or empty username) are library code and are not modelled.
- `actualizarUsuario` with a null role in the request is not modelled. The role is a parameter of type `Rol`.
- Unknown role names, and `Rol.valueOf` failing on them, give "no role" (`RolFromName`). The request then defaults to USUARIO on creation.
- Read-only endpoints that only return a repository's `findAll` or `findById` are not modelled separately. These are the category and book listings, `obtenerCategoria`, `obtenerLibro`, `listarUsuarios`, `obtenerUsuario`, `listarPrestamos` and `listarPrestamosConMulta`. Their lookups are `Repositories.FindPrestamo`, `FindUsuario`, `BibliotecaService.ObtenerLibro` and `BibliotecaService.PrestamosConMulta`.
- `crearCategoria` and `actualizarCategoria` are not modelled, and neither are the diagnostic endpoint and console logging.
- File system: directory creation and `Files.copy` in `uploadImagen` are represented only by the write error they may raise (`writeError`). The generated UUID is a parameter.
- Frontend glue is not modelled: SweetAlert dialogs and their promises, Bootstrap modals, DataTables, `FileReader` previews, `setTimeout`, router navigation, `sessionStorage`'s logout flag and the session checks before loading the loans page.
- HTTP calls are represented by their success and error callbacks, as separate methods.
- Angular validators are given as their verdict `formValido`. The browser's email check is a parameter.
- `toLowerCase` lowers ASCII letters only. `toLocaleString` is a parameter of `FormatearMoneda`.
- `parseInt` of a category option that is not a number (`NaN`) is not modelled: the selected category is an integer or TODAS.
- Form fields that `reset()` sets to null are the empty string, which `Validators.required` treats the same way.
- AdminController.AdminController.ActualizarMultas, AdminController.MultarFilas: the source first selects the overdue PRESTADO loans and then fines them. The method selects and fines row by row, which gives the same table because fining one loan never changes whether another is selected.
- AdminController.AfterEliminarLibro, AdminController.AfterEliminarUsuario: the foreign keys from a loan to its book and to its user (`Prestamo.java`, `@ManyToOne(optional = false)`) are not modelled. The database would refuse to delete a book with only DEVUELTO loans, or a user with any loan, and `GlobalExceptionHandler` would answer with the integrity-violation response. In the model both deletes succeed and leave those loan rows pointing at a missing row. `Consistent` asks only active loans to point at an existing book.
- BibliotecaService.AfterDevolver, AdminController.AfterPagarMulta, BibliotecaService.Restock: the restock adds one to `cantidadDisponible` without the wrap-around of Java's `int`. A count of 2147483647 would become negative in the source and grows past it in the model. Books are not limited to fewer copies than that.
- AdminController.AfterPagarMulta, BibliotecaService.AfterDevolver: the controller and service methods follow the code as written. The corrected versions are `Stock.AfterPagarMultaCorregido` and `Stock.AfterDevolverCorregido`, and only the stock lemmas use them.

## Findings

| source | as written | input that shows it | evidently intended | confidence | as-written member | corrected member |
|---|---|---|---|---|---|---|
| backend/src/main/java/com/biblioteca/controller/AdminController.java:435-437 | `pagarMulta` puts a copy back on the shelf for every MULTA loan, including one that a late `devolverLibro` already restocked | one book with one copy; lent on day 0, returned on day 10 (MULTA), fine paid on day 11: the book shows 2 copies available out of 1 | restock only a loan whose copy is still out (no return date), i.e. one fined by `actualizarMultas` | high, not executed | Stock.PagarMultaDevueltoRepone | Stock.PagarMultaCorregidoKeepsStock |
| backend/src/main/java/com/biblioteca/service/BibliotecaService.java:69 | `devolverLibro` short-circuits only DEVUELTO loans, so a MULTA loan that already has a return date is returned again and restocked again | the same loan returned on day 10 and again on day 12: 2 copies available out of 1 | a loan that already has a return date is not returned again | high, not executed | Stock.DevolverDosVecesRepone | Stock.DevolverCorregidoKeepsStock |
| frontend/src/app/components/admin-usuarios/admin-usuarios.component.ts:109 | creating a user requires the password with `Validators.required`, which accepts a password of blanks; `guardarUsuario` then drops it as blank, and `crearUsuario` stores the account with no password | create form "ana", password "   ", valid other fields: the request has no password and the stored account's password is null | the password required in create mode is required after trimming, so every created account has an encoded password | medium (depends on the password column accepting null; `Usuario.java` is not part of this model), not executed | AdminUsuarios.BlankPasswordCreatesUserWithoutPassword | AdminUsuarios.CreatedUserHasPassword |
