# Lendix lending rules in Dafny

Lendix is a Flask/SQLite application for lending sports equipment. People register and log in. Instructors approve or reject loans and reservations of catalogue items. Apprentices may borrow only in environments where their instructor holds a switched-on permission. A returned item comes back with a novelty and a condition. This project takes the rules buried in the route handlers, the helper modules and the registration page's script, and restates them over an in-memory store. It then proves what those rules promise.

The store is the class `Tables.Database`. It holds one field per table:
- users, assignments and permissions are sequences in row order, because the code reads them with `fetchone`;
- catalogue items, loans, reservations and notifications are maps from row id;
- each table has an AUTOINCREMENT counter.

`Database.State()` returns the whole store as a value. Each handler can therefore state its entire new state, and show that nothing changes on the paths that write nothing.

One module per source file:

| module | source | flavour in the model |
|---|---|---|
| `Instructor` | routes/instructor.py | methods on `Database` (the handlers), specified by decision functions; the reservation conflict predicate and the invariant that approved windows are compatible |
| `Permisos` | utils/permisos.py | the loan-permission decision chain as a function; the two update-or-insert writers as methods |
| `Devolucion` | test_devolucion_novedades.py | the return arithmetic and message as functions; the return itself as a method that finds the newest open loan with a loop |
| `Helpers` | utils/helpers.py | the availability and role checks, the user's loan listing, the problem-item listing and the loan report, as functions over the store |
| `Registro` | routes/registro.py | the validation chain, the email pattern, the uniqueness clash, the insert of an inactive user, and the availability endpoints |
| `Admin` | routes/admin.py | `allowed_file`, `is_admin`, and add, edit and delete of catalogue items |
| `Login` | routes/login.py | the three decorators, the credential check shared by the form and the JSON endpoint, the role redirect, and Flask's `session` as a class |
| `Script` | static/script.js | password strength and bar colouring, the page's validation boxes as a class, the submit blocker, and the client email check |
| `App` | app.py | the `strptime` parse, the `format_date` filters and the `time_ago` buckets |
| `Text`, `Sorting`, `Wrappers`, `Tables` | — | shared pieces: digits, decimal text, SQLite's text order, first and last index, a sort by insertion that yields a permutation, `Option`, and the rows and store |

## Model

| member | source | states |
|---|---|---|
| `Tables.FindUser` | utils/permisos.py:50-52 | The first row with that id. It is `None` exactly when no user has the id, and with distinct ids it is the only such user. |
| `Tables.AppendUser` | routes/registro.py:56-58 | Inserting a user with the next AUTOINCREMENT id keeps user ids distinct and within the counter. |
| `Instructor.TakeOne` | routes/instructor.py:115-125 | Handing out one unit keeps the catalogue's keys. When the item had stock, every item's stock stays non-negative. |
| `Instructor.MarkRead` | routes/instructor.py:128-132 | Exactly this instructor's notifications of this `tipo` and reference become read. Every other notification and every key is unchanged. |
| `Instructor.MarkAllRead` | routes/instructor.py:329-332 | Every notification of the instructor becomes read; other users' notifications are unchanged. |
| `Instructor.MarkReadIdempotent` | routes/instructor.py:128-132 | Marking the same notifications read twice is the same as once. |
| `Instructor.MarkAllReadIdempotent` | routes/instructor.py:329-332 | `marcar_notificaciones_leidas` is idempotent. |
| `Instructor.MarkAllReadAbsorbs` | routes/instructor.py:329-332 | Marking all read after a single decision gives the same store as marking all read directly. |
| `Instructor.ConflictSymmetric` | routes/instructor.py:224-229 | The four-`BETWEEN` conflict predicate is symmetric in the two windows. |
| `Instructor.ConflictIsClosedOverlap` | routes/instructor.py:224-229 | For windows with start ≤ end, the predicate holds iff the closed intervals overlap. |
| `Instructor.TouchingWindowsConflict` | routes/instructor.py:224-229 | Two windows that only share an endpoint conflict. |
| `Instructor.InvertedWindowEscapesCheck` | routes/instructor.py:220-239 | A window whose start is after its end is not caught: [9,1] does not conflict with [2,8], because start ≤ end is never validated. |
| `Instructor.CountConflicts` | routes/instructor.py:220-239 | The count of the conflict query is positive iff some other approved reservation of the same item has a clashing window. The query never looks at the reservation itself or at non-approved rows. |
| `Instructor.ApprovalKeepsCompatible` | routes/instructor.py:220-246 | Approving a reservation that the conflict query clears keeps approved reservations of one item pairwise compatible. |
| `Instructor.NonApprovalKeepsCompatible` | routes/instructor.py:297-307 | A write that does not set "aprobada" keeps approved reservations compatible. |
| `Instructor.CompatibleMeansDisjoint` | routes/instructor.py:224-229 | With well-formed windows, two approved reservations of one item never share an instant. |
| `Instructor.IsInstructorOrAdmin` | routes/instructor.py:8-10 | `is_instructor_or_admin`. For a logged-in session it admits exactly the sessions the `instructor_required` decorator admits. |
| `Instructor.Gate` | routes/instructor.py:91-93 | Without a session user the handler asks for login. A user who is neither instructor nor admin is refused. Only then does the handler go on. |
| `Instructor.LoanApproval` | routes/instructor.py:88-142 | The decision of `aprobar_prestamo`. The guards come first; when they refuse, their outcome is the decision. Past the guards, a loan that is not pending or whose item is missing is "not found or processed". For a pending loan, the decision is "done" iff the item has stock ≥ 1, and "no availability" iff it has none. |
| `Instructor.Rejection` | routes/instructor.py:145-190 | A rejection is done iff the guards pass and the row is pending. It never fails on stock or conflict. |
| `Instructor.ReservationApproval` | routes/instructor.py:193-269 | The decision of `aprobar_reserva`: guards, pending row, stock, then the conflict query. Past the guards, a row that is not pending is "not found or processed". "No availability" holds iff the guards pass and the pending reservation's item has no stock. "Done" holds iff the guards pass, the reservation is pending, its item has stock and no approved reservation conflicts. A schedule conflict implies a pending reservation with stock and an approved conflict. |
| `Instructor.Motivo` | routes/instructor.py:152-173 | The form's `motivo` when the field is present, even if empty; "No especificado" when it is absent. |
| `Instructor.ApproveLoan` | routes/instructor.py:88-142 | Decides as `LoanApproval`. On any refusal the store is unchanged. On success the loan becomes "activo" with the session user as authoriser, the item loses exactly one unit, and the matching notifications are read; nothing else changes. Non-negative stock is preserved. |
| `Instructor.RejectLoan` | routes/instructor.py:145-190 | Decides as `Rejection`. On success the loan becomes "rechazado" with authoriser and reason, the matching notifications are read, and stock is untouched. Otherwise nothing changes. |
| `Instructor.ApproveReservation` | routes/instructor.py:193-269 | Decides as `ReservationApproval`. On success the reservation becomes "aprobada", one unit is taken, and the notifications are read. Otherwise nothing changes. Non-negative stock and compatibility of approved windows are preserved. |
| `Instructor.CommitReservation` | routes/instructor.py:242-260 | The three writes of an approved reservation. They preserve compatibility when the conflict query found nothing. |
| `Instructor.RejectReservation` | routes/instructor.py:272-317 | Decides as `Rejection`. On success the reservation becomes "rechazada" with authoriser and reason, and stock is untouched. Compatibility of approved windows is preserved. |
| `Instructor.MarkNotificationsRead` | routes/instructor.py:320-340 | Past the guards, the store changes only by `MarkAllRead` for the session user. Otherwise it is unchanged. |
| `Permisos.ActiveIndex` | utils/permisos.py:30-39 | The first active assignment of the apprentice in the environment. It is `None` iff there is none. |
| `Permisos.InstructorOf` | utils/permisos.py:30-39 | `obtener_instructor_del_aprendiz`: the instructor of that first active assignment, or `None` iff no active assignment exists. |
| `Permisos.PermissionIndex` | utils/permisos.py:74-80 | The first permission row of the instructor for the environment. It is `None` iff there is none. |
| `Permisos.AssignmentIndex` | utils/permisos.py:129-134 | The first assignment row with this instructor, apprentice and environment. It is `None` iff there is none. |
| `Permisos.NoInstructor` | utils/permisos.py:70 | Python's `not instructor_id`: true iff there is no instructor id or the id is 0, the one falsy integer. |
| `Permisos.CheckLoanPermission` | utils/permisos.py:43-87 | An unknown user is refused with "Usuario no encontrado". The admin email is granted before the kind is examined. Any grant implies the user exists. |
| `Permisos.GrantedApprenticeWitness` | utils/permisos.py:68-85 | A granted apprentice has a first active assignment with a non-zero instructor, and that instructor's first permission row for the environment is switched on. |
| `Permisos.WitnessedApprenticeGranted` | utils/permisos.py:68-85 | Conversely, an apprentice with those two rows is granted. |
| `Permisos.CheckLoanPermissionMeansGranted` | utils/permisos.py:43-87 | The decision chain grants exactly what `PermissionGranted` describes: the admin email, any instructor, or a witnessed apprentice. |
| `Permisos.FirstActiveUnique` | utils/permisos.py:34-39 | The first active assignment is unique. |
| `Permisos.FirstPermissionUnique` | utils/permisos.py:74-80 | The first permission row is unique. |
| `Permisos.InstructorAlwaysGranted` | utils/permisos.py:62-63 | An instructor is granted in every environment. |
| `Permisos.UnassignedApprenticeDenied` | utils/permisos.py:68-71 | An apprentice without an active assignment in the environment is refused. |
| `Permisos.OtherKindsDenied` | utils/permisos.py:87 | Any other user kind is refused with "Tipo de usuario no reconocido", unless it has the admin email. |
| `Permisos.AssignedAndEnabledGranted` | utils/permisos.py:82-85 | An apprentice whose instructor has a switched-on row for the environment is granted. |
| `Permisos.CreateEnvPermission` | utils/permisos.py:92-120 | Update or insert. An existing row for the key only has its switch set. Otherwise one row with the next id is appended. Afterwards the key's row carries the new switch, and at most one row per key is preserved. |
| `Permisos.SetSwitch` | utils/permisos.py:104-108 | The `UPDATE`: row `i` takes the new switch and nothing else changes. |
| `Permisos.InsertPermission` | utils/permisos.py:110-114 | The `INSERT`: one row with the next id, and nothing else changes. |
| `Permisos.SwitchKeepsIndex` | utils/permisos.py:97-108 | Changing the switch of the key's row leaves it the key's row and keeps keys unique. |
| `Permisos.AppendNewKey` | utils/permisos.py:110-114 | Appending a row for an absent key makes it that key's row and keeps keys unique. |
| `Permisos.KeysOnlyIndex` | utils/permisos.py:97-101 | The first-match lookup depends only on the rows' keys. |
| `Permisos.AppendedKeyIndex` | utils/permisos.py:110-114 | A row appended for a key no earlier row has is found by the lookup. |
| `Permisos.AssignApprentice` | utils/permisos.py:124-152 | Update or insert. An existing assignment is reactivated; otherwise one active row with the next id is appended. Afterwards an active assignment for the triple exists, and at most one row per triple is preserved. |
| `Permisos.Reactivate` | utils/permisos.py:136-140 | The `UPDATE`: row `i` becomes active and nothing else changes. |
| `Permisos.InsertAssignment` | utils/permisos.py:142-146 | The `INSERT`: one active row with the next id, and nothing else changes. |
| `Devolucion.Reduction` | test_devolucion_novedades.py:81-86 | One unit is written off iff the novelty is Daño, Robo, Desgaste excesivo or Pérdida; otherwise none. |
| `Devolucion.NewAvailability` | test_devolucion_novedades.py:89-93 | Never negative. At least previous + 1 − reduction, and equal to it whenever positive. |
| `Devolucion.ReturnNetEffect` | test_devolucion_novedades.py:162-163 | From non-negative stock, a grave novelty leaves the stock as it was. Any other novelty adds exactly one unit. |
| `Devolucion.ApproveThenReturn` | test_devolucion_novedades.py:89 | An approval (one unit out) followed by a return leaves the stock lowered by the reduction alone. |
| `Devolucion.ReturnMessage` | test_devolucion_novedades.py:151-157 | The message starts with the base text. It is the base alone iff the novelty is "Ninguna" and the condition "Bueno". |
| `Devolucion.ReturnMessageMentions` | test_devolucion_novedades.py:151-157 | A condition other than "Bueno" is appended last. A grave novelty adds the reduction note. A mild novelty with a good condition ends the message. |
| `Devolucion.ReturnMessageWithoutNovelty` | test_devolucion_novedades.py:151-157 | With the novelty "Ninguna" the message is the base followed only by the condition part, whatever the condition. |
| `Devolucion.ReturnMessageGoodCondition` | test_devolucion_novedades.py:151-157 | With the condition "Bueno" nothing follows the novelty part. |
| `Devolucion.ReturnMessageNoteIffGrave` | test_devolucion_novedades.py:152-155 | For a novelty other than "Ninguna", the message is the base, the novelty, the write-off note and the condition part iff the novelty is grave; a mild novelty gets no note. |
| `Devolucion.NewestOpenLoan` | test_devolucion_novedades.py:40-46 | The highest-id open loan whose item exists, or `None` iff there is none. |
| `Devolucion.ReturnNewestLoan` | test_devolucion_novedades.py:102-118 | With no open loan nothing changes. Otherwise only the newest open loan and its item change. The loan gets the return date, novelty, condition and remarks. The item's stock becomes `NewAvailability` and its condition is overwritten. The result is the notification message. |
| `Helpers.CheckAvailability` | utils/helpers.py:83-111 | A missing item and an item without stock give their own messages, stock first. An item is available iff it exists, has stock ≥ 1 and is not "Dañado". It is available iff the message is "Disponible". |
| `Helpers.DamagedItemStillApprovable` | utils/helpers.py:106-107 | A damaged item in stock is refused by this helper but approved by `aprobar_prestamo`, which checks stock only. |
| `Helpers.HasAllowedRole` | utils/helpers.py:190-214 | False for an unknown user. True implies the user's role is allowed, and with distinct ids the converse holds. |
| `Helpers.UserLoanScan` | utils/helpers.py:152-165 | The rows with ids in a range are exactly the listed loans of that range, in id order. |
| `Helpers.UserLoans` | utils/helpers.py:139-168 | Exactly the user's loans that are joined to an existing item, and only unreturned ones unless asked. They form a permutation of the scan, sorted by loan date, newest first. |
| `Helpers.UserLoansAreOwnAndOpen` | utils/helpers.py:152-165 | Without `incluir_devueltos` every row is the user's own open loan. |
| `Helpers.ProblemScan` | utils/helpers.py:227-231 | The rows with ids in a range are exactly the worn or damaged items of that range, in id order. |
| `Helpers.ProblemOrderTotal` | utils/helpers.py:230 | `ORDER BY estado DESC, implemento` is total. |
| `Helpers.ProblemOrderTransitive` | utils/helpers.py:230 | `ORDER BY estado DESC, implemento` is transitive. |
| `Helpers.WearBeforeDamage` | utils/helpers.py:230 | "Desgaste notable" items come strictly before "Dañado" items. |
| `Helpers.ProblemItems` | utils/helpers.py:218-235 | Exactly the items in "Desgaste notable" or "Dañado", as a permutation of the scan, sorted as the query orders them. |
| `Helpers.Tally` | utils/helpers.py:253-270 | `activos + devueltos == total`, `individuales + multiples ≤ total`, and the total is at most the number of ids scanned. What each count counts is stated by `TallyCountsWindow`. |
| `Helpers.TallyCountsWindow` | utils/helpers.py:253-270 | Each of the five counts over a range of ids is the number of loans of that range in the date window that satisfy its `CASE WHEN`: all of them, `fecha_devolucion IS NULL`, `IS NOT NULL`, `tipo_prestamo = 'individual'`, and `= 'multiple'`. |
| `Helpers.WholeWindow` | utils/helpers.py:253-270 | Over ids 1 to the AUTOINCREMENT counter, each count is the number of such loans in the whole table. |
| `Helpers.LoanReport` | utils/helpers.py:239-276 | Over the whole table, with the window's day bounds: `total` is the number of loans in the window; `activos` and `devueltos` are those without and with a return date; `individuales` and `multiples` are those of kind "individual" and "multiple"; and `activos + devueltos == total`. |
| `Helpers.WindowInclusive` | utils/helpers.py:253-262 | A loan made on the first or the last day of the window is counted. |
| `Registro.NormalizedKind` | routes/registro.py:19-23 | The kind is "instructor" iff the form says "instructor"; anything else, or no field, becomes "funcionario". |
| `Registro.EmailCoreIsShape` | routes/registro.py:36-38 | The direct check accepts exactly the language of `^[a-zA-Z0-9._%+-]+@[a-zA-Z0-9.-]+\.[a-zA-Z]{2,}$`. |
| `Registro.EmailMatches` | routes/registro.py:36 | `re.match` with the pattern: accepted iff the address is in the pattern's language, or is such an address followed by one newline, which `$` lets through. |
| `Registro.EmailAcceptsDottedDomain` | routes/registro.py:36-38 | "a.b@x.edu.co" is accepted. |
| `Registro.EmailAcceptsTrailingNewline` | routes/registro.py:36-38 | Python's `$` lets one final newline through: "ana@sena.co\n" is accepted. |
| `Registro.EmailRejectsOneLetterEnding` | routes/registro.py:36-38 | A one-letter top-level part is refused. |
| `Registro.EmailRejectsEmptyLocalPart` | routes/registro.py:36-38 | An empty local part is refused. |
| `Registro.EmailCharsAllowed` | routes/registro.py:36-38 | An accepted address holds only pattern characters and '@'. |
| `Registro.EmailRejectsTwoNewlines` | routes/registro.py:36-38 | Two trailing newlines are refused. |
| `Registro.Message` | routes/registro.py:26-84 | Every refusal has a non-empty flash message. |
| `Registro.MessagesDistinct` | routes/registro.py:26-84 | Distinct refusals have distinct messages, so the message tells the user which check failed. |
| `Registro.FormRejection` | routes/registro.py:26-48 | The checks in order: missing field, password mismatch, bad email, phone under 10 characters, password under 8. Each rejection holds iff every earlier check passed and its own failed. No rejection iff the form is acceptable, and none of them is a duplicate. |
| `Registro.Clash` | routes/registro.py:76-84 | No clash iff no user shares the email, phone or name. A reported clash names a field that some user really shares. |
| `Registro.UniqueAfterAppend` | routes/registro.py:56-58 | Inserting an account without a clash keeps names, emails and phones unique. |
| `Registro.Register` | routes/registro.py:11-92 | A rejected form or a clash writes nothing and reports the reason. Otherwise exactly one user is appended, with the next id, the normalised kind and `activo = 0`. Unique accounts stay unique. |
| `Registro.NewAccountCannotLogIn` | routes/registro.py:56-58 | A freshly registered account cannot log in until an administrator activates it. |
| `Registro.CheckAvailable` | routes/registro.py:96-146 | Available iff the value is non-empty and no user holds it in that column. Empty input is reported as not available. |
| `Registro.AvailabilityPredictsClash` | routes/registro.py:96-146 | For non-empty values, registration finds no clash iff all three endpoints report available. |
| `Admin.AllowedFile` | routes/admin.py:16-18 | An allowed name contains a '.'. The full characterisation of `allowed_file` is stated by `Admin.AllowedFileMeansExtension` and its two halves. |
| `Admin.AllowedFileMeansExtension` | routes/admin.py:16-18 | `allowed_file` holds iff the name has a '.' and the lower-cased text after the last '.' is png, jpg, jpeg or gif. |
| `Admin.AllowedFileHasExtension` | routes/admin.py:16-18 | An allowed name has an allowed last extension. |
| `Admin.ExtensionMakesFileAllowed` | routes/admin.py:16-18 | A name with an allowed last extension is allowed. |
| `Admin.AllowedFileIgnoresCase` | routes/admin.py:18 | "X.PNG" is accepted. |
| `Admin.AllowedFileRefusesDisguisedExe` | routes/admin.py:18 | "a.png.exe" is refused. |
| `Admin.AllowedFileAcceptsLastPng` | routes/admin.py:18 | "a.exe.png" is accepted. |
| `Admin.AllowedFileNeedsDot` | routes/admin.py:17 | A name without a '.' is refused, and so is the empty name. |
| `Admin.IsAdmin` | routes/admin.py:26-27 | Holds iff the session email is "Eduard@gmail.com". |
| `Admin.UploadedImage` | routes/admin.py:78-86 | An image name is produced iff a non-empty file name was uploaded and `allowed_file` accepts it. |
| `Admin.AddItem` | routes/admin.py:63-104 | Any empty field means no write. With every field present and a numeric availability, exactly one item is inserted with the next id and the uploaded image, if any. Otherwise nothing changes. |
| `Admin.EditItem` | routes/admin.py:107-160 | Any empty field means no write. With a numeric availability and an existing item, the item's four fields are replaced. The image is replaced only when a valid new one was uploaded. Nothing else changes. |
| `Admin.DeleteItem` | routes/admin.py:163-184 | The row is removed by id whatever happens to its image file, and nothing else changes. |
| `Login.LoginRequired` | routes/login.py:67-75 | The view runs iff `user_id` is in the session; otherwise the request is sent to the login page. |
| `Login.AdminRequired` | routes/login.py:78-89 | Login page iff logged out. The view runs iff logged in with role "admin". |
| `Login.InstructorRequired` | routes/login.py:92-103 | Login page iff logged out. The view runs iff logged in with role "instructor" or "admin". |
| `Login.GatesNested` | routes/login.py:67-103 | Whatever `admin_required` admits, `instructor_required` admits, and whatever that admits, `login_required` admits. |
| `Login.FindActiveUser` | routes/login.py:25-27 | The first user in row order with that email and `activo = 1`: no earlier row matches. `None` iff there is none. The query has no `ORDER BY`; since `email` is UNIQUE, at most one row can match. |
| `Login.CheckCredentials` | routes/login.py:20-36 | Missing fields iff the email or the password is empty. Authentication implies an active user with that email whose password matches. |
| `Login.InactiveCannotLogIn` | routes/login.py:25-27 | When every account with the email is inactive, no password logs in. |
| `Login.RoleDestination` | routes/login.py:45-51 | "admin" goes to the admin panel, "instructor" to the instructor panel, and any other role to the index. |
| `Login.FlaskSession.Logout` | routes/login.py:60-64 | `session.clear()` empties every key, so `login_required` then redirects. |
| `Login.Login` | routes/login.py:11-57 | On success, id, name, email, phone and role are copied from the user row into the session. The session becomes permanent when "remember me" is ticked, and the redirect follows the role. On failure the session is unchanged. |
| `Login.ApiLogin` | routes/login.py:106-133 | 400 iff a field is empty. Otherwise 200 with id, name, email and role for valid credentials, and 401 otherwise. `success` holds iff the status is 200. |
| `Login.FormAndApiAgree` | routes/login.py:106-133 | The JSON endpoint answers 200 exactly when the form login authenticates. |
| `Script.JsLength` | static/script.js:127 | JavaScript's `length` counts UTF-16 code units: between the number of characters and twice that, and zero only for the empty string. |
| `Script.JsLengthCountsSurrogates` | static/script.js:127 | A character beyond U+FFFF counts twice. |
| `Script.Strength` | static/script.js:134-139 | At most 5. At least 2 from length alone when the length is ≥ 8, at most 3 below 6, and 5 iff all five criteria hold. |
| `Script.BarColour` | static/script.js:143-149 | Red iff strength ≤ 2, yellow iff 3, green iff ≥ 4. |
| `Script.LitBars` | static/script.js:121-142 | At most 4 bars. None iff the password is empty or scores 0; `min(strength, 4)` otherwise, so at least 2 at length ≥ 8. |
| `Script.BarShowsStrength` | static/script.js:115-149 | After the handler, a bar is grey iff its index is at least the lit count. The lit bars carry exactly the one colour of the strength. All other classes are kept. |
| `Script.AsWrittenBoxIds` | static/script.js:174-177 | The submit handler looks up four boxes, one per input. |
| `Script.ConfirmMismatchDoesNotBlockAsWritten` | static/script.js:176 | As written, a visible "confirm-validation" box does not stop the submit. |
| `Script.RegistrationPage.ResetBars` | static/script.js:115-119 | Every bar loses its colours and turns grey; its other classes are kept. |
| `Script.RegistrationPage.PaintBars` | static/script.js:142-151 | The first `lit` bars take the colour and lose the grey; the rest are untouched. |
| `Script.RegistrationPage.OnPasswordInput` | static/script.js:105-152 | The length message is shown iff 0 < length < 8. Each bar ends as `BarAfter` says, and no other box changes. |
| `Script.RegistrationPage.OnConfirmInput` | static/script.js:154-166 | The confirmation message is hidden iff the two fields agree. |
| `Script.RegistrationPage.OnPhoneBlur` | static/script.js:72-103 | An empty field changes nothing. Otherwise the phone box shows the server's "not available" answer. |
| `Script.RegistrationPage.OnEmailBlur` | static/script.js:38-70 | An empty field changes nothing. A malformed address shows the message. Otherwise the server's answer decides. |
| `Script.RegistrationPage.OnSubmit` | static/script.js:169-187 | The submit is prevented iff some validation box the handlers toggle is visible. |
| `Script.RegistrationPage.DisableOnSubmit` | static/script.js:4-14 | The button ends disabled iff it was disabled already or both email and password are non-empty. Boxes and bars are unchanged. |
| `Script.RegistrationPage.Submit` | static/script.js:169-187 | Both submit listeners in attachment order: the one of lines 4-14, then this blocker. Prevented iff a toggled box is visible; the button ends disabled as `DisableOnSubmit` says, so a blocked submit with both fields filled leaves it disabled. |
| `Script.ServerEmailPassesClient` | static/script.js:44 | Every address the server's pattern accepts passes the client's `^[^\s@]+@[^\s@]+\.[^\s@]+$`. |
| `Script.ClientLooserThanServer` | static/script.js:44 | "a@b.c" passes the client check but not the server's pattern. |
| `App.ReadFields` | app.py:74 | Fields are read only from text of the expected width. |
| `App.Parse` | app.py:74 | A parsed text has 19 characters and denotes a valid date and time. |
| `App.CanonicalParses` | app.py:74 | `strptime` reads the zero-padded text of a valid stamp back as that stamp. |
| `App.ParsedIsCanonical` | app.py:74 | Every text that parses is the zero-padded text of the stamp it denotes. |
| `App.FormatDate` | app.py:69-77 | Text that does not parse is returned unchanged. |
| `App.FormatDateShort` | app.py:79-86 | Text that does not parse is returned unchanged. |
| `App.FormatDateRearranges` | app.py:75 | For a parsed text with a four-digit year, the long form is day/month/year hour:minute, taken from the input's own characters. |
| `App.Bucket` | app.py:97-112 | Counts are ≥ 1. Months ≤ 12, days ≤ 30, hours ≤ 23 and minutes ≤ 60. Years, months or days are reported iff the difference has at least one day. |
| `App.YearBoundary` | app.py:97-104 | 365 days is "12 meses" and 366 days "1 año"; 31 days is "1 mes" and 30 days "30 días". |
| `App.HourBoundary` | app.py:105-112 | 3600 seconds is "60 minutos" and 3601 "1 hora"; 60 seconds is "un momento" and 61 "1 minuto". |
| `App.FutureStampReadsAsHours` | app.py:95-109 | A stamp a minute in the future gives `days == -1` and reads as "hace 23 horas". |
| `App.BucketMonotone` | app.py:97-112 | More elapsed time never reads as less. |
| `App.SpaceAfterDigits` | app.py:99-110 | The first space after the count ends the count. |
| `App.DigitsThenSpace` | app.py:99-110 | A count followed by a space splits only one way. |
| `App.WordDetermines` | app.py:99-110 | With the count fixed, the unit word tells the readings apart, plural iff the count is above one. |
| `App.CountedIsNotMoment` | app.py:99-112 | A counted reading never renders as "hace un momento". |
| `App.CountedInjective` | app.py:99-110 | The count and unit together tell readings apart. |
| `App.RenderInjective` | app.py:97-112 | Distinct readings render as distinct texts. |
| `App.TimeAgo` | app.py:89-114 | Text that does not parse is returned unchanged. Otherwise the result is the rendering of the bucket of the elapsed time. |
| `App.TimeAgoDistinguishes` | app.py:89-114 | Two stamps read differently whenever they fall in different buckets. |
| `Text.DecimalRoundTrip` | app.py:99 | Reading back Python's `str(n)` gives `n`. |
| `Text.IntegerTextRoundTrip` | routes/admin.py:91-94 | Every integer `str` writes, as an optional '-' and decimal digits, is read back as that integer. |
| `Text.IntegerText` | routes/admin.py:91-94 | A digit string is read as its value. A negative value needs a leading '-'. |
| `Text.DecimalOfDigits` | app.py:99 | A digit string without a leading zero is `str` of its value. |
| `Text.Pad2OfDigits` | app.py:75 | Every two-digit text is the zero-padded text of its value. |
| `Text.TextLeTotal` | utils/helpers.py:230 | SQLite's binary text order is total. |
| `Text.TextLeTransitive` | utils/helpers.py:230 | SQLite's binary text order is transitive. |
| `Text.TextLeAntisymmetric` | utils/helpers.py:230 | SQLite's binary text order is antisymmetric. |
| `Text.LastIndexOf` | routes/admin.py:18 | `rsplit('.', 1)` splits at the last '.': nothing after it is a '.'. It is `None` iff there is no '.'. |
| `Sorting.SortBy` | utils/helpers.py:163 | The rows come out as a permutation of the input. |
| `Sorting.SortBySorted` | utils/helpers.py:163 | Under a total and transitive order the result is sorted, as `ORDER BY` returns it. |

## Left out

- Flask plumbing is not modelled: `flash` messages, templates, redirects as HTTP responses, blueprints and session storage configuration. A handler's outcome is a value instead.
- The SQL schema and connections are not modelled. The tables are fields of `Database`. The `catalogo` table of the routes and the `implementos` table of the helpers and the return script are one item store, as the handlers use them. Likewise the loan's item column is `prestamos.fk_modelo` in the schema and the routes (utils/db.py:41, routes/instructor.py:47) but `p.fk_implemento` in the helpers and the return script (utils/helpers.py:155, test_devolucion_novedades.py:41-43). Both are the one field `Loan.item`.
- Password hashing is not modelled. `check_password_hash` is the parameter `passwordMatches`, and `generate_password_hash` is the argument `hashed`.
- File I/O in the admin routes is not modelled: `secure_filename`, `os.urandom`, `file.save` and `os.remove`. The random prefix and the safe name are parameters. Delete removes the row whether or not the file could be removed.
- The clock is a parameter. `datetime.now()` is the `now`/`ahora` argument. The local-versus-UTC difference between Python and SQLite's `CURRENT_TIMESTAMP` is not modelled.
- The model also keeps loan, reservation and return timestamps as integers ordered like their text.
- App.Parse: accepts only the zero-padded fields `strftime` writes, with exactly one space between date and time. `strptime` also reads one-digit fields such as "2024-1-5 9:03:07", space-padded fields such as " 5" for the day, fields in non-ASCII decimal digits such as "٢٠٢٤" (its `\d` runs on `str`, and `int` reads them), and any run of whitespace where the format has its space, since it reads that space as `\s+`. Those texts are outside this model, which treats them as not parsing.
- App.FormatDate: `%Y` below year 1000 is written unpadded, as the C library does. The rearrangement lemma is stated for four-digit years only.
- Concurrency is not modelled. The check-then-decrement of an approval is not atomic in SQLite, and handlers run one at a time here.
- The exception paths of the handlers and the return script's rollback are modelled as "no write". A database error mid-handler is not modelled.
- `crear_notificacion` and `registrar_accion_historial` are not modelled; they are best-effort appends that cannot change a decision.
- The panel and listing routes are not modelled: `panel_instructor`, `historial_autorizaciones`, `obtener_aprendices_del_instructor`, `obtener_permisos_instructor`, `obtener_estadisticas_dashboard`, `calcular_dias_prestamo` and the admin listings. These are read-only views with no rules beyond the ones modelled.
- The CRUD pass-throughs of routes/catalogo.py, routes/prestamos.py and routes/perfil.py are not modelled, and neither are migrate_db.py and on.py.
- Admin.AddItem: the model writes only when the availability text is an optional sign followed by decimal digits, and otherwise writes nothing. The `disponibilidad INTEGER NOT NULL` column (utils/db.py:29) would also convert texts such as " 7 ", "7.0" and "3e2" to integers, would keep other texts as text, and would store an integer literal beyond 2^63−1 as REAL. These conversions and the 64-bit limit are not modelled.
- Admin.EditItem: the same as for Admin.AddItem. Only an optional sign and decimal digits are written, and SQLite's other INTEGER-affinity conversions and its 64-bit limit are not modelled.
- Registro.Clash: when several unique constraints fail at once, the model reports email, then phone, then name. Which one SQLite names first is not modelled.
- Registro.Register: the `INSERT` of routes/registro.py:56-58 stores the normalised kind in `rol` and does not name `tipo_usuario`. The new user therefore gets that column's default, which the schema in utils/db.py does not declare; the model takes it as absent (`tipoUsuario := None`). With no kind, the permission chain of utils/permisos.py:62-87 refuses every freshly registered account that is not the admin email with "Tipo de usuario no reconocido". What an administrator later writes to `tipo_usuario` is not part of this model.
- Permisos.AssignApprentice: a new assignment row gets `activo = 1` from the column default. That default is not visible in the source files of this model and is taken as 1, as the reactivating `UPDATE` sets.
- Helpers.UserLoans: the order among loans with equal `fecha_prestamo` is not modelled. Any order sorted by date is a valid result.
- Helpers.ProblemItems: the order among rows with equal condition and name is not modelled.
- Text.AsciiLower: only the ASCII range is lower-cased. Python's full Unicode `str.lower` is not modelled.
- `api_login` with a body that is not JSON (`get_json()` returning `None`) is not modelled.
- The login page's "remember me" in `sessionStorage` is not modelled. The submit listener of static/script.js:4-14 is also attached to the registration form; `Script.RegistrationPage.DisableOnSubmit` models its effect on the button's `disabled` state, but not the button's text ("Iniciando sesión...").
- Script.RegistrationPage.OnPhoneBlur: the server's answer is a parameter; the `fetch` call is not modelled.
- Script.RegistrationPage.OnEmailBlur: the server's answer is a parameter; the `fetch` call is not modelled.
- The script's border classes, alert text and message texts are not modelled. Only box visibility and bar classes are.
- Reservation windows are compared with four inclusive `BETWEEN` clauses (routes/instructor.py:224-229), so windows that only touch at an endpoint conflict. The model keeps this comparison.
- `eliminar_implemento` deletes the row without looking at loans or reservations of the item (routes/admin.py:163-184). The model does the same.
- Neither approval handler looks up an instructor assigned to the requester (routes/instructor.py:88-142, routes/instructor.py:193-269). Any instructor or admin may decide any pending request, in the model as in the code.
- Script.RegistrationPage: static/script.js is shared by the login and registration pages, and its top-level lines run at load on every page that includes it. Line 26 looks up `#remember-me` and line 72 looks up `#telefono` without a null check, and either lookup throws on a page without that element. A throw stops the script before the later handlers are attached: on a page without `#remember-me`, none of the registration handlers from line 38 on is attached; on the login page, line 72 throws after line 38 has attached the email check. The page templates are not part of this model. The `RegistrationPage` class assumes that the registration page has every element the script looks up at load time, so that all its handlers are attached.

## Findings

| source | as written | input that shows it | evidently intended | confidence | as-written member | corrected member |
|---|---|---|---|---|---|---|
| static/script.js:176 | The submit handler looks up `${inputId}-validation` for the input "confirm-password", i.e. "confirm-password-validation". The confirmation handler shows and hides "confirm-validation" (line 157). | A confirmation that differs from the password, with the other boxes hidden: the mismatch box is visible, yet the submit is not prevented. | The submit is blocked whenever any of the boxes the handlers toggle is visible. | medium, not executed | `Script.ConfirmMismatchDoesNotBlockAsWritten` | `Script.RegistrationPage.OnSubmit` |
