# guest-pass-scanner: a verified model of the ticket core

guest-pass-scanner sells entry to a party through tickets that carry a QR
code. An administrator creates a reservation, which mints a code of the form
`TICKET-<milliseconds>-<up to 7 base-36 characters>`. At the door, a scanning
station looks the code up, refuses an unknown or used ticket, and otherwise
marks the reservation validated and welcomes the holder. Two smaller parts
complete the core. An edge function gives a user the `admin` or `agent`
role. A route guard decides what a signed-in visitor may see.

The model has eight modules:

- `Wrappers`: `Option`, `Result`, and `Reply`. A `Reply` says how an awaited backend call ends: it answers, it answers with an `error`, or its promise rejects.
- `JsText`: ECMAScript `String.prototype.trim` over the full WhiteSpace and LineTerminator set.
- `TicketCode`: `generateQRCode` with the clock reading and the `Math.random().toString(36)` string as parameters. Also a parser for the codes it makes.
- `Reservations`: the `reservations` row, the queries that run against that table (`.eq`, `.single()`, `.update`, `.delete`, `.order`), and a `Database` class holding the shared rows.
- `Validator`: the `useReservationValidator` hook. `Redeem` is the outcome of one scan as a function of the table. The `ReservationValidator` class runs a scan step by step against the `Database`.
- `AdminPage`: the `Admin` page as a class. It covers the form, the fetched list, insertion, deletion, the counters and the toasts.
- `AssignUserRole`: the `assign-user-role` handler, covering request checks, the user lookup and the update-or-insert of `user_roles`. A `RoleTable` class holds the table.
- `ProtectedRoute`: the route guard as a pure function.

No backend call is made by the model. Each call takes a `Reply` parameter, and the caller chooses how the call ends. An `error` reply or a rejected promise leaves the table unchanged. A `.single()` query answers with a row only when exactly one row matches. Column defaults are parameters: `id`, `created_at` and `number_of_persons`.

## Model

| member | source | states |
|---|---|---|
| JsText.Trim | src/pages/Admin.tsx:53-63 | `s.trim()` as removing leading then trailing white space; what it computes is stated by `TrimStartSpec`, `TrimEndSpec`, `TrimSpec` and `TrimEmptyIffWhitespace` below |
| JsText.TrimStartSpec | src/pages/Admin.tsx:53 | removing leading white space gives a suffix of the input; everything removed is white space, and the result is empty or starts with a non-white-space character |
| JsText.TrimEndSpec | src/pages/Admin.tsx:53 | removing trailing white space gives a prefix of the input; everything removed is white space, and the result is empty or ends with a non-white-space character |
| JsText.TrimSpec | src/pages/Admin.tsx:53 | `trim()` returns the slice of the input between its leading and trailing white space; that slice is empty or starts and ends with non-white-space characters |
| JsText.TrimEmptyIffWhitespace | src/pages/Admin.tsx:53 | `trim()` is empty exactly when the input is all white space, which is the condition under which the name is refused |
| JsText.TrimIdempotent | src/pages/Admin.tsx:62-63 | trimming an already trimmed value changes nothing |
| TicketCode.Decimal | src/pages/Admin.tsx:49 | the decimal form of `Date.now()` is non-empty, made of digits, with no leading zero |
| TicketCode.DecimalRoundTrip | src/pages/Admin.tsx:49 | reading the decimal digits back gives the number |
| TicketCode.DecimalLength | src/pages/Admin.tsx:49 | a number below 10^k has at most k digits |
| TicketCode.Substring | src/pages/Admin.tsx:49 | for `0 <= start <= end`, `substring(start, end)` is the slice from the smaller of `start` and the length to the smaller of `end` and the length; no longer than `end - start`; always a contiguous piece of the input |
| TicketCode.SubstringClamps | src/pages/Admin.tsx:49 | `substring` does not care about the order of its arguments, and a negative argument acts as zero; with `Substring`'s own contract this fixes the result for every pair of arguments |
| TicketCode.UpperChar | src/pages/Admin.tsx:49 | `toUpperCase` maps each ASCII lower-case letter to its capital and leaves digits alone |
| TicketCode.Upper | src/pages/Admin.tsx:49 | upper-casing works character by character and keeps the length |
| TicketCode.Suffix | src/pages/Admin.tsx:49 | the random part is at most 7 upper-case base-36 characters, its length is that of the random string minus the "0." prefix, capped at 7 (0 for "0"), each the capital of the digit after "0." at the same place |
| TicketCode.GenerateQRCode | src/pages/Admin.tsx:48-50 | every code begins with "TICKET-" and is longer than the tag |
| TicketCode.ParseStamp | src/pages/Admin.tsx:49 | the part after the tag is read as digits, a hyphen and an upper-case base-36 suffix |
| TicketCode.ParseQRCode | src/pages/Admin.tsx:48-50 | a code accepted by the parser has the tag and an upper-case base-36 suffix |
| TicketCode.ParseShape | src/pages/Admin.tsx:48-50 | any string of the generated shape, tag, digits, hyphen and suffix, parses into the digits' value and the suffix |
| TicketCode.ParseGenerated | src/pages/Admin.tsx:48-50 | parsing a generated code gives back the clock reading and the suffix (round trip), so every generated code has the ticket shape |
| TicketCode.GenerateInjective | src/pages/Admin.tsx:48-50 | two codes are equal only when they were made from the same clock reading and the same suffix |
| TicketCode.MillisDigits | src/pages/Admin.tsx:49 | a clock reading below 2^53 ms has at most 16 decimal digits |
| TicketCode.GeneratedCodeCharacters | src/pages/Admin.tsx:48-50 | every character of a generated code is an upper-case letter, a digit or a hyphen |
| TicketCode.GeneratedCodeIsShort | src/pages/Admin.tsx:48-50 | while the clock is below 2^53 ms, a code has at most 31 characters, all letters, digits or hyphens |
| Reservations.WithCode | src/hooks/useReservationValidator.ts:29-32 | `.eq('qr_code', code)` keeps exactly the rows holding that code, and is no longer than the table |
| Reservations.WithCodeCounts | src/hooks/useReservationValidator.ts:29-32 | each row holding the code appears in the result as many times as in the table, and no other row appears, so `.single()` sees the true number of matches |
| Reservations.SelectSingle | src/hooks/useReservationValidator.ts:29-33 | `.single()` answers with a row exactly when one row holds the code, and that row is in the table and holds the code |
| Reservations.MarkValidated | src/hooks/useReservationValidator.ts:59-65 | the rows with the id become validated at `now`; every other row is unchanged and the length is kept |
| Reservations.DeleteById | src/pages/Admin.tsx:81 | `.delete().eq('id', id)` as a filter over the table; what it computes is stated by `DeleteByIdSpec` |
| Reservations.DeleteByIdSpec | src/pages/Admin.tsx:81 | exactly the rows with the id go; no row is added; a missing id changes nothing |
| Reservations.DeleteIdempotent | src/pages/Admin.tsx:81 | deleting the same id twice is deleting it once |
| Reservations.InsertNewestFirst | src/pages/Admin.tsx:30-33 | inserting into the ordered list adds exactly that row |
| Reservations.InsertKeepsNewestFirst | src/pages/Admin.tsx:30-33 | inserting keeps the list ordered most recent first |
| Reservations.OrderByCreatedDesc | src/pages/Admin.tsx:30-33 | the fetched list is a permutation of the table, ordered by `created_at` descending |
| Reservations.MarkValidatedKeepsIds | src/hooks/useReservationValidator.ts:59-65 | the validation update never changes an id |
| Reservations.DeleteKeepsUniqueIds | src/pages/Admin.tsx:81 | deletion keeps the primary key unique |
| Reservations.Database.ApplyValidation | src/hooks/useReservationValidator.ts:59-65 | the shared table becomes the validated table, and ids stay unique |
| Reservations.Database.Insert | src/pages/Admin.tsx:61-65 | the row is appended exactly when its id is not already taken; otherwise the table is unchanged |
| Reservations.Database.Delete | src/pages/Admin.tsx:81 | the shared table loses exactly the rows with the id, and ids stay unique |
| Validator.MessageText | src/hooks/useReservationValidator.ts:39-89 | the French text of each message; the "already used" text ends with the locale's rendering of the validation date |
| Validator.Redeem | src/hooks/useReservationValidator.ts:24-93 | a holder is admitted exactly when the lookup answers, the code names a single unvalidated row, and the update answers; the row is then validated at `now` and the holder's name and party size are shown with the welcome; every other outcome leaves the table unchanged and shows its own refusal (unknown code, already used with the earlier instant, validation error, connection error); the success sound plays exactly on admission |
| Validator.WithCodeAfterMark | src/hooks/useReservationValidator.ts:59-65 | the validation update never changes which rows carry a code |
| Validator.UsedUpAfterMark | src/hooks/useReservationValidator.ts:46-56 | a used-up ticket stays used up after any validation update |
| Validator.GrantUsesUp | src/hooks/useReservationValidator.ts:58-84 | after an admission, the ticket's only row is the admitted row validated at `now` |
| Validator.UsedUpStays | src/hooks/useReservationValidator.ts:24-93 | a used-up ticket stays used up whatever code is scanned next |
| Validator.SecondScanRefused | src/hooks/useReservationValidator.ts:46-56 | scanning an admitted code again refuses it as already used, names the same holder, reports the first instant, and changes nothing |
| Validator.RedeemChangesOneFreshRow | src/hooks/useReservationValidator.ts:59-65 | with unique ids, a scan keeps the ids unique, changes at most one row, and never touches a row that was already validated |
| Validator.Run | src/hooks/useReservationValidator.ts:24-93 | a series of scans gives one outcome per attempt, each on the table the previous one left |
| Validator.NoGrantAfterUse | src/hooks/useReservationValidator.ts:46-56 | once a ticket is used up, no later scan of its code admits anyone |
| Validator.AtMostOneGrant | src/hooks/useReservationValidator.ts:24-93 | over any sequential series of scans, each code admits at most once |
| Validator.StaleScan | src/hooks/useReservationValidator.ts:29-65 | when the table changes between the lookup and the update, the decision follows the table the lookup read; when it does not change, the scan is `Redeem` |
| Validator.InterleavedScansAdmitTwice | src/hooks/useReservationValidator.ts:29-65 | two stations that both look a fresh ticket up before either update lands both admit its holder |
| Validator.TryRedeem | src/hooks/useReservationValidator.ts:29-65 | an atomic conditional update decides and writes on the same table; when it fails, nothing is admitted and nothing changes |
| Validator.TryRedeemAdmitsOnce | src/hooks/useReservationValidator.ts:29-65 | in whichever order the store applies two atomic redemptions of a code, at most one admits |
| Validator.ReservationValidator.constructor | src/hooks/useReservationValidator.ts:14-20 | the hook starts with no verdict, no holder, no message and not loading |
| Validator.ReservationValidator.SetState | src/hooks/useReservationValidator.ts:14 | `setState` replaces the displayed state |
| Validator.ReservationValidator.Play | src/hooks/useReservationValidator.ts:22 | playing a sound adds it to the sounds played |
| Validator.ReservationValidator.ValidateQRCode | src/hooks/useReservationValidator.ts:24-93 | the hook shows the loading state (keeping the previous fields), then leaves the shared table, the displayed state and the sound exactly as `Redeem` says |
| Validator.ReservationValidator.Reset | src/hooks/useReservationValidator.ts:95-103 | `reset` restores the initial state and touches neither the table nor the sounds |
| AdminPage.EmailColumn | src/pages/Admin.tsx:63 | the stored email is null exactly when only white space was typed, and otherwise is the non-empty trimmed address |
| AdminPage.ValidatedCount | src/pages/Admin.tsx:105 | the validated counter is at most the list's length; it is zero exactly when nothing is validated and full exactly when everything is |
| AdminPage.PendingCount | src/pages/Admin.tsx:106 | the pending counter is at most the list's length; it is zero exactly when everything is validated and full exactly when nothing is |
| AdminPage.CountsPartition | src/pages/Admin.tsx:105-106 | validated plus pending is the number of reservations |
| AdminPage.CountsAfterInsert | src/pages/Admin.tsx:30-33 | placing a row in the ordered list raises the validated count by one exactly when that row is validated |
| AdminPage.FetchedCounts | src/pages/Admin.tsx:29-42 | both counters on the fetched list equal those of the table itself |
| AdminPage.ToastText | src/pages/Admin.tsx:36-88 | the French text of each toast, as the page writes it |
| AdminPage.NewReservation | src/pages/Admin.tsx:61-65 | the row the insert sends: trimmed name, email column, generated code, and the column defaults as parameters; its properties are stated by `NewReservationColumns` |
| AdminPage.NewReservationColumns | src/pages/Admin.tsx:59-65 | the inserted row holds the trimmed, non-empty name and the email column; it is not validated; its code parses back to the clock reading and the suffix |
| AdminPage.Admin.constructor | src/pages/Admin.tsx:23-27 | the page starts with an empty list, loading, an empty form, and no insertion in flight |
| AdminPage.Admin.EditName | src/pages/Admin.tsx:190 | typing sets the name field |
| AdminPage.Admin.EditEmail | src/pages/Admin.tsx:200 | typing sets the email field |
| AdminPage.Admin.FetchReservations | src/pages/Admin.tsx:29-42 | an answer replaces the list with the table ordered newest first and ends loading; an error only raises the load toast; a rejection changes nothing |
| AdminPage.Admin.AddReservation | src/pages/Admin.tsx:52-78 | a blank name raises "name required" and touches nothing. Otherwise the new row is appended to the table exactly when the insert answers (and its id is free), and then the form is cleared, the success toast raised and the list refetched. A failed insert keeps the form and raises the error toast. A rejected insert leaves `isAdding` set. The list and `isLoading` change only when the refetch answers: the list becomes the table newest first and loading ends; otherwise both keep their values |
| AdminPage.Admin.InsertAndRefresh | src/pages/Admin.tsx:61-78 | the insertion and refresh half of `addReservation`, with the same outcomes, including the list and `isLoading` changing only on an answered refetch |
| AdminPage.Admin.DeleteReservation | src/pages/Admin.tsx:80-90 | an answer removes exactly the rows with the id, raises the success toast and refetches; an error raises the error toast; the form and `isAdding` never change; the list and `isLoading` change only when both the delete and the refetch answer |
| AdminPage.Admin.DeleteAndRefresh | src/pages/Admin.tsx:81-89 | once the delete has answered, the rows with the id leave the table, the success toast is raised and the list is refetched; the list and `isLoading` change only when the refetch answers |
| AssignUserRole.ParseRole | supabase/functions/assign-user-role/index.ts:31-33 | a role is accepted exactly when it is "admin" or "agent" |
| AssignUserRole.ParseRoleName | supabase/functions/assign-user-role/index.ts:31-33 | role names and roles correspond one to one |
| AssignUserRole.ValidateRequest | supabase/functions/assign-user-role/index.ts:22-33 | a body that does not parse throws; a missing or empty email or role is "missing fields"; an unknown role is "invalid role"; the request passes exactly when both are present and the role is known, and it yields that email and role |
| AssignUserRole.FindByEmail | supabase/functions/assign-user-role/index.ts:55-59 | a listed user with exactly that email is found, and none is found exactly when no listed user has it |
| AssignUserRole.FindsFirst | supabase/functions/assign-user-role/index.ts:55 | the user found is the first listed with that email |
| AssignUserRole.RowsOf | supabase/functions/assign-user-role/index.ts:62-66 | the rows selected for a user are exactly that user's rows |
| AssignUserRole.UpdateRole | supabase/functions/assign-user-role/index.ts:70-73 | the update gives every row of the user the new role and leaves all other rows as they were |
| AssignUserRole.RowsOfAppend | supabase/functions/assign-user-role/index.ts:81-83 | selecting a user's rows commutes with appending to the table |
| AssignUserRole.RowsOfUpdate | supabase/functions/assign-user-role/index.ts:70-73 | after the update, other users' rows are unchanged, and this user keeps as many rows, all holding the new role |
| AssignUserRole.RowsOfInsert | supabase/functions/assign-user-role/index.ts:81-83 | the insert adds one row for its user and none for anyone else |
| AssignUserRole.WriteRole | supabase/functions/assign-user-role/index.ts:62-89 | the update-or-insert as written: a rejected call throws, and otherwise the only failures are an update or insert error |
| AssignUserRole.WriteRoleOthersUntouched | supabase/functions/assign-user-role/index.ts:70-89 | a successful write leaves other users' rows unchanged and gives the user a row with the role |
| AssignUserRole.WriteRoleSingleRow | supabase/functions/assign-user-role/index.ts:62-89 | when the check answers and the user had at most one row, a successful write leaves exactly one row holding the requested role, and keeps one role per user |
| AssignUserRole.DuplicateRoleAfterFailedCheck | supabase/functions/assign-user-role/index.ts:62-89 | when the existence check fails for a user who already holds a role, the write inserts a second row |
| AssignUserRole.WriteRoleChecked | supabase/functions/assign-user-role/index.ts:62-89 | the corrected write stops whenever the check does not answer |
| AssignUserRole.CheckedWriteKeepsOneRole | supabase/functions/assign-user-role/index.ts:62-89 | whatever the replies, the corrected write keeps one role per user and leaves the user exactly the requested role |
| AssignUserRole.Assign | supabase/functions/assign-user-role/index.ts:21-89 | an invalid request, a failed or rejected user listing, and an unknown email each end in their own error |
| AssignUserRole.AssignSucceeds | supabase/functions/assign-user-role/index.ts:21-91 | a success names a listed user with that email. That user ends with a row holding the role, and no other user's rows change. When the check answered and the table had one role per user, it still does, and the user holds exactly that role |
| AssignUserRole.FaultMessage | supabase/functions/assign-user-role/index.ts:28-87 | the `error.message` of each failure, as the handler writes it; the unknown-user text names the email; a runtime rejection keeps the runtime's own message |
| AssignUserRole.Respond | supabase/functions/assign-user-role/index.ts:93-109 | success is status 200 with `success: true` and no error; every failure is status 400 with `success: false` and its error |
| AssignUserRole.RoleTable.constructor | supabase/functions/assign-user-role/index.ts:62-66 | the table starts with the given rows |
| AssignUserRole.RoleTable.Handle | supabase/functions/assign-user-role/index.ts:15-110 | a preflight answers with the empty CORS response and changes nothing; any other request answers as `Respond` of `Assign` says, and the table changes only on success |
| ProtectedRoute.Route | src/components/ProtectedRoute.tsx:11-55 | the spinner shows exactly while loading. Once loaded, a missing user redirects to `/auth`. Otherwise the admin denial shows exactly for an admin route without `isAdmin`, and the staff denial exactly for a staff route without `isStaff`. The page renders in every other signed-in case |
| ProtectedRoute.DeniedText | src/components/ProtectedRoute.tsx:32-47 | an explanation is shown exactly on the two denial screens, with the French text of each (the `<br />` of the staff screen is a space) |
| ProtectedRoute.AgentFlagIgnored | src/components/ProtectedRoute.tsx:12 | `isAgent` never changes the outcome |
| ProtectedRoute.AgentRouteUnguarded | src/components/ProtectedRoute.tsx:26-54 | a route that requires `agent` is guarded like one that requires nothing, so every signed-in user gets the page |
| ProtectedRoute.MoreRightsStillAdmitted | src/components/ProtectedRoute.tsx:26-54 | holding more rights never turns an admitted user away |

## Left out

- Rendering, animation and layout of the pages, the scanner camera (`QRScanner`), the result card (`ValidationResult`), the sounds' audio (`useScanSounds`), the landing page, the admin password gate and the `send-ticket-email` function are not part of this model. A sound is recorded as the name of the sound played.
- `downloadQRCode` (src/pages/Admin.tsx:92-103) is left out: it builds a text blob and clicks a link, which is browser I/O.
- The clock (`Date.now()`, `new Date()`) and `Math.random()` are parameters. The ISO text of timestamps and the `toLocaleString('fr-FR')` date in the "already used" message are not modelled. The message keeps the instant, and the rendered date is a parameter of its French text.
- `Number.prototype.toString` is modelled only for non-negative integers below the exponent range: the clock in milliseconds.
- `toUpperCase` is modelled for ASCII only, which is all `toString(36)` produces.
- The database schema is not part of this model. The model treats `id` as a primary key and nothing else as unique. The column defaults (`id`, `created_at`, `number_of_persons`, `is_validated = false`) are parameters of the insert.
- Concurrency: two stations or two admin pages running at once. Admission is proved exactly-once for sequential scans (`Validator.AtMostOneGrant`). The interleaving of two scans appears only in the two-station finding below.
- `fetchReservations()` after an insert or a delete is not awaited in the source. The model runs it straight after the write, so it sees the table the write left.
- `setReservations(data || [])`: a null answer without an error is not modelled. An answer is always a table.
- AdminPage.Admin.AddReservation: the button is disabled while `isAdding` is set. The handler itself does not check `isAdding`, so the model does not require it.
- In the source, a rejected insert or delete promise is never caught. The model says that the table, the list, `isLoading`, the form and the toasts keep their values, and that a rejected insert leaves `isAdding` set. The unhandled rejection itself is not reported.
- `listUsers()` pagination is left out: only the first page is listed, and the model treats `users` as everything that page holds.
- The CORS headers, the `Content-Type` header and the `console` logging of the edge function are left out.
- The request fields are modelled as strings or absent. JSON values of other types (a number, an object) are not modelled.
- The function builds its admin client from environment variables, which are not checked.
- A thrown error is modelled by its kind. For a rejected promise or a body that does not parse, the runtime's own message is a parameter of `AssignUserRole.FaultMessage`.
- Validator.MessageText: that the five French messages are pairwise different is not proved. Comparing the string literals is beyond the verifier's budget.
- The scan looks a code up without checking its format first, so there is no "invalid format" outcome; `TicketCode.ParseQRCode` describes the format of generated codes without being a gate.
- The scan reads the row and then updates it by id in a separate call; it has no single conditional update. The model follows the code, and the two-station finding below shows the consequence.
- The role function knows only the roles `admin` and `agent`. A "staff" role exists only as the guard's `isStaff` flag, which nothing in this model assigns.
- Reservations.OrderByCreatedDesc: rows with equal `created_at` come out in the order an insertion sort gives them. The database's `.order` promises only a sorted permutation, so the model fixes one tie order among several the source allows.
- The fetch on mount (`useEffect` at src/pages/Admin.tsx:44-46) is `AdminPage.Admin.FetchReservations` called once after the constructor; it has no member of its own.

## Findings

| source | as written | input that shows it | evidently intended | confidence | as-written member | corrected member |
|---|---|---|---|---|---|---|
| supabase/functions/assign-user-role/index.ts:62-89 | the error of the existence check (`checkError`) is never read, so a failed check is treated like "no role yet" and a new row is inserted | `user_roles` = [(u, agent)], the check answers with an error, the request asks for admin: the table ends [(u, agent), (u, admin)] | a failed check stops with an error, and an existing row is updated, so that a user holds one role | medium, not executed | AssignUserRole.DuplicateRoleAfterFailedCheck | AssignUserRole.CheckedWriteKeepsOneRole |
| src/hooks/useReservationValidator.ts:29-65 | the scan looks the row up, then updates it by id in a second call, so the check and the write are not one step | one fresh ticket; two stations both look it up before either update lands: both show "Bienvenue", and the row keeps the second instant | a ticket admits once, as the "already used" refusal shows: a single conditional update that marks the row only if it is not yet validated | medium, not executed | Validator.InterleavedScansAdmitTwice | Validator.TryRedeemAdmitsOnce |

`AssignUserRole.RoleTable.Handle` and `Validator.ReservationValidator.ValidateQRCode` model the code as written. `AssignUserRole.WriteRoleChecked` and `Validator.TryRedeem` are the corrected steps that the findings' proofs are about.
