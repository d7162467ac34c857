# Room-booking admin front-end: the logic behind its pages

This project models the list, string and state logic of the React admin front-end of a room-booking system ("ambientes"). It covers these pieces:

- **Operating hours of a room** (`HorarioFuncionamento`):
  - the 24 hourly slot labels;
  - the selection edited with check boxes and a "select all" box;
  - loading the records already stored for the room;
  - the create/delete plan a save sends.
- **Whitelist of dates** (`WhiteList`): normalising the loaded list, creating a row with a fresh id, updating by id, deleting by id. Also the page state: rows, selected id, selected date, loading flag.
- **Rooms page** (`Ambientes`): each room's slots filtered from the global list and sorted by start time, and the delete-confirmation dialog.
- **Reservation form** (`GerenciarReservas`): the disabled calendar days, the date/time/available-times/loading state machine, the required rules, and a submit handler that always throws.
- **Reservations list** (`Reservas`):
  - the id→name tables built with `Map.set`, and their "Desconhecido" default;
  - the admin-only column and the actions offered per status;
  - the cancellation modal.
- **History modal** (`ModalHist`): the in-place newest-first sort of an array, and one table row per entry.
- **User form and registration form** (`GerenciarUsuarios`, `Register`): the regular expressions for name, email, password, CPF and telephone, written as hand-coded predicates. Also the required rules, their messages and password confirmation.

Supporting modules:

- `Wrappers`: `Option` and JavaScript truthiness of a number or string that may be missing.
- `Lists`: an order-preserving `Filter`.
- `Text`: character classes, decimal printing, `padStart`, `split(sep)[0]`, `indexOf`/`lastIndexOf`, code-point order and the form library's `required` rule.

JavaScript semantics are written out where they matter:

- A value that may be missing or falsy is an `Option`. `x || d` is spelled out, so an id of 0 is falsy.
- `filter` keeps order.
- `Map.set` overwrites.
- A react-hook-form field shows the message of its first failing rule.

Server answers, the clock and user input are parameters of the operations. A handler that changes component state is a method of a class holding that state.

## Model

| member | source | states |
|---|---|---|
| HorarioFuncionamento.GenerateTimeSlots | src/pages/Ambientes/HorarioFuncionamento/index.tsx:68-76 | the loop yields exactly 24 labels; label i is hour i padded to two digits, ":00-", hour (i+1) mod 24 padded, ":00" |
| Text.PadTwoDigits | src/pages/Ambientes/HorarioFuncionamento/index.tsx:71-72 | `n.toString().padStart(2, '0')` for n < 100 is the tens digit followed by the units digit |
| HorarioFuncionamento.SlotLabelChars | src/pages/Ambientes/HorarioFuncionamento/index.tsx:71-73 | slot i is the 11 characters HH:00-EE:00 with HH = i and EE = (i+1) mod 24 |
| HorarioFuncionamento.FirstAndLastSlot | src/pages/Ambientes/HorarioFuncionamento/index.tsx:70-73 | the first slot is "00:00-01:00"; the last wraps to "23:00-00:00" |
| HorarioFuncionamento.SlotsDistinct | src/pages/Ambientes/HorarioFuncionamento/index.tsx:70-74 | no two of the 24 slots share a label |
| HorarioFuncionamento.SlotStart | src/pages/Ambientes/HorarioFuncionamento/index.tsx:71-73 | the text before a slot's first '-' is its start time HH:00 |
| HorarioFuncionamento.TimeSlotsAscending | src/pages/Ambientes/HorarioFuncionamento/index.tsx:70-74 | slots come in strictly increasing order of start time |
| Lists.FilterMembers | src/pages/Ambientes/HorarioFuncionamento/index.tsx:124 | `filter` keeps an entry iff it was there and passes the test |
| Lists.FilterCounts | src/pages/WhiteList/index.tsx:162 | `filter` keeps every copy of a passing entry and no copy of a failing one |
| Lists.FilterConcat | src/pages/Ambientes/index.tsx:194 | filtering a concatenation is the concatenation of the filtered parts, so kept entries stay in order |
| HorarioFuncionamento.Without | src/pages/Ambientes/HorarioFuncionamento/index.tsx:124 | unchecking removes every copy of the label and keeps the count of every other label |
| HorarioFuncionamento.WithoutConcat | src/pages/Ambientes/HorarioFuncionamento/index.tsx:124 | removal distributes over concatenation, so the remaining entries keep their order |
| HorarioFuncionamento.WithoutAbsent | src/pages/Ambientes/HorarioFuncionamento/index.tsx:124 | unchecking a label that is not selected changes nothing |
| HorarioFuncionamento.Toggle | src/pages/Ambientes/HorarioFuncionamento/index.tsx:121-124 | checking appends the label at the end; unchecking removes all its copies and keeps the rest |
| HorarioFuncionamento.SelectAllFlagIsLengthBased | src/pages/Ambientes/HorarioFuncionamento/index.tsx:118-129 | the select-all flag compares lengths only: checking a label onto 23 copies of it gives 24 entries that miss slot 01:00-02:00 |
| HorarioFuncionamento.Horarios | src/pages/Ambientes/HorarioFuncionamento/index.tsx:164 | the `horario` field of every record, in response order; a label occurs iff some record has it |
| HorarioFuncionamento.ToAdd | src/pages/Ambientes/HorarioFuncionamento/index.tsx:198-199 | a label is added iff it is selected and no stored record has it, with its selection count |
| HorarioFuncionamento.ToAddConcat | src/pages/Ambientes/HorarioFuncionamento/index.tsx:198-199 | the creates distribute over concatenation of the selection, so they come out in selection order |
| HorarioFuncionamento.ToRemove | src/pages/Ambientes/HorarioFuncionamento/index.tsx:200 | a record is deleted iff it is stored and its label is not selected |
| HorarioFuncionamento.SubmitPlan | src/pages/Ambientes/HorarioFuncionamento/index.tsx:189-240 | editing sends the add/remove difference; creating sends one create per selected entry and no delete |
| HorarioFuncionamento.EditPlanReachesSelection | src/pages/Ambientes/HorarioFuncionamento/index.tsx:197-224 | after the edit plan, exactly the selected labels are stored, and no create duplicates a kept record |
| HorarioFuncionamento.FreshRoomGetsSelection | src/pages/Ambientes/HorarioFuncionamento/index.tsx:226-239 | for a room with nothing stored, either path stores exactly the selection, in order |
| HorarioFuncionamento.FormErrors | src/pages/Ambientes/HorarioFuncionamento/index.tsx:282-306 | the room rule fails iff no room is set; the slots rule fails iff none is selected |
| HorarioFuncionamento.HorarioForm.constructor | src/pages/Ambientes/HorarioFuncionamento/index.tsx:85-99 | empty selection and room, box unticked, not editing, not loading, the 24 slots generated |
| HorarioFuncionamento.HorarioForm.HandleSelectAll | src/pages/Ambientes/HorarioFuncionamento/index.tsx:114-119 | select-all(true) selects all 24 slots in order, (false) empties; the form field mirrors the selection |
| HorarioFuncionamento.HorarioForm.HandleHorarioChange | src/pages/Ambientes/HorarioFuncionamento/index.tsx:121-129 | the selection becomes the toggle of the old one, the form field mirrors it, and the box is ticked iff 24 are selected |
| HorarioFuncionamento.HorarioForm.BeginLoad | src/pages/Ambientes/HorarioFuncionamento/index.tsx:137-140 | both requests start, and loading is raised, only when the route id is a number |
| HorarioFuncionamento.HorarioForm.AmbienteLoaded | src/pages/Ambientes/HorarioFuncionamento/index.tsx:143-146 | the room's id, in decimal, fills the room field; nothing else changes |
| HorarioFuncionamento.HorarioForm.HorariosLoaded | src/pages/Ambientes/HorarioFuncionamento/index.tsx:158-170 | a non-empty response replaces the selection with its labels in order; an empty one keeps it; edit mode on, loading off |
| HorarioFuncionamento.HorarioForm.HorariosLoadFailed | src/pages/Ambientes/HorarioFuncionamento/index.tsx:171-174 | loading ends when the error carries a response; without one the handler throws first and loading stays on; the selection is unchanged either way |
| HorarioFuncionamento.HorarioForm.Submit | src/pages/Ambientes/HorarioFuncionamento/index.tsx:178-254 | a failing required rule blocks the save with its messages and leaves loading alone; otherwise the plan for the current mode is sent and loading ends off; the selection is unchanged |
| WhiteList.NormaliseItem | src/pages/WhiteList/index.tsx:68-71 | a missing or falsy id becomes 0, a missing or empty date becomes "" |
| WhiteList.Normalise | src/pages/WhiteList/index.tsx:67-72 | a non-array payload loads no rows; an array loads one normalised row per item, same length and order |
| WhiteList.NormaliseRoundTrip | src/pages/WhiteList/index.tsx:67-72 | loading rows that the server returns complete gives back those rows |
| WhiteList.MaxId | src/pages/WhiteList/index.tsx:121 | `Math.max` of the ids bounds every id and is one of them |
| WhiteList.NewId | src/pages/WhiteList/index.tsx:121 | the server's id if truthy, else the largest existing id plus one (so larger than every existing id), and 1 for an empty table |
| WhiteList.Appended | src/pages/WhiteList/index.tsx:120-123 | one row at the end with the new id and the server's date or the selected one; earlier rows untouched |
| WhiteList.Updated | src/pages/WhiteList/index.tsx:127-131 | only rows with the selected id get the new date; length, ids and all other rows unchanged |
| WhiteList.Deleted | src/pages/WhiteList/index.tsx:159-163 | a row survives iff its id differs from the deleted one, with its count kept |
| WhiteList.DeletedConcat | src/pages/WhiteList/index.tsx:159-163 | deletion distributes over concatenation, so surviving rows keep their order |
| WhiteList.CreatedIdFresh | src/pages/WhiteList/index.tsx:119-123 | a created row whose id falls back to the computed one clashes with no existing row |
| WhiteList.EditOfZeroIdRowAppends | src/pages/WhiteList/index.tsx:119-121 | editing a row loaded with id 0 makes saving append a row instead of updating it |
| WhiteList.WhiteListPage.constructor | src/pages/WhiteList/index.tsx:36-46 | no rows, no selected id, empty date, not loading |
| WhiteList.WhiteListPage.BeginFetch | src/pages/WhiteList/index.tsx:60-61 | loading starts; nothing else changes |
| WhiteList.WhiteListPage.FetchSucceeded | src/pages/WhiteList/index.tsx:65-74 | the rows become the normalised payload and loading ends |
| WhiteList.WhiteListPage.FetchFailed | src/pages/WhiteList/index.tsx:76-83 | loading ends, rows kept, and the error body or "Erro ao carregar dados" is shown |
| WhiteList.WhiteListPage.SetDate | src/pages/WhiteList/index.tsx:260 | the date field takes the typed value |
| WhiteList.WhiteListPage.EditDate | src/pages/WhiteList/index.tsx:93-96 | the row's id and date become the selection; rows unchanged |
| WhiteList.WhiteListPage.SaveDate | src/pages/WhiteList/index.tsx:98-150 | an empty date only reports an error; success updates or appends and clears the selection; failure keeps everything and shows the body or the mode's fallback |
| WhiteList.WhiteListPage.DeleteDate | src/pages/WhiteList/index.tsx:152-174 | success removes every row with the id and reports it; failure keeps the rows and shows the body or the fallback |
| Text.BeforeFirst | src/pages/Ambientes/index.tsx:196-197 | `split('-')[0]`: the longest prefix without the separator, followed by it when it does not end the string |
| Ambientes.Insert | src/pages/Ambientes/index.tsx:195-199 | inserting into a list sorted by start time keeps it sorted and adds exactly the entry |
| Ambientes.SortByStart | src/pages/Ambientes/index.tsx:195-199 | the result is sorted by start time and a permutation of the input |
| Ambientes.InsertStable | src/pages/Ambientes/index.tsx:195-199 | inserting an entry puts it in front of the entries with its start time and keeps their order |
| Ambientes.SortStable | src/pages/Ambientes/index.tsx:195-199 | the sort is stable: for every start time, the entries with that start time keep their input order |
| Ambientes.RoomSlots | src/pages/Ambientes/index.tsx:190-199 | exactly the global entries of that room, with their counts, sorted by start time; an empty global list gives none |
| Ambientes.AfterConfirmedDelete | src/pages/Ambientes/index.tsx:119-125 | a room survives iff its id differs from the dialog's stored id, with all its copies; without a stored id nothing is removed |
| Ambientes.AfterConfirmedDeleteConcat | src/pages/Ambientes/index.tsx:125 | the delete commutes with concatenation, so the surviving rooms keep their order |
| Ambientes.RemoveAmbiente | src/pages/Ambientes/index.tsx:106-108 | the dialog opens with the given room id |
| Ambientes.CloseDialog | src/pages/Ambientes/index.tsx:155 | the dialog closes and forgets the id |
| Ambientes.OpenThenConfirmRemovesRoom | src/pages/Ambientes/index.tsx:106-125 | opening on a room and confirming removes exactly the rows with that id |
| Ambientes.ConfirmAfterCloseRemovesNothing | src/pages/Ambientes/index.tsx:125 | confirming with the closed dialog's `null` id removes no room |
| GerenciarReservas.Format | src/pages/Reservas/Gerenciar/index.tsx:330 | `format('YYYY-MM-DD')` is ten characters with '-' at positions 4 and 7 |
| GerenciarReservas.FormatInjective | src/pages/Reservas/Gerenciar/index.tsx:330 | different valid dates never format alike |
| GerenciarReservas.DisabledExactly | src/pages/Reservas/Gerenciar/index.tsx:324-331 | a day is disabled iff it is 25 or 29 December 2024 |
| GerenciarReservas.RequiredErrors | src/pages/Reservas/Gerenciar/index.tsx:281-346 | the room rule fails iff no room is set and the time rule fails iff no time is set, each with its message |
| GerenciarReservas.ReservaForm.constructor | src/pages/Reservas/Gerenciar/index.tsx:66-81 | empty form fields, no date, no time, no available times, not loading, no error |
| GerenciarReservas.ReservaForm.SelectAmbiente | src/pages/Reservas/Gerenciar/index.tsx:285 | only the room field changes |
| GerenciarReservas.ReservaForm.PickDate | src/pages/Reservas/Gerenciar/index.tsx:206-215 | the date is stored, the selected time cleared, and a fetch (loading on, error cleared) starts iff the date is non-null |
| GerenciarReservas.ReservaForm.FetchResolved | src/pages/Reservas/Gerenciar/index.tsx:180-203 | the available times become the six fixed slots in order and loading ends |
| GerenciarReservas.ReservaForm.FetchRejected | src/pages/Reservas/Gerenciar/index.tsx:198-202 | loading ends and the available times are kept |
| GerenciarReservas.ReservaForm.ChooseTime | src/pages/Reservas/Gerenciar/index.tsx:352-359 | an offered time becomes the form's time, which stays empty or one of the fixed slots |
| GerenciarReservas.ReservaForm.Submit | src/pages/Reservas/Gerenciar/index.tsx:133-135 | an incomplete form is blocked by its rules; a complete one always ends in "Function not implemented." |
| Reservas.NameMapKeys | src/pages/Reservas/index.tsx:89-92 | the table's keys are exactly the listed ids |
| Reservas.NameMapLastWins | src/pages/Reservas/index.tsx:89-92 | each id maps to the name of the last entry carrying it |
| Reservas.BuildNameMap | src/pages/Reservas/index.tsx:102-105 | the `forEach`/`Map.set` loop builds exactly the last-wins table |
| Reservas.Lookup | src/pages/Reservas/index.tsx:176 | the mapped name when present and non-empty, else "Desconhecido"; never empty |
| Reservas.LookupAfterLoad | src/pages/Reservas/index.tsx:185 | an unlisted id shows "Desconhecido"; a listed one shows its last entry's non-empty name |
| Reservas.Columns | src/pages/Reservas/index.tsx:157-222 | the "Criado por" column is present iff the user is admin; the other columns are fixed and in order |
| Reservas.Actions | src/pages/Reservas/index.tsx:224-270 | History always; Edit and Cancel iff the status is 'ativo' |
| Reservas.CancelModal.constructor | src/pages/Reservas/index.tsx:66-67 | the modal is closed with no reservation selected |
| Reservas.CancelModal.AbrirModal | src/pages/Reservas/index.tsx:135-138 | the reservation is selected and the modal opens |
| Reservas.CancelModal.FecharModal | src/pages/Reservas/index.tsx:140-143 | the modal closes and the selection is cleared |
| Reservas.CancelModal.SalvarCancelamento | src/pages/Reservas/index.tsx:289-303 | a falsy selected id does nothing; otherwise the request is sent, the modal closes on success and on failure, and the outcome is reported |
| ModalHist.Sink | src/components/ModalHist/index.tsx:60-63 | one more cell joins the newest-first prefix, with the array's contents unchanged as a multiset |
| ModalHist.OrdenarPorData | src/components/ModalHist/index.tsx:50-65 | the same array is returned, reordered newest first, as a permutation of its old contents |
| ModalHist.TableBody | src/components/ModalHist/index.tsx:91-100 | one row per entry, in sorted order, with non-increasing change times |
| GerenciarUsuarios.NameRangeGaps | src/pages/Usuarios/Gerenciar/index.tsx:50 | in U+00C0-U+00FF, the name pattern refuses exactly × and ÷ |
| GerenciarUsuarios.NomeError | src/pages/Usuarios/Gerenciar/index.tsx:168-173 | the name passes iff it is non-empty and all letters or spaces; the first failing rule's message is shown |
| GerenciarUsuarios.EmailFromParts | src/pages/Usuarios/Gerenciar/index.tsx:48 | any local part, domain and top-level domain of the pattern's classes joined with '@' and '.' are accepted |
| GerenciarUsuarios.EmailToParts | src/pages/Usuarios/Gerenciar/index.tsx:48 | every accepted address is such a join |
| GerenciarUsuarios.EmailHasOneAt | src/pages/Usuarios/Gerenciar/index.tsx:48 | an accepted address holds exactly one '@' |
| GerenciarUsuarios.EmailError | src/pages/Usuarios/Gerenciar/index.tsx:189-194 | the email passes iff it matches the pattern; empty gives the required message, a non-matching one the pattern message |
| GerenciarUsuarios.ScanPasswordMeaning | src/pages/Usuarios/Gerenciar/index.tsx:49 | each flag of the one-pass scan means what its look-ahead or class says |
| GerenciarUsuarios.PasswordValidMeetsSpec | src/pages/Usuarios/Gerenciar/index.tsx:49 | the check accepts iff the password has 8+ allowed characters with an upper-case letter, a digit and a symbol |
| GerenciarUsuarios.PasswordError | src/pages/Usuarios/Gerenciar/index.tsx:233-238 | the password passes iff the strength check does; empty gives the required message, a weak one the pattern message |
| GerenciarUsuarios.ConfirmaSenhaError | src/pages/Usuarios/Gerenciar/index.tsx:255-258 | the confirmation passes iff it is non-empty and equals the password; empty gives the required message, a different one the mismatch message |
| GerenciarUsuarios.TelefoneError | src/pages/Usuarios/Gerenciar/index.tsx:295-298 | the telephone passes iff it has 1 to 11 characters; empty gives the required message, a longer one an empty message |
| GerenciarUsuarios.SingleKeyAcceptedIffDigit | src/pages/Usuarios/Gerenciar/index.tsx:311-315 | a one-character key is let through iff it is a digit |
| GerenciarUsuarios.PerfilError | src/pages/Usuarios/Gerenciar/index.tsx:211-213 | the profile passes iff it is non-empty; empty gives the required message |
| Text.Required | src/pages/Usuarios/Gerenciar/index.tsx:211-213 | a `required` rule fails exactly on the empty value, and then with its own message |
| GerenciarUsuarios.PerfilChoices | src/pages/Usuarios/Gerenciar/index.tsx:218-222 | of the offered values "", "0" and "1", exactly "0" and "1" pass |
| GerenciarUsuarios.AcceptedMeans | src/pages/Usuarios/Gerenciar/index.tsx:164 | the form submits iff name, email, profile, password strength, confirmation and telephone all hold |
| Register.Canonicalize | src/pages/Register/index.tsx:121 | the `i` flag folds ASCII lower-case letters to upper case and leaves every other character out of the ASCII classes |
| Register.ClassesAgree | src/pages/Register/index.tsx:121 | under `i` the upper-case classes accept exactly the mixed-case classes of the admin form |
| Register.PartsAgree | src/pages/Register/index.tsx:121 | the three parts satisfy the case-insensitive classes iff they satisfy the admin form's |
| Register.EmailSameAsAdminForm | src/pages/Register/index.tsx:121 | the registration email pattern accepts exactly what the admin form's accepts |
| Register.CpfFromValid | src/pages/Register/index.tsx:166 | any digit groups of lengths 3, 3, 3 and 2 joined as DDD.DDD.DDD-DD are accepted |
| Register.CpfValidSplits | src/pages/Register/index.tsx:166 | every accepted CPF is such a join of digit groups |
| Register.TelFromValid | src/pages/Register/index.tsx:182 | "(DD)", one whitespace, 4 or 5 digits, '-' and 4 digits make an accepted telephone |
| Register.TelefoneValidSplits | src/pages/Register/index.tsx:182 | every accepted telephone is such a join, 14 or 15 characters long |
| Register.NomeError | src/pages/Register/index.tsx:108 | the name passes iff it is non-empty; empty gives the required message |
| Register.EmailError | src/pages/Register/index.tsx:118-123 | the email passes iff it matches the pattern; empty gives the required message, a non-matching one the pattern message |
| Register.PasswordError | src/pages/Register/index.tsx:135 | any non-empty password passes: there is no strength rule; empty gives the required message |
| Register.ConfirmaSenhaError | src/pages/Register/index.tsx:147-151 | the confirmation passes iff it is non-empty and equals the password; empty gives the required message, a different one the mismatch message |
| Register.CpfError | src/pages/Register/index.tsx:163-168 | the CPF passes iff it has the DDD.DDD.DDD-DD layout; empty gives the required message, a malformed one the pattern message |
| Register.TelefoneError | src/pages/Register/index.tsx:179-184 | the telephone passes iff it has the (DD) DDDD[D]-DDDD layout; empty gives the required message, a malformed one the pattern message |
| Register.AcceptedMeans | src/pages/Register/index.tsx:108-184 | the form submits iff every field is filled, the email passes the admin form's check, the passwords match and CPF and telephone are well formed |
| Register.AfterPost | src/pages/Register/index.tsx:45-58 | success reports and keeps the overlay up; failure reports and lowers it |

## Left out

- HTTP requests, `localStorage`, the token-expiry check, `navigate`, `setTimeout` and snackbars. Server answers are parameters, and requests are returned values (plans, requests, notices).
- The parallel `Promise.all` create and delete requests of the operating-hours save. The model computes the lists they are sent for; `EditPlanReachesSelection` assumes every request succeeds.
- Asynchronous interleaving. Each `then`/`catch`/`finally` callback is one atomic step. A callback that runs after the user changed the state again is not modelled.
- `HorarioFuncionamento.HorarioForm.Submit`: the source sends `data.ambiente_id` with each create. The model's plan lists only the labels.
- The global slot list after a failed request on the rooms page: `setDadosHorarios(err)` stores an error object. That list is not modelled.
- `WhiteList.WhiteListPage.SaveDate`: an answer without a `whiteList` member makes the create updater throw. Only answers that have the member are modelled.
- JavaScript falsy values other than 0, "" and a missing value (NaN, `false`). Ids are integers and dates are strings.
- `localeCompare` is modelled as code-point order on the start times. The start times the page produces are "HH:00", where the two orders agree. `Array.prototype.sort` is stable, and so is the model's insertion sort (`Ambientes.SortStable`): slots with the same start time keep their filtered order.
- Dates: dayjs and `Date` parsing, `toLocaleDateString`/`toLocaleString` rendering, and the calendar's `disablePast` and `maxDate`. A history entry's `created_at` is an integer timestamp, and an unparsable date (NaN in the comparator) is not modelled.
- The unused `disabledDates` array and the commented-out submit handler of the reservation form.
- The rooms page's `ConfirmationDialog` is not part of this model. Whether confirming also closes the dialog is therefore not modelled.
- `GerenciarUsuarios.TelefoneError`: string lengths are counted in code points, not UTF-16 units. A character outside the Basic Multilingual Plane counts 2 toward the source's `maxLength: 11` and 1 in the model, so such a value can pass the model's rule and fail the source's. The patterns of the other rules accept no such character, so no other rule is affected.
- `Register.Canonicalize`: the Unicode case mapping of non-ASCII characters is not modelled. Under a non-Unicode `i` pattern it never yields an ASCII character, so it cannot affect the ASCII classes.
- The browser's `maxLength` and `inputMode` attributes on the telephone input. The model keeps the form rule and the key filter.
- The login page (its email rule is the registration form's), the dashboard, routing, layout, notifications, the cancellation text box and the room-editing form: UI or I/O only.
