# Coffee shop and system monitor, modelled in Dafny

The repository holds two small programs, and this project models the core of each.

**The system monitor** (`system_monitor.py`):
- Every `interval` seconds, for `duration` ticks, it reads the CPU and memory usage.
- It classifies each tick as OK, CPU HIGH, MEM HIGH or CRITICAL against two inclusive thresholds, raises one `alert` per high reading plus a CRITICAL alert when both are high, and counts the alerts.
- It prints one table row per tick and ends with an INFO summary that gives the count, or "No" when there were none.
- `alert` prints a coloured, timestamped line. For WARNING and CRITICAL alerts with a non-empty email configuration, it attempts an email.
- A `Logger` mirrors everything printed to the terminal into a log file, with the colour codes removed by `str.replace`.

**The coffee shop** (a Django app, `app1/`):
- The tables are coffees with price and stock, cart rows (user, coffee, quantity), users, and one profile per user.
- A `post_save` signal creates the profile, and deletes cascade along the foreign keys.
- `add_to_cart`, `increment_quantity` and `decrement_quantity` move units between a coffee's stock and a user's cart row.
- `view_cart` shows the total of the requester's rows.
- `user_register` checks the form, creates the user and fills in the address of the profile the signal made.

**Modules**
- `Wrappers`: `Option`.
- `Text`: decimal rendering, the `:.1f` format of the readings, and a model of `str.replace` with the empty string.
- `Alerting`: `alert` as a function from its inputs to its effects: the printed line, the email attempt, and the key of a failed lookup.
- `LogMirror`: the `Logger` class, with its terminal and log contents as fields.
- `Monitor`: the tick classification, the trace a run produces, and `monitor_system` as a loop.
- `MonitorLog`: what reaches the log file during a run.
- `ShopModels`: the records and the `Database` class whose methods are the ORM operations the views use.
- `CartSums`: cart totals, units held, and how one changed row moves them.
- `ShopViews`: the views, as methods on the database.

**Representation**
- Readings are whole numbers of tenths of a percent, which is the resolution at which the monitor prints them.
- Prices are whole cents.
- The clock, the host name, the sampler and the request's user come in as parameters.

## Model

| member | source | states |
|---|---|---|
| Text.NatToString | system_monitor.py:135 | the count is rendered as decimal digits, non-empty, without a leading zero |
| Text.NatToStringRoundTrip | system_monitor.py:135 | reading the rendered digits back gives the count |
| Text.Tenths | system_monitor.py:115-125 | definition of `:.1f` for a reading held in tenths; its shape and round trip are stated by Text.TenthsFormat |
| Text.TenthsFormat | system_monitor.py:115-125 | a reading prints as whole digits, a point and one digit, and those digits read back as the reading's whole part and tenth |
| Text.RemoveAll | system_monitor.py:156 | replacing a pattern by the empty string never lengthens the text |
| Text.RemoveAllKeepsPlainPrefix | system_monitor.py:156 | text that contains no occurrence of the pattern's first character passes through a replace unchanged, in front of whatever follows |
| Text.RemoveAllNoOccurrence | system_monitor.py:156 | text without the pattern's first character is unchanged by the replace |
| Text.RemoveAllDropsLeading | system_monitor.py:156 | a leading occurrence of the pattern is removed and the scan continues after it |
| Text.RemoveAllKeepsOtherLeading | system_monitor.py:156 | a leading different code is kept whole and the replace acts on the rest |
| Text.NatToStringNoEsc | system_monitor.py:135 | a rendered count holds no escape character |
| Text.NoEscJoin | system_monitor.py:115-137 | joining two texts without escape characters gives one without, so fixed text around formatted numbers stays plain |
| Text.TenthsNoEsc | system_monitor.py:115-125 | a formatted reading holds no escape character |
| Alerting.MissingEmailKey | system_monitor.py:77-79 | no key is missing iff the configuration has recipient, sender_email and sender_password; a reported key is absent |
| Alerting.AlertRaises | system_monitor.py:69-80 | definition: the call raises when the colour lookup fails or a wanted email lacks a key; Alerting.Alert states that its outcome raises exactly then |
| Alerting.ColouredLine | system_monitor.py:69 | definition of the printed line: colour code, bracketed type, timestamp, message, reset; LogMirror.ColouredLineLoggedPlain states what the log receives |
| Alerting.Subject | system_monitor.py:73 | definition of the email subject naming the type and the host; Alerting.Alert states that every email attempt carries it |
| Alerting.Alert | system_monitor.py:49-80 | the call raises iff the alert type has no colour or a wanted email lacks a key; an unknown type prints nothing; otherwise the coloured line is printed first; an email is attempted iff the type is WARNING or CRITICAL, the configuration is non-empty and all keys are present, with the subject naming type and host and the configured recipient and sender |
| Alerting.InfoNeverEmails | system_monitor.py:72 | an INFO alert only prints, never emails and never raises, whatever the configuration |
| LogMirror.StripColours | system_monitor.py:156 | the logged text is never longer than the message |
| LogMirror.Logger.constructor | system_monitor.py:150-152 | the logger starts from the given terminal and log contents |
| LogMirror.Logger.Write | system_monitor.py:154-156 | the terminal receives the message unchanged and the log receives it with the four colour codes removed, both appended |
| LogMirror.PlainMessageLoggedUnchanged | system_monitor.py:156 | a message without escape characters is logged exactly as printed |
| LogMirror.Differs | system_monitor.py:59-64 | two different colour codes differ at some position within both |
| LogMirror.RemoveCodeBefore | system_monitor.py:156 | one replace deletes a leading colour code exactly when it is the replaced code, and acts on the rest independently |
| LogMirror.RemoveCodeAfter | system_monitor.py:156 | one replace on plain text and a trailing reset touches only the reset |
| LogMirror.RemoveCodeAround | system_monitor.py:156 | one replace on code, plain text and reset changes only the two codes |
| LogMirror.StripCodeAround | system_monitor.py:156 | the four replaces remove a colour code before plain text and the reset after it, leaving the plain text |
| LogMirror.ColouredLineLoggedPlain | system_monitor.py:69-156 | a printed alert line with a plain message and timestamp reaches the log as "[TYPE] timestamp: message" |
| LogMirror.DoubleEscapeKeepsColour | system_monitor.py:156 | none of the three colour replaces changes a text made of an escape, a reset and "[0m" |
| LogMirror.StrippedLogMayKeepACode | system_monitor.py:156 | replacing in sequence can assemble a reset code that was not in the printed text, so the log can still hold a colour code |
| Monitor.LabelsDistinct | system_monitor.py:112-126 | the four status labels are pairwise different |
| Monitor.Classify | system_monitor.py:112-126 | OK iff neither reading is high, CPU HIGH iff only CPU, MEM HIGH iff only memory, CRITICAL iff both; thresholds are inclusive |
| Monitor.CpuMessage | system_monitor.py:115 | the CPU warning text holds no escape character |
| Monitor.MemoryMessage | system_monitor.py:120 | the memory warning text holds no escape character |
| Monitor.CriticalMessage | system_monitor.py:125 | the critical alert text holds no escape character |
| Monitor.TickAlerts | system_monitor.py:112-126 | a tick raises no alert exactly when its status is OK |
| Monitor.TickIncrease | system_monitor.py:113-126 | a tick adds one to the alert count per alert raised: 0, 1 or 3; 0 iff the status is OK and 3 iff CRITICAL |
| Monitor.TickEvents | system_monitor.py:111-129 | definition of one tick's trace: its alerts in order, then its row stamped i times the interval; Monitor.RunTick follows it |
| Monitor.Ticks | system_monitor.py:106-129 | definition of the trace of the first k ticks; Monitor.TicksGrow and Monitor.OneRowPerTick state its shape |
| Monitor.AlertCount | system_monitor.py:104-126 | definition of alert_count after k ticks; Monitor.AlertCountIsAlertsRaised states that it counts the alert calls |
| Monitor.TickCount | system_monitor.py:106 | a negative duration runs no tick, any other runs `duration` ticks |
| Monitor.SummaryMessage | system_monitor.py:133-137 | the summary text holds no escape character; Monitor.NoAlertsTextIffZero states when it reads "No" |
| Monitor.Schedule | system_monitor.py:106-137 | definition of the full trace of an uninterrupted run: every tick, then the summary; Monitor.MonitorSystem follows it |
| Monitor.RunTick | system_monitor.py:111-129 | one loop pass follows the tick's schedule (alerts, then the row); if an alert raises, the pass ends right after that alert; otherwise it adds the tick's increase to the count |
| Monitor.MonitorSystem | system_monitor.py:90-137 | the run's trace is a prefix of the full schedule and no alert before its last event raises; a completed run is the whole schedule with alert_count equal to the alerts of all ticks, and completes only with a non-negative interval or no ticks; a run cut by an alert ends with the alert that raised; with a negative interval, however the run ends, it never goes past the first tick: a run stopped by the sleep raising holds exactly the first tick's alerts and row, with those alerts counted and no summary |
| Monitor.TicksStep | system_monitor.py:106-129 | the trace of one more tick extends the trace so far |
| Monitor.TicksGrow | system_monitor.py:106-129 | the trace of fewer ticks is a prefix of the trace of more |
| Monitor.CutIsPrefix | system_monitor.py:106-137 | a run cut inside a tick has followed the full schedule so far and has not gone past that tick |
| Monitor.QuietJoin | system_monitor.py:106-137 | two traces whose alerts do not raise join into one whose alerts do not raise |
| Monitor.QuietThenRaise | system_monitor.py:106-137 | a quiet trace followed by one that raises only at its end raises only at the end of the join |
| Monitor.SummaryNeverRaises | system_monitor.py:133-137 | the summary alert never raises |
| Monitor.AlertedCountAppend | system_monitor.py:104-126 | alert calls in joined traces add up |
| Monitor.RowsOfAppend | system_monitor.py:129 | the rows of joined traces are the rows of each, in order |
| Monitor.AllAlerted | system_monitor.py:112-126 | a trace of alert calls only has no rows and counts each alert |
| Monitor.TickAlertsAreAlerts | system_monitor.py:112-126 | a tick's alerts are all WARNING or CRITICAL calls and print no row |
| Monitor.AlertCountIsAlertsRaised | system_monitor.py:104-126 | alert_count after k ticks equals the number of alert calls those ticks made |
| Monitor.TickAddsOneRow | system_monitor.py:112-129 | a tick of alerts and one row adds exactly that row to the rows so far |
| Monitor.ExtendRowsOfTicks | system_monitor.py:129 | the rows of k-1 ticks plus tick k's row are the rows of k ticks |
| Monitor.OneRowPerTick | system_monitor.py:106-129 | k ticks print exactly k rows, in tick order, row j stamped j times the interval and showing tick j's readings and status |
| Monitor.TicksHaveNoInfo | system_monitor.py:112-126 | every alert a tick raises is a WARNING or CRITICAL |
| Monitor.SummaryOnceAtEnd | system_monitor.py:133-137 | a full run has exactly one INFO alert, its last event, and it carries the "No alerts" text iff it is the run's only alert |
| Monitor.NoAlertsTextIffZero | system_monitor.py:134-137 | the summary carries the "No" text iff the count is zero |
| Monitor.QuietTick | system_monitor.py:112-129 | a tick below both thresholds raises nothing, adds nothing to the count and prints an OK row |
| MonitorLog.TicksPlain | system_monitor.py:106-126 | every alert of the ticks has a known colour and a plain message |
| MonitorLog.TickEventsPlain | system_monitor.py:112-129 | every alert of one tick has a known colour and a plain message |
| MonitorLog.ScheduleLoggedPlain | system_monitor.py:154-156 | every alert of a full run is logged as its plain "[TYPE] timestamp: message" text |
| ShopModels.DeleteUserKeepsTablesValid | app1/models.py:13-18 | deleting a user with its cascades keeps every key resolving, one profile per user and one row per user and coffee |
| ShopModels.DeleteCoffeeKeepsTablesValid | app1/models.py:14 | deleting a coffee with its cart rows keeps the tables consistent |
| ShopModels.InsertUserKeepsTablesValid | app1/models.py:24-27 | a new user with a new default profile keeps the tables consistent |
| ShopModels.AddressChangeKeepsTablesValid | app1/models.py:17-22 | changing a profile's address keeps the tables consistent |
| ShopModels.InsertUserKeepsUsernamesUnique | app1/views.py:108-113 | a user stored under a new id with an unused username keeps usernames unique |
| ShopModels.Database.constructor | app1/models.py:6-22 | an empty database is consistent and stocked |
| ShopModels.Database.CreateUserProfile | app1/models.py:24-27 | a newly created user gets one new profile with the default address; a re-saved user gets none; nothing else changes |
| ShopModels.Database.CreateUser | app1/models.py:24-27 | inserting a user succeeds iff its username is not in use; then it is added under a fresh id with a fresh default profile, the next user and profile ids advance by one and the next cart id is kept; otherwise nothing changes; usernames stay unique and the tables consistent |
| ShopModels.Database.SaveUser | app1/models.py:24-27 | re-saving an existing user creates no profile and changes nothing |
| ShopModels.Database.ProfileOf | app1/models.py:18 | every user has exactly one profile, and this is it |
| ShopModels.Database.DeleteCoffee | app1/models.py:14 | deleting a coffee deletes exactly the cart rows holding it; users, profiles and the next ids are unchanged |
| ShopModels.Database.DeleteUser | app1/models.py:13-18 | deleting a user deletes exactly its cart rows and its profile; coffees and the next ids are unchanged |
| ShopModels.Database.GetOrCreateCart | app1/models.py:12-15 | the user's row for the coffee; created iff there was none, and then with the default quantity 1 under a fresh id |
| ShopModels.Database.SaveCartQuantity | app1/views.py:31-35 | only the row's quantity changes |
| ShopModels.Database.SaveStock | app1/views.py:38-39 | only the coffee's stock changes |
| ShopModels.Database.DeleteCart | app1/views.py:83 | only that row disappears; nothing cascades |
| ShopModels.Database.SaveAddress | app1/views.py:116-118 | only that profile's address changes |
| CartSums.SumRowsTakeAny | app1/views.py:47-48 | a sum over rows does not depend on the order the rows come in |
| CartSums.SumRowsFrame | app1/views.py:47-48 | rows weighed the same in two tables give the same sum |
| CartSums.SumRowsNonNegative | app1/views.py:47-48 | non-negative weights give a non-negative sum |
| CartSums.SumRowsChangeAt | app1/views.py:47-48 | changing, adding or removing one row moves a sum by that row's difference only |
| CartSums.SumRows | app1/views.py:48 | definition of `sum(...)` over a set of rows; CartSums.SumRowsTakeAny, CartSums.SumRowsFrame and CartSums.SumRowsChangeAt state its properties |
| CartSums.LineValue | app1/views.py:48 | definition of a row's price times quantity, reached through the row's coffee |
| CartSums.CartTotal | app1/views.py:47-48 | definition of the total `view_cart` shows; CartSums.CartTotalNonNegative, CartSums.OwnerTotalMoves and CartSums.OtherTotalsStay state how it behaves |
| CartSums.UnitsInCarts | app1/models.py:12-15 | definition of the units of a coffee held in all carts; CartSums.CoffeeUnitsMove and CartSums.UnitsConservedAt state how it moves |
| CartSums.DeleteRowChangesOnlyIt | app1/views.py:83 | deleting a row changes the table only there and leaves it holding nothing |
| CartSums.SetRowChangesOnlyIt | app1/views.py:31-35 | saving a row changes the table only there |
| CartSums.RowsAgreeAway | app1/views.py:47 | away from the changed row, the rows per user and per coffee agree |
| CartSums.TotalChangeAt | app1/views.py:47-48 | a user's total moves only by what the changed row contributes |
| CartSums.UnitsChangeAt | app1/models.py:12-15 | a coffee's units in carts move only by what the changed row holds |
| CartSums.OwnerTotalMoves | app1/views.py:47-48 | changing one of the user's rows moves the total by the change in quantity times the price |
| CartSums.OtherTotalsStay | app1/views.py:47-48 | changing one user's row leaves every other user's total as it was |
| CartSums.CoffeeUnitsMove | app1/models.py:12-15 | the units of the row's coffee in carts move by the row's change in quantity |
| CartSums.OtherUnitsStay | app1/models.py:12-15 | the units of every other coffee in carts stay |
| CartSums.UnitsConservedAt | app1/views.py:31-39 | moving units between a row and its coffee's stock neither makes nor loses a unit of any coffee |
| CartSums.FindRow | app1/views.py:24 | get_or_create finds a row iff the user holds the coffee in one, and the row found is such a row |
| CartSums.FoundRowIsOnlyRow | app1/views.py:24 | with one row per user and coffee, the row found is that row and its quantity is the holding |
| CartSums.SetRowKeepsOneRowPerCoffee | app1/views.py:24-35 | saving a row whose user and coffee no other row holds keeps one row per user and coffee |
| CartSums.CartTotalNonNegative | app1/views.py:47-48 | with non-negative prices and quantities the total is never negative |
| CartSums.DeleteUserKeepsOtherCarts | app1/models.py:13 | after deleting a user, none of its rows is left and every other user keeps the same rows and the same total |
| CartSums.DeleteCoffeeKeepsOtherUnits | app1/models.py:14 | after deleting a coffee, no unit of it is in any cart and every other coffee has as many units in carts as before |
| ShopViews.AddSucceedsWhen | app1/views.py:20-28 | for a coffee in stock, a user with a row succeeds iff the stock covers the row plus one; a user without one needs two units in stock |
| ShopViews.AddToCartResponse | app1/views.py:14-28 | definition of the reply of `add_to_cart` by its checks in order; ShopViews.AddSucceedsWhen states when it is a success |
| ShopViews.Restocked | app1/views.py:38-39 | only the one coffee's stock moves, by the given amount; its name and price and every other coffee stay |
| ShopViews.GetOrCreateRowQuantity | app1/views.py:24-28 | the row get_or_create hands back belongs to the user and holds the coffee, its quantity is the one the stock check uses, and it is the user's only row for that coffee |
| ShopViews.AddOneUnit | app1/views.py:31-39 | one more unit in the user's row and one less in stock conserve units, raise the user's total by the price and keep every other total |
| ShopViews.AddKeepsStocked | app1/views.py:27-39 | a successful add leaves no stock negative and no row empty |
| ShopViews.RefusedAddKeepsNewRow | app1/views.py:24-28 | a refusal after get_or_create made the row leaves it in the cart with quantity 1 and the stock unchanged, so the carts hold one unit more |
| ShopViews.SaveOneMore | app1/views.py:31-39 | the saves of a successful add: the row gets one more unit and the stock one less; the next ids are unchanged |
| ShopViews.PutOneInCart | app1/views.py:24-41 | after get_or_create: not enough stock iff the row's quantity plus one exceeds the stock, leaving stock as is and any new row behind; otherwise the add succeeds; the next cart id advances by one exactly when get_or_create made a row, and the next user and profile ids stay |
| ShopViews.AddToCart | app1/views.py:13-41 | login redirect, not found, out of stock, not enough stock and success, in that order; nothing changes in the first three, the next cart id included; in the last two the next cart id advances by one exactly when the user had no row for the coffee; the next user and profile ids stay |
| ShopViews.MoveUnits | app1/views.py:60-65 | moving units between a row and its coffee's stock conserves units, moves the owner's total by units times price and keeps every other total |
| ShopViews.ReturnRow | app1/views.py:81-83 | deleting a row and returning its units conserves units, lowers the owner's total by the row's value and keeps every other total |
| ShopViews.IncrementKeepsStocked | app1/views.py:56-65 | an increment the stock allows leaves no stock negative and no row empty |
| ShopViews.DecrementKeepsStocked | app1/views.py:74-83 | both branches of a decrement leave no stock negative and no row empty |
| ShopViews.IncrementQuantity | app1/views.py:51-67 | not found unless the requester owns the row; not enough stock iff the row's quantity plus one exceeds the stock, changing nothing; otherwise one unit moves from stock to the row; the next ids are unchanged |
| ShopViews.DecrementQuantity | app1/views.py:69-85 | not found unless the requester owns the row; a row above 1 gives one unit back; a row of 1 or less is deleted and its units go back to stock; the next ids are unchanged |
| ShopViews.TakeOneBack | app1/views.py:74-78 | one unit moves from the row back to stock; the next ids are unchanged |
| ShopViews.ReturnAll | app1/views.py:79-83 | the row is deleted and all it held goes back to stock; the next ids are unchanged |
| ShopViews.IncrementResponse | app1/views.py:52-57 | definition of the reply of `increment_quantity`; ShopViews.IncrementQuantity states the state that goes with it |
| ShopViews.DecrementResponse | app1/views.py:70-85 | definition of the reply of `decrement_quantity`; ShopViews.DecrementQuantity states the state that goes with it |
| ShopViews.ViewCart | app1/views.py:43-49 | anonymous requests go to login; otherwise the page's total is the sum of price times quantity over the requester's rows |
| ShopViews.Rejection | app1/views.py:107-111 | passwords differ first, then username taken, then email taken; accepted iff none holds |
| ShopViews.StoredUserKeepsEmailsUnique | app1/views.py:110-113 | storing a user under a new id keeps email addresses unique exactly when its stored email is not in use yet |
| ShopViews.CreateAccount | app1/views.py:113-118 | the account is created iff the stored (normalised) username is free; then the stored user and its single profile, holding the form's address, are added; otherwise nothing is written; the next user and profile ids advance by one exactly when the account is created; coffees, carts and the next cart id stay |
| ShopViews.Register | app1/views.py:99-123 | a GET shows the empty form; a rejected form shows its first error and changes nothing; an accepted form whose normalised username is taken ends in a server error and changes nothing; otherwise it redirects to login with the stored user and its profile added, and emails stay unique iff the stored email was not in use; the next user and profile ids advance by one exactly on the login redirect, and the next cart id stays |

## Left out

- The sampler (`psutil`), the waiting done by `time.sleep`, the clock and the host name are not modelled. Readings, timestamps and the host name come in as parameters.
- The SMTP exchange in `send_email_alert` is not modelled. An attempt is recorded as an effect, and the sender catches its failures, so they never reach the caller.
- `winsound` beeps are left out: they are platform-dependent sound output with no effect on state.
- Opening the log file and swapping `sys.stdout` are left out. `flush`, the `main` block and argument defaults are also left out.
- The header lines, the column layout of each row, the memory-in-GB column and float formatting beyond one decimal are left out. A row keeps its time, its readings and its status.
- Readings are whole numbers of tenths of a percent. Readings finer than a tenth are not modelled.
- Print's trailing newline is not part of the modelled lines.
- Monitor.MonitorSystem: a missing email key makes `alert` raise, and the model ends the run there. It does not model what the caller does with the exception.
- Monitor.MonitorSystem: a negative interval makes `time.sleep` raise `ValueError` after the first tick's row; the model ends the run there (`SleepRejected`) and does not model the exception's propagation.
- Monitor.MonitorSystem: intervals are whole seconds. A fractional interval such as 0.5, which the source accepts, is not modelled.
- The Django machinery is left out: template rendering, `messages`, and the text of the `HttpResponse` replies, which become `Response` constructors.
- The views `home`, `user_login`, `user_logout` and `user_profile` are left out, and so are `urls.py` and `admin.py`. They only render pages, delegate to the framework's authentication, or configure routing.
- ShopViews.IncrementQuantity and ShopViews.DecrementQuantity take a logged-in user id. With an anonymous user, the lookup fails inside framework code, which is not modelled.
- The requests are assumed to carry the POST fields. A request missing one raises inside the framework, which is not modelled.
- Password hashing and `create_user`'s own validation are not modelled. The password is stored as given.
- ShopViews.CreateAccount: `create_user` normalises the username to a Unicode normal form and lower-cases the email's domain part. The framework's user manager is not part of this model, so the two normalisations are parameters (`Normalisers`), with no property assumed of them.
- ShopViews.Register: the existence checks compare the form's own username and email. A username whose normal form is taken gets past the check, and the insert then fails on the unique column; the model answers `ServerError` and writes nothing. An email whose normalised form is in use is stored, so emails stay unique only as the contract states.
- ShopModels.Database.CreateUser: the unique constraint on the username column belongs to the framework's User model, which is not part of this model. A refused insert stands for the database's integrity error; the error's propagation through the framework is not modelled.
- The database's text comparisons are exact equality of strings. Collations that fold case or accents are not modelled.
- Concurrent requests, transactions and races between two views on the same row or stock are not modelled. Each view runs alone.
- Prices are whole cents, not floating point.
- `Coffee.name` is carried but not used. The image field is not modelled.
- `get_or_create` raising `MultipleObjectsReturned` is not modelled. The database keeps one row per user and coffee as an invariant, and only `get_or_create` makes rows.
