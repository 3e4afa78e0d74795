# donetick-tui controller, modelled in Dafny

donetick-tui is a terminal client for the Donetick chore service. It shows the task list, lets
the user move a selection over it, complete the selected task, refresh the list, and add a task
through a two-field form (name, optional due date `YYYY-MM-DD`). Service errors appear in a
modal error dialog.

This project models the controller at the core of the client:

- `AppState` is the application state: the view, the task list, the selection, the form, the
  loading flag and the error message. `AppValue` is the state as a value, and each state change
  is a function on it. `App` is the object the main loop owns and updates in place; each of its
  methods is proved to produce exactly the corresponding `AppValue` change.
- `Form` covers the add-task form. `FormValue` is the specification and `FormState` is the
  mutable buffer. The due-date check works through `Text`, which models `split('-')` and the
  standard `i32`/`u32` parsers: optional `+`, leading zeros allowed, overflow rejected.
- `Events` covers the key handling per view, the event channel (`EventQueue`), and the units of
  work the controller launches. Launching work is represented by the `Command` it would run. A
  unit of work posts exactly one completion event.
- `MainLoop` applies each event to the state, and models the loop over the channel as a trace
  semantics, `RunEvents`. `RunLoop` is proved to compute that trace over the state object and
  the channel.
- `Config` holds the configuration checks.
- `Ui` describes what the renderer shows, as an abstract screen.
- `Utf8Cursor` models the form's editing as the string type actually does it, addressed by
  UTF-8 byte offset (see Findings).

The model is built around one state invariant, `AppValue.Valid`:

- a non-empty list has its selection inside it;
- the form cursor lies within the active field.

Every transition preserves it, and so does the loop.

## Model

| member | source | states |
|---|---|---|
| AppState.AppValue.NextTask | src/app.rs:46-50 | Moves the selection down, wrapping from the last task to the first. Only the selection changes, and an empty list is left alone. Preserves the invariant. |
| AppState.AppValue.PreviousTask | src/app.rs:52-60 | Moves the selection up, wrapping from the first task to the last. Only the selection changes, and an empty list is left alone. Preserves the invariant. |
| AppState.AppValue.SelectTask | src/app.rs:62-64 | Yields a task exactly when the selection is inside the list, and that task is the one at the selection. |
| AppState.AppValue.ShowAddForm | src/app.rs:66-69 | Switches to the add view with a fresh, empty form (name, date, cursor 0, name field active). Nothing else changes. |
| AppState.AppValue.ShowTaskList | src/app.rs:71-74 | Switches to the list view and sets loading. Nothing else changes. |
| AppState.AppValue.ShowError | src/app.rs:76-80 | Records the message, shows the error dialog and clears loading. Nothing else changes. |
| AppState.AppValue.ClearError | src/app.rs:82-85 | Removes the message and returns to the list view. Loading is untouched. |
| AppState.AppValue.Quit | src/app.rs:87-89 | Clears the running flag and nothing else. |
| AppState.InitialValid | src/app.rs:34-44 | The startup state `Initial` (running, list view, no tasks, selection 0, empty form, loading, no error) satisfies the invariant. |
| AppState.NextTimesSelection | src/app.rs:46-50 | k steps down from a valid selection land at `(selected + k) mod n`. |
| AppState.PreviousTimesSelection | src/app.rs:52-60 | k steps up from a valid selection land at `(selected - k) mod n`. |
| AppState.NextTimesFullCircle | src/app.rs:46-50 | n steps down on a list of n tasks return to the starting state. |
| AppState.PreviousTimesFullCircle | src/app.rs:52-60 | n steps up on a list of n tasks return to the starting state. |
| AppState.NavigationOnEmptyList | src/app.rs:47 | On an empty list, any number of steps either way changes nothing. |
| AppState.NavigationInverse | src/app.rs:46-60 | Up undoes down and down undoes up on a valid state. |
| AppState.App.constructor | src/app.rs:34-44 | The new state object equals the startup state and owns a fresh form. |
| AppState.App.NextTask | src/app.rs:46-50 | The object changes exactly as `AppValue.NextTask` says. |
| AppState.App.PreviousTask | src/app.rs:52-60 | The object changes exactly as `AppValue.PreviousTask` says. |
| AppState.App.ShowAddForm | src/app.rs:66-69 | The object changes exactly as `AppValue.ShowAddForm` says, with a newly allocated form. |
| AppState.App.ShowTaskList | src/app.rs:71-74 | The object changes exactly as `AppValue.ShowTaskList` says. |
| AppState.App.ShowError | src/app.rs:76-80 | The object changes exactly as `AppValue.ShowError` says. |
| AppState.App.ClearError | src/app.rs:82-85 | The object changes exactly as `AppValue.ClearError` says. |
| AppState.App.Quit | src/app.rs:87-89 | The object changes exactly as `AppValue.Quit` says. |
| Form.FormValue.InsertChar | src/app.rs:102-113 | The active text gets `c` at the cursor, keeping the text before and after it. The cursor moves one past it and the other field is untouched. |
| Form.FormValue.DeleteChar | src/app.rs:115-127 | At cursor 0 nothing changes. Otherwise the character before the cursor is removed, the cursor moves back one, and the other field is untouched. |
| Form.FormValue.NextField | src/app.rs:129-140 | The other field becomes active with the cursor at the end of its text. Both texts are kept. |
| Form.FormValue.IsValidDate | src/app.rs:160-182 | An empty due date passes. A non-empty one that passes contains exactly two dashes, so it splits into exactly three parts. |
| Form.FormValue.IsValid | src/app.rs:146-158 | The form is valid exactly when the name is non-empty and the due date passes the date check. An empty due date passes that check, so the date is optional. |
| Form.DeleteUndoesInsert | src/app.rs:102-127 | Backspace right after typing a character restores the form exactly. |
| Form.NextFieldTwice | src/app.rs:129-144 | Switching field twice (Tab then Shift+Tab, or Tab twice) returns to the same field with the cursor at its end. |
| Form.CyclingFromFreshForm | src/app.rs:129-140 | From a fresh form, Tab puts the cursor at the end of the due date, and Tab again puts it at the end of the name. |
| Form.EmptyNameInvalid | src/app.rs:146-150 | A form with an empty name is never valid. |
| Form.NameOnlyValid | src/app.rs:146-158 | A non-empty name with an empty due date is valid. |
| Form.NamedFormValidIffDate | src/app.rs:146-158 | With a name present, the form is valid exactly when the due date passes the date check. |
| Form.DateAccepted | src/app.rs:160-182 | Any `y-m-d` of digit strings is accepted when the year fits i32, the month is 1..12 and the day is 1..31. |
| Form.DateShape | src/app.rs:160-182 | An accepted non-empty date has exactly two dashes. Its three parts parse, with the month in 1..12 and the day in 1..31. |
| Form.DateIffPieces | src/app.rs:160-182 | For three dash-free pieces joined by two dashes, the date passes exactly when the year parses as i32, the month parses as u32 in 1..12 and the day as u32 in 1..31. |
| Form.DateYearOverflow | src/app.rs:170-176 | A three-part date whose year is a digit string above 2^31-1 is rejected. |
| Form.DateMonthOutOfRange | src/app.rs:178-181 | A three-part date whose month is a number over 12 is rejected. |
| Form.DateExampleAccepted | src/app.rs:160-182 | `2024-01-15` is accepted. |
| Form.DateExampleBadMonth | src/app.rs:181 | `2024-13-40` is rejected. |
| Form.DateExampleTwoParts | src/app.rs:165-168 | `2024-1` is rejected because it has two parts. |
| Form.DateExampleBadYear | src/app.rs:170-176 | `ab-01-15` is rejected because the year is not a number. |
| Form.DateExampleYearOverflow | src/app.rs:170-176 | `2147483648-01-15` is rejected because the year overflows i32. |
| Form.FormState.constructor | src/app.rs:92-100 | A new form equals `EmptyForm`: both texts empty, the name field active and the cursor at 0. |
| Form.FormState.InsertChar | src/app.rs:102-113 | The buffer changes exactly as `FormValue.InsertChar` says. |
| Form.FormState.DeleteChar | src/app.rs:115-127 | The buffer changes exactly as `FormValue.DeleteChar` says. |
| Form.FormState.NextField | src/app.rs:129-140 | The buffer changes exactly as `FormValue.NextField` says. |
| Form.FormState.PreviousField | src/app.rs:142-144 | Going to the previous field is the same change as going to the next one. |
| Text.Split | src/app.rs:165 | Splitting on a separator yields one more part than there are separators, and no part contains the separator. |
| Text.JoinSplit | src/app.rs:165 | Joining the parts of a split with the separator gives back the original text. |
| Text.SplitJoin | src/app.rs:165 | Splitting a join of separator-free parts gives back those parts. |
| Text.ParseU32 | src/app.rs:171-172 | Accepts exactly an optional `+` followed by one or more ASCII digits whose decimal value is at most 2^32-1, and yields that value. A lone `+`, a `-`, any other character and overflow are errors. |
| Text.ParseI32 | src/app.rs:170 | Accepts exactly an optional `+` or `-` followed by one or more ASCII digits whose signed decimal value lies in the i32 range, and yields that value (negated after `-`). A lone sign, any other character and overflow are errors. |
| Text.ParseI32Overflow | src/app.rs:170 | The decimal form of a number above 2^31-1 is rejected, with or without `+`; with `-`, a magnitude above 2^31 is rejected. |
| Text.ParseU32Decimal | src/app.rs:171-172 | Every in-range number's decimal form parses back to it, with or without a `+`. |
| Text.ParseU32LeadingZero | src/app.rs:171-172 | A leading zero does not change the parsed value, so `01` is read as 1. |
| Text.ParseU32Overflow | src/app.rs:171-172 | The decimal form of a number above 2^32-1 is rejected. |
| Text.ShowInt | src/ui.rs:75 | `to_string` of an integer: a leading `-` exactly for negatives, then decimal digits whose value is the magnitude, with no leading zero (0 is printed as `0`). |
| Text.StartsWith | src/config.rs:35 | `s` starts with `p` exactly when `s` is `p` followed by some text. |
| Text.ParseI32ShowInt | src/ui.rs:75 | Every i32 printed in decimal parses back to itself. |
| Events.TaskListTransition | src/event.rs:48-94 | `q` quits, `a` opens the form, Down/`j` and Up/`k` move, and `r` refreshes. Enter completes the selected task only if there is one. A command is launched exactly on `r` or on Enter with a selection, and then loading is set. The tasks and the error are untouched. |
| Events.FormTransition | src/event.rs:96-140 | Esc cancels and Tab (either direction) switches field. Backspace deletes and any character, `q` and `a` included, is typed in. Enter launches a create with the form's texts exactly when the form is valid, and otherwise shows the fixed invalid-form message. |
| Events.ErrorDialogTransition | src/event.rs:142-146 | A character, Enter or Esc dismisses the error. Any other key changes nothing, and no command is ever launched. |
| Events.KeyTransition | src/event.rs:35-46 | Routes a key to the current view's handler: the list view to `TaskListTransition`, the add view to `FormTransition`, the error view to `ErrorDialogTransition`. At most one command is launched, none from the error dialog, the invariant holds afterwards, and a stopped state stays stopped. |
| Events.FormTypesCommandLetters | src/event.rs:135-137 | In the form, `q` and `a` are typed text: they neither quit nor leave the form. |
| Events.CancelFormLaunchesNothing | src/event.rs:103 | Esc in the form returns to the list marked loading but launches no refresh. |
| Events.EventQueue.constructor | src/event.rs:21-24 | A new channel has nothing pending. |
| Events.EventQueue.Send | src/event.rs:26-28 | Sending appends the event at the back. |
| Events.EventQueue.Next | src/event.rs:30-32 | Takes the oldest pending event from the front, or nothing when none is pending. |
| Events.Completion | src/event.rs:61-70 | A unit of work posts an error exactly when the service failed. Otherwise it posts the list for a refresh, `TaskCompleted` for a completion and `TaskAdded` for a creation. It never posts a key. |
| Events.RunWorker | src/event.rs:80-89 | A unit of work appends exactly one event, its `Completion`, to the channel. |
| Events.HandleKeyEvent | src/event.rs:35-46 | The state object changes as `KeyTransition` says, and the launched commands are `KeyTransition`'s. |
| Events.HandleTaskListInput | src/event.rs:48-94 | The state object changes as `TaskListTransition` says, and the launched commands are its. |
| Events.HandleFormInput | src/event.rs:96-140 | The state object changes as `FormTransition` says, and the launched commands are its. |
| Events.HandleErrorDialogInput | src/event.rs:142-146 | The state object changes as `ErrorDialogTransition` says. |
| MainLoop.ApplyEvent | src/main.rs:84-127 | For a new list: the list is taken, loading clears, and a selection now outside a non-empty list resets to 0. Task added returns to the list and launches a refresh. Task completed launches a refresh and leaves the state alone. An error shows the dialog. Keys go to `KeyTransition`. The invariant is preserved. |
| MainLoop.RunEvents | src/main.rs:80-129 | The loop over an event sequence keeps the invariant. It consumes every event unless the state stops running, and launches at most one command per event. |
| MainLoop.RunConcat | src/main.rs:80-83 | Events are processed strictly in sequence: a run over `a + b` is the run over `a` followed by the run over `b` from where `a` left off. |
| MainLoop.RunIgnoresRest | src/main.rs:80 | Events after the point where the loop stopped are never looked at. |
| MainLoop.QuitStops | src/main.rs:80 | A `q` in the list view ends the loop after that one event, whatever follows. |
| MainLoop.Session | src/main.rs:84-127 | A concrete session: load three tasks, press Up to wrap to the last task, get an error, and dismiss it. |
| MainLoop.SessionAsOneRun | src/main.rs:80-129 | The same session as one run of the loop: four events consumed and no command launched. |
| MainLoop.HandleEvent | src/main.rs:84-127 | The state object changes as `ApplyEvent` says, and the launched commands are its. |
| MainLoop.RunLoop | src/main.rs:80-129 | Draining the channel changes the state object to `RunEvents`' final state. It launches `RunEvents`' commands and leaves exactly the unconsumed events pending. |
| MainLoop.RunApp | src/main.rs:58-73 | Startup launches the first list refresh, then runs the loop from the startup state. |
| Config.Validate | src/config.rs:28-39 | An empty address, then an empty token, then a scheme other than `http://`/`https://` is reported, in that order and with the fixed messages. Validation passes exactly when the token is non-empty and the address starts with one of the two schemes. |
| Config.BareSchemeAccepted | src/config.rs:35 | The scheme check is a prefix check only: `http://` alone passes. |
| Config.OtherSchemeRejected | src/config.rs:35-37 | An `ftp://` address is rejected with the scheme message. |
| Ui.StatusLabel | src/ui.rs:64-69 | Status 1 is shown as active, 2 as completed, 0 or missing as pending, and anything else as unknown, each in both directions. |
| Ui.DueDateText | src/ui.rs:73 | The due date is shown as received, or `-` when there is none. |
| Ui.PriorityText | src/ui.rs:75 | The priority is shown as its canonical decimal text (`ShowInt`), which parses back to it, or `-` when there is none. |
| Ui.RenderRow | src/ui.rs:57-77 | A row shows the task's name as given and carries the requested highlight. The status cell is `StatusLabel` of the status, the due-date cell is `DueDateText` of the date (as received, or `-`), and the priority cell is `PriorityText` of the priority (its decimal text, or `-`). |
| Ui.TaskRows | src/ui.rs:57-77 | One row per task, in list order. A row is highlighted exactly when its index is the selection. |
| Ui.OneHighlightedRow | src/ui.rs:57-62 | Exactly one row is highlighted when the selection is inside the list, and none otherwise. |
| Ui.TaskPanelFor | src/ui.rs:33-91 | Loading shows the loading message. Otherwise an empty list shows the empty-list message, and a non-empty list shows the header and exactly the rows of `TaskRows`: one per task, in order, with only the selected one highlighted. |
| Ui.FormFields | src/ui.rs:93-135 | The form shows the two texts, and exactly one box, the active field's, is highlighted. |
| Ui.DialogLines | src/ui.rs:156-165 | The popup shows "Error", then the message (or "Unknown error"), then the continue prompt. |
| Ui.HelpText | src/ui.rs:174-202 | The footer is the continue prompt exactly in the error view. |
| Ui.HelpTextsDistinct | src/ui.rs:174-202 | The three views have three different footers. |
| Ui.Draw | src/ui.rs:10-31 | The list view and the error view show the tasks title over the task panel, and the add view shows the form title over the form fields. The popup appears only in the error view and is exactly `DialogLines` of the error message; the footer depends only on the view. |
| Ui.StartupScreen | src/ui.rs:34-40 | The startup screen shows the loading message and no popup. |
| Ui.LoadedListHighlightsSelection | src/ui.rs:57-62 | A loaded, non-empty list on a valid state shows exactly one highlighted row, the selected one. |
| Ui.StaleSelectionHighlightsNothing | src/ui.rs:57-62 | The renderer on its own: a selection past the end of a non-empty list highlights no row. The controller's invariant keeps such a state from being drawn. |
| Utf8Cursor.CharIndexAt | src/app.rs:105 | Finds the character index whose prefix has the given UTF-8 byte length, or reports that the offset is not a character boundary. |
| Utf8Cursor.InsertCharAsWritten | src/app.rs:102-113 | Typing as written fails (panics) exactly when the cursor, used as a byte offset, is not a character boundary. Otherwise the character goes in at the character index whose prefix is `cursor` bytes long. The cursor grows by one and the other field is untouched. |
| Utf8Cursor.AsciiInsertAgrees | src/app.rs:102-113 | On ASCII text, the as-written editing and the character-addressed `Form` editing agree. |
| Utf8Cursor.TypingAfterAccentPanics | src/app.rs:105-106 | Typing `é` into an empty form and then any character panics. |
| Utf8Cursor.TypingAfterAccentIntended | src/app.rs:102-113 | In the character-addressed form, the same two keystrokes both go in. |

## Left out

- Drawing with ratatui: layout, colours, borders and widths. `Ui` keeps only the texts shown and the highlights.
- The `terminal.draw` call at the top of each loop turn is not sequenced into `RunLoop`, because drawing has no effect on the state. `Ui.Draw` is the pure function of the state that it shows. A failed draw ends `run_app` early with an error (src/main.rs:81); that early exit is not modelled.
- The HTTP client, its JSON encoding and the service's replies (`src/api/*`). A unit of work takes the service's reply as a parameter (`Reply`). The client's mapping of an empty due date to "no due date" is not part of this model.
- The text of client errors (`e.to_string()`) is carried as an opaque message.
- `Config::from_env`: reading the environment and the `.env` file. Only `validate` is modelled.
- Terminal setup and restore, and the panic hook (`src/main.rs:19-52`).
- Keyboard polling (`poll_events`, `src/event.rs:148-156`). Key presses arrive as `Input` events in the channel.
- Task scheduling of the asynchronous runtime. Completions may arrive in any order and interleave with key presses; each such interleaving is just another event sequence given to `RunEvents`.
- `RunLoop` and `Events.EventQueue.Next`: the program's channel never closes, because the handler keeps its own sender, so receiving waits for the next event. `Next` returning `None` stands for "no event yet", and the loop then ends. The model runs over the events available, and the waiting is not modelled.
- The clone of the sender (`EventHandler::sender`). Every unit of work posts into the one `EventQueue`.
- Key codes other than those listed in `Events.KeyCode` (function keys, arrows left/right and the rest) are merged into `Other`, which every handler ignores. Shift+Tab is handled as `Tab` with Shift held. A terminal that reports it as a separate back-tab code reaches the handlers' default branch, which does nothing; the `BackTab` code models that.
- `examples/test_api.rs`, a manual exercise of the client.
- `Form.FormValue.InsertChar` and `Form.FormValue.DeleteChar` require the cursor to lie within the active text. The controller keeps that as part of the invariant, which every transition is proved to preserve.
- `Form`: text is one element per character, and the cursor counts characters. The byte-offset behaviour of the code as written is modelled separately in `Utf8Cursor`, for insertion only. Removal at a byte offset inside a character is not modelled.
- `usize` overflow of the selection and cursor is not modelled. Both stay bounded by list and text lengths.

## Findings

| source | as written | input that shows it | evidently intended | confidence | as-written member | corrected member |
|---|---|---|---|---|---|---|
| src/app.rs:102-113 | The cursor advances by 1 per character typed, but `String::insert` takes a byte offset and panics off a character boundary. | From an empty form, type `é` (two bytes in UTF-8), then any character. The cursor is 1, inside `é`. | The cursor addresses characters, and every keystroke is inserted. | high, not executed | Utf8Cursor.TypingAfterAccentPanics | Utf8Cursor.TypingAfterAccentIntended |
