# highlight-auto-task in Dafny

A model of the core of highlight-auto-task. The app is a to-do list that runs inside the
Highlight desktop host. It watches the focused window. When a chat or mail app is in front, it
asks a small on-device language model whether the user has been given a task. A positive answer
is confirmed with a large model, and accepted tasks are added to the list automatically. Each
task can carry reminders, which a provider checks once a minute and turns into notifications.

The model covers four source files:

- `js_strings.dfy` (module `JsStrings`): the JavaScript string operations the code relies on.
  This is the `\s` / `trim` whitespace set, `includes` and `indexOf` (leftmost match), `replace`
  with a string pattern (first occurrence only), and `trim`.
- `detection.dfy` (module `Detection`): the pure half of `onPeriodicForegroundAppCheck` in
  `components/todo.tsx`. It covers:
  - the allow-list of apps and URLs, and the 30-second throttle;
  - `isDuplicateTask` on the search result;
  - the small model's verdict;
  - the large model's verdict through the regular expression `Task assigned\s*:\s*`, matched
    leftmost and greedily;
  - the `for await` loop that drains the reply stream;
  - the plan of rows a tick inserts.
- `todo.dfy` (module `Todo`): the task table as class `TodoApp`. Its methods are `addTask`,
  `addTodo`, the `onContext` listener, `updateTodo`, `toggleTodo` and `deleteTodo`, plus the
  periodic handler, which applies the plan. The pending and completed views are functions on
  the table.
- `reminders.dfy` (module `Reminders`): `components/providers/RemindersProvider.tsx` as class
  `RemindersProvider`. The collection operations are pure functions on sequences. The check loop
  `CheckDue` is proved against the specification function `Checked`.
- `reminder_modal.dfy` (module `ReminderModal`): `handleSubmit` of
  `components/ui/reminder-modal.tsx`. It reads "HH:MM" with `split(':')` and `Number`, applies
  `setHours` and the type's lead time, and uses the JavaScript `Date` range.
- `reminders_view.dfy` (module `RemindersView`): `components/reminders-view.tsx`. It covers the
  minutes-left map and its loop, `isOverdue`, the snooze button rule, `handleSnooze`,
  `getReminderTypeText` and the rows of the card.

Conventions:

- Times are integer milliseconds since the epoch. Calendar arithmetic is in UTC.
- The host's vector database is the map `TodoApp.items`. Its fresh ids are the counter `nextId`.
- Notifications shown to the user are appended to a log.
- Model outputs, search results and the current time are parameters.
- A storage write that throws is the `writeOk = false` case. The provider then catches the
  error and changes nothing.

`components/todo.tsx:285` passes the large model's reply, minus the leftmost match of the
pattern, to `addTask` untrimmed (see `Detection.LlmVerdictIff` and `Detection.LlmCanonicalReply`).

## Model

| member | source | states |
|---|---|---|
| JsStrings.IndexOf | components/todo.tsx:253 | the result is the leftmost occurrence at or after the start, and `None` means there is none |
| JsStrings.ContainsIff | components/todo.tsx:283 | `includes` holds iff the pattern occurs at some position |
| JsStrings.ReplacePrefix | components/todo.tsx:268 | replacing a leading pattern with "" leaves exactly the rest of the string |
| JsStrings.TrimEmptyIff | components/todo.tsx:312 | `trim()` is empty iff every character is whitespace |
| Detection.AnyMatchesIff | components/todo.tsx:251-254 | `some` over the list holds iff some entry equals the app name or occurs in the URL |
| Detection.SupportedIff | components/todo.tsx:249-254 | a window is supported iff its name is on the list or its URL, when defined, contains an entry |
| Detection.ThrottleSpacing | components/todo.tsx:255-257 | after a processed tick at t, a later tick is processed only at t + 30000 or later |
| Detection.SlackTicks | components/todo.tsx:249-257 | Slack ticks at t, t+10 s and t+31 s are processed, throttled and processed |
| Detection.DuplicateThresholdStrict | components/todo.tsx:227-240 | an empty result is no duplicate; a duplicate means the absolute similarity is above 0.90, so exactly 0.90 is not one; a NaN score is never a duplicate and an infinite one always is |
| Detection.SlmVerdictIsSuffix | components/todo.tsx:266-268 | the small model's verdict exists iff the output starts with "Task assigned : ", and then it is the text after that prefix |
| Detection.SlmRoundTrip | components/todo.tsx:266-268 | reading "Task assigned : " + t gives back t |
| Detection.SkipWhitespace | components/todo.tsx:283-285 | `\s*` consumes the longest run of whitespace from the position |
| Detection.SkipCrosses | components/todo.tsx:283-285 | `\s*` consumes at least any whitespace stretch that starts at the position |
| Detection.SkipStops | components/todo.tsx:283-285 | `\s*` stops at or before the first non-whitespace character |
| Detection.MatchAtIff | components/todo.tsx:283-285 | the pattern matches at i iff "Task assigned" occurs at i followed by whitespace and ':'; the match ends after the trailing whitespace |
| Detection.FirstMatch | components/todo.tsx:283-285 | the match found is the leftmost one, and `None` means no position matches |
| Detection.LlmVerdictIff | components/todo.tsx:282-285 | the reply is accepted iff it lacks "Task not assigned" and the pattern matches; the task is the reply minus the leftmost match |
| Detection.CanonicalMatch | components/todo.tsx:283 | in the reply "Task assigned : " + t the pattern matches at the start and ends where t's leading whitespace ends |
| Detection.LlmCanonicalReply | components/todo.tsx:283-285 | the reply "Task assigned : " + t without the sentinel yields t without its leading whitespace |
| Detection.JoinAppend | components/todo.tsx:276-280 | draining a stream in two parts and joining the results equals draining it whole |
| Detection.Concatenate | components/todo.tsx:276-280 | the loop's result is the concatenation of all parts in order |
| Detection.LlmShortCircuit | components/todo.tsx:266-275 | the large model runs iff the small model's output has the prefix and its text is no duplicate; otherwise nothing is inserted |
| Detection.AutoTaskIff | components/todo.tsx:283-288 | an automatic task with text t is inserted iff the large model ran, its verdict is t, and the second search finds no duplicate |
| Detection.FalsePositiveAlways | components/todo.tsx:290 | once the large model has run, the last insert is always the `false_positive` row holding the small model's text, preceded only by automatic tasks |
| Detection.CanonicalTick | components/todo.tsx:266-290 | well-formed replies with empty searches insert the large model's task and then the `false_positive` row |
| Todo.AddTaskRules | components/todo.tsx:173-187 | status is `pending` unless one is given; the method and source are kept; a notification fires iff the method is `automatically` and the status is not `false_positive` |
| Todo.ToggleRules | components/todo.tsx:334-336 | `completed` becomes `pending`; every other status, and a missing task, becomes `completed`; pending and completed flip back and forth |
| Todo.ViewsPartition | components/todo.tsx:116-117 | no task is in both lists; a task is in neither iff its status is `deleted` or `false_positive` |
| Todo.UpdateKeepsProvenance | components/todo.tsx:319-330 | an edit changes only the text and time stamp of that row; status, method and source stay; other rows are untouched |
| Todo.ToggleKeepsProvenance | components/todo.tsx:334-341 | a toggle keeps the text, method and source, sets the status the toggle rule gives, stamps the row with the current time, and touches no other row |
| Todo.DeleteSoftOrHard | components/todo.tsx:358-368 | deleting an automatic row keeps it with status `deleted`, out of both lists; deleting any other row removes it; other rows are untouched |
| Todo.ApplyOne | components/todo.tsx:286-290 | one planned insert takes the next fresh id and notifies only if it is an automatic task |
| Todo.ApplyTwo | components/todo.tsx:286-290 | two planned inserts take two consecutive fresh ids, in order |
| Todo.AcceptedTickRows | components/todo.tsx:283-290 | an accepted tick adds a pending automatic row and a `false_positive` row, and notifies once, with the task text |
| Todo.TodoApp.constructor | components/todo.tsx:104-118 | the table, log, draft and throttle time start empty |
| Todo.TodoApp.AddTask | components/todo.tsx:173-189 | inserts one row under a fresh id, with the fields `addTask` stores, and logs the notification exactly when the rule allows |
| Todo.TodoApp.AddTodo | components/todo.tsx:311-317 | a blank draft changes nothing; otherwise the draft is added as a manual pending task and then cleared |
| Todo.TodoApp.OnContext | components/todo.tsx:191-196 | a non-empty suggestion is added as a semi-automatic task with the screen text as source; otherwise nothing changes |
| Todo.TodoApp.UpdateTodo | components/todo.tsx:319-332 | the table becomes its edited form |
| Todo.TodoApp.ToggleTodo | components/todo.tsx:334-342 | the table becomes its toggled form |
| Todo.TodoApp.DeleteTodo | components/todo.tsx:358-370 | the table becomes its soft- or hard-deleted form |
| Todo.TodoApp.OnPeriodicForegroundAppCheck | components/todo.tsx:243-292 | a tick is processed iff the device is capable, the window is supported and 30 s have passed; only then does the throttle time move, and the planned rows and notifications are added |
| Todo.TodoApp.ProcessTick | components/todo.tsx:259-291 | the table gains exactly the rows of the tick's plan under fresh ids, and the log gains their notifications |
| Todo.TodoApp.InsertVerdict | components/todo.tsx:283-290 | the table gains the accepted new task, if any, and then the `false_positive` row under fresh ids, and the log gains a notification for the task only |
| Reminders.MergeLaws | components/providers/RemindersProvider.tsx:165-169 | an empty patch changes nothing; merging a patch twice is merging it once; an explicit `undefined` clears the field |
| Reminders.FindById | components/providers/RemindersProvider.tsx:183-184 | the result is the first reminder with the id, and `None` means no reminder has it |
| Reminders.FindUnique | components/providers/RemindersProvider.tsx:183 | with unique ids, looking up an entry's id finds that entry |
| Reminders.RemovedAppend | components/providers/RemindersProvider.tsx:155-158 | filtering commutes with concatenation, so the kept entries keep their order |
| Reminders.RemovedCounts | components/providers/RemindersProvider.tsx:155-158 | removal drops every entry with the id and keeps every other entry as often as it occurred |
| Reminders.RemovedAbsent | components/providers/RemindersProvider.tsx:155-158 | removing an id no entry carries changes nothing |
| Reminders.AddThenRemove | components/providers/RemindersProvider.tsx:137-158 | adding a reminder with a fresh id and then removing that id restores the collection |
| Reminders.UpdateThenRemove | components/providers/RemindersProvider.tsx:165-169 | updating entries with a patch that keeps the id, then removing them, equals removing them |
| Reminders.UpdatedKeepsIds | components/providers/RemindersProvider.tsx:165-169 | a patch without an id keeps every entry's id and the length, so unique ids stay unique |
| Reminders.SnoozeEffect | components/providers/RemindersProvider.tsx:182-195 | with unique ids, snoozing sets status `snoozed`, the snooze instant, time + 15 min and no last notification on that entry only |
| Reminders.SnoozeUnknown | components/providers/RemindersProvider.tsx:183-184 | snoozing an unknown id changes nothing |
| Reminders.SnoozeTwice | components/providers/RemindersProvider.tsx:186-188 | two snoozes move the due time by 30 minutes |
| Reminders.FindIndex | components/providers/RemindersProvider.tsx:98 | the result is the first index with the id, or -1 when there is none |
| Reminders.CheckStepQuiet | components/providers/RemindersProvider.tsx:78-90 | an entry that does not fire leaves the copy as it was |
| Reminders.CheckStepFires | components/providers/RemindersProvider.tsx:97-105 | an entry that fires stamps the first entry with its id, which `findIndex` finds |
| Reminders.CheckDue | components/providers/RemindersProvider.tsx:75-111 | the loop yields the checked collection, one notification per firing reminder in order, and `hasUpdates` iff some reminder fires |
| Reminders.CheckedOnlyStamps | components/providers/RemindersProvider.tsx:97-105 | a check keeps length and order and changes only `lastNotified`, and only to now |
| Reminders.CheckedUnique | components/providers/RemindersProvider.tsx:78-106 | with unique ids, exactly the firing reminders are stamped |
| Reminders.NoRefire | components/providers/RemindersProvider.tsx:89-104 | with unique ids, nothing fires right after a check, and a fired reminder does not fire again while its due time stays |
| Reminders.CheckIdle | components/providers/RemindersProvider.tsx:109-111 | when nothing fires, the collection stays as it was |
| Reminders.SnoozeHolds | components/providers/RemindersProvider.tsx:82-87 | a snoozed reminder cannot fire without a snooze instant or before it, and is eligible from that instant on |
| Reminders.DuplicateIdRefires | components/providers/RemindersProvider.tsx:89-105 | when an earlier entry shares its id, a firing entry is left unstamped by the check and fires again at every later check |
| Reminders.TaskText | components/providers/RemindersProvider.tsx:133-135 | the text is never empty; an unknown id or an empty text reads "Unknown task" |
| Reminders.RemindersProvider.constructor | components/providers/RemindersProvider.tsx:29-33 | starts empty and not initialised, at check time 0 |
| Reminders.RemindersProvider.LoadReminders | components/providers/RemindersProvider.tsx:36-52 | a stored array is loaded; anything else, or a failed read, loads []; either way the provider is initialised |
| Reminders.RemindersProvider.SaveReminders | components/providers/RemindersProvider.tsx:55-66 | nothing is written before initialisation; afterwards the collection is written |
| Reminders.RemindersProvider.LoadTasks | components/providers/RemindersProvider.tsx:120-127 | the text map becomes the task table's |
| Reminders.RemindersProvider.AddReminder | components/providers/RemindersProvider.tsx:137-153 | one pending reminder is appended and written, and existing entries keep their order; the task texts become the reloaded table, or stay when that reload throws; a failed write changes nothing |
| Reminders.RemindersProvider.RemoveReminder | components/providers/RemindersProvider.tsx:155-163 | the collection becomes its filtered form and is written; a failed write changes nothing |
| Reminders.RemindersProvider.UpdateReminder | components/providers/RemindersProvider.tsx:165-176 | the patch is merged into matching entries only and the collection is written; a failed write changes nothing |
| Reminders.RemindersProvider.DismissReminder | components/providers/RemindersProvider.tsx:178-180 | dismissing is removing |
| Reminders.RemindersProvider.SnoozeReminder | components/providers/RemindersProvider.tsx:182-196 | an unknown id changes nothing, not even storage; otherwise the snooze update is applied and written |
| Reminders.RemindersProvider.CheckReminders | components/providers/RemindersProvider.tsx:70-113 | nothing happens unless 60000 ms have passed; then the check time becomes now, the collection is checked and the notifications are logged |
| ReminderModal.Split | components/ui/reminder-modal.tsx:44 | `split` always yields at least one piece |
| ReminderModal.SplitJoin | components/ui/reminder-modal.tsx:44 | rejoining the pieces with ':' gives the string back, and no piece holds ':' |
| ReminderModal.ClockRoundTrip | components/ui/reminder-modal.tsx:44 | every "HH:MM" of the time input reads back as that hour and minute |
| ReminderModal.ClockSplit | components/ui/reminder-modal.tsx:44 | "HH:MM" splits on ':' into exactly its two two-digit halves |
| ReminderModal.NoColonNoClock | components/ui/reminder-modal.tsx:44-45 | a time string without ':' has no minute, so no time is read from it |
| ReminderModal.SetHoursSetsClock | components/ui/reminder-modal.tsx:45 | `setHours(h, m)` keeps the day, seconds and milliseconds and sets exactly that hour and minute |
| ReminderModal.HandleSubmit | components/ui/reminder-modal.tsx:39-62 | a request carries the task and the selected type, and its time is a valid date |
| ReminderModal.NoDateNoReminder | components/ui/reminder-modal.tsx:40 | with no selected date no reminder is requested |
| ReminderModal.SubmitTime | components/ui/reminder-modal.tsx:43-60 | the requested time is the chosen moment minus 3600000 for one hour before, 86400000 for one day before, and 0 for the due time or a custom time |
| ReminderModal.Defaults | components/ui/reminder-modal.tsx:22-23 | untouched, the modal asks for a reminder at 12:00 on the selected day, at the due time |
| ReminderModal.SubmittedReminderFires | components/ui/reminder-modal.tsx:60 | the reminder a submit creates fires at its requested time and not before |
| ReminderModal.Submit | components/ui/reminder-modal.tsx:39-62 | the modal closes iff a request is made; when the write succeeds, exactly one reminder is appended, storage holds the new collection and the task texts are reloaded; otherwise the collection, storage and task texts stay |
| RemindersView.MinutesPositiveIff | components/reminders-view.tsx:29-30 | the minute count is positive iff at least one whole minute is left; a snooze set now shows 15 |
| RemindersView.TimeLeft | components/reminders-view.tsx:25-34 | entries exist only for snoozed reminders with a snooze instant, every value is positive minutes left, and every such reminder with time left has an entry |
| RemindersView.ComputeTimeLeft | components/reminders-view.tsx:23-36 | the loop builds exactly the minutes-left map |
| RemindersView.TimeLeftUnique | components/reminders-view.tsx:27-33 | with unique ids, a reminder's entry is its own minutes left, and a reminder that does not count has none |
| RemindersView.OverdueIff | components/reminders-view.tsx:18-20 | a reminder is overdue iff its time is past and no entry with its id is on a running snooze |
| RemindersView.SnoozeDisabledIff | components/reminders-view.tsx:137 | the snooze button is disabled iff an entry with the id is snoozed at least a minute past now |
| RemindersView.SnoozeShowsFifteen | components/reminders-view.tsx:45-49 | recomputed at the snooze instant itself, the map shows 15 minutes, as the button already did |
| RemindersView.SnoozeShowsFourteenLater | components/reminders-view.tsx:22-43 | the recompute that follows the written snooze, d milliseconds later with 0 < d <= 60000, shows 14 minutes, not 15 |
| RemindersView.TypeTextLabels | components/reminders-view.tsx:52-60 | each known type shows its own distinct label, and any other string is shown unchanged |
| RemindersView.Card | components/reminders-view.tsx:62-75 | nothing is rendered for an empty list; otherwise there is one row per reminder, in order |
| RemindersView.RowCaption | components/reminders-view.tsx:99-103 | the caption is "Overdue" exactly when the reminder is overdue, and otherwise the type's label |
| RemindersView.View.constructor | components/reminders-view.tsx:14 | the minutes-left map starts empty |
| RemindersView.View.UpdateTimeLeft | components/reminders-view.tsx:23-36 | the map is replaced by the one computed from the collection |
| RemindersView.View.HandleSnooze | components/reminders-view.tsx:45-50 | asks for a snooze until now + 15 min and sets the entry to 15, which disables the button; storage holds the snoozed collection when the id is known and the write succeeds, and is untouched otherwise |

## Left out

- React rendering, hooks, effects, listener registration and removal, and `setInterval` /
  `setTimeout` scheduling. This includes the one-second fade-out before a toggle. Each handler
  is a method, called with the inputs its event supplies.
- Asynchronous interleaving. Each handler runs to completion. Races between the timer and user
  actions, and last-write-wins between `setReminders` calls, are not modelled.
- The host runtime: OCR, vector similarity, model inference, storage and notifications. Their
  results are parameters. Their effects are the table, the storage field and the notification
  log. The vector database is assumed to ignore updates and deletions of ids it does not hold.
- The prompt texts and grammar of components/prompts.ts and components/todo.tsx. These are
  constants without logic. The grammar is not assumed: any model output is accepted as input.
- Onboarding, the name provider, welcome and layout screens. These are storage and UI glue. The
  user name is a field of `TodoApp`.
- The uuid of a new reminder is a parameter. The caller supplies a fresh one.
- Dates:
  - ISO 8601 strings are times in milliseconds;
  - the local time zone and daylight saving are not modelled, and `setHours` works in UTC;
  - `date-fns` formatting is not modelled.
- `checkReminders` reads the clock again after each awaited notification. The model uses one
  `now` for the whole check.
- The snooze-left label text ("Snoozed (Nm left)") and the date caption are not modelled.
  Rendering numbers and dates as text is out of scope.
- ReminderModal.NumberOf: reads only an optional whitespace margin around decimal digits.
  JavaScript `Number` also accepts signs, fractions, exponents, hexadecimal and `Infinity`.
  The model reads those as NaN. The time input never produces them.
- Reminders.Reminder: `time`, `lastNotified` and `snoozeUntil` are numbers. An unparsable stored
  date string, which JavaScript would read as an invalid date, is not modelled.
- RemindersView.TimeLeft: the minutes are computed against one `now` for the whole loop.
- Todo.TodoApp.OnPeriodicForegroundAppCheck: every host call of the tick succeeds. In the
  source none of them (context, both inference calls, both searches, `insertItem`,
  `showNotification`) is wrapped in `try`. A throw aborts the tick after the throttle time has
  moved. It can also abort after the automatic task is inserted and before the `false_positive`
  row. The model has no such partial tick.
- Todo.PendingView: the pending and completed lists keep the order in which the host returns the
  rows. The views are maps keyed by id and do not record that order.
- Reminders.NoRefire: the provider holds whatever array storage gives it, and no operation keeps
  reminder ids unique. With a repeated id, the source stamps only the first entry, and a later
  firing entry fires at every check (`Reminders.DuplicateIdRefires`). `NoRefire`,
  `CheckedUnique`, `SnoozeEffect` and `TimeLeftUnique` hold under unique ids only.
