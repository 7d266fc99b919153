# TaskPulse session tracker and task store, in Dafny

TaskPulse is a desktop focus timer: the main window starts countdown
sessions (manual focus, pomodoro, break), ticks once a second to mark
expired sessions finished, asks the user what to do next when one finishes
(start a break after a pomodoro, start the next pomodoro after a break),
and keeps a counter of finished pomodoros that sets the break length.
A small JSON-backed store keeps tasks and user settings. This project
models both pieces and proves what they promise.

- `sessions.dfy` (module `Sessions`): the session dictionary of
  `MainWindow`. It is a class whose fields are the dictionary, its
  insertion order, the id counter, the pomodoro counter, the scheduler's
  jobs and the notifications sent. Its methods `StartFocusTimer`,
  `StartFocusWithInput`, `CancelTask` and `UpdateTaskTimers` are each
  proved equal to a specification function (`Start`, `StartWithInput`,
  `Cancel`, `Tick`) over the tracker's abstract state. They also keep the
  invariant `WellFormed`:
  - every session starts before it ends;
  - `finished` holds exactly when a finish time is recorded;
  - `popup_shown` implies `finished`;
  - the key order lists exactly the keys, in increasing order.

  The tick's `for` loop is the method `ExpireSessions`.
- `session_properties.dfy`: what one call of each operation promises.
- `session_runs.dfy`: properties of arbitrary sequences of starts, ticks
  and cancellations:
  - a finished session never changes again;
  - ids are never reused;
  - each session's completion policy runs at most once.
- `display.dfy`: the `mm:ss` countdown text and the slider's snap to
  0/30/60/90/120.
- `text.dfy`: Python's `str.strip` (with Python's whitespace set) and
  decimal and zero-padded number rendering.
- `data_manager.dfy` (module `Store`): `DataManager`. It is a class whose
  field is the state of the JSON file: missing, present but not valid
  JSON, or holding a record. Each public method loads, changes and saves that record.

The model has these abstractions:
- Time is whole seconds on an integer clock.
- Session ids are naturals from a counter. The source's ids are `focus_`
  followed by the first 8 hex digits of a `uuid4`, that is 32 random bits;
  the model assumes they never collide.
- Python's dictionary insertion order is the sequence `order`.
- The answer given in the completion dialog, and the time it was given,
  are method parameters.
- The scheduler is the set of job ids registered with it.
- Durations are passed in seconds; the policy's 5, 15 and 25 minutes
  become `minutes * 60`.
- In the store, task ids and creation times are parameters. A constant
  `writable` says whether the file can be opened for writing.

Behaviour of the code worth knowing, which the model keeps:
- When several sessions expire in the same tick, all of them get
  `popup_shown`, but only the last pending one in dictionary order, which
  is the one added last, gets the dialog and the completion policy; the
  others never get one. `TickHandlesLastPending` states this. So a pomodoro
  that expires in the same tick as another pending session added after it
  is never counted and chains no break; one that is the last pending
  session of its tick is.
- The tick records no statistics.
- `start_focus_timer` accepts any title; only `start_focus_with_input`
  rejects a blank one. Without a scheduler a start does nothing at all.
- `_ensure_file_exists` writes a configuration with only `engineer_mode`
  and `auto_start`.

## Model

| member | source | states |
|---|---|---|
| Text.Strip | src/gui.py:303 | the stripped text is no longer than the input and neither starts nor ends with whitespace |
| Text.StripSpec | src/gui.py:303 | `strip()` removes only whitespace from both ends, leaves an infix that neither starts nor ends with whitespace, and is empty exactly when the text is all whitespace |
| Text.DecimalRoundTrip | src/gui.py:480 | the number in the break title reads back as the break length |
| Text.Decimal | src/gui.py:480 | `str(n)` is a non-empty string of digits with no leading zero, a single digit below 10 |
| Text.Pad2 | src/gui.py:547 | `:02d` gives only digits, exactly two below 100, and above that the digits of `str(n)` with no leading zero |
| Text.Pad2RoundTrip | src/gui.py:547 | a `:02d` field has at least two digits, exactly two below 100, and reads back as the number |
| Display.Remaining | src/gui.py:543-544 | the seconds left are never negative and are the true difference whenever that is not negative |
| Display.Countdown | src/gui.py:546 | `divmod` gives seconds below 60 and `mins*60 + secs` equals the clamped seconds left |
| Display.CountdownText | src/gui.py:547 | the text is digits with one colon before the two seconds digits, and the minutes field is two digits, or more only with no leading zero |
| Display.CountdownTextReadsBack | src/gui.py:543-547 | reading the text back gives the clamped seconds left, with seconds below 60 |
| Display.ClosestIndex | src/gui.py:626 | `min(..., key=abs distance)` picks an element at least as near as every other, and the first of equally near ones |
| Display.SnapSlider | src/gui.py:623-628 | the released slider keeps its value or moves to a mark less than 5 away |
| Display.SnapSliderSpec | src/gui.py:623-628 | the slider moves to a mark exactly when some mark is nearer than 5, and otherwise keeps its value |
| Display.SnapNearest | src/gui.py:625-628 | when it snaps, the chosen mark is strictly nearer than every other mark |
| Display.SnapIdempotent | src/gui.py:623-628 | releasing the slider a second time changes nothing |
| Sessions.Start | src/gui.py:341-384 | a non-positive duration or a missing scheduler leaves the tracker as it was; otherwise no existing session changes, the counters keep or raise their values |
| Sessions.StartWithInput | src/gui.py:299-327 | a title that is blank once stripped starts nothing, and starting never touches the pomodoro counter |
| Sessions.ExpireAll | src/gui.py:436-451 | the expiry keeps the keys, finishes exactly the due sessions, leaves every session that was not due unchanged, and afterwards no session is due |
| Sessions.BreakTitle | src/gui.py:469-480 | a break title is the long or short break name, then ` (`, then digits reading back as the break length, then `min)` |
| Sessions.Complete | src/gui.py:462-501 | the counter rises by one exactly for a pomodoro; a manual session or a declined dialog adds no session; otherwise at most one session under the next id is added and no existing one changes |
| Sessions.Tick | src/gui.py:425-501 | a tick keeps every session, expiring it, adds at most one under the next id, raises the pomodoro counter by at most one, and never lowers the id counter |
| Sessions.Cancel | src/gui.py:410-423 | the id is no longer tracked afterwards, every other session is kept unchanged, and the counters are untouched |
| Sessions.Expire | src/gui.py:437-451 | one session's part of the tick: it becomes finished, with finish time `now` and popup flag set, exactly when it was unfinished and had no time left, and nothing else about it changes |
| Sessions.LastPending | src/gui.py:449-450 | the session remembered for the dialog is due and had no popup |
| Sessions.LastPendingSpec | src/gui.py:436-451 | a session is remembered exactly when some session is due without popup, and it is one after which no later session in dictionary order is |
| Sessions.BreakMinutes | src/gui.py:468 | a break is 15 or 5 minutes |
| Sessions.StartWellFormed | src/gui.py:341-362 | adding a session under a fresh id at the end of the dictionary keeps the tracker well formed |
| Sessions.ExpireAllWellFormed | src/gui.py:436-451 | expiring sessions keeps the tracker well formed |
| Sessions.Without | src/gui.py:417 | deleting a key leaves exactly the other keys in the order |
| Sessions.WithoutIncreasing | src/gui.py:417 | deleting a key keeps the insertion order increasing |
| Sessions.CancelWellFormed | src/gui.py:410-423 | cancelling keeps the tracker well formed |
| Sessions.ExpireSessions | src/gui.py:436-453 | the loop expires exactly the due sessions and remembers the last one, in dictionary order, whose popup was not yet shown |
| Sessions.WalkStep | src/gui.py:436-451 | each loop step expires its own session and no other |
| Sessions.NextInPrefix | src/gui.py:436 | each loop step visits a key not visited before |
| Sessions.LastPendingSnoc | src/gui.py:449-450 | each loop step overwrites the remembered session exactly when its session is pending |
| Sessions.MainWindow.constructor | src/gui.py:69-90 | a new window tracks no sessions (`active_ui_tasks = {}` at line 297, in the `setup_dashboard` call at line 90) and has counted no pomodoros |
| Sessions.MainWindow.StartFocusTimer | src/gui.py:341-384 | the new state is `Start` of the old state, the invariant holds, and the input field is untouched |
| Sessions.MainWindow.StartFocusWithInput | src/gui.py:299-327 | the new state is `StartWithInput` of the old state and input text, and the field is cleared exactly when its stripped text was not blank |
| Sessions.MainWindow.CancelTask | src/gui.py:410-423 | the new state is `Cancel` of the old state, and the invariant holds |
| Sessions.MainWindow.UpdateTaskTimers | src/gui.py:425-501 | the new state is `Tick` of the old state, and the invariant holds |
| Sessions.MainWindow.HandleCompletion | src/gui.py:462-501 | the new state is `Complete` of the old state for the handled session's type and the user's answer |
| SessionProperties.StartRejected | src/gui.py:299-343 | a non-positive duration or a blank stripped title leaves the tracker exactly as it was |
| SessionProperties.StartAddsOneSession | src/gui.py:341-377 | an accepted start adds one session under a fresh id at the end of the order, with the stripped title, unfinished, without popup, ending `seconds` after it starts, a pomodoro iff started as one; it registers a job and emits one start notice, and no other session changes |
| SessionProperties.StartWithInputWellFormed | src/gui.py:299-327 | starting from the input field keeps the tracker well formed |
| SessionProperties.CompleteOnlyAdds | src/gui.py:462-501 | the completion policy changes no existing session and can only add one under the next id |
| SessionProperties.TickWellFormed | src/gui.py:425-501 | the tick keeps the tracker well formed: `popup_shown` implies `finished`, and a finish time is recorded exactly on finished sessions |
| SessionProperties.TickFinishesDueSessions | src/gui.py:436-453 | the tick finishes exactly the unfinished sessions with no time left, at `now` and with popup flag set; every other session, in particular every finished one, is unchanged |
| SessionProperties.TickHandlesLastPending | src/gui.py:436-462 | the handled session was due without popup, and it has the highest id, that is it was added last, of the sessions pending in that tick |
| SessionProperties.TickCountsPomodoros | src/gui.py:464-467 | the pomodoro counter rises by one exactly when the handled session is a pomodoro, and otherwise stays |
| SessionProperties.TickChains | src/gui.py:464-492 | an accepted pomodoro chains a break, starting when the answer was given, of the length the new count calls for and titled with that length; an accepted break chains a 25-minute pomodoro `下一轮专注`; otherwise no session is added |
| SessionProperties.BreakCycle | src/gui.py:468-480 | pomodoros 1, 2, 3, 4 get breaks of 5, 5, 5, 15 minutes, the pattern repeats every four, the long break comes exactly at multiples of 4, and the breaks are titled `长休息 (15min)` and `短休息 (5min)` |
| SessionProperties.CancelRemovesOne | src/gui.py:410-423 | an unknown id changes nothing; a known one removes exactly that session and its job, emits a notice iff not a silent close, and leaves the counters alone; cancelling again changes nothing |
| SessionProperties.OrderCounts | src/gui.py:417 | the insertion order has exactly one entry per session |
| SessionRuns.StepKeepsOld | src/gui.py:299-501 | any call keeps the tracker well formed, never lowers the id counter, and changes an existing session only by removing it or, on a tick, expiring it |
| SessionRuns.StartKeepsOld | src/gui.py:341-362 | a start changes no existing session |
| SessionRuns.TickKeepsOld | src/gui.py:425-501 | a tick changes an existing session only by expiring it |
| SessionRuns.FinishedSessionsFrozen | src/gui.py:437-438 | over any run, a finished session that is still tracked is exactly as it was, so its finish time keeps its first value |
| SessionRuns.OldIdsStayGone | src/gui.py:349-354 | over any run, a removed session never comes back: ids are not reused |
| SessionRuns.AcknowledgedCarries | src/gui.py:449-451 | a step that keeps or expires every old session, never lowers the id counter, and handles only a session that was due keeps every acknowledged session acknowledged and adds the handled one |
| SessionRuns.StepAcknowledges | src/gui.py:449-451 | the session a call handles has not been handled before, and afterwards it is acknowledged for good |
| SessionRuns.PrependFresh | src/gui.py:462 | adding one not yet handled session to a duplicate-free trace keeps it duplicate-free |
| SessionRuns.PolicyRunsAtMostOnce | src/gui.py:449-462 | over any run, no session's completion policy runs twice, and none already acknowledged runs at all |
| SessionRuns.PolicyRunsAtMostOnceFromStart | src/gui.py:436-462 | from a new window, every session's completion policy runs at most once |
| Store.DefaultRecord | src/data_manager.py:27-37 | the initial record has no tasks, `engineer_mode` and `auto_start` false, and version metadata |
| Store.Load | src/data_manager.py:40-46 | a file holding a record gives that record, and a missing file or one that is not valid JSON gives empty tasks and an empty configuration |
| Store.TasksOf | src/data_manager.py:59 | `data.get("tasks", [])`: the task list, or an empty list when the key is absent |
| Store.ConfigOf | src/data_manager.py:94 | `data.get("user_config", {})`: the configuration, or an empty one when the key is absent |
| Store.WithoutId | src/data_manager.py:84 | the filtered list is no longer than the input and no task in it has the id |
| Store.WithoutIdSpec | src/data_manager.py:84-86 | the filter keeps exactly the tasks with another id, so none with this id remains, and the list gets shorter exactly when some task had the id |
| Store.WithoutIdAppend | src/data_manager.py:84 | the filter keeps the remaining tasks in their order |
| Store.WithoutAbsentId | src/data_manager.py:84-90 | when no task has the id, the filter leaves the list unchanged |
| Store.NewTask | src/data_manager.py:63-74 | a new task has the given id, title and type, status `active`, and parameters defaulting to empty |
| Store.Append | src/data_manager.py:76 | appending fails with `KeyError("tasks")` exactly when the record has no task list; otherwise the task is added at the end and nothing else changes |
| Store.SetConfig | src/data_manager.py:97-100 | the key gets the value, creating the configuration if absent; every other key and the tasks are unchanged |
| Store.AddThenDelete | src/data_manager.py:61-90 | deleting a freshly added task, whose id was new, restores the record |
| Store.DataManager.constructor | src/data_manager.py:21-38 | a missing file is created holding the default record when writing succeeds; an existing file, valid JSON or not, is kept |
| Store.DataManager.LoadJson | src/data_manager.py:40-46 | the loaded record is `Load` of the file: its record, or the fallback record for a missing file or one that is not valid JSON |
| Store.DataManager.SaveJson | src/data_manager.py:48-53 | a save replaces the file when it can be opened for writing, and otherwise leaves it as it was |
| Store.DataManager.GetAllTasks | src/data_manager.py:57-59 | the stored tasks, or an empty list when the file is missing, not valid JSON, or has no task list |
| Store.DataManager.GetConfig | src/data_manager.py:92-94 | the stored configuration, or an empty one when the file is missing, not valid JSON, or has none |
| Store.DataManager.AddTask | src/data_manager.py:61-78 | saves the record with the task appended and returns its id, or raises `KeyError` without saving when the record has no task list |
| Store.DataManager.DeleteTask | src/data_manager.py:80-90 | reports true exactly when some task had the id, then saves the filtered record; otherwise it does not save |
| Store.DataManager.UpdateConfig | src/data_manager.py:96-101 | saves the loaded record with the one configuration key set |

## Left out

- UpdateTaskTimers: each tick is modelled as one atomic step: expire, take one answer, run one policy. In the source, `QApplication.processEvents()` and the modal `msg.exec()` run the Qt event loop inside the tick. So the 1-second timer can call `update_task_timers` again while a completion dialog is open, and a queued click can call `start_focus_with_input` in the middle of a tick. Such nested calls are modelled as calls that run one after another. The proved properties still hold, because `popup_shown` is set before the dialog opens, but the model does not capture the order in which ids and chained sessions arise when calls interleave this way.
- SaveJson: `writable = false` models only a failure to open the file. A failure while `json.dump` is writing, after `'w'` has already emptied the file, leaves a truncated file that later loads as the fallback record; the model does not capture this.
- Load: only a missing file and a file that is not valid JSON fall back to the empty record, as in the source. Other read errors, such as `PermissionError` or invalid UTF-8, raise in the source and are not modelled.
- Store.Record: a record holds only the keys `tasks`, `user_config` and `meta`, tasks only their six known fields, and configuration values only booleans, integers and strings. The source's load-modify-save also keeps any other top-level keys, task fields and JSON values; the model does not.
- Qt widgets are not modelled. This covers table rows, stylesheets, the placeholder text shown for a blank title, `processEvents`, and the `QMessageBox` dialogs; each dialog's answer is a parameter.
- `refresh_task_list` is modelled only for its countdown arithmetic. It is a display, not a state change.
- The scheduler's callback firing, and the "task completed" notification that `job_function` sends from the scheduler thread, are not modelled. Running them belongs to APScheduler's worker thread, outside this model. Registration and removal of the job are modelled.
- The human-readable duration text inside the start notice is not modelled. The notice carries the title and the duration in seconds.
- `total_minutes`, `start_time` formatting and `timer_label` text are not modelled. They are display only.
- Fractional minutes are not modelled. Durations are whole seconds, so `int(minutes*60)` truncation does not arise.
- Session ids are counter values, not `focus_` plus 8 hex digits of a `uuid4`. A collision of those 32 random bits, which the source ignores and which would overwrite a session, is not modelled.
- The thread-safe singleton in `DataManager.__new__` and its lock are not modelled. The store is one explicit object.
- JSON encoding and real file I/O are not modelled. Exceptions other than a missing or unparsable file are also not modelled: a file holding JSON that is not an object, a task without an `"id"` key, or a value that cannot be serialised.
- A task's `created_at` is an integer clock value, not an ISO string.
- `show_context_menu` is not modelled. It only chooses between the two kinds of `cancel_task` call, and both are modelled.
- The settings toggles, the duplicate `handle_input` methods, the tray, `main`, the OS helpers and the configuration paths are not modelled. They are UI or OS plumbing with no state of this core.
- Daily and tag statistics are not modelled. No source file here implements them.
