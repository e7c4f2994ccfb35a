# Command runner: a Dafny model

The program is a small desktop tool (`main.py`) that, on a hotkey, types a
stored list of text commands into whatever application has focus. A
background worker (`CommandThread`) goes through the list and, for each
command, taps `t`, types the command, taps `enter` and reports
"Выполнено: <command>". The worker can loop forever. Other threads can pause,
resume or stop it. The main window edits the list and toggles the worker on
and off.

This project models three pieces of that program:

- **The worker's `run` loop** (modules `Runner`, `RunnerProofs`, `Keystrokes`).
  It is a state machine over the worker's two flags, `running` and `paused`,
  and over the point of `run` it stands at: the `while self.running` test, the
  `if self.paused` test, the per-command test, or returned. Calls to `pause`,
  `resume` and `stop` from other threads arrive as a batch of requests just
  before each test, because a flag flip can only be seen there. `Step` moves
  from one test to the next. `Drive` runs a finite sequence of batches, so a
  looping run that never stops is described by its finite prefixes. Sending a
  command is one atomic step, including its delay, because `time.sleep` in the
  source cannot be cut short.
- **The start/stop toggle** (module `Window`). The window holds at most one
  worker. Toggling a live worker stops it, waits for it (`Join`) and drops it.
  Otherwise the toggle refuses an empty list, or starts a fresh worker.
- **The command-list edits** (modules `CommandList` and `Text`). Add, edit and
  remove are pure functions on `seq<string>`. Dialog answers are parameters,
  and row -1 means no selection. Stored text is stripped as Python's
  `str.strip()` strips it.

Behaviour the proofs pin down, as the code does it:

- Commands run last to first.
- A pause seen before a command ends the current pass. It ends a non-looping
  run outright, with no pause-wait.
- A resumed looping run starts its next pass again from the last command, so
  commands already sent in the broken pass are sent again.
- A stop ends the run from any state within three tests. `Finished` is
  reported exactly once, as the last event.

Some behaviour of `main.py` a reader may not expect. The model keeps these:

- A pause does not suspend a pass to continue it later. It breaks the pass.
- The delay after a command is a plain sleep, so a stop cannot cut it short.
  Here sending a command, delay included, is one step that no request can
  interrupt.

The model does not follow these (see "## Left out"):

- The worker is handed the window's live list, not a copy of it. Here the list
  is fixed for the whole run.
- Nothing checks the delay or the typing speed when a run starts. Only the
  spin boxes' ranges bound them. Here there is no delay or typing speed.
- `pause` and `resume` exist on the worker, but nothing in `main.py` calls
  them. Here they are calls another thread may make at any time, so the
  model covers more than the program can reach.

## Model

| member | source | states |
|---|---|---|
| Text.Strip | main.py:82-83 | the stored text has no whitespace at either end, is no longer than the dialog text, and is empty exactly when the dialog text is all whitespace |
| Text.TrimStart | main.py:83 | the result is a suffix of the input, everything dropped is whitespace, and the result does not start with whitespace |
| Text.TrimEnd | main.py:83 | the result is a prefix of the input, everything dropped is whitespace, and the result does not end with whitespace |
| Text.StripOfPadded | main.py:83 | independent characterisation: whitespace + text with non-space ends + whitespace strips to that text |
| Text.StripIdempotent | main.py:207-208 | stripping an already stripped command changes nothing |
| CommandList.Add | main.py:185-192 | the list gains the stripped text at its end exactly when the dialog was accepted and the stripped text is non-empty; otherwise it is unchanged; no existing entry changes |
| CommandList.Edit | main.py:194-210 | no selection gives the warning and no change; otherwise only the selected entry can change, and it becomes the stripped text exactly when ok and that text is non-empty |
| CommandList.Remove | main.py:212-228 | no selection gives the warning and no change; otherwise exactly the selected entry is deleted on Yes, later entries shift down by one, and the list is unchanged on No |
| CommandList.RemoveAt | main.py:226 | `del` removes index i: earlier entries stay, later ones shift down by one, the length drops by one |
| CommandList.AddMultiset | main.py:189-190 | add keeps every command and gains only the stripped text |
| CommandList.RemoveMultiset | main.py:225-226 | remove loses exactly the selected command and nothing else |
| CommandList.EditMultiset | main.py:207-208 | edit trades exactly the selected command for the stripped text |
| CommandList.AddPreservesWellFormed | main.py:185-192 | after an add, a list of stripped non-empty commands is still one |
| CommandList.EditPreservesWellFormed | main.py:194-210 | after an edit, a list of stripped non-empty commands is still one |
| CommandList.RemovePreservesWellFormed | main.py:212-228 | after a remove, a list of stripped non-empty commands is still one |
| CommandList.EditUnchangedText | main.py:200-208 | accepting the edit dialog with its pre-filled text leaves a well-formed list as it was, though the settings are saved |
| Runner.Start | main.py:15-22 | a new worker holds the given list and loop setting, is running and not paused, and is about to test `running` |
| Runner.Reversed | main.py:31 | a pass visits index `|s|-1-i` at its i-th command |
| Runner.Deliver | main.py:49-56 | after a batch of calls, `running` is down exactly when it was down or a stop was made; the last request other than a stop decides `paused` (a pause sets it, a resume clears it), and a batch of stops only leaves it as it was; nothing else changes |
| Runner.Step | main.py:24-41 | a command is sent exactly at a per-command test with commands left, running and not paused, and it is the next command of the reversed list; `Finished` is reported exactly when `run` returns; the `while` test goes on to the pause test while running and returns otherwise; the pause test goes back to the `while` test while paused and starts a pass otherwise; a per-command test that sends nothing ends the pass: a looping run goes back to the `while` test and a non-looping run returns with `Finished`; with `running` down every step moves closer to return |
| Runner.Drive | main.py:24-41 | the list and the loop setting never change during a run; a running worker ends with `running` down exactly when some batch held a stop |
| Runner.Join | main.py:257-258 | waiting for a stopped worker always ends with `run` returned, and it reports only the one `Finished` it still owes |
| RunnerProofs.PassRest | main.py:31-39 | from the per-command test, an undisturbed pass sends the rest of the reversed list in order, then finishes or loops |
| RunnerProofs.FullPass | main.py:25-39 | an undisturbed pass from the `while` test sends every command, last to first |
| RunnerProofs.SinglePass | main.py:31-41 | a non-looping run that nobody pauses or stops sends each command once, last to first, then reports `Finished`, and sends nothing more |
| RunnerProofs.LoopingPasses | main.py:25-39 | a looping run left alone repeats the reversed pass m times in m passes and is back at its `while` test |
| RunnerProofs.LoopingRunNeedsStop | main.py:25-39 | a running looping run never returns and never reports `Finished` unless someone stops it |
| RunnerProofs.NextPassStartsFromLast | main.py:25-33 | before a pass starts, the first command sent afterwards, if any, is the last entry of the list |
| RunnerProofs.InterruptAbandonsPass | main.py:32-39 | a stop or pause seen at the per-command test sends nothing and abandons the pass; a non-looping run finishes at once and sends nothing more; a looping run next sends the last entry first |
| RunnerProofs.PausedRunWaits | main.py:25-28 | a running, paused worker sends nothing and stays in its pause-wait until resumed or stopped |
| RunnerProofs.ResumeRepeatsCommands | main.py:25-33 | with ["a", "b", "c"] looping, pausing after "c" and "b" and resuming sends "c" again before "a" ever ran |
| RunnerProofs.NonLoopingRunIsOnePass | main.py:31-39 | whatever the pauses and stops, a non-looping run sends a prefix of the reversed list: each command at most once |
| RunnerProofs.StopTerminates | main.py:25-41 | with `running` down, or a stop in the first batch, the run has returned within three tests from any state, paused or not, sending nothing and reporting `Finished` once |
| RunnerProofs.FinishedOnlyAtEnd | main.py:38-41 | `Finished` is reported at most once, only as the last event, and exactly when the run returns |
| RunnerProofs.ExecutedOfExecutions | main.py:47 | the reports of a sequence of sent commands name exactly those commands |
| Keystrokes.Effects | main.py:43-47 | a sent command taps `t`, types its text, taps `enter`, then reports "Выполнено: " followed by the text, in that order; the end of a run is the `finished` signal alone (main.py:41) |
| Keystrokes.RecoverPerform | main.py:43-47 | the taps, typed texts, status reports and `finished` signal of a run can be read back into its events: round trip |
| Keystrokes.TypedIsExecuted | main.py:43-47 | the texts typed into the focused application are exactly the commands reported as sent, in order |
| Keystrokes.SinglePassTypesReversed | main.py:31-46 | an undisturbed non-looping run types the whole list once, bottom entry first |
| Window.ToggleExecution | main.py:254-276 | a live worker is stopped, waited for, dropped, and reports only `Finished`; an idle window with an empty list is left unchanged with a warning; a non-empty list starts a fresh running, unpaused worker on that list with the checkbox's loop setting |
| Window.Advance | main.py:276 | between toggles a present worker is driven through the requests as `run` would go, the window keeps it and passes on exactly what it reported; without a worker nothing is reported; the window's list and checkbox do not change |
| Window.ToggleTwice | main.py:254-276 | start then toggle again: a live run is stopped with `Finished` once and last; a run that already returned by itself is not stopped but started again |
| Window.EmptyListNeverStarts | main.py:263-265 | any number of toggles on an idle window with an empty list change nothing |

## Left out

- Qt widgets, dialogs, message boxes and signals: dialog answers and the selected row are parameters, and warnings are `Notice` or `Toggled` values.
- The `keyboard` library: key taps and typing are abstract `Action` values. Hotkey capture and registration (`set_hotkey`, `on_hotkey_press`, `register_hotkey`) are foreign side effects and are not modelled.
- `time.sleep`, the delay, the typing speed `1/typing_speed` and the spin box ranges: these are wall-clock time and floating point.
- The worker reads the window's live list, which the window may edit during a run. Here the list is fixed for the whole run, so the data race is not modelled.
- The status label texts ("Статус: …") and the order in which queued signals reach the label are not modelled. The status report of a sent command is modelled, as an `Action`.
- `save_settings` and `load_settings` (file I/O and JSON) are reduced to the `saved` flag of an edit, which says whether the settings would be written. `closeEvent` stops and waits the same way as the toggle's stop branch and is not modelled separately.
- The administrator elevation through `ctypes` at start-up is left out.
- Nothing in `main.py` calls the worker's `pause` or `resume`. The model lets another thread call them at any point, so it covers runs the program itself cannot reach.
- Runner.Drive: a run is driven by a finite sequence of request batches, so an endless looping run is described by its finite prefixes (`LoopingPasses`, `LoopingRunNeedsStop`).
- CommandList.Edit: requires the selected row to be -1 or a valid index. The list widget is rebuilt from the list after every change, so the source never passes another row. With another row, the source would raise `IndexError`.
- CommandList.Remove: requires the selected row to be -1 or a valid index, for the same reason as `Edit`.
