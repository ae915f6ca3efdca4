# Process timer registry

ProcessMonitorApp keeps a list of timers. Each timer names a process, an
interval in minutes, a message, an active flag and the time it was last
notified. Once a second, `check_timers_loop` walks the list. An active timer
whose process is running, and whose interval has passed since it was last
notified, shows its message and restarts its interval. The list can be added
to through a form, toggled and deleted row by row, and saved to or loaded from
`timers.txt`. That file holds one line per timer,
`process_name,interval_minutes,message,is_active`, and is read back with
`strip()` and `split(',', 3)`.

The repository has two variants of the application, and each is modelled as
its own module:

- `MonitorMain` models main.py. Deactivating a timer restarts its interval.
  A pass that does not find the process restarts it too. The status column
  rescans the processes and shows the time left.
- `MonitorProg` models prog.py. Nothing restarts an interval except a
  notification, so time during which the process was absent still counts. Each
  pass records `is_process_found`, and the status column shows that record.

The modules shared by both variants:

- `Wrappers`: Option and Result.
- `Text`: the Python string and integer built-ins the file format relies on —
  `strip`, `lower`, `split(sep, maxsplit)`, `str(int)` and `int(str)`.
- `Persistence`: the line format, the reading of the file into lines, and the
  load rule.
- `Input`: the validation done by `add_timer`.
- `Processes`: `is_process_running`.

Each variant keeps its list in a class `TimerRegistry` whose field `timers`
the methods reassign, as the application reassigns and mutates `self.timers`.
Each method states its result or its new list in terms of functions of the
old list:

- `Add` uses `CheckInput` and `NewTimer`.
- `Toggle` uses `ToggleTimer`.
- `Delete` removes one element of the sequence.
- `Tick` uses `TickTimers` and `Fired`.
- `Statuses` uses `StatusList`.
- `Save` uses `SaveText`.
- `Load` and the constructor use `Loaded`.

The contracts of those functions and the lemmas beside them state what the
functions guarantee, alone and across several operations.

The clock is an integer count of seconds, `now`. The process table is a
snapshot, `procs`: the sequence of running process names. The timers file is
its text, or `None` when the file does not exist.

The comment at main.py:118 calls the reset on deactivation a reset of "the
timer state". `ReactivationFiresAtOnce` shows what the code actually does. The
reset happens when the timer is switched off, and nothing happens when it is
switched back on. So a timer switched off for longer than its interval fires
in the first pass after it is switched back on, provided its process is
running. The model follows the code.

## Model

| member | source | states |
|---|---|---|
| Text.Strip | main.py:139-141 | `strip()` never lengthens the text and leaves no white space at either end |
| Text.StripRemovesOnlySpace | main.py:139-141 | `strip()` removes only white space: what it returns is a contiguous piece of the text with only white space before and after it |
| Text.StripIdempotent | main.py:139-141 | stripping twice is stripping once |
| Text.StripEmptyIff | main.py:143 | a field is empty after `strip()` exactly when it was all white space |
| Text.Lower | main.py:201 | `lower()` keeps the length and lower-cases each character |
| Text.LowerIdempotent | main.py:291 | lower-casing twice is lower-casing once |
| Text.Split | main.py:196 | `split(',', 3)` yields at most 4 parts, none but the last holding a comma, that join back to the text |
| Text.SplitJoin | main.py:178-196 | splitting a comma-joined line gives back its parts whenever they have the shape `split` produces |
| Text.StripSplitJoin | main.py:196 | the same after `strip()`, for a line with no white space at either end |
| Text.SplitCuts | main.py:196-197 | `split` never yields more parts than the line has commas plus one |
| Text.JoinCount | main.py:178 | joining n parts writes at least n-1 separators |
| Text.IntToString | main.py:178 | `str(n)` of an interval is a minus sign exactly when n is negative, followed by one or more decimal digits |
| Text.ParseInt | main.py:148 | `int()` accepts only a text that is, after `strip()`, an optional sign and at least one decimal digit (so a bare sign is rejected), and a negative result needs a minus sign |
| Text.ParseIntAccepts | main.py:148 | `int()` accepts every text that is, after `strip()`, an optional sign and one or more decimal digits, with the value of the digits, negated after a minus sign |
| Text.ParseIntToString | main.py:178-200 | `int(str(n)) == n` for every integer, negative ones included |
| Text.DigitsValueOfDigits | main.py:178 | the decimal digits of n have value n |
| Persistence.ParseLine | main.py:196-212 | a kept line has a positive interval and no comma in its name or message |
| Persistence.ParseParts | main.py:197-210 | a timer exactly when there are four parts and `int()` accepts the second as a positive integer; its name, interval and message are the first three parts, and it is active exactly when the fourth part lower-cases to "true" |
| Persistence.ReadLines | main.py:194-195 | the lines of the file hold no line break |
| Persistence.LoadWith | main.py:195-212 | loading keeps at most one timer per line |
| Persistence.LoadLines | main.py:194-212 | every loaded timer has a positive interval |
| Persistence.LoadWithAppend | main.py:195-212 | loading distributes over the lines, so a bad line never stops the lines after it |
| Persistence.LoadSkipsRejected | main.py:197-212 | a rejected line contributes nothing, wherever it stands |
| Persistence.LoadAccepted | main.py:195-210 | lines that are all accepted load as their timers, in order |
| Persistence.TooFewFieldsSkipped | main.py:196-197 | a line with fewer than three commas after strip is skipped |
| Persistence.NonIntegerIntervalSkipped | main.py:199-212 | any line that `strip()` and `split(',', 3)` cut into four parts is skipped when `int()` rejects the second part |
| Persistence.NonPositiveIntervalSkipped | main.py:200-202 | any line that `strip()` and `split(',', 3)` cut into four parts is skipped when `int()` reads the second part as zero or less |
| Persistence.ParseFourFields | main.py:196-201 | a four-field line with nothing to strip is parsed field by field |
| Persistence.BoolToString | main.py:178-201 | the saved flag, lower-cased, reads "true" exactly for an active timer, and holds no comma or line break |
| Persistence.FormatLine | main.py:178 | a saved line holds at least the three commas that separate its four fields |
| Persistence.SaveText | main.py:176-178 | the file is empty exactly when there are no timers, and otherwise ends with a line terminator |
| Persistence.ParseFormatLine | main.py:178-210 | a saved line reads back as the same name, interval, message and flag |
| Persistence.FormatLineNoBreak | main.py:178 | a saved line holds no line break of its own |
| Persistence.ReadTerminated | main.py:177-195 | reading lines that were each written with "\n" gives them back |
| Persistence.SaveTextAppend | main.py:177-178 | each timer adds its line and a terminator to the file |
| Persistence.SaveLoadRoundTrip | main.py:176-210 | loading what `save_timers` wrote gives back the same timers, in order, when every interval is positive, no name or message holds a comma or line break, and no name starts with white space |
| Persistence.CommaNotTrue | main.py:201 | a flag text holding a comma never lower-cases to "true" |
| Persistence.CommaInMessageCutShort | main.py:178-201 | a message with a comma reloads cut at its first comma, and the timer reloads inactive |
| Input.CheckInput | main.py:139-153 | MissingField exactly when a stripped field is empty; BadInterval exactly when the fields are present but `int()` rejects the interval or it is not positive; otherwise the stripped fields and a positive interval |
| Input.CheckInputIgnoresPadding | main.py:139-141 | white space around the typed fields makes no difference |
| Processes.IsProcessRunning | main.py:289-295 | true exactly when some process name equals the timer's name, ignoring case |
| Processes.RunningIgnoresCase | main.py:291 | only the lower-cased name matters |
| MonitorMain.Step | main.py:301-315 | an inactive timer is untouched; a firing timer and an active timer whose process is absent restart at `now`; only `last_notified` changes |
| MonitorMain.TickTimers | main.py:301-315 | a pass changes only `last_notified`; it becomes `now` for every timer that fires and for every active timer whose process is absent |
| MonitorMain.Fired | main.py:301-311 | the messages shown are exactly those of the firing timers |
| MonitorMain.FiredAppend | main.py:301-311 | messages are shown in list order |
| MonitorMain.DisplayStatus | main.py:227-247 | Inactive exactly for inactive timers; Monitoring exactly when the process is absent; otherwise a time left that is never negative |
| MonitorMain.ToggleTimer | main.py:114-120 | flips `is_active`, and restarts the interval exactly when the timer is switched off |
| MonitorMain.NewTimer | main.py:155-162 | the new timer is active, keeps the entered fields and starts at `now`; with a positive interval it does not fire at once and shows its whole interval as left |
| MonitorMain.Loaded | main.py:187-212 | a missing file gives no timers; every loaded timer has a positive interval and starts at the load instant |
| MonitorMain.LoadedIdle | main.py:37-39 | the pass `__init__` runs right after loading changes nothing and shows nothing |
| MonitorMain.LoadTimers | main.py:195-210 | the loading loop yields the timers the load rule keeps, each starting at `now` |
| MonitorMain.CheckTimer | main.py:302-315 | one timer's step in a pass and the message it shows, if any |
| MonitorMain.TimerRegistry.constructor | main.py:35-39 | starts with the timers loaded from the file, which the first pass leaves as they are |
| MonitorMain.TimerRegistry.Add | main.py:139-163 | appends exactly one active timer starting at `now` when the form is valid; otherwise reports the error and changes nothing |
| MonitorMain.TimerRegistry.Toggle | main.py:112-122 | only the selected timer changes, as `ToggleTimer` says |
| MonitorMain.TimerRegistry.Delete | main.py:128-131 | removes exactly the selected timer and keeps the order of the rest |
| MonitorMain.TimerRegistry.Tick | main.py:301-315 | the new list is every timer stepped, and the messages shown are `Fired` |
| MonitorMain.TimerRegistry.Statuses | main.py:226-247 | the status of every row |
| MonitorMain.TimerRegistry.Save | main.py:176-178 | the file text is one formatted line per timer, in order |
| MonitorMain.TimerRegistry.Load | main.py:187-212 | a missing file gives an empty list; otherwise the timers the load rule keeps |
| MonitorMain.TickSettles | main.py:305-312 | a second pass at the same instant changes nothing and shows nothing |
| MonitorMain.TickNeverRewinds | main.py:301-315 | a pass never moves a `last_notified` backwards or past the clock |
| MonitorMain.AbsenceRestarts | main.py:313-315 | after a pass without the process, the timer next fires only a whole interval later |
| MonitorMain.StatusAgreesWithTick | main.py:236-243 | the status shows zero seconds left exactly when a pass at that instant fires; otherwise it shows the seconds still to wait |
| MonitorMain.FiredShowsFullInterval | main.py:236-243 | right after firing, a timer shows its whole interval as left |
| MonitorMain.ToggleTwice | main.py:114-120 | toggling twice restores all but `last_notified`, which becomes the moment of switching off |
| MonitorMain.ReactivationFiresAtOnce | main.py:118-120 | a timer switched off for an interval or more fires in the first pass after it is switched back on |
| MonitorMain.SaveThenLoad | main.py:176-210 | save then load restores the list, each timer restarting at the load instant, when every interval is positive, no name or message holds a comma or line break, and no name starts with white space |
| MonitorProg.Step | prog.py:264-279 | an inactive timer is untouched; an active one records whether its process was found; `last_notified` moves to `now` exactly when it fires |
| MonitorProg.TickTimers | prog.py:264-279 | a pass changes only `last_notified` and the record of whether the process was found; `last_notified` becomes `now` exactly for the timers that fire, and every active timer records whether its process runs |
| MonitorProg.Fired | prog.py:264-279 | the messages shown are exactly those of the firing timers |
| MonitorProg.FiredAppend | prog.py:264-279 | messages are shown in list order |
| MonitorProg.DisplayStatus | prog.py:213-218 | Inactive exactly for inactive timers; Active exactly for active timers whose last pass found the process |
| MonitorProg.ToggleTimer | prog.py:104-106 | flips `is_active` and nothing else |
| MonitorProg.NewTimer | prog.py:141-148 | the new timer is active, keeps the entered fields, starts at `now` and shows Monitoring; with a positive interval it does not fire at once |
| MonitorProg.Loaded | prog.py:174-199 | a missing file gives no timers; every loaded timer has a positive interval, starts at the load instant and has its process not yet found |
| MonitorProg.LoadTimers | prog.py:182-199 | the loading loop yields the timers the load rule keeps, each starting at `now` and not yet found |
| MonitorProg.CheckTimer | prog.py:266-279 | one timer's step in a pass and the message it shows, if any |
| MonitorProg.TimerRegistry.constructor | prog.py:26-29 | starts with no timers, and the first pass has none to check; this variant does not load at start |
| MonitorProg.TimerRegistry.Add | prog.py:124-149 | appends exactly one active, not yet found timer starting at `now` when the form is valid; otherwise reports the error and changes nothing |
| MonitorProg.TimerRegistry.Toggle | prog.py:102-107 | only the selected timer changes, as `ToggleTimer` says |
| MonitorProg.TimerRegistry.Delete | prog.py:113-116 | removes exactly the selected timer and keeps the order of the rest |
| MonitorProg.TimerRegistry.Tick | prog.py:264-279 | the new list is every timer stepped, and the messages shown are `Fired` |
| MonitorProg.TimerRegistry.Statuses | prog.py:212-220 | the status of every row, read from the records |
| MonitorProg.TimerRegistry.Save | prog.py:161-165 | the file text is one formatted line per timer, in order |
| MonitorProg.TimerRegistry.Load | prog.py:174-202 | a missing file gives an empty list; otherwise the timers the load rule keeps |
| MonitorProg.TickSettles | prog.py:272-279 | a second pass at the same instant changes nothing and shows nothing |
| MonitorProg.TickNeverRewinds | prog.py:264-279 | a pass never moves a `last_notified` backwards or past the clock |
| MonitorProg.AbsenceAccumulates | prog.py:266-279 | a pass without the process changes only the record, so absent time counts towards the interval |
| MonitorProg.StatusAfterStep | prog.py:266-270 | after a pass, an active timer's status says whether that pass found its process |
| MonitorProg.ReactivatedShowsStaleRecord | prog.py:102-107 | a timer switched back on shows the record from before it was switched off, whatever runs now |
| MonitorProg.ToggleTwice | prog.py:105-106 | toggling a timer twice restores it exactly |
| MonitorProg.ToggleRowTwice | prog.py:102-107 | toggling the same row twice restores the whole list |
| MonitorProg.SaveThenLoad | prog.py:161-199 | save then load restores the list, each timer restarting at the load instant and not yet found, when every interval is positive, no name or message holds a comma or line break, and no name starts with white space |

## Left out

- The Tk user interface is not modelled. That covers the window, the form
  widgets, the message boxes, the button enabling in `on_listbox_select`, the
  notification window of `show_notification` and the commented-out sound. A
  notification is modelled as its message in the `fired` result of `Tick`.
- The rescheduling through `self.after` is not modelled. `Tick` is one pass.
  Properties across passes are lemmas about the specification functions.
- The listbox row text is not modelled: the numbering, the ` - ` separators,
  the `min.` suffix and the `H:MM:SS` rendering of the time left. The main.py
  status carries the time left as whole seconds.
- The restoring of the listbox selection in main.py:222-253 is not modelled.
- Clock: `datetime.now()` is an integer count of seconds. Sub-second
  precision is not modelled. The source reads the clock afresh for each timer;
  the model uses one instant per pass.
- Process table: `psutil.process_iter` is a snapshot of names passed to each
  pass, which the source rescans for each timer. A process whose name psutil
  cannot read (`None`) makes `.lower()` raise an uncaught AttributeError in the
  source; the snapshot holds only readable names.
- File I/O is not modelled. The file is its text, or `None` when it does not
  exist. Failures to open, read or write (the error message boxes) are left
  out, as is the newline translation when the file is written.
- Text.IsSpace: `str.isspace` and `str.strip` are modelled on ASCII white
  space only, so non-ASCII white space (such as U+00A0) is not stripped.
- Text.Lower: `str.lower` is modelled on the ASCII letters only.
- Text.ParseInt: `int()` is modelled as strip, an optional sign and ASCII
  digits. Digit-group underscores and non-ASCII digits, which Python also
  accepts, are treated as rejected.
- Text.ParseInt: the limit of 4300 digits that `int()` enforces in recent
  Python releases is not modelled. A longer interval text raises ValueError
  there, so `add_timer` reports a bad interval and `load_timers` skips the
  line; the model accepts it.
- MonitorMain.DisplayStatus: the range of `timedelta` is not modelled. At
  main.py:239, an interval of 1 440 000 000 000 minutes or more makes
  `timedelta(seconds=...)` raise OverflowError for an active timer whose
  process runs. That stops `update_timers_listbox`, and through it the
  rescheduling in `check_timers_loop`. The model shows a time left instead.
- MonitorMain.TimerRegistry.Toggle: the listbox offers only existing rows.
  The precondition therefore excludes a selection past the end, instead of
  modelling the IndexError it would raise. The same holds for
  MonitorMain.TimerRegistry.Delete, MonitorProg.TimerRegistry.Toggle and
  MonitorProg.TimerRegistry.Delete.
