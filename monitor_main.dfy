/** The timer registry of main.py. A timer notifies once its process has
    been running for a whole interval since the timer was last notified or
    reset. Deactivating a timer resets it, a tick that does not find the
    process resets it, and loading resets every timer it reads.
    Times are whole seconds; `now` stands for datetime.now(). */
module MonitorMain {
  import opened Wrappers
  import opened Text
  import opened Persistence
  import opened Input
  import opened Processes

  datatype Timer = Timer(
    processName: string,
    intervalMinutes: int,
    message: string,
    isActive: bool,
    lastNotified: int)

  /** Every timer the registry holds has a positive interval: add_timer and
      load_timers both refuse any other. */
  predicate AllWellFormed(ts: seq<Timer>) {
    forall k :: 0 <= k < |ts| ==> ts[k].intervalMinutes > 0
  }

  /** The interval has passed since the timer was last notified or reset. */
  predicate Due(t: Timer, now: int) {
    now - t.lastNotified >= t.intervalMinutes * 60
  }

  lemma AppendWellFormed(ts: seq<Timer>, t: Timer)
    requires AllWellFormed(ts) && t.intervalMinutes > 0
    ensures AllWellFormed(ts + [t])
  {
  }

  /** A tick shows the timer's notification: active, process found, interval passed. */
  predicate Fires(t: Timer, now: int, running: bool) {
    t.isActive && running && Due(t, now)
  }

  /** One timer in one pass of check_timers_loop, given whether its process was found. */
  function Step(t: Timer, now: int, running: bool): (r: Timer)
    ensures r.(lastNotified := t.lastNotified) == t
    ensures !t.isActive ==> r == t
    ensures Fires(t, now, running) ==> r.lastNotified == now
    ensures t.isActive && !running ==> r.lastNotified == now
    ensures t.isActive && running && !Due(t, now) ==> r == t
  {
    if !t.isActive then t
    else if running then (if Due(t, now) then t.(lastNotified := now) else t)
    else t.(lastNotified := now)
  }

  /** A timer in a pass over the process list `procs`. */
  function StepIn(t: Timer, now: int, procs: seq<string>): Timer {
    Step(t, now, Running(procs, t.processName))
  }

  predicate FiresIn(t: Timer, now: int, procs: seq<string>) {
    Fires(t, now, Running(procs, t.processName))
  }

  /** The timers after one pass of check_timers_loop. */
  function TickTimers(ts: seq<Timer>, now: int, procs: seq<string>): (r: seq<Timer>)
    ensures |r| == |ts|
    ensures forall k :: 0 <= k < |ts| ==> r[k].(lastNotified := ts[k].lastNotified) == ts[k]
    ensures forall k :: 0 <= k < |ts| && FiresIn(ts[k], now, procs) ==> r[k].lastNotified == now
    ensures forall k :: 0 <= k < |ts| && ts[k].isActive && !Running(procs, ts[k].processName) ==> r[k].lastNotified == now
  {
    seq(|ts|, k requires 0 <= k < |ts| => StepIn(ts[k], now, procs))
  }

  /** The messages one pass shows: exactly those of the timers that fire, in
      list order. */
  function Fired(ts: seq<Timer>, now: int, procs: seq<string>): (r: seq<string>)
    ensures |r| <= |ts|
    ensures forall m :: m in r ==> exists k :: 0 <= k < |ts| && FiresIn(ts[k], now, procs) && ts[k].message == m
    ensures forall k :: 0 <= k < |ts| && FiresIn(ts[k], now, procs) ==> ts[k].message in r
  {
    if ts == [] then []
    else
      var init, last := ts[..|ts| - 1], ts[|ts| - 1];
      var r := Fired(init, now, procs) + (if FiresIn(last, now, procs) then [last.message] else []);
      assert forall k :: 0 <= k < |init| ==> init[k] == ts[k];
      r
  }

  /** The status column of update_timers_listbox; an active timer whose process
      is found shows the seconds left to its next notification, never negative. */
  datatype Status = Inactive | Monitoring | Active(remainingSeconds: int)

  function DisplayStatus(t: Timer, now: int, running: bool): (s: Status)
    ensures s == Inactive <==> !t.isActive
    ensures s == Monitoring <==> t.isActive && !running
    ensures s.Active? ==> s.remainingSeconds >= 0
  {
    if !t.isActive then Inactive
    else if !running then Monitoring
    else
      var left := t.intervalMinutes * 60 - (now - t.lastNotified);
      Active(if left < 0 then 0 else left)
  }

  function StatusList(ts: seq<Timer>, now: int, procs: seq<string>): (r: seq<Status>)
    ensures |r| == |ts|
  {
    seq(|ts|, k requires 0 <= k < |ts| => DisplayStatus(ts[k], now, Running(procs, ts[k].processName)))
  }

  /** toggle_timer_status on one timer: flip is_active, and on deactivation
      restart the interval from `now`. */
  function ToggleTimer(t: Timer, now: int): (r: Timer)
    ensures r.isActive == !t.isActive
    ensures r.(isActive := t.isActive, lastNotified := t.lastNotified) == t
    ensures r.lastNotified == if t.isActive then now else t.lastNotified
  {
    var flipped := t.(isActive := !t.isActive);
    if !flipped.isActive then flipped.(lastNotified := now) else flipped
  }

  /** The timer add_timer creates: active, its interval starting now. With a
      positive interval it does not fire at once, and shows its whole interval
      as left. */
  function NewTimer(e: Entry, now: int): (r: Timer)
    ensures r.isActive && r.lastNotified == now
    ensures r.processName == e.processName && r.intervalMinutes == e.intervalMinutes && r.message == e.message
    ensures e.intervalMinutes > 0 ==> !Fires(r, now, true) && DisplayStatus(r, now, true) == Active(e.intervalMinutes * 60)
  {
    Timer(e.processName, e.intervalMinutes, e.message, true, now)
  }

  /** What save_timers writes of each timer. */
  function FieldsOf(ts: seq<Timer>): (fs: seq<Fields>)
    ensures |fs| == |ts|
  {
    seq(|ts|, k requires 0 <= k < |ts| => Fields(ts[k].processName, ts[k].intervalMinutes, ts[k].message, ts[k].isActive))
  }

  /** One more timer saved adds its fields at the end. */
  lemma FieldsOfStep(ts: seq<Timer>, i: nat)
    requires i < |ts|
    ensures FieldsOf(ts[..i + 1]) == FieldsOf(ts[..i]) + [Fields(ts[i].processName, ts[i].intervalMinutes, ts[i].message, ts[i].isActive)]
  {
  }

  /** The timers load_timers creates from saved fields, each starting now. */
  function Restored(fs: seq<Fields>, now: int): (ts: seq<Timer>)
    ensures |ts| == |fs|
  {
    seq(|fs|, k requires 0 <= k < |fs| => Timer(fs[k].processName, fs[k].intervalMinutes, fs[k].message, fs[k].isActive, now))
  }

  /** The registry after load_timers; None is a missing timers file. Every
      timer it holds has a positive interval and starts at the load instant. */
  function Loaded(file: Option<string>, now: int): (r: seq<Timer>)
    ensures file.None? ==> r == []
    ensures AllWellFormed(r)
    ensures forall k :: 0 <= k < |r| ==> r[k].lastNotified == now
  {
    match file
    case None => []
    case Some(text) => Restored(LoadLines(ReadLines(text)), now)
  }

  /** The pass __init__ runs right after loading changes nothing and shows
      nothing: every loaded timer has just started its interval. */
  lemma LoadedIdle(file: Option<string>, now: int, procs: seq<string>)
    ensures TickTimers(Loaded(file, now), now, procs) == Loaded(file, now)
    ensures Fired(Loaded(file, now), now, procs) == []
  {
    var ts := Loaded(file, now);
    forall k | 0 <= k < |ts|
      ensures StepIn(ts[k], now, procs) == ts[k] && !FiresIn(ts[k], now, procs)
    {
    }
    NothingFires(ts, now, procs);
  }

  lemma RestoredAppend(a: seq<Fields>, b: seq<Fields>, now: int)
    ensures Restored(a + b, now) == Restored(a, now) + Restored(b, now)
  {
  }

  /** The loop of load_timers over the lines of the file, under the line
      rule `parse`. */
  method LoadTimers(parse: string -> Option<Fields>, lines: seq<string>, now: int) returns (ts: seq<Timer>)
    ensures ts == Restored(LoadWith(parse, lines), now)
  {
    ts := [];
    var i := 0;
    while i < |lines|
      invariant 0 <= i <= |lines|
      invariant ts == Restored(LoadWith(parse, lines[..i]), now)
    {
      var parsed := parse(lines[i]);
      assert lines[..i + 1][..i] == lines[..i];
      RestoredAppend(LoadWith(parse, lines[..i]), Keep(parse, lines[i]), now);
      if parsed.Some? {
        var f := parsed.value;
        ts := ts + [Timer(f.processName, f.intervalMinutes, f.message, f.isActive, now)];
      }
      i := i + 1;
    }
    assert lines[..i] == lines;
  }

  /** The body of check_timers_loop for one timer: its new state and the
      notification it shows, if any. */
  method CheckTimer(t: Timer, now: int, procs: seq<string>) returns (r: Timer, shown: Option<string>)
    ensures r == StepIn(t, now, procs)
    ensures shown == if FiresIn(t, now, procs) then Some(t.message) else None
  {
    r, shown := t, None;
    if t.isActive {
      var running := IsProcessRunning(procs, t.processName);
      if running {
        if now - t.lastNotified >= t.intervalMinutes * 60 {
          shown := Some(t.message);
          r := t.(lastNotified := now);
        }
      } else {
        r := t.(lastNotified := now);
      }
    }
  }

  /** One more timer in a pass adds its notification, if it fires, at the end. */
  lemma FiredStep(ts: seq<Timer>, i: nat, now: int, procs: seq<string>)
    requires i < |ts|
    ensures Fired(ts[..i + 1], now, procs) == Fired(ts[..i], now, procs) + (if FiresIn(ts[i], now, procs) then [ts[i].message] else [])
  {
    assert ts[..i + 1][..i] == ts[..i];
  }

  /** The list of timers the application window holds. */
  class TimerRegistry {
    var timers: seq<Timer>

    predicate Valid()
      reads this
    {
      AllWellFormed(timers)
    }

    /** __init__: start empty, load the timers file, then run the first pass
        of check_timers_loop, which finds nothing to do. */
    constructor(file: Option<string>, now: int, procs: seq<string>)
      ensures Valid()
      ensures timers == Loaded(file, now)
    {
      timers := [];
      new;
      Load(file, now);
      var fired := Tick(now, procs);
      LoadedIdle(file, now, procs);
    }

    /** add_timer: validate the form and append an active timer, or report the
        error and change nothing. */
    method Add(nameText: string, intervalText: string, messageText: string, now: int) returns (err: Option<InputError>)
      requires Valid()
      modifies this
      ensures Valid()
      ensures match CheckInput(nameText, intervalText, messageText)
        case Success(e) => err == None && timers == old(timers) + [NewTimer(e, now)]
        case Failure(x) => err == Some(x) && timers == old(timers)
    {
      var checked := CheckInput(nameText, intervalText, messageText);
      if checked.Success? {
        var t := NewTimer(checked.value, now);
        AppendWellFormed(timers, t);
        timers := timers + [t];
        err := None;
      } else {
        err := Some(checked.error);
      }
    }

    /** toggle_timer_status on the selected row; no selection, no change. */
    method Toggle(selection: Option<nat>, now: int)
      requires Valid()
      requires selection.Some? ==> selection.value < |timers|
      modifies this
      ensures Valid()
      ensures selection.None? ==> timers == old(timers)
      ensures selection.Some? ==> timers == old(timers)[selection.value := ToggleTimer(old(timers)[selection.value], now)]
    {
      if selection.Some? {
        var i := selection.value;
        timers := timers[i := ToggleTimer(timers[i], now)];
      }
    }

    /** delete_timer on the selected row; no selection, no change. */
    method Delete(selection: Option<nat>)
      requires Valid()
      requires selection.Some? ==> selection.value < |timers|
      modifies this
      ensures Valid()
      ensures selection.None? ==> timers == old(timers)
      ensures selection.Some? ==> timers == old(timers)[..selection.value] + old(timers)[selection.value + 1..]
    {
      if selection.Some? {
        var i := selection.value;
        timers := timers[..i] + timers[i + 1..];
      }
    }

    /** One pass of check_timers_loop over the process list `procs`; `fired`
        lists the notifications shown, in order. */
    method Tick(now: int, procs: seq<string>) returns (fired: seq<string>)
      requires Valid()
      modifies this
      ensures Valid()
      ensures timers == TickTimers(old(timers), now, procs)
      ensures fired == Fired(old(timers), now, procs)
    {
      ghost var start := timers;
      fired := [];
      var i := 0;
      while i < |timers|
        invariant 0 <= i <= |timers| == |start|
        invariant forall k :: 0 <= k < i ==> timers[k] == StepIn(start[k], now, procs)
        invariant forall k :: i <= k < |timers| ==> timers[k] == start[k]
        invariant fired == Fired(start[..i], now, procs)
      {
        var t, shown := CheckTimer(timers[i], now, procs);
        timers := timers[i := t];
        if shown.Some? {
          fired := fired + [shown.value];
        }
        FiredStep(start, i, now, procs);
        i := i + 1;
      }
      assert start[..i] == start;
    }

    /** The status column of update_timers_listbox, row by row. */
    method Statuses(now: int, procs: seq<string>) returns (rows: seq<Status>)
      ensures rows == StatusList(timers, now, procs)
    {
      rows := [];
      var i := 0;
      while i < |timers|
        invariant 0 <= i <= |timers|
        invariant rows == StatusList(timers[..i], now, procs)
      {
        var t := timers[i];
        var status := Inactive;
        if t.isActive {
          var running := IsProcessRunning(procs, t.processName);
          if running {
            var left := t.intervalMinutes * 60 - (now - t.lastNotified);
            if left < 0 {
              left := 0;
            }
            status := Active(left);
          } else {
            status := Monitoring;
          }
        }
        rows := rows + [status];
        i := i + 1;
      }
      assert timers[..i] == timers;
    }

    /** save_timers: the text written to the timers file. */
    method Save() returns (text: string)
      ensures text == SaveText(FieldsOf(timers))
    {
      text := [];
      var i := 0;
      while i < |timers|
        invariant 0 <= i <= |timers|
        invariant text == SaveText(FieldsOf(timers[..i]))
      {
        var t := timers[i];
        var f := Fields(t.processName, t.intervalMinutes, t.message, t.isActive);
        FieldsOfStep(timers, i);
        SaveTextAppend(FieldsOf(timers[..i]), f);
        text := text + FormatLine(f) + "\n";
        i := i + 1;
      }
      assert timers[..i] == timers;
    }

    /** load_timers: clear the list, then read the file line by line, keeping
        every line the line rule accepts; a missing file leaves the list empty. */
    method Load(file: Option<string>, now: int)
      modifies this
      ensures Valid()
      ensures timers == Loaded(file, now)
    {
      timers := [];
      if file.Some? {
        timers := LoadTimers(ParseLine, ReadLines(file.value), now);
      }
      assert timers == Loaded(file, now);
    }
  }

  // Properties of the timers across ticks.

  /** Notifications come out in list order: the timers of a longer list show
      theirs after those of the shorter list before them. */
  lemma {:induction false} FiredAppend(a: seq<Timer>, b: seq<Timer>, now: int, procs: seq<string>)
    ensures Fired(a + b, now, procs) == Fired(a, now, procs) + Fired(b, now, procs)
  {
    if b == [] {
      assert a + b == a;
    } else {
      var b', last := b[..|b| - 1], b[|b| - 1];
      var shown := if FiresIn(last, now, procs) then [last.message] else [];
      assert (a + b)[..|a + b| - 1] == a + b';
      assert (a + b)[|a + b| - 1] == last;
      assert Fired(a + b, now, procs) == Fired(a + b', now, procs) + shown;
      assert Fired(b, now, procs) == Fired(b', now, procs) + shown;
      FiredAppend(a, b', now, procs);
    }
  }

  /** A pass in which no timer fires shows nothing. */
  lemma {:induction false} NothingFires(ts: seq<Timer>, now: int, procs: seq<string>)
    requires forall k :: 0 <= k < |ts| ==> !FiresIn(ts[k], now, procs)
    ensures Fired(ts, now, procs) == []
  {
    if ts != [] {
      NothingFires(ts[..|ts| - 1], now, procs);
    }
  }

  /** A second pass at the same instant changes nothing and shows nothing:
      every timer that fired restarted its interval. */
  lemma TickSettles(ts: seq<Timer>, now: int, procs: seq<string>)
    requires AllWellFormed(ts)
    ensures TickTimers(TickTimers(ts, now, procs), now, procs) == TickTimers(ts, now, procs)
    ensures Fired(TickTimers(ts, now, procs), now, procs) == []
  {
    var once := TickTimers(ts, now, procs);
    forall k | 0 <= k < |ts|
      ensures StepIn(once[k], now, procs) == once[k] && !FiresIn(once[k], now, procs)
    {
      assert once[k] == StepIn(ts[k], now, procs);
    }
    NothingFires(once, now, procs);
  }

  /** No timer's reference time is ahead of the clock. */
  predicate NotAhead(ts: seq<Timer>, now: int) {
    forall k :: 0 <= k < |ts| ==> ts[k].lastNotified <= now
  }

  /** A pass never moves a reference time backwards, nor past the clock. */
  lemma TickNeverRewinds(ts: seq<Timer>, earlier: int, now: int, procs: seq<string>)
    requires NotAhead(ts, earlier) && earlier <= now
    ensures NotAhead(TickTimers(ts, now, procs), now)
    ensures forall k :: 0 <= k < |ts| ==> ts[k].lastNotified <= TickTimers(ts, now, procs)[k].lastNotified
  {
  }

  /** A pass that does not find the process restarts the interval: the timer
      next fires only once the process has been found a whole interval later. */
  lemma AbsenceRestarts(t: Timer, absentAt: int, later: int)
    requires t.isActive
    ensures Fires(Step(t, absentAt, false), later, true) <==> later - absentAt >= t.intervalMinutes * 60
  {
  }

  /** What the status column shows agrees with what a pass at the same instant
      does: an active timer with a found process shows zero seconds left
      exactly when it fires, and otherwise the seconds left to its interval. */
  lemma StatusAgreesWithTick(t: Timer, now: int, running: bool)
    ensures DisplayStatus(t, now, running) == Active(0) <==> Fires(t, now, running)
    ensures t.isActive && running && !Fires(t, now, running) ==>
      DisplayStatus(t, now, running).remainingSeconds == t.lastNotified + t.intervalMinutes * 60 - now
  {
  }

  /** Right after firing, a timer shows its whole interval as left. */
  lemma FiredShowsFullInterval(t: Timer, now: int)
    requires t.intervalMinutes > 0 && Fires(t, now, true)
    ensures DisplayStatus(Step(t, now, true), now, true) == Active(t.intervalMinutes * 60)
  {
  }

  // Toggling.

  /** Toggling twice restores everything but the reference time, which is the
      moment the timer was deactivated. */
  lemma ToggleTwice(t: Timer, first: int, second: int)
    ensures ToggleTimer(ToggleTimer(t, first), second) == t.(lastNotified := if t.isActive then first else second)
  {
  }

  /** The reset on deactivation does not hold back a notification on
      reactivation: a timer switched off at `off` and back on at `on`, an
      interval or more later, fires in the first pass that finds its process. */
  lemma ReactivationFiresAtOnce(t: Timer, off: int, on: int)
    requires t.isActive && on - off >= t.intervalMinutes * 60
    ensures Fires(ToggleTimer(ToggleTimer(t, off), on), on, true)
  {
  }

  // Saving and loading.

  /** Every timer restarts at the load instant and keeps the rest. */
  function ResetAll(ts: seq<Timer>, now: int): (r: seq<Timer>)
    ensures |r| == |ts|
  {
    seq(|ts|, k requires 0 <= k < |ts| => ts[k].(lastNotified := now))
  }

  /** Saving the registry and loading the file gives back the same timers in
      the same order, each restarted at the load instant, provided no name or
      message holds a comma or a line break and no name starts with white space. */
  lemma SaveThenLoad(ts: seq<Timer>, now: int)
    requires forall k :: 0 <= k < |ts| ==> Storable(FieldsOf(ts)[k])
    ensures Loaded(Some(SaveText(FieldsOf(ts))), now) == ResetAll(ts, now)
  {
    SaveLoadRoundTrip(FieldsOf(ts));
  }
}
