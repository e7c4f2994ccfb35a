/**
  The main window's start/stop toggle. The window owns at most one worker; the
  toggle stops a live worker and waits for it, or starts a new one on the
  current command list when none is live.
 */
module Window {
  import opened Optional
  import opened Runner
  import RunnerProofs

  /** What the toggle sees of the main window: the list, the loop checkbox and the worker thread. */
  datatype MainWindow = MainWindow(commands: seq<string>, loopChecked: bool, worker: Option<Run>)

  /** What a toggle did. `tail` is what the stopped worker reported while being waited for. */
  datatype Toggled = NoCommandsWarning | Started | Stopped(tail: seq<Event>)

  /** There is a worker and its `run` has not returned (`thread.isRunning()`). */
  predicate Active(w: MainWindow) {
    w.worker.Some? && w.worker.value.phase != Exited
  }

  /**
    `toggle_execution`. A live worker is stopped and waited for, and the window
    drops it. Otherwise an empty list only raises a warning, and a non-empty
    one starts a fresh worker on it with the loop checkbox's setting.
   */
  function ToggleExecution(w: MainWindow): (out: (MainWindow, Toggled))
    ensures out.0.commands == w.commands && out.0.loopChecked == w.loopChecked
    ensures Active(w) ==> out.0.worker == None && out.1 == Stopped([Finished])
    ensures !Active(w) && w.commands == [] ==> out == (w, NoCommandsWarning)
    ensures !Active(w) && w.commands != [] ==>
      && out.1 == Started && Active(out.0)
      && var r := out.0.worker.value;
      && r.commands == w.commands && r.loopEnabled == w.loopChecked
      && r.running && !r.paused && r.phase == LoopTest
  {
    if Active(w) then
      var (_, tail) := Join(Deliver(w.worker.value, [Stop]));
      (w.(worker := None), Stopped(tail))
    else if w.commands == [] then (w, NoCommandsWarning)
    else (w.(worker := Some(Start(w.commands, w.loopChecked))), Started)
  }

  /** The worker, if any, makes progress while the window waits for the next toggle. */
  function Advance(w: MainWindow, env: seq<seq<Request>>): (out: (MainWindow, seq<Event>))
    ensures out.0.commands == w.commands && out.0.loopChecked == w.loopChecked
    ensures out.0.worker.Some? == w.worker.Some?
    ensures w.worker.None? ==> out.1 == []
    ensures w.worker.Some? ==>
      out.0.worker == Some(Drive(w.worker.value, env).0) && out.1 == Drive(w.worker.value, env).1
  {
    match w.worker
    case None => (w, [])
    case Some(r) =>
      var (s, t) := Drive(r, env);
      (w.(worker := Some(s)), t)
  }

  /**
    Toggling twice. The first toggle starts a worker; the second either stops
    it, and then the run has reported `Finished` exactly once and last, or, if
    the run already returned by itself, starts a new run from the top.
   */
  lemma ToggleTwice(w: MainWindow, env: seq<seq<Request>>)
    requires !Active(w) && w.commands != []
    ensures var (w1, o1) := ToggleExecution(w);
      var (w2, t) := Advance(w1, env);
      var (w3, o3) := ToggleExecution(w2);
      && o1 == Started
      && (Finished in t ==> o3 == Started && t[|t| - 1] == Finished)
      && (Finished !in t ==>
            && o3.Stopped? && w3.worker == None
            && var all := t + o3.tail;
            && all[|all| - 1] == Finished
            && forall i :: 0 <= i < |all| - 1 ==> all[i] != Finished)
  {
    var (w1, o1) := ToggleExecution(w);
    var r := w1.worker.value;
    RunnerProofs.FinishedOnlyAtEnd(r, env);
    var (w2, t) := Advance(w1, env);
    if Finished in t {
      var i :| 0 <= i < |t| && t[i] == Finished;
    }
  }

  /** Toggling an idle window with an empty list starts nothing, however often it is done. */
  lemma {:induction false} EmptyListNeverStarts(w: MainWindow, n: nat)
    requires !Active(w) && w.commands == []
    ensures Toggles(w, n) == w
    decreases n
  {
    if n > 0 {
      EmptyListNeverStarts(ToggleExecution(w).0, n - 1);
    }
  }

  /** The window after `n` toggles with no worker progress in between. */
  function Toggles(w: MainWindow, n: nat): MainWindow
    decreases n
  {
    if n == 0 then w else Toggles(ToggleExecution(w).0, n - 1)
  }
}
