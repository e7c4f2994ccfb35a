/**
  The command worker's `run` loop as a state machine.

  The worker reads its two flags, `running` and `paused`, at three points: the
  `while self.running` test, the `if self.paused` test, and the test before
  each command. Another thread flips the flags through `pause`, `resume` and
  `stop`; here those calls arrive as a batch of requests delivered just before
  the worker's next test, which is the only place their effect can be seen.
  One `Step` moves the worker from one test to the next; `Drive` runs it on a
  finite sequence of batches, so a looping run that never stops is a run whose
  every finite prefix is defined. When a pass has run out of commands the
  worker reads no flag before its end-of-pass decision; a batch delivered
  there is simply seen at the next test, as in the source.
 */
module Runner {

  /** A call another thread makes on the worker. */
  datatype Request = Pause | Resume | Stop

  /** The point of `run` at which the worker will next read its flags. */
  datatype Phase =
    | LoopTest                 // the `while self.running` test
    | PauseTest                // the `if self.paused` test
    | CommandTest(done: nat)   // `done` commands of this reversed pass have run; the flags are checked before the next
    | Exited                   // `finished` has been emitted and `run` has returned

  /** The worker: its command list, the loop setting, its two flags and where it stands. */
  datatype Run = Run(commands: seq<string>, loopEnabled: bool, running: bool, paused: bool, phase: Phase)

  /** What the worker reports: one command sent, or the end of the run. */
  datatype Event = Executed(command: string) | Finished

  /** The commands a trace says were sent, in order. */
  function ExecutedCommands(t: seq<Event>): seq<string> {
    if t == [] then []
    else (if t[0].Executed? then [t[0].command] else []) + ExecutedCommands(t[1..])
  }

  /** The commands sent in two consecutive stretches of a run are those of the first, then those of the second. */
  lemma {:induction false} ExecutedCommandsAppend(a: seq<Event>, b: seq<Event>)
    ensures ExecutedCommands(a + b) == ExecutedCommands(a) + ExecutedCommands(b)
    decreases |a|
  {
    if a == [] {
      assert a + b == b;
    } else {
      assert (a + b)[1..] == a[1..] + b;
      ExecutedCommandsAppend(a[1..], b);
    }
  }

  /** A freshly constructed worker, about to enter `run`: running, not paused, on the given list. */
  function Start(commands: seq<string>, loopEnabled: bool): (r: Run)
    ensures r.commands == commands && r.loopEnabled == loopEnabled
    ensures r.running && !r.paused
    ensures r.phase == LoopTest
  {
    Run(commands, loopEnabled, true, false, LoopTest)
  }

  /** Python's `reversed`: the order in which one pass visits the commands. */
  function Reversed<T>(s: seq<T>): (r: seq<T>)
    ensures |r| == |s|
    ensures forall i :: 0 <= i < |s| ==> r[i] == s[|s| - 1 - i]
  {
    if s == [] then [] else Reversed(s[1..]) + [s[0]]
  }

  /** One call on the worker: `pause` and `resume` set and clear `paused`, `stop` clears `running`. */
  function Apply(r: Run, q: Request): Run {
    match q
    case Pause => r.(paused := true)
    case Resume => r.(paused := false)
    case Stop => r.(running := false)
  }

  /** The flags after the requests of `batch` have been made, in order. */
  function Deliver(r: Run, batch: seq<Request>): (s: Run)
    ensures s.commands == r.commands && s.loopEnabled == r.loopEnabled && s.phase == r.phase
    ensures s.running <==> r.running && Stop !in batch
    ensures Pause !in batch && s.paused ==> r.paused
    ensures Resume !in batch && r.paused ==> s.paused
    ensures batch != [] && batch[|batch| - 1] == Pause ==> s.paused
    ensures batch != [] && batch[|batch| - 1] == Resume ==> !s.paused
    ensures forall i {:trigger OnlyStopsAfter(batch, i)} ::
      0 <= i < |batch| && batch[i] != Stop && OnlyStopsAfter(batch, i) ==>
      (s.paused <==> batch[i] == Pause)
    ensures OnlyStopsAfter(batch, -1) ==> s.paused == r.paused
    decreases |batch|
  {
    if batch == [] then r
    else
      var n := |batch| - 1;
      var init := batch[..n];
      assert batch == init + [batch[n]];
      var d := Deliver(r, init);
      var s := Apply(d, batch[n]);
      assert forall i :: 0 <= i < n && OnlyStopsAfter(batch, i) ==>
        batch[n] == Stop && OnlyStopsAfter(init, i);
      assert OnlyStopsAfter(batch, -1) ==> batch[n] == Stop && OnlyStopsAfter(init, -1);
      s
  }

  /** Every request of `batch` after index `i` is a stop. */
  predicate OnlyStopsAfter(batch: seq<Request>, i: int) {
    forall j :: 0 <= j < |batch| && i < j ==> batch[j] == Stop
  }

  /** The `if not self.loop_enabled: break` after a pass, and `finished` when it breaks. */
  function EndOfPass(s: Run): (Run, seq<Event>) {
    if s.loopEnabled then (s.(phase := LoopTest), []) else (s.(phase := Exited), [Finished])
  }

  /** How many more tests a worker whose `running` flag is down can pass before `run` returns. */
  function Rank(p: Phase): nat {
    match p
    case Exited => 0
    case LoopTest => 1
    case CommandTest(_) => 2
    case PauseTest => 3
  }

  /**
    One move of the worker: the requests of `batch` are delivered, then the
    worker performs the test it stands at and advances to its next test.
   */
  function Step(r: Run, batch: seq<Request>): (out: (Run, seq<Event>))
    ensures out.0.commands == r.commands && out.0.loopEnabled == r.loopEnabled
    ensures out.0.running == Deliver(r, batch).running && out.0.paused == Deliver(r, batch).paused
    ensures |out.1| <= 1
    ensures out.1 == [Finished] <==> r.phase != Exited && out.0.phase == Exited
    ensures r.phase == Exited ==> out.0.phase == Exited && out.1 == []
    ensures out.1 != [] && out.1[0].Executed? <==>
      && r.phase.CommandTest? && r.phase.done < |r.commands|
      && Deliver(r, batch).running && !Deliver(r, batch).paused
    ensures out.1 != [] && out.1[0].Executed? ==>
      && out.1[0].command == Reversed(r.commands)[r.phase.done]
      && out.0.phase == CommandTest(r.phase.done + 1)
    ensures r.phase == LoopTest ==>
      out.0.phase == (if Deliver(r, batch).running then PauseTest else Exited)
    ensures r.phase == PauseTest ==>
      out.0.phase == (if Deliver(r, batch).paused then LoopTest else CommandTest(0)) && out.1 == []
    ensures r.phase.CommandTest? && !(out.1 != [] && out.1[0].Executed?) ==>
      out.0.phase == (if r.loopEnabled then LoopTest else Exited)
    ensures !Deliver(r, batch).running && r.phase != Exited ==> Rank(out.0.phase) < Rank(r.phase)
  {
    var s := Deliver(r, batch);
    match s.phase
    case Exited => (s, [])
    case LoopTest =>
      if !s.running then (s.(phase := Exited), [Finished]) else (s.(phase := PauseTest), [])
    case PauseTest =>
      if s.paused then (s.(phase := LoopTest), []) else (s.(phase := CommandTest(0)), [])
    case CommandTest(k) =>
      if k >= |s.commands| || !s.running || s.paused then EndOfPass(s)
      else (s.(phase := CommandTest(k + 1)), [Executed(s.commands[|s.commands| - 1 - k])])
  }

  /** The worker driven through one batch of requests per test, with everything it reported. */
  function Drive(r: Run, env: seq<seq<Request>>): (out: (Run, seq<Event>))
    ensures out.0.commands == r.commands && out.0.loopEnabled == r.loopEnabled
    ensures out.0.running <==> r.running && forall i :: 0 <= i < |env| ==> Stop !in env[i]
    ensures |out.1| <= |env|
    decreases |env|
  {
    if env == [] then (r, [])
    else
      var (s, e) := Step(r, env[0]);
      var (t, f) := Drive(s, env[1..]);
      assert forall i :: 1 <= i < |env| ==> env[i] == env[1..][i - 1];
      (t, e + f)
  }

  /**
    `wait()` on a worker whose `running` flag is down: it keeps moving, with
    no further requests, until `run` returns. It reports nothing but the one
    `Finished` it still owes.
   */
  function Join(r: Run): (out: (Run, seq<Event>))
    requires !r.running
    ensures out.0.phase == Exited && !out.0.running
    ensures out.0.commands == r.commands
    ensures out.1 == (if r.phase == Exited then [] else [Finished])
    decreases Rank(r.phase)
  {
    if r.phase == Exited then (r, [])
    else
      var (s, e) := Step(r, []);
      var (t, f) := Join(s);
      (t, e + f)
  }
}
