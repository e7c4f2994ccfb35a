/**
  What sending one command does: `execute_command` presses `t` to open the
  target's input line, types the command, presses `enter`, and reports
  "Выполнено: " followed by the command on the status signal. The end of a
  run is the `finished` signal.
 */
module Keystrokes {
  import opened Optional
  import opened Runner
  import RunnerProofs

  /** One observable effect of the worker: a key tap, typed text, a status report, or `finished`. */
  datatype Action = Tap(key: string) | Write(text: string) | Status(text: string) | FinishedSignal

  /** The status text reported after a command is sent, up to the command itself. */
  const ExecutedPrefix: string := "Выполнено: "

  /**
    The effects of one event, in the order they happen: a sent command taps
    `t`, types its text, taps `enter`, then reports it; the end of a run is
    the `finished` signal alone.
   */
  function Effects(e: Event): (a: seq<Action>)
    ensures e.Executed? ==>
      && |a| == 4
      && a[0] == Tap("t") && a[1] == Write(e.command) && a[2] == Tap("enter")
      && a[3] == Status(ExecutedPrefix + e.command)
    ensures e.Finished? ==> a == [FinishedSignal]
  {
    match e
    case Executed(c) => [Tap("t"), Write(c), Tap("enter"), Status(ExecutedPrefix + c)]
    case Finished => [FinishedSignal]
  }

  /** The effects of a whole trace of events. */
  function Perform(t: seq<Event>): seq<Action> {
    if t == [] then [] else Effects(t[0]) + Perform(t[1..])
  }

  /**
    Reads a stream of effects back as events: a tap of `t`, typed text, a tap
    of `enter` and the matching status report are one sent command.
   */
  function Recover(a: seq<Action>): Option<seq<Event>>
    decreases |a|
  {
    if a == [] then Some([])
    else if a[0] == FinishedSignal then
      match Recover(a[1..])
      case Some(rest) => Some([Finished] + rest)
      case None => None
    else if |a| >= 4 && a[0] == Tap("t") && a[1].Write? && a[2] == Tap("enter")
         && a[3] == Status(ExecutedPrefix + a[1].text) then
      match Recover(a[4..])
      case Some(rest) => Some([Executed(a[1].text)] + rest)
      case None => None
    else None
  }

  /** The effects of a trace determine the trace: no two traces look alike from outside. */
  lemma {:induction false} RecoverPerform(t: seq<Event>)
    ensures Recover(Perform(t)) == Some(t)
    decreases |t|
  {
    if t != [] {
      var a := Perform(t);
      RecoverPerform(t[1..]);
      match t[0]
      case Finished =>
        assert a == [FinishedSignal] + Perform(t[1..]);
        assert a[1..] == Perform(t[1..]);
        assert t == [Finished] + t[1..];
      case Executed(c) =>
        assert a == Effects(t[0]) + Perform(t[1..]);
        assert a[0] == Tap("t") && a[1] == Write(c) && a[2] == Tap("enter");
        assert a[3] == Status(ExecutedPrefix + c);
        assert a[4..] == Perform(t[1..]);
        assert a[1].text == c && a[0] != FinishedSignal;
        assert Recover(a) == Some([Executed(c)] + t[1..]);
        assert t == [Executed(c)] + t[1..];
    }
  }

  /** The texts typed into the focused application, in order. */
  function Typed(a: seq<Action>): seq<string> {
    if a == [] then [] else (if a[0].Write? then [a[0].text] else []) + Typed(a[1..])
  }

  /** The texts typed by two consecutive stretches of actions are those of the first, then those of the second. */
  lemma {:induction false} TypedAppend(a: seq<Action>, b: seq<Action>)
    ensures Typed(a + b) == Typed(a) + Typed(b)
    decreases |a|
  {
    if a == [] {
      assert a + b == b;
    } else {
      assert (a + b)[1..] == a[1..] + b;
      TypedAppend(a[1..], b);
    }
  }

  /** Exactly the commands the trace reports as sent are typed, once each, in that order. */
  lemma {:induction false} TypedIsExecuted(t: seq<Event>)
    ensures Typed(Perform(t)) == ExecutedCommands(t)
    decreases |t|
  {
    if t != [] {
      TypedIsExecuted(t[1..]);
      TypedAppend(Effects(t[0]), Perform(t[1..]));
      var e := Effects(t[0]);
      if t[0].Executed? {
        var c := t[0].command;
        assert e[1..][1..][1..][1..] == [];
        assert Typed(e[1..][1..][1..]) == [];
        assert Typed(e[1..][1..]) == [];
        assert Typed(e[1..]) == [c];
        assert Typed(e) == [c];
      } else {
        assert e[1..] == [];
      }
    }
  }

  /**
    An undisturbed non-looping run types the whole list into the focused
    application once, bottom entry first.
   */
  lemma SinglePassTypesReversed(commands: seq<string>, env: seq<seq<Request>>)
    requires |env| >= |commands| + 3
    requires forall i :: 0 <= i < |env| ==> RunnerProofs.Quiet(env[i])
    ensures Typed(Perform(Drive(Start(commands, false), env).1)) == Reversed(commands)
  {
    var t := Drive(Start(commands, false), env).1;
    RunnerProofs.SinglePass(commands, env);
    TypedIsExecuted(t);
    ExecutedCommandsAppend(RunnerProofs.Executions(Reversed(commands)), [Finished]);
    RunnerProofs.ExecutedOfExecutions(Reversed(commands));
  }
}
